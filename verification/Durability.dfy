/**
 * Finalizing, enqueueing and replicating segments as single file-store and queue steps. A crash may
 * fall between any two of them, so what holds after every run holds at every crash point.
 */
module Durability {
  import Text
  import Layout
  import Rotation

  /** `bases` are the paths of the local replica destinations. */
  datatype Env = Env(cfg: Layout.Config, bases: set<string>)

  /** File contents: cut short, the records of one writer, or a manifest that hashes `of`. */
  datatype Content = Torn | Segment(records: seq<Rotation.Record>) | Manifest(rel: string, of: Content)

  datatype Stage =
    | Writing
    | Finished
    | Renamed
    | Hashed(of: Content)
    | Sealing(of: Content)
    | Enqueuing(todo: set<string>)

  /** A segment writer on its way from opening to the queue. */
  datatype Task = Task(rel: string, stage: Stage)

  datatype Row = Row(rel: string, base: string, claimed: bool)

  datatype Phase = Claimed | Parsed | SegmentBegun | SegmentDone | SidecarBegun | SidecarDone

  /** A worker on its way through one job; `rel` is what it read from the manifest. */
  datatype Work = Work(id: nat, phase: Phase, rel: string)

  /** The last five fields are history: names opened, names moved into place, manifests completed, jobs issued and delivered. */
  datatype System = System(
    files: map<string, Content>,
    tasks: map<nat, Task>,
    rows: map<nat, Row>,
    nextRow: nat,
    workers: map<nat, Work>,
    used: set<string>,
    moved: set<string>,
    made: map<string, Content>,
    issued: set<(string, string)>,
    delivered: set<(string, string)>)

  datatype TaskStep =
    | Open(rel: string)
    | Finish(records: seq<Rotation.Record>)
    | Rename
    | Hash
    | BeginManifest
    | EndManifest
    | Enqueue(base: string)
    | Leave

  datatype WorkStep =
    | Claim(id: nat)
    | Parse
    | BeginSegment
    | EndSegment
    | BeginSidecar
    | EndSidecar
    | Succeed
    | Retry
    | Stop

  datatype Step = OfTask(t: nat, task: TaskStep) | OfWorker(w: nat, work: WorkStep) | Restart

  // ----- Paths

  function Final(env: Env, rel: string): string {
    Layout.FinalPath(env.cfg, rel)
  }

  function Tmp(env: Env, rel: string): string {
    Layout.TmpPath(env.cfg, rel)
  }

  function Sidecar(path: string): string {
    path + ".json"
  }

  function Target(base: string, rel: string): string {
    base + "/" + rel
  }

  /** `path` is an entry of the directory `dir` itself. */
  predicate DirectlyIn(path: string, dir: string) {
    |path| > |dir| && path[..|dir| + 1] == dir + "/" && '/' !in path[|dir| + 1..]
  }

  // ----- Steps

  predicate TaskPossible(env: Env, s: System, t: nat, step: TaskStep) {
    if step.Open? then t !in s.tasks
    else
      && t in s.tasks
      && var k := s.tasks[t];
         match step
         case Finish(_) => k.stage.Writing?
         case Rename => k.stage.Finished? && Tmp(env, k.rel) in s.files
         case Hash => k.stage.Renamed? && Final(env, k.rel) in s.files
         case BeginManifest => k.stage.Hashed?
         case EndManifest => k.stage.Sealing?
         case Enqueue(base) => k.stage.Enqueuing? && base in k.stage.todo
         case _ => true
  }

  /** `Leave` is the end of the call, by success or by an error at whatever point. */
  function TaskNext(env: Env, s: System, t: nat, step: TaskStep): System
    requires TaskPossible(env, s, t, step)
  {
    match step
    case Open(rel) =>
      s.(files := s.files[Tmp(env, rel) := Torn], tasks := s.tasks[t := Task(rel, Writing)], used := s.used + {rel})
    case Finish(records) =>
      s.(files := s.files[Tmp(env, s.tasks[t].rel) := Segment(records)], tasks := s.tasks[t := s.tasks[t].(stage := Finished)])
    case Rename =>
      var rel := s.tasks[t].rel;
      s.(files := (s.files - {Tmp(env, rel)})[Final(env, rel) := s.files[Tmp(env, rel)]],
         tasks := s.tasks[t := Task(rel, Renamed)], moved := s.moved + {rel})
    case Hash =>
      s.(tasks := s.tasks[t := s.tasks[t].(stage := Hashed(s.files[Final(env, s.tasks[t].rel)]))])
    case BeginManifest =>
      s.(files := s.files[Sidecar(Final(env, s.tasks[t].rel)) := Torn],
         tasks := s.tasks[t := s.tasks[t].(stage := Sealing(s.tasks[t].stage.of))])
    case EndManifest =>
      var k := s.tasks[t];
      s.(files := s.files[Sidecar(Final(env, k.rel)) := Manifest(k.rel, k.stage.of)],
         tasks := s.tasks[t := k.(stage := Enqueuing(env.bases))],
         made := s.made[k.rel := k.stage.of])
    case Enqueue(base) =>
      var k := s.tasks[t];
      s.(rows := s.rows[s.nextRow := Row(k.rel, base, false)], nextRow := s.nextRow + 1,
         tasks := s.tasks[t := k.(stage := Enqueuing(k.stage.todo - {base}))],
         issued := s.issued + {(k.rel, base)})
    case Leave => s.(tasks := s.tasks - {t})
  }

  predicate WorkPossible(env: Env, s: System, w: nat, step: WorkStep) {
    if step.Claim? then w !in s.workers && step.id in s.rows && !s.rows[step.id].claimed
    else
      && w in s.workers && s.workers[w].id in s.rows
      && var k, row := s.workers[w], s.rows[s.workers[w].id];
         match step
         case Parse =>
           k.phase.Claimed? && Sidecar(Final(env, row.rel)) in s.files && s.files[Sidecar(Final(env, row.rel))].Manifest?
         case BeginSegment => k.phase.Parsed? && Final(env, row.rel) in s.files
         case EndSegment => k.phase.SegmentBegun? && Final(env, row.rel) in s.files
         case BeginSidecar => k.phase.SegmentDone? && Sidecar(Final(env, row.rel)) in s.files
         case EndSidecar => k.phase.SidecarBegun? && Sidecar(Final(env, row.rel)) in s.files
         case Succeed => k.phase.SidecarDone?
         case _ => true
  }

  /** A copy truncates its target before it fills it. `Retry` is a recorded failure, `Stop` an unrecorded one. */
  function WorkNext(env: Env, s: System, w: nat, step: WorkStep): System
    requires WorkPossible(env, s, w, step)
  {
    if step.Claim? then
      s.(workers := s.workers[w := Work(step.id, Claimed, "")], rows := s.rows[step.id := s.rows[step.id].(claimed := true)])
    else
      var k, row := s.workers[w], s.rows[s.workers[w].id];
      match step
      case Parse =>
        s.(workers := s.workers[w := Work(k.id, Parsed, s.files[Sidecar(Final(env, row.rel))].rel)])
      case BeginSegment =>
        s.(files := s.files[Target(row.base, k.rel) := Torn], workers := s.workers[w := k.(phase := SegmentBegun)])
      case EndSegment =>
        s.(files := s.files[Target(row.base, k.rel) := s.files[Final(env, row.rel)]], workers := s.workers[w := k.(phase := SegmentDone)])
      case BeginSidecar =>
        s.(files := s.files[Sidecar(Target(row.base, k.rel)) := Torn], workers := s.workers[w := k.(phase := SidecarBegun)])
      case EndSidecar =>
        s.(files := s.files[Sidecar(Target(row.base, k.rel)) := s.files[Sidecar(Final(env, row.rel))]],
           workers := s.workers[w := k.(phase := SidecarDone)])
      case Succeed =>
        s.(rows := s.rows - {k.id}, workers := s.workers - {w}, delivered := s.delivered + {(row.rel, row.base)})
      case Retry =>
        s.(rows := s.rows[k.id := row.(claimed := false)], workers := s.workers - {w})
      case _ => s.(workers := s.workers - {w})
  }

  /** A crash loses what was in memory; starting up removes the files directly in the temporary root. */
  function Restarted(env: Env, s: System): System {
    s.(files := map p | p in s.files && !DirectlyIn(p, env.cfg.tmpRoot) :: s.files[p], tasks := map[], workers := map[])
  }

  predicate Possible(env: Env, s: System, step: Step) {
    match step
    case OfTask(t, a) => TaskPossible(env, s, t, a)
    case OfWorker(w, a) => WorkPossible(env, s, w, a)
    case Restart => true
  }

  function Next(env: Env, s: System, step: Step): System
    requires Possible(env, s, step)
  {
    match step
    case OfTask(t, a) => TaskNext(env, s, t, a)
    case OfWorker(w, a) => WorkNext(env, s, w, a)
    case Restart => Restarted(env, s)
  }

  function Init(): System {
    System(map[], map[], map[], 0, map[], {}, {}, map[], {}, {})
  }

  ghost predicate Run(env: Env, s: System, steps: seq<Step>)
    decreases |steps|
  {
    steps == [] || (Possible(env, s, steps[0]) && Run(env, Next(env, s, steps[0]), steps[1..]))
  }

  ghost function After(env: Env, s: System, steps: seq<Step>): System
    requires Run(env, s, steps)
    decreases |steps|
  {
    if steps == [] then s else After(env, Next(env, s, steps[0]), steps[1..])
  }

  /** Start-up does not sweep away `dir`'s copy of the segment or its manifest. */
  predicate Spared(env: Env, dir: string, rel: string) {
    !DirectlyIn(Target(dir, rel), env.cfg.tmpRoot) && !DirectlyIn(Sidecar(Target(dir, rel)), env.cfg.tmpRoot)
  }

  ghost predicate Opens(steps: seq<Step>, i: nat, rel: string) {
    i < |steps| && steps[i].OfTask? && steps[i].task == Open(rel)
  }

  ghost predicate OpensOnly(steps: seq<Step>, names: set<string>) {
    forall i, rel :: Opens(steps, i, rel) ==> rel in names
  }

  // ----- At every crash point every queue row names existing files

  /** The temporary root holds no segments itself, and no segment is at another's temporary path. */
  ghost predicate SafeNames(env: Env, names: set<string>) {
    && (forall rel :: rel in names ==> Spared(env, env.cfg.root, rel))
    && (forall rel, other :: rel in names && other in names ==> Tmp(env, rel) != Final(env, other))
  }

  ghost predicate Stored(env: Env, s: System, rel: string) {
    Final(env, rel) in s.files && Sidecar(Final(env, rel)) in s.files
  }

  ghost predicate TaskStored(env: Env, s: System, k: Task, names: set<string>) {
    && k.rel in names
    && (k.stage.Renamed? || k.stage.Hashed? || k.stage.Sealing? ==> Final(env, k.rel) in s.files)
    && (k.stage.Enqueuing? ==> Stored(env, s, k.rel))
  }

  ghost predicate RowStored(env: Env, s: System, row: Row, names: set<string>) {
    row.rel in names && Stored(env, s, row.rel)
  }

  ghost predicate Kept(env: Env, s: System, names: set<string>) {
    && (forall t :: t in s.tasks ==> TaskStored(env, s, s.tasks[t], names))
    && (forall id :: id in s.rows ==> RowStored(env, s, s.rows[id], names))
  }

  lemma {:induction false} PathStays(env: Env, s: System, step: Step, path: string)
    requires Possible(env, s, step) && path in s.files && !DirectlyIn(path, env.cfg.tmpRoot)
    requires step.OfTask? && step.task.Rename? ==> path != Tmp(env, s.tasks[step.t].rel)
    ensures path in Next(env, s, step).files
  {
    hide Final, Tmp, Sidecar, Target, DirectlyIn;
  }

  /** No step takes away a segment or manifest of `names` that is there. */
  lemma {:induction false} FilesStay(env: Env, s: System, step: Step, rel: string, names: set<string>)
    requires Possible(env, s, step) && SafeNames(env, names) && rel in names
    requires step.OfTask? && step.task.Rename? ==> s.tasks[step.t].rel in names
    ensures Final(env, rel) in s.files ==> Final(env, rel) in Next(env, s, step).files
    ensures Stored(env, s, rel) ==> Stored(env, Next(env, s, step), rel)
  {
    assert Final(env, rel) == Target(env.cfg.root, rel);
    assert Spared(env, env.cfg.root, rel);
    if step.OfTask? && step.task.Rename? {
      TmpIsNoSidecar(env, s.tasks[step.t].rel, Final(env, rel));
    }
    hide Next, TaskPossible, Final, Sidecar, Target, Tmp, DirectlyIn, SafeNames;
    if Final(env, rel) in s.files {
      PathStays(env, s, step, Final(env, rel));
    }
    if Stored(env, s, rel) {
      PathStays(env, s, step, Sidecar(Final(env, rel)));
    }
  }

  lemma {:induction false} TaskStays(env: Env, s: System, step: Step, k: Task, names: set<string>)
    requires Possible(env, s, step) && TaskStored(env, s, k, names) && SafeNames(env, names)
    requires step.OfTask? && step.task.Rename? ==> s.tasks[step.t].rel in names
    ensures TaskStored(env, Next(env, s, step), k, names)
  {
    FilesStay(env, s, step, k.rel, names);
    hide Next, TaskPossible, SafeNames, Stored;
  }

  lemma {:induction false} RowStays(env: Env, s: System, step: Step, row: Row, names: set<string>)
    requires Possible(env, s, step) && RowStored(env, s, row, names) && SafeNames(env, names)
    requires step.OfTask? && step.task.Rename? ==> s.tasks[step.t].rel in names
    ensures RowStored(env, Next(env, s, step), row, names)
  {
    FilesStay(env, s, step, row.rel, names);
    hide Next, TaskPossible, SafeNames, Stored;
  }

  /** The writer that moves reaches its new stage with the files that stage promises. */
  lemma {:induction false} MovedTask(env: Env, s: System, t: nat, a: TaskStep, names: set<string>)
    requires TaskPossible(env, s, t, a) && SafeNames(env, names)
    requires a.Open? ==> a.rel in names
    requires t in s.tasks ==> TaskStored(env, s, s.tasks[t], names)
    ensures t in TaskNext(env, s, t, a).tasks ==> TaskStored(env, TaskNext(env, s, t, a), TaskNext(env, s, t, a).tasks[t], names)
  {
    if t in s.tasks {
      TaskStays(env, s, OfTask(t, a), s.tasks[t], names);
    }
    hide Final, Tmp, Sidecar, SafeNames;
  }

  lemma {:induction false} StepKeeps(env: Env, s: System, step: Step, names: set<string>)
    requires Possible(env, s, step) && Kept(env, s, names) && SafeNames(env, names)
    requires step.OfTask? && step.task.Open? ==> step.task.rel in names
    ensures Kept(env, Next(env, s, step), names)
  {
    var n := Next(env, s, step);
    hide Next, SafeNames, RowStored, TaskNext, WorkNext, WorkPossible;
    forall t | t in n.tasks
      ensures TaskStored(env, n, n.tasks[t], names)
    {
      KeptTask(env, s, step, t, names);
    }
    forall id | id in n.rows
      ensures RowStored(env, n, n.rows[id], names)
    {
      KeptRow(env, s, step, id, names);
    }
  }

  lemma {:induction false} RenamesNamed(env: Env, s: System, step: Step, names: set<string>)
    requires Possible(env, s, step) && Kept(env, s, names)
    ensures step.OfTask? && !step.task.Open? ==> step.t in s.tasks && TaskStored(env, s, s.tasks[step.t], names)
  {
    hide TaskStored, RowStored, WorkPossible;
  }

  lemma {:induction false} KeptTask(env: Env, s: System, step: Step, t: nat, names: set<string>)
    requires Possible(env, s, step) && Kept(env, s, names) && SafeNames(env, names)
    requires step.OfTask? && step.task.Open? ==> step.task.rel in names
    requires t in Next(env, s, step).tasks
    ensures TaskStored(env, Next(env, s, step), Next(env, s, step).tasks[t], names)
  {
    RenamesNamed(env, s, step, names);
    OpensNew(env, s, step);
    hide TaskPossible, WorkPossible, TaskNext, WorkNext, Restarted, SafeNames, RowStored;
    if step.OfTask? && step.t == t {
      MovedTask(env, s, t, step.task, names);
    } else {
      OtherTask(env, s, step, t);
      TaskStays(env, s, step, s.tasks[t], names);
    }
  }

  lemma {:induction false} OpensNew(env: Env, s: System, step: Step)
    requires Possible(env, s, step)
    ensures step.OfTask? ==> (step.task.Open? <==> step.t !in s.tasks)
  {
    hide Final, Tmp, Sidecar, WorkPossible;
  }

  lemma {:induction false} WorkLeaves(env: Env, s: System, w: nat, a: WorkStep)
    requires WorkPossible(env, s, w, a)
    ensures var n := WorkNext(env, s, w, a);
            n.tasks == s.tasks && n.used == s.used && n.moved == s.moved && n.made == s.made && n.issued == s.issued && n.nextRow == s.nextRow
  {
    hide Final, Tmp, Sidecar, Target;
  }

  lemma {:induction false} TaskLeaves(env: Env, s: System, t: nat, a: TaskStep)
    requires TaskPossible(env, s, t, a)
    ensures var n := TaskNext(env, s, t, a);
            && n.workers == s.workers && n.delivered == s.delivered
            && (forall o :: o != t ==> (o in n.tasks <==> o in s.tasks))
            && (forall o :: o != t && o in s.tasks ==> n.tasks[o] == s.tasks[o])
  {
    hide Final, Tmp, Sidecar, Target;
  }

  lemma {:induction false} OtherTask(env: Env, s: System, step: Step, t: nat)
    requires Possible(env, s, step) && t in Next(env, s, step).tasks && !(step.OfTask? && step.t == t)
    ensures t in s.tasks && Next(env, s, step).tasks[t] == s.tasks[t]
  {
    if step.OfWorker? {
      WorkLeaves(env, s, step.w, step.work);
    } else if step.OfTask? {
      TaskLeaves(env, s, step.t, step.task);
    }
    hide WorkNext, TaskNext, WorkPossible, TaskPossible, DirectlyIn;
  }

  lemma {:induction false} WorkedRow(env: Env, s: System, w: nat, a: WorkStep, id: nat)
    requires WorkPossible(env, s, w, a) && id in WorkNext(env, s, w, a).rows
    ensures id in s.rows && WorkNext(env, s, w, a).rows[id].(claimed := s.rows[id].claimed) == s.rows[id]
  {
    hide Final, Tmp, Sidecar, Target;
  }

  /** A row is an old one, perhaps with another claim, or was made by the writer that enqueues it. */
  lemma {:induction false} RowOrigin(env: Env, s: System, step: Step, id: nat)
    requires Possible(env, s, step) && id in Next(env, s, step).rows
    ensures || (id in s.rows && Next(env, s, step).rows[id].(claimed := s.rows[id].claimed) == s.rows[id])
            || (step.OfTask? && step.task.Enqueue? && s.tasks[step.t].stage.Enqueuing? && Next(env, s, step).rows[id].rel == s.tasks[step.t].rel)
  {
    if step.OfWorker? {
      WorkedRow(env, s, step.w, step.work, id);
    }
    hide Final, Tmp, Sidecar, Target, DirectlyIn, WorkNext, WorkPossible;
  }

  lemma {:induction false} KeptRow(env: Env, s: System, step: Step, id: nat, names: set<string>)
    requires Possible(env, s, step) && Kept(env, s, names) && SafeNames(env, names) && id in Next(env, s, step).rows
    ensures RowStored(env, Next(env, s, step), Next(env, s, step).rows[id], names)
  {
    RowOrigin(env, s, step, id);
    RenamesNamed(env, s, step, names);
    OpensNew(env, s, step);
    hide Next, Possible, SafeNames, Stored;
    if step.OfTask? && step.task.Enqueue? {
      FilesStay(env, s, step, s.tasks[step.t].rel, names);
    }
    if id in s.rows {
      RowStays(env, s, step, s.rows[id], names);
    }
  }

  lemma {:induction false} TailOpens(steps: seq<Step>, names: set<string>)
    requires steps != [] && OpensOnly(steps, names)
    ensures OpensOnly(steps[1..], names)
    ensures steps[0].OfTask? && steps[0].task.Open? ==> steps[0].task.rel in names
  {
    forall i: nat, rel | Opens(steps[1..], i, rel)
      ensures rel in names
    {
      assert Opens(steps, i + 1, rel);
    }
    if steps[0].OfTask? && steps[0].task.Open? {
      assert Opens(steps, 0, steps[0].task.rel);
    }
  }

  lemma {:induction false} RunKeepsFiles(env: Env, s: System, steps: seq<Step>, names: set<string>)
    requires Run(env, s, steps) && OpensOnly(steps, names) && SafeNames(env, names) && Kept(env, s, names)
    ensures Kept(env, After(env, s, steps), names)
    decreases |steps|
  {
    if steps != [] {
      TailOpens(steps, names);
      hide Next, Possible, Kept, OpensOnly, SafeNames;
      StepKeeps(env, s, steps[0], names);
      RunKeepsFiles(env, Next(env, s, steps[0]), steps[1..], names);
    }
  }

  ghost predicate RowsStored(env: Env, s: System) {
    forall id :: id in s.rows ==> Stored(env, s, s.rows[id].rel)
  }

  /** Every run over these names, with any failures and crashes, keeps every queue row's files. */
  ghost predicate AlwaysStored(env: Env, names: set<string>) {
    forall steps :: Run(env, Init(), steps) && OpensOnly(steps, names) ==> RowsStored(env, After(env, Init(), steps))
  }

  /**
   Whatever fails or crashes, even when paths are reused or replicas overlap the archive, every
   queue row names a segment and a manifest that both exist, if the names are safe.
   */
  lemma {:induction false} RowsNameExistingFiles(env: Env, steps: seq<Step>, names: set<string>)
    requires Run(env, Init(), steps) && OpensOnly(steps, names) && SafeNames(env, names)
    ensures RowsStored(env, After(env, Init(), steps))
  {
    RunKeepsFiles(env, Init(), steps, names);
    hide Stored, After, Run, OpensOnly, SafeNames, TaskStored;
  }

  // ----- Which names are safe

  /** Every built-in layout, and a custom one without an extension of its own, gives a segment the extension of its compression. */
  predicate SegmentName(rel: string) {
    Text.EndsWith(rel, ".gz") || Text.EndsWith(rel, ".bz2") || Text.EndsWith(rel, ".zst")
  }

  predicate IsTmp(path: string) {
    path != "" && path[|path| - 1] == 'p'
  }

  lemma {:induction false} NameEnds(rel: string)
    requires SegmentName(rel)
    ensures rel != "" && rel[|rel| - 1] in {'z', '2', 't'}
  {
    var n := |rel|;
    if Text.EndsWith(rel, ".gz") {
      assert rel[n - 3..][2] == 'z';
    } else if Text.EndsWith(rel, ".bz2") {
      assert rel[n - 4..][3] == '2';
    } else {
      assert rel[n - 4..][3] == 't';
    }
  }

  /** The built-in layouts give every segment such a name. */
  lemma {:induction false} LayoutsNameSegments(cfg: Layout.Config, stream: Layout.Stream, start: int)
    ensures SegmentName(Layout.PathOfBucket(cfg, stream, start))
  {
    Layout.PathEndsInExtension(cfg, stream, start);
    hide Layout.PathOfBucket, Text.EndsWith;
    match cfg.compression
    case Gzip => assert "." + Layout.Extension(cfg.compression) == ".gz";
    case Bzip2 => assert "." + Layout.Extension(cfg.compression) == ".bz2";
    case Zstd => assert "." + Layout.Extension(cfg.compression) == ".zst";
  }

  lemma {:induction false} TmpKind(env: Env, rel: string)
    ensures IsTmp(Tmp(env, rel))
  {
    hide Layout.NameStart, Layout.TrimDots;
  }

  lemma {:induction false} TmpIsNoSidecar(env: Env, rel: string, path: string)
    ensures Tmp(env, rel) != Sidecar(path)
  {
    TmpKind(env, rel);
    hide Tmp;
    assert Sidecar(path)[|Sidecar(path)| - 1] == 'n';
  }

  /** Neither a segment nor a copy of one is then at a temporary path. */
  lemma {:induction false} TargetKind(dir: string, rel: string)
    requires SegmentName(rel)
    ensures !IsTmp(Target(dir, rel))
  {
    NameEnds(rel);
    hide SegmentName;
    assert Target(dir, rel)[|Target(dir, rel)| - 1] == rel[|rel| - 1];
  }

  /** For names with those extensions all that matters is that the temporary root holds no segments itself. */
  lemma {:induction false} SegmentNamesAreSafe(env: Env, names: set<string>)
    requires forall rel :: rel in names ==> SegmentName(rel)
    ensures SafeNames(env, names) <==> forall rel :: rel in names ==> Spared(env, env.cfg.root, rel)
  {
    forall rel, other | rel in names && other in names
      ensures Tmp(env, rel) != Final(env, other)
    {
      TmpKind(env, rel);
      TargetKind(env.cfg.root, other);
      assert Final(env, other) == Target(env.cfg.root, other);
      hide *;
    }
    hide Tmp, Final, Sidecar, Spared, SegmentName;
  }

  lemma {:induction false} LastSlash(path: string, k: nat, m: nat)
    requires k <= |path| && 0 < m <= |path| && path[m - 1] == '/' && '/' !in path[k..]
    ensures m <= k
  {
    forall j | k <= j < |path|
      ensures path[j] != '/'
    {
      assert path[k..][j - k] == path[j];
    }
  }

  /** The directory that start-up must not clean is exactly the one that holds the file. */
  lemma {:induction false} SweptIffParent(path: string, dir: string)
    ensures DirectlyIn(path, dir) <==> Layout.NameStart(path) > 0 && dir == path[..Layout.NameStart(path) - 1]
  {
    var k := Layout.NameStart(path);
    if k > 0 && dir == path[..k - 1] {
      assert path[..k] == dir + "/";
    }
    if DirectlyIn(path, dir) {
      var d := |dir|;
      assert path[d] == path[..d + 1][d];
      LastSlash(path, k, d + 1);
      LastSlash(path, d + 1, k);
      assert path[..d] == path[..d + 1][..d];
    }
  }

  lemma {:induction false} LastName(x: string, f: string, y: string, g: string)
    requires x != "" && x[|x| - 1] == '/' && y != "" && y[|y| - 1] == '/' && '/' !in f && '/' !in g
    ensures x + f == y + g ==> f == g
  {
    var path := x + f;
    if path == y + g {
      assert path[|x|..] == f && path[|y|..] == g;
      assert path[|x| - 1] == '/' && path[|y| - 1] == '/';
      LastSlash(path, |x|, |y|);
      LastSlash(path, |y|, |x|);
    }
  }

  /** Trimming takes leading dots off and nothing else. */
  lemma {:induction false} TrimmedName(f: string) returns (n: nat)
    ensures n <= |f| && Layout.TrimDots(f) == f[n..]
    ensures forall i :: 0 <= i < n ==> f[i] == '.'
    ensures n < |f| ==> f[n] != '.'
  {
    n := 0;
    if f != "" && f[0] == '.' {
      var m := TrimmedName(f[1..]);
      n := m + 1;
      assert f[1..][m..] == f[n..];
      assert forall i :: 1 <= i < n ==> f[i] == f[1..][i - 1];
    }
  }

  /** No file name is its own temporary name. */
  lemma {:induction false} TmpNameDiffers(f: string)
    ensures f != "." + Layout.TrimDots(f) + ".tmp"
  {
    var n := TrimmedName(f);
    hide Layout.TrimDots;
    var g := "." + f[n..] + ".tmp";
    assert |g| == |f| - n + 5;
    assert n < |f| ==> g[1] == f[n];
    assert n == |f| ==> g[2] == 't';
  }

  /** A segment is never at its own temporary path, whatever the layout. */
  lemma {:induction false} TmpIsNotFinal(env: Env, rel: string)
    ensures Tmp(env, rel) != Final(env, rel)
  {
    var k := Layout.NameStart(rel);
    var f := rel[k..];
    var n := TrimmedName(f);
    TmpNameDiffers(f);
    FinalSplits(env, rel, k);
    TmpSplits(env, rel, k, n);
    hide *;
    assert '/' !in "." + f[n..] + ".tmp";
    LastName(env.cfg.root + "/" + rel[..k], f, env.cfg.tmpRoot + "/" + rel[..k], "." + f[n..] + ".tmp");
  }

  lemma {:induction false} FinalSplits(env: Env, rel: string, k: nat)
    requires k == Layout.NameStart(rel)
    ensures var x := env.cfg.root + "/" + rel[..k];
            x[|x| - 1] == '/' && Final(env, rel) == x + rel[k..]
  {
    hide Layout.NameStart;
    assert rel == rel[..k] + rel[k..];
    Joined(env.cfg.root, rel[..k], rel[k..]);
  }

  lemma {:induction false} TmpSplits(env: Env, rel: string, k: nat, n: nat)
    requires k == Layout.NameStart(rel) && n <= |rel[k..]| && Layout.TrimDots(rel[k..]) == rel[k..][n..]
    ensures var y := env.cfg.tmpRoot + "/" + rel[..k];
            y[|y| - 1] == '/' && Tmp(env, rel) == y + ("." + rel[k..][n..] + ".tmp")
  {
    hide Layout.NameStart, Layout.TrimDots;
    Joined3(env.cfg.tmpRoot, rel[..k], rel[k..][n..]);
  }

  lemma {:induction false} Joined(dir: string, a: string, f: string)
    ensures dir + "/" + (a + f) == dir + "/" + a + f
  {
  }

  lemma {:induction false} Joined3(dir: string, a: string, t: string)
    ensures dir + "/" + (a + "." + t + ".tmp") == dir + "/" + a + ("." + t + ".tmp")
  {
  }
}
