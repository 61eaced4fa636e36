/**
 From an acknowledged update to a replica: rotation, the file store and replication as one machine. Moving a
 segment into place is one step of both; everything else, and a crash, falls anywhere in between.
 */
module EndToEnd {
  import opened Common
  import Layout
  import Rotation
  import RotationDisk
  import opened Durability
  import opened JobBook
  import opened Replicas

  datatype World = World(r: Rotation.System, d: System)

  /** `Move` is a rotation step that renames the writer's segment, with task `t` of the file store; `Quiet` one that does not. */
  datatype Event =
    | Quiet(step: Rotation.Step)
    | Move(step: Rotation.Step, t: nat)
    | File(file: Step)
    | Crash

  function Name(cfg: Rotation.Config, start: int): string {
    Layout.PathOfBucket(cfg, Layout.Updates, start)
  }

  ghost predicate IsUpdates(cfg: Rotation.Config, rel: string) {
    exists start :: rel == Name(cfg, start)
  }

  /** The segment a rotation step moves into place. */
  function Moved(cfg: Rotation.Config, s: Rotation.System, step: Rotation.Step): Option<Rotation.Segment>
    requires Rotation.Enabled(s, step)
  {
    var renamed := Rotation.Next(cfg, s, step).archive.renamed;
    if |renamed| > |s.archive.renamed| then Some(renamed[|renamed| - 1]) else None
  }

  /** Only a rotation step moves a segment of the updates stream. */
  ghost predicate Possible(cfg: Rotation.Config, env: Env, w: World, e: Event) {
    match e
    case Quiet(step) => Rotation.Enabled(w.r, step) && Moved(cfg, w.r, step) == None
    case Move(step, t) =>
      && Rotation.Enabled(w.r, step) && Moved(cfg, w.r, step).Some?
      && t in w.d.tasks && w.d.tasks[t] == Task(Name(cfg, Moved(cfg, w.r, step).value.start), Writing)
    case File(step) =>
      && Durability.Possible(env, w.d, step) && !step.Restart?
      && (step.OfTask? && step.task.Rename? ==> !IsUpdates(cfg, w.d.tasks[step.t].rel))
    case Crash => true
  }

  /** A crash loses the open segment and every call in progress. */
  function Crashed(s: Rotation.System): Rotation.System {
    Rotation.System(
      Dropped(s.archive),
      map id | id in s.calls && s.calls[id].Ingest? && s.calls[id].ipc == Rotation.Acked :: s.calls[id])
  }

  ghost function Next(cfg: Rotation.Config, env: Env, w: World, e: Event): World
    requires Possible(cfg, env, w, e)
  {
    match e
    case Quiet(step) => w.(r := Rotation.Next(cfg, w.r, step))
    case Move(step, t) =>
      TmpWritten(env, w.d, t, Moved(cfg, w.r, step).value.records);
      var finished := TaskNext(env, w.d, t, Finish(Moved(cfg, w.r, step).value.records));
      World(Rotation.Next(cfg, w.r, step), TaskNext(env, finished, t, Rename))
    case File(step) => w.(d := Durability.Next(env, w.d, step))
    case Crash => World(Crashed(w.r), Restarted(env, w.d))
  }

  lemma {:induction false} TmpWritten(env: Env, d: System, t: nat, records: seq<Rotation.Record>)
    requires t in d.tasks && d.tasks[t].stage.Writing?
    ensures TaskPossible(env, d, t, Finish(records))
    ensures TaskPossible(env, TaskNext(env, d, t, Finish(records)), t, Rename)
  {
    hide Final, Tmp, Sidecar;
  }

  function Start(): World {
    World(Rotation.Start(), Init())
  }

  ghost predicate Run(cfg: Rotation.Config, env: Env, w: World, es: seq<Event>)
    decreases |es|
  {
    es == [] || (Possible(cfg, env, w, es[0]) && Run(cfg, env, Next(cfg, env, w, es[0]), es[1..]))
  }

  ghost function After(cfg: Rotation.Config, env: Env, w: World, es: seq<Event>): World
    requires Run(cfg, env, w, es)
    decreases |es|
  {
    if es == [] then w else After(cfg, env, Next(cfg, env, w, es[0]), es[1..])
  }

  /** The event opens only one of the names, and moves nothing onto a path that a segment was moved onto before. */
  ghost predicate Allowed(cfg: Rotation.Config, w: World, e: Event, names: set<string>) {
    match e
    case Move(step, _) => Rotation.Enabled(w.r, step) && Moved(cfg, w.r, step).Some? && Name(cfg, Moved(cfg, w.r, step).value.start) !in w.d.moved
    case File(step) => Fresh(w.d, step) && (step.OfTask? && step.task.Open? ==> step.task.rel in names)
    case _ => true
  }

  ghost predicate AllAllowed(cfg: Rotation.Config, env: Env, w: World, es: seq<Event>, names: set<string>)
    requires Run(cfg, env, w, es)
    decreases |es|
  {
    es == [] || (Allowed(cfg, w, es[0], names) && AllAllowed(cfg, env, Next(cfg, env, w, es[0]), es[1..], names))
  }

  // ----- The invariant

  /** The file store holds, under its name, every segment that rotation moved into place. */
  ghost predicate InStore(cfg: Rotation.Config, env: Env, w: World, seg: Rotation.Segment) {
    var rel := Name(cfg, seg.start);
    rel in w.d.moved && Final(env, rel) in w.d.files && w.d.files[Final(env, rel)] == Segment(seg.records)
  }

  ghost predicate AllInStore(cfg: Rotation.Config, env: Env, w: World) {
    forall i :: 0 <= i < |w.r.archive.renamed| ==> InStore(cfg, env, w, w.r.archive.renamed[i])
  }

  ghost predicate FinalizedMoved(a: Rotation.Archive) {
    forall i :: 0 <= i < |a.finalized| ==> a.finalized[i].segment in a.renamed
  }

  /** What rotation alone keeps, crashes included. */
  ghost predicate RotationInv(cfg: Rotation.Config, s: Rotation.System) {
    Rotation.ExactlyOnce(s) && RotationDisk.OnDiskInv(cfg, s.archive) && FinalizedMoved(s.archive)
  }

  ghost predicate Holds(cfg: Rotation.Config, env: Env, w: World, names: set<string>) {
    RotationInv(cfg, w.r) && Inv(env, w.d) && w.d.used <= names && AllInStore(cfg, env, w)
  }

  // ----- Rotation's part

  /** A critical section renames at most the writer's segment, and finalizes only what it renames. */
  ghost predicate Renames(a: Rotation.Archive, b: Rotation.Archive) {
    || (b.renamed == a.renamed && b.finalized == a.finalized)
    || (&& a.writer.Some? && b.renamed == a.renamed + [a.writer.value]
        && (b.finalized == a.finalized || (|b.finalized| == |a.finalized| + 1 && b.finalized[..|a.finalized|] == a.finalized
                                           && b.finalized[|a.finalized|].segment == a.writer.value)))
  }

  lemma {:induction false} TakeRenames(cfg: Rotation.Config, a: Rotation.Archive, now: int, o: Rotation.Outcome)
    ensures Renames(a, Rotation.Take(cfg, a, now, o).0)
  {
    hide Rotation.PathOf;
  }

  lemma {:induction false} EnsureRenames(cfg: Rotation.Config, a: Rotation.Archive, now: int, o: Rotation.Outcome)
    ensures Renames(a, Rotation.Ensure(cfg, a, now, o).0)
  {
    TakeRenames(cfg, a, now, o);
    hide Rotation.PathOf, Rotation.Bucket, Rotation.Take;
  }

  lemma {:induction false} StepRenames(cfg: Rotation.Config, s: Rotation.System, step: Rotation.Step)
    requires Rotation.Enabled(s, step)
    ensures Renames(s.archive, Rotation.Next(cfg, s, step).archive)
  {
    if step.EnsureStep? {
      EnsureRenames(cfg, s.archive, Rotation.Time(s.calls[step.id]), step.outcome);
    } else if step.TakeStep? {
      TakeRenames(cfg, s.archive, Rotation.Time(s.calls[step.id]), step.outcome);
    }
    hide Rotation.Ensure, Rotation.Take;
  }

  lemma {:induction false} MovedIsLast(cfg: Rotation.Config, s: Rotation.System, step: Rotation.Step)
    requires Rotation.Enabled(s, step)
    ensures var seg := Moved(cfg, s, step);
            Rotation.Next(cfg, s, step).archive.renamed == s.archive.renamed + (if seg.Some? then [seg.value] else [])
  {
    StepRenames(cfg, s, step);
    hide Rotation.Next;
  }

  lemma {:induction false} RenamesKeepFinalized(a: Rotation.Archive, b: Rotation.Archive)
    requires Renames(a, b) && FinalizedMoved(a)
    ensures FinalizedMoved(b)
  {
    forall i | 0 <= i < |b.finalized|
      ensures b.finalized[i].segment in b.renamed
    {
      if i < |a.finalized| {
        assert b.finalized[i] == a.finalized[i];
        assert a.finalized[i].segment in a.renamed;
      }
    }
  }

  lemma {:induction false} StepKeepsRotation(cfg: Rotation.Config, s: Rotation.System, step: Rotation.Step)
    requires RotationInv(cfg, s) && Rotation.Enabled(s, step)
    ensures RotationInv(cfg, Rotation.Next(cfg, s, step))
  {
    hide Rotation.Next, Rotation.Enabled, Rotation.ExactlyOnce, RotationDisk.OnDiskInv, FinalizedMoved, Renames;
    Rotation.StepKeepsExactlyOnce(cfg, s, step);
    RotationDisk.StepKeepsDisk(cfg, s, step);
    StepRenames(cfg, s, step);
    RenamesKeepFinalized(s.archive, Rotation.Next(cfg, s, step).archive);
  }

  /** A crash moves the open segment to the abandoned ones. */
  function Dropped(a: Rotation.Archive): Rotation.Archive {
    a.(writer := None, abandoned := a.abandoned + (if a.writer.Some? then [a.writer.value] else []))
  }

  lemma {:induction false} DropConserves(a: Rotation.Archive)
    ensures Rotation.Occurrences(Dropped(a)) == Rotation.Occurrences(a) && Rotation.TotalCount(Dropped(a)) == Rotation.TotalCount(a)
    ensures Rotation.Sum(a.abandoned) <= Rotation.Sum(Dropped(a).abandoned)
  {
    hide Rotation.Sum, Rotation.SumClosed, Rotation.CallIds, Rotation.Counts, Rotation.CountsClosed;
    if a.writer.Some? {
      Rotation.SumPush(a.abandoned, a.writer.value);
    } else {
      assert a.abandoned + [] == a.abandoned;
    }
  }

  lemma {:induction false} DropKeepsDisk(cfg: Rotation.Config, a: Rotation.Archive)
    requires RotationDisk.OnDiskInv(cfg, a)
    ensures RotationDisk.OnDiskInv(cfg, Dropped(a))
  {
    DropConserves(a);
    hide Rotation.Sum, Rotation.SumClosed, Rotation.Occurrences, Rotation.TotalCount, RotationDisk.Latest;
  }

  lemma {:induction false} CrashKeepsAcknowledged(s: Rotation.System)
    ensures Rotation.AckedCalls(Crashed(s).calls) == Rotation.AckedCalls(s.calls)
  {
  }

  lemma {:induction false} CrashKeepsRotation(cfg: Rotation.Config, s: Rotation.System)
    requires RotationInv(cfg, s)
    ensures RotationInv(cfg, Crashed(s))
  {
    DropConserves(s.archive);
    DropKeepsDisk(cfg, s.archive);
    CrashKeepsAcknowledged(s);
    hide RotationDisk.OnDiskInv, Rotation.Occurrences, Rotation.TotalCount, Rotation.AckedCalls, Rotation.Sum;
  }

  // ----- The file store's part

  /** A segment moved into place stays as it is, whatever the step. */
  lemma {:induction false} MovedFileStays(env: Env, d: System, step: Step, rel: string, names: set<string>)
    requires Durability.Possible(env, d, step) && Book(env, d) && Setting(env, d, step, names)
    requires rel in d.moved && rel in names && Final(env, rel) in d.files
    ensures var n := Durability.Next(env, d, step);
            rel in n.moved && Final(env, rel) in n.files && n.files[Final(env, rel)] == d.files[Final(env, rel)]
  {
    assert Final(env, rel) == Target(env.cfg.root, rel);
    MovedGrows(env, d, step);
    SegmentSpared(env, d, step, rel, names);
    ClashFree(env, names, rel, env.cfg.root, rel, env.cfg.root);
    hide Durability.Possible, Durability.Next, Written, Final, Target, Book, Setting, DirectlyIn;
    OnlyWritten(env, d, step, Final(env, rel));
  }

  lemma {:induction false} MovedGrows(env: Env, d: System, step: Step)
    requires Durability.Possible(env, d, step)
    ensures d.moved <= Durability.Next(env, d, step).moved
  {
    if step.OfTask? {
      TaskGrows(env, d, step.t, step.task);
    } else if step.OfWorker? {
      WorkLeaves(env, d, step.w, step.work);
    }
    hide TaskNext, WorkNext, TaskPossible, WorkPossible, DirectlyIn;
  }

  lemma {:induction false} SegmentSpared(env: Env, d: System, step: Step, rel: string, names: set<string>)
    requires Durability.Possible(env, d, step) && Book(env, d) && Setting(env, d, step, names) && rel in d.moved && rel in names
    ensures Final(env, rel) !in Written(env, d, step)
  {
    assert Final(env, rel) == Target(env.cfg.root, rel);
    if step.OfTask? && WritesHome(step.task) && d.tasks[step.t].rel == rel {
      OwnManifest(env, d, step.t, step.task);
    } else {
      hide Written, Final, Target, Book, NoClash, Fresh, TaskPossible, WorkPossible;
      HomeSpared(env, d, step, rel, names);
    }
  }

  /** The writer that seals a moved segment writes its manifest, not the segment. */
  lemma {:induction false} OwnManifest(env: Env, d: System, t: nat, a: TaskStep)
    requires TaskPossible(env, d, t, a) && WritesHome(a) && Fresh(d, OfTask(t, a)) && d.tasks[t].rel in d.moved
    ensures Final(env, d.tasks[t].rel) !in Written(env, d, OfTask(t, a))
  {
    NotSidecar(Final(env, d.tasks[t].rel));
    hide Final, Sidecar, Tmp;
  }

  lemma {:induction false} NotSidecar(path: string)
    ensures path != Sidecar(path)
  {
    assert |Sidecar(path)| == |path| + 5;
  }

  // ----- Both together

  lemma {:induction false} InStoreStays(
    cfg: Rotation.Config, env: Env, d: System, step: Step, r: Rotation.System, q: Rotation.System, seg: Rotation.Segment, names: set<string>)
    requires Durability.Possible(env, d, step) && Book(env, d) && Setting(env, d, step, names) && TasksBook(env, d)
    requires InStore(cfg, env, World(r, d), seg)
    ensures InStore(cfg, env, World(q, Durability.Next(env, d, step)), seg)
  {
    assert NamesBook(d);
    hide Durability.Possible, Durability.Next, Book, TasksBook, NoClash, Fresh, Final, Name;
    MovedFileStays(env, d, step, Name(cfg, seg.start), names);
  }

  /** One step of the file store keeps its part of the invariant and every segment in it. */
  lemma {:induction false} FileStepHolds(cfg: Rotation.Config, env: Env, w: World, step: Step, q: Rotation.System, names: set<string>)
    requires Durability.Possible(env, w.d, step) && Setting(env, w.d, step, names) && Inv(env, w.d) && AllInStore(cfg, env, w)
    ensures var n := Durability.Next(env, w.d, step);
            && Inv(env, n) && n.used <= names
            && forall i :: 0 <= i < |w.r.archive.renamed| ==> InStore(cfg, env, World(q, n), w.r.archive.renamed[i])
  {
    StepKeepsInv(env, w.d, step, names);
    UsedGrows(env, w.d, step);
    hide Durability.Possible, Durability.Next, TasksBook, RowsBook, WorkersBook, Home, Away, NoClash, Fresh, InStore;
    forall i | 0 <= i < |w.r.archive.renamed|
      ensures InStore(cfg, env, World(q, Durability.Next(env, w.d, step)), w.r.archive.renamed[i])
    {
      InStoreStays(cfg, env, w.d, step, w.r, q, w.r.archive.renamed[i], names);
    }
  }

  /** After the two steps of a move the segment is in the store. */
  lemma {:induction false} MovedIsInStore(cfg: Rotation.Config, env: Env, d: System, t: nat, seg: Rotation.Segment, q: Rotation.System)
    requires t in d.tasks && d.tasks[t] == Task(Name(cfg, seg.start), Writing)
    requires TaskPossible(env, d, t, Finish(seg.records)) && TaskPossible(env, TaskNext(env, d, t, Finish(seg.records)), t, Rename)
    ensures InStore(cfg, env, World(q, TaskNext(env, TaskNext(env, d, t, Finish(seg.records)), t, Rename)), seg)
  {
    hide Final, Tmp, Sidecar, Name;
  }

  /** The file store's two steps of a move. */
  lemma {:induction false} MoveStores(cfg: Rotation.Config, env: Env, w: World, t: nat, seg: Rotation.Segment, q: Rotation.System, names: set<string>)
    requires Inv(env, w.d) && w.d.used <= names && AllInStore(cfg, env, w) && NoClash(env, names)
    requires t in w.d.tasks && w.d.tasks[t] == Task(Name(cfg, seg.start), Writing) && Name(cfg, seg.start) !in w.d.moved
    requires TaskPossible(env, w.d, t, Finish(seg.records)) && TaskPossible(env, TaskNext(env, w.d, t, Finish(seg.records)), t, Rename)
    ensures var n := TaskNext(env, TaskNext(env, w.d, t, Finish(seg.records)), t, Rename);
            && Inv(env, n) && n.used <= names
            && (q.archive.renamed == w.r.archive.renamed + [seg] ==> AllInStore(cfg, env, World(q, n)))
  {
    FinishLeaves(env, w.d, t, seg.records);
    MovedIsInStore(cfg, env, w.d, t, seg, q);
    hide TaskPossible, TaskNext, Inv, NoClash, InStore, Name;
    FileStepHolds(cfg, env, w, OfTask(t, Finish(seg.records)), w.r, names);
    var mid := World(w.r, TaskNext(env, w.d, t, Finish(seg.records)));
    FileStepHolds(cfg, env, mid, OfTask(t, Rename), q, names);
  }

  lemma {:induction false} MoveHolds(cfg: Rotation.Config, env: Env, w: World, step: Rotation.Step, t: nat, names: set<string>)
    requires Holds(cfg, env, w, names) && NoClash(env, names)
    requires Possible(cfg, env, w, Move(step, t)) && Allowed(cfg, w, Move(step, t), names)
    ensures Holds(cfg, env, Next(cfg, env, w, Move(step, t)), names)
  {
    var seg := Moved(cfg, w.r, step).value;
    TmpWritten(env, w.d, t, seg.records);
    StepKeepsRotation(cfg, w.r, step);
    MovedIsLast(cfg, w.r, step);
    hide Rotation.Next, Moved, TaskPossible, TaskNext, RotationInv, Inv, NoClash, InStore, Name;
    hide AllInStore, FinalizedMoved;
    MoveStores(cfg, env, w, t, seg, Rotation.Next(cfg, w.r, step), names);
  }

  lemma {:induction false} FinishLeaves(env: Env, d: System, t: nat, records: seq<Rotation.Record>)
    requires TaskPossible(env, d, t, Finish(records))
    ensures var n := TaskNext(env, d, t, Finish(records));
            t in n.tasks && n.tasks[t].rel == d.tasks[t].rel && n.moved == d.moved
  {
    hide Final, Tmp, Sidecar;
  }

  lemma {:induction false} QuietHolds(cfg: Rotation.Config, env: Env, w: World, step: Rotation.Step, names: set<string>)
    requires Holds(cfg, env, w, names) && Possible(cfg, env, w, Quiet(step))
    ensures Holds(cfg, env, Next(cfg, env, w, Quiet(step)), names)
  {
    StepKeepsRotation(cfg, w.r, step);
    MovedIsLast(cfg, w.r, step);
    var q := Rotation.Next(cfg, w.r, step);
    hide Rotation.Next, Moved, RotationInv, Inv, Name;
    assert w.r.archive.renamed + [] == w.r.archive.renamed;
    assert forall i :: 0 <= i < |q.archive.renamed| ==> InStore(cfg, env, w, q.archive.renamed[i]);
  }

  lemma {:induction false} FileHolds(cfg: Rotation.Config, env: Env, w: World, step: Step, names: set<string>)
    requires Holds(cfg, env, w, names) && NoClash(env, names) && Possible(cfg, env, w, File(step)) && Allowed(cfg, w, File(step), names)
    ensures Holds(cfg, env, Next(cfg, env, w, File(step)), names)
  {
    hide Durability.Possible, Durability.Next, RotationInv, Inv, NoClash, Fresh, InStore;
    FileStepHolds(cfg, env, w, step, w.r, names);
  }

  lemma {:induction false} CrashHolds(cfg: Rotation.Config, env: Env, w: World, names: set<string>)
    requires Holds(cfg, env, w, names) && NoClash(env, names)
    ensures Holds(cfg, env, World(Crashed(w.r), Restarted(env, w.d)), names)
  {
    CrashKeepsRotation(cfg, w.r);
    hide RotationInv, Inv, NoClash, InStore, Restarted;
    FileStepHolds(cfg, env, w, Restart, Crashed(w.r), names);
  }

  lemma {:induction false} EventHolds(cfg: Rotation.Config, env: Env, w: World, e: Event, names: set<string>)
    requires Holds(cfg, env, w, names) && NoClash(env, names) && Possible(cfg, env, w, e) && Allowed(cfg, w, e, names)
    ensures Holds(cfg, env, Next(cfg, env, w, e), names)
  {
    hide Holds, NoClash;
    match e
    case Quiet(step) => QuietHolds(cfg, env, w, step, names);
    case Move(step, t) => MoveHolds(cfg, env, w, step, t, names);
    case File(step) => FileHolds(cfg, env, w, step, names);
    case Crash => CrashHolds(cfg, env, w, names);
  }

  lemma {:induction false} RunHolds(cfg: Rotation.Config, env: Env, w: World, es: seq<Event>, names: set<string>)
    requires Run(cfg, env, w, es) && AllAllowed(cfg, env, w, es, names) && Holds(cfg, env, w, names) && NoClash(env, names)
    ensures Holds(cfg, env, After(cfg, env, w, es), names)
    decreases |es|
  {
    if es != [] {
      hide Holds, NoClash, Possible, Next, Allowed;
      EventHolds(cfg, env, w, es[0], names);
      RunHolds(cfg, env, Next(cfg, env, w, es[0]), es[1..], names);
    }
  }

  lemma {:induction false} StartHolds(cfg: Rotation.Config, env: Env, names: set<string>)
    ensures Holds(cfg, env, Start(), names)
  {
    assert Rotation.AckedCalls(map[]) == {};
  }

  // ----- What the run is worth

  /** Rotation and the file store show the same segments: at every path of the one the other holds those records. */
  ghost predicate Agree(env: Env, w: World) {
    forall p :: p in w.r.archive.files ==> p in w.d.files && w.d.files[p] == Segment(w.r.archive.files[p])
  }

  lemma {:induction false} HoldsAgree(cfg: Rotation.Config, env: Env, w: World, names: set<string>)
    requires Holds(cfg, env, w, names) && env.cfg == cfg
    ensures Agree(env, w)
  {
    forall p | p in w.r.archive.files
      ensures p in w.d.files && w.d.files[p] == Segment(w.r.archive.files[p])
    {
      var i := RotationDisk.LatestComesFrom(cfg, w.r.archive.renamed, p);
      assert InStore(cfg, env, w, w.r.archive.renamed[i]);
      hide Inv, RotationDisk.Latest, Layout.PathOfBucket;
    }
  }

  /** In every run, whatever interleaves, fails or crashes, the two views of the archive agree. */
  lemma {:induction false} AlwaysAgree(cfg: Rotation.Config, env: Env, es: seq<Event>, names: set<string>)
    requires env.cfg == cfg && Run(cfg, env, Start(), es) && AllAllowed(cfg, env, Start(), es, names) && NoClash(env, names)
    ensures Agree(env, After(cfg, env, Start(), es)) && Rotation.ExactlyOnce(After(cfg, env, Start(), es).r)
  {
    StartHolds(cfg, env, names);
    RunHolds(cfg, env, Start(), es, names);
    HoldsAgree(cfg, env, After(cfg, env, Start(), es), names);
    hide Run, After, AllAllowed, NoClash, Inv, Agree;
  }

  /** The copy at `base` holds the record, next to the manifest of exactly that copy. */
  ghost predicate CopyHolds(s: System, base: string, rel: string, r: Rotation.Record) {
    var copy := Target(base, rel);
    && copy in s.files && s.files[copy].Segment? && r in s.files[copy].records
    && Sidecar(copy) in s.files && s.files[Sidecar(copy)] == Manifest(rel, s.files[copy])
  }

  /**
   Whatever interleaves, fails or crashes: if nothing clashes and no path is reused, every record of a
   finalized segment is in the copy at every replica that the segment's name was delivered to.
   */
  lemma {:induction false} UpdateReachesReplicas(
    cfg: Rotation.Config, env: Env, es: seq<Event>, names: set<string>, i: nat, r: Rotation.Record, base: string)
    requires env.cfg == cfg && Run(cfg, env, Start(), es) && AllAllowed(cfg, env, Start(), es, names) && NoClash(env, names)
    requires var w := After(cfg, env, Start(), es);
             && i < |w.r.archive.finalized| && r in w.r.archive.finalized[i].segment.records
             && (Name(cfg, w.r.archive.finalized[i].segment.start), base) in w.d.delivered
    ensures var w := After(cfg, env, Start(), es);
            CopyHolds(w.d, base, Name(cfg, w.r.archive.finalized[i].segment.start), r)
  {
    StartHolds(cfg, env, names);
    RunHolds(cfg, env, Start(), es, names);
    var w := After(cfg, env, Start(), es);
    hide Run, After, AllAllowed, NoClash;
    DeliveredHolds(cfg, env, w, names, w.r.archive.finalized[i].segment, r, base);
  }

  lemma {:induction false} DeliveredHolds(
    cfg: Rotation.Config, env: Env, w: World, names: set<string>, seg: Rotation.Segment, r: Rotation.Record, base: string)
    requires Holds(cfg, env, w, names) && seg in w.r.archive.renamed && r in seg.records && (Name(cfg, seg.start), base) in w.d.delivered
    ensures CopyHolds(w.d, base, Name(cfg, seg.start), r)
  {
    var rel := Name(cfg, seg.start);
    assert InStore(cfg, env, w, seg);
    DeliveredNamed(env, w.d, (rel, base));
    assert HomeOk(env, w.d, rel) && PairAway(w.d, (rel, base));
    hide Name, Final, Target, Sidecar, RotationInv, Book;
  }

  // ----- The joint machine is made of the two

  /** What an event is to the file store. */
  ghost function FileStepsOf(cfg: Rotation.Config, env: Env, w: World, e: Event): seq<Step>
    requires Possible(cfg, env, w, e)
  {
    match e
    case Quiet(_) => []
    case Move(step, t) => [OfTask(t, Finish(Moved(cfg, w.r, step).value.records)), OfTask(t, Rename)]
    case File(step) => [step]
    case Crash => [Restart]
  }

  ghost function FileSteps(cfg: Rotation.Config, env: Env, w: World, es: seq<Event>): seq<Step>
    requires Run(cfg, env, w, es)
    decreases |es|
  {
    if es == [] then [] else FileStepsOf(cfg, env, w, es[0]) + FileSteps(cfg, env, Next(cfg, env, w, es[0]), es[1..])
  }

  lemma {:induction false} RunsConcat(env: Env, s: System, a: seq<Step>, b: seq<Step>)
    requires Durability.Run(env, s, a) && Durability.Run(env, Durability.After(env, s, a), b)
    ensures Durability.Run(env, s, a + b) && Durability.After(env, s, a + b) == Durability.After(env, Durability.After(env, s, a), b)
    decreases |a|
  {
    if a == [] {
      assert a + b == b;
    } else {
      hide Durability.Next, Durability.Possible;
      RunsConcat(env, Durability.Next(env, s, a[0]), a[1..], b);
      assert (a + b)[0] == a[0] && (a + b)[1..] == a[1..] + b;
    }
  }

  lemma {:induction false} OneRun(env: Env, s: System, x: Step)
    requires Durability.Possible(env, s, x)
    ensures Durability.Run(env, s, [x]) && Durability.After(env, s, [x]) == Durability.Next(env, s, x)
  {
    hide Durability.Next, Durability.Possible;
    assert [x][1..] == [];
    assert Durability.Run(env, Durability.Next(env, s, x), []);
  }

  lemma {:induction false} EventRuns(cfg: Rotation.Config, env: Env, w: World, e: Event)
    requires Possible(cfg, env, w, e)
    ensures var steps := FileStepsOf(cfg, env, w, e);
            Durability.Run(env, w.d, steps) && Durability.After(env, w.d, steps) == Next(cfg, env, w, e).d
  {
    hide Moved, Rotation.Next, TaskPossible, TaskNext, WorkPossible, WorkNext, Restarted, Durability.Run, Durability.After;
    match e
    case Quiet(_) =>
      NoRun(env, w.d);
    case Move(step, t) =>
      var records := Moved(cfg, w.r, step).value.records;
      TmpWritten(env, w.d, t, records);
      var x, y := OfTask(t, Finish(records)), OfTask(t, Rename);
      OneRun(env, w.d, x);
      OneRun(env, Durability.Next(env, w.d, x), y);
      RunsConcat(env, w.d, [x], [y]);
      assert [x] + [y] == [x, y];
    case File(step) =>
      OneRun(env, w.d, step);
    case Crash =>
      OneRun(env, w.d, Restart);
  }

  lemma {:induction false} NoRun(env: Env, s: System)
    ensures Durability.Run(env, s, []) && Durability.After(env, s, []) == s
  {
  }

  /** The file store of a joint run goes through a run of its own, with a restart for each crash: its theorems apply. */
  lemma {:induction false} FileStoreRuns(cfg: Rotation.Config, env: Env, w: World, es: seq<Event>)
    requires Run(cfg, env, w, es)
    ensures Durability.Run(env, w.d, FileSteps(cfg, env, w, es))
    ensures Durability.After(env, w.d, FileSteps(cfg, env, w, es)) == After(cfg, env, w, es).d
    decreases |es|
  {
    if es == [] {
      NoRun(env, w.d);
    } else {
      var n := Next(cfg, env, w, es[0]);
      EventRuns(cfg, env, w, es[0]);
      hide Next, Possible, FileStepsOf, Durability.Run, Durability.After;
      FileStoreRuns(cfg, env, n, es[1..]);
      RunsConcat(env, w.d, FileStepsOf(cfg, env, w, es[0]), FileSteps(cfg, env, n, es[1..]));
    }
  }

  /** What an event is to the rotation. */
  function RotationStepsOf(e: Event): seq<Rotation.Step> {
    match e
    case Quiet(step) => [step]
    case Move(step, _) => [step]
    case _ => []
  }

  function RotationSteps(es: seq<Event>): seq<Rotation.Step> {
    if es == [] then [] else RotationStepsOf(es[0]) + RotationSteps(es[1..])
  }

  /** And between crashes the rotation goes through a run of its own. */
  lemma {:induction false} RotationRuns(cfg: Rotation.Config, env: Env, w: World, es: seq<Event>)
    requires Run(cfg, env, w, es) && Crash !in es
    ensures Rotation.Possible(cfg, w.r, RotationSteps(es))
    ensures Rotation.After(cfg, w.r, RotationSteps(es)) == After(cfg, env, w, es).r
    decreases |es|
  {
    if es != [] {
      var n := Next(cfg, env, w, es[0]);
      assert es[0] != Crash;
      RotationRuns(cfg, env, n, es[1..]);
      var rest := RotationSteps(es[1..]);
      hide Rotation.Next, Rotation.Enabled, Moved, TaskNext, TaskPossible, Durability.Next, Durability.Possible;
      if es[0].File? {
        assert [] + rest == rest;
      } else {
        assert ([es[0].step] + rest)[1..] == rest;
      }
    }
  }
}
