/** When no path is reused and no two files of the archive and the replicas clash, a delivered job leaves what was finalized. */
module Replicas {
  import opened Durability
  import opened JobBook
  import opened CrashRuns

  // ----- Hypotheses on the configuration and the run

  predicate Prefix(p: string, s: string) {
    |p| <= |s| && s[..|p|] == p
  }

  /** Neither directory is, or lies within, the other. */
  predicate Disjoint(a: string, b: string) {
    !Prefix(a + "/", b + "/") && !Prefix(b + "/", a + "/")
  }

  ghost predicate Separated(env: Env) {
    && (forall a :: a in env.bases ==> Disjoint(a, env.cfg.root))
    && (forall a, b :: a in env.bases && b in env.bases && a != b ==> Disjoint(a, b))
  }

  ghost predicate Directory(env: Env, dir: string) {
    dir == env.cfg.root || dir in env.bases
  }

  /** Start-up sweeps away nothing of the archive or a replica, and no segment is at a temporary or manifest path. */
  ghost predicate ReplicaNames(env: Env, names: set<string>) {
    && (forall rel, dir :: rel in names && Directory(env, dir) ==> Spared(env, dir, rel))
    && (forall rel, other, dir :: rel in names && other in names && Directory(env, dir) ==>
          Tmp(env, rel) != Target(dir, other))
    && (forall rel, other :: rel in names && other in names ==> rel != Sidecar(other))
  }

  /**
   No two files of the archive and the replicas share a path with each other or with a temporary file, and
   start-up sweeps none of them away.
   */
  ghost predicate NoClash(env: Env, names: set<string>) {
    && (names != {} ==> env.cfg.root !in env.bases)
    && (forall rel, dir :: rel in names && Directory(env, dir) ==> Spared(env, dir, rel))
    && (forall rel, other, dir :: rel in names && other in names && Directory(env, dir) ==> Tmp(env, rel) != Target(dir, other))
    && (forall rel, other, a, b :: rel in names && other in names && Directory(env, a) && Directory(env, b) && (rel != other || a != b) ==>
          PathsApart(Target(a, rel), Target(b, other)))
  }

  /** Separated directories and suitable names are enough for that. */
  lemma {:induction false} SeparatedSuffices(env: Env, names: set<string>)
    requires Separated(env) && ReplicaNames(env, names)
    ensures NoClash(env, names)
  {
    NotDisjointFromItself(env.cfg.root);
    forall rel, other, a, b | rel in names && other in names && Directory(env, a) && Directory(env, b) && (rel != other || a != b)
      ensures PathsApart(Target(a, rel), Target(b, other))
    {
      if a != b {
        DirectoriesDisjoint(env, a, b);
      }
      assert rel != Sidecar(other) && other != Sidecar(rel);
      TargetsApart(a, rel, b, other);
    }
    hide Tmp, Target, Sidecar, Spared, Disjoint;
  }

  lemma {:induction false} NotDisjointFromItself(a: string)
    ensures !Disjoint(a, a)
  {
    assert (a + "/")[..|a + "/"|] == a + "/";
  }

  lemma {:induction false} DirectoriesDisjoint(env: Env, a: string, b: string)
    requires Separated(env) && Directory(env, a) && Directory(env, b) && a != b
    ensures Disjoint(a, b)
  {
    DisjointSymmetric(a, b);
    hide Disjoint;
  }

  /** For names with the extension of a compression only the sweeping matters. */
  lemma {:induction false} SegmentNamesSuit(env: Env, names: set<string>)
    requires forall rel :: rel in names ==> SegmentName(rel)
    ensures ReplicaNames(env, names) <==> forall rel, dir :: rel in names && Directory(env, dir) ==> Spared(env, dir, rel)
  {
    forall rel, other, dir | rel in names && other in names && Directory(env, dir)
      ensures Tmp(env, rel) != Target(dir, other)
    {
      TmpKind(env, rel);
      TargetKind(dir, other);
      hide *;
    }
    forall rel, other | rel in names && other in names
      ensures rel != Sidecar(other)
    {
      NameEnds(rel);
      assert Sidecar(other)[|Sidecar(other)| - 1] == 'n';
      hide SegmentName;
    }
    hide Tmp, Target, Sidecar, Spared, Directory;
  }

  // ----- Paths

  lemma {:induction false} DisjointDirs(a: string, r: string, b: string, q: string)
    ensures a + "/" + r == b + "/" + q ==> !Disjoint(a, b)
  {
    var p := a + "/" + r;
    if p == b + "/" + q {
      assert p[..|a| + 1] == a + "/" && p[..|b| + 1] == b + "/";
      if |a| <= |b| {
        assert p[..|b| + 1][..|a| + 1] == a + "/";
      } else {
        assert p[..|a| + 1][..|b| + 1] == b + "/";
      }
    }
  }

  lemma {:induction false} SidecarInjective(p: string, q: string)
    ensures Sidecar(p) == Sidecar(q) ==> p == q
  {
    if Sidecar(p) == Sidecar(q) {
      assert |p| == |q|;
      assert Sidecar(p)[..|p|] == p;
      assert Sidecar(q)[..|q|] == q;
    }
  }

  lemma {:induction false} TargetInjective(dir: string, r: string, q: string)
    ensures Target(dir, r) == Target(dir, q) ==> r == q
  {
    assert Target(dir, r)[|dir| + 1..] == r && Target(dir, q)[|dir| + 1..] == q;
  }

  /** Two segments, or copies of segments, with their manifests share no path. */
  ghost predicate PathsApart(p: string, q: string) {
    p != q && p != Sidecar(q) && Sidecar(p) != q && Sidecar(p) != Sidecar(q)
  }

  lemma {:induction false} SidecarOfTarget(dir: string, rel: string)
    ensures Sidecar(Target(dir, rel)) == Target(dir, Sidecar(rel))
  {
    assert dir + "/" + rel + ".json" == dir + "/" + (rel + ".json");
  }

  lemma {:induction false} TargetsApart(a: string, r: string, b: string, q: string)
    requires (a == b && r != q && r != Sidecar(q) && q != Sidecar(r)) || Disjoint(a, b)
    ensures PathsApart(Target(a, r), Target(b, q))
  {
    SidecarOfTarget(a, r);
    SidecarOfTarget(b, q);
    SidecarInjective(r, q);
    if a == b && r != q && r != Sidecar(q) && q != Sidecar(r) {
      TargetInjective(a, r, q);
      TargetInjective(a, r, Sidecar(q));
      TargetInjective(a, Sidecar(r), q);
      TargetInjective(a, Sidecar(r), Sidecar(q));
    } else {
      DisjointDirs(a, r, b, q);
      DisjointDirs(a, r, b, Sidecar(q));
      DisjointDirs(a, Sidecar(r), b, q);
      DisjointDirs(a, Sidecar(r), b, Sidecar(q));
    }
    hide Sidecar, Disjoint;
  }

  // ----- What a step writes

  ghost function Written(env: Env, s: System, step: Step): set<string>
    requires Possible(env, s, step)
  {
    match step
    case OfTask(t, a) =>
      if a.Open? then {Tmp(env, a.rel)}
      else
        var rel := s.tasks[t].rel;
        if a.Finish? then {Tmp(env, rel)}
        else if a.Rename? then {Tmp(env, rel), Final(env, rel)}
        else if a.BeginManifest? || a.EndManifest? then {Sidecar(Final(env, rel))}
        else {}
    case OfWorker(w, a) =>
      if a.Claim? then {}
      else
        var k := s.workers[w];
        var target := Target(s.rows[k.id].base, k.rel);
        if a.BeginSegment? || a.EndSegment? then {target}
        else if a.BeginSidecar? || a.EndSidecar? then {Sidecar(target)}
        else {}
    case Restart => {}
  }

  lemma {:induction false} OnlyWritten(env: Env, s: System, step: Step, path: string)
    requires Possible(env, s, step) && path in s.files && path !in Written(env, s, step)
    requires !DirectlyIn(path, env.cfg.tmpRoot)
    ensures path in Next(env, s, step).files && Next(env, s, step).files[path] == s.files[path]
  {
    if step.OfTask? {
      OnlyTaskWrites(env, s, step.t, step.task, path);
    }
    hide TaskNext, TaskPossible, Final, Tmp, Sidecar, Target, DirectlyIn;
  }

  lemma {:induction false} OnlyTaskWrites(env: Env, s: System, t: nat, a: TaskStep, path: string)
    requires TaskPossible(env, s, t, a) && path in s.files && path !in Written(env, s, OfTask(t, a))
    ensures path in TaskNext(env, s, t, a).files && TaskNext(env, s, t, a).files[path] == s.files[path]
  {
    hide Final, Tmp, Sidecar, Target, DirectlyIn;
  }

  // ----- Bookkeeping: who may write where

  ghost predicate WorkBook(s: System, k: Work) {
    k.id in s.rows && s.rows[k.id].claimed && (!k.phase.Claimed? ==> k.rel == s.rows[k.id].rel)
  }

  ghost predicate WorkersBook(s: System) {
    && (forall w :: w in s.workers ==> WorkBook(s, s.workers[w]))
    && (forall w, o :: w in s.workers && o in s.workers && s.workers[w].id == s.workers[o].id ==> w == o)
  }

  ghost predicate Book(env: Env, s: System) {
    TasksBook(env, s) && RowsBook(s) && WorkersBook(s)
  }

  // ----- Contents

  /** The archive holds the segment and the manifest that were finalized together. */
  ghost predicate HomeOk(env: Env, s: System, rel: string)
    requires rel in s.made
  {
    PairAt(s, Final(env, rel), rel, s.made[rel])
  }

  ghost predicate PairAt(s: System, path: string, rel: string, of: Content) {
    && path in s.files && s.files[path] == of
    && Sidecar(path) in s.files && s.files[Sidecar(path)] == Manifest(rel, of)
  }

  ghost predicate Home(env: Env, s: System) {
    && (forall rel :: rel in s.made ==> HomeOk(env, s, rel))
    && (forall t :: t in s.tasks ==> TaskHome(env, s, s.tasks[t]))
  }

  ghost predicate TaskHome(env: Env, s: System, k: Task) {
    k.stage.Hashed? || k.stage.Sealing? ==> Final(env, k.rel) in s.files && s.files[Final(env, k.rel)] == k.stage.of
  }

  ghost predicate WorkAway(s: System, k: Work)
    requires WorkBook(s, k)
  {
    var row := s.rows[k.id];
    && (k.phase.SegmentDone? || k.phase.SidecarBegun? || k.phase.SidecarDone? ==>
          row.rel in s.made && Target(row.base, row.rel) in s.files && s.files[Target(row.base, row.rel)] == s.made[row.rel])
    && (k.phase.SidecarDone? ==>
          row.rel in s.made && PairAt(s, Target(row.base, row.rel), row.rel, s.made[row.rel]))
  }

  ghost predicate PairAway(s: System, p: (string, string)) {
    p.0 in s.made && PairAt(s, Target(p.1, p.0), p.0, s.made[p.0])
  }

  ghost predicate Away(s: System)
    requires WorkersBook(s)
  {
    && (forall w :: w in s.workers ==> WorkAway(s, s.workers[w]))
    && (forall p :: p in s.delivered ==> PairAway(s, p))
  }

  // ----- Bookkeeping is kept

  lemma {:induction false} RestartBook(env: Env, s: System)
    requires Book(env, s)
    ensures Book(env, Restarted(env, s))
  {
    hide DirectlyIn;
  }

  lemma {:induction false} TaskStepWorkers(env: Env, s: System, t: nat, a: TaskStep)
    requires TaskPossible(env, s, t, a) && RowsBook(s) && WorkersBook(s)
    ensures WorkersBook(TaskNext(env, s, t, a))
  {
    hide Final, Tmp, Sidecar;
  }

  lemma {:induction false} OtherWorker(env: Env, s: System, w: nat, a: WorkStep, o: nat)
    requires WorkPossible(env, s, w, a) && WorkersBook(s)
    requires o != w && o in WorkNext(env, s, w, a).workers
    ensures var n := WorkNext(env, s, w, a);
            o in s.workers && n.workers[o] == s.workers[o] && s.workers[o].id in n.rows && n.rows[s.workers[o].id] == s.rows[s.workers[o].id]
  {
    assert o in s.workers ==> WorkBook(s, s.workers[o]);
    hide Final, Tmp, Sidecar, Target;
  }

  lemma {:induction false} MovedWorker(env: Env, s: System, w: nat, a: WorkStep)
    requires WorkPossible(env, s, w, a) && w in WorkNext(env, s, w, a).workers
    requires w in s.workers ==> WorkBook(s, s.workers[w]) && HomeParsed(env, s, s.rows[s.workers[w].id].rel)
    ensures var n := WorkNext(env, s, w, a);
            && WorkBook(n, n.workers[w]) && n.rows.Keys == s.rows.Keys
            && (if a.Claim? then n.workers[w].id == a.id && n.workers[w].phase.Claimed?
                else w in s.workers && n.workers[w].id == s.workers[w].id)
  {
    hide Final, Tmp, Sidecar, Target;
  }

  ghost predicate HomeParsed(env: Env, s: System, rel: string) {
    Sidecar(Final(env, rel)) in s.files && s.files[Sidecar(Final(env, rel))].Manifest? && s.files[Sidecar(Final(env, rel))].rel == rel
  }

  lemma {:induction false} RowHome(env: Env, s: System, id: nat)
    requires id in s.rows && Book(env, s) && Home(env, s)
    ensures s.rows[id].rel in s.made && HomeOk(env, s, s.rows[id].rel) && HomeParsed(env, s, s.rows[id].rel)
    ensures s.rows[id].base in env.bases
  {
    assert Pair(s.rows[id]) in s.issued;
    assert HomeOk(env, s, s.rows[id].rel);
    hide WorkersBook, Final, Sidecar;
  }

  lemma {:induction false} SameWorkBook(s: System, n: System, k: Work)
    requires WorkBook(s, k) && k.id in n.rows && n.rows[k.id] == s.rows[k.id]
    ensures WorkBook(n, k)
  {
  }

  lemma {:induction false} WorkIdsDistinct(env: Env, s: System, w: nat, a: WorkStep)
    requires WorkPossible(env, s, w, a) && WorkersBook(s)
    ensures var n := WorkNext(env, s, w, a);
            forall i, j :: i in n.workers && j in n.workers && n.workers[i].id == n.workers[j].id ==> i == j
  {
    hide Final, Tmp, Sidecar, Target;
  }

  lemma {:induction false} WorkStepWorkers(env: Env, s: System, w: nat, a: WorkStep)
    requires WorkPossible(env, s, w, a) && Book(env, s) && Home(env, s)
    ensures WorkersBook(WorkNext(env, s, w, a))
  {
    hide TasksBook, RowsBook, Home, HomeOk, HomeParsed, WorkNext, WorkPossible;
    var n := WorkNext(env, s, w, a);
    if w in s.workers {
      RowHome(env, s, s.workers[w].id);
    }
    if w in n.workers {
      MovedWorker(env, s, w, a);
    }
    hide WorkBook;
    forall o | o in n.workers && o != w
      ensures o in s.workers && n.workers[o] == s.workers[o] && WorkBook(n, n.workers[o])
    {
      OtherWorker(env, s, w, a, o);
      SameWorkBook(s, n, s.workers[o]);
    }
    WorkIdsDistinct(env, s, w, a);
  }

  lemma {:induction false} StepKeepsBook(env: Env, s: System, step: Step)
    requires Possible(env, s, step) && Fresh(s, step) && Book(env, s) && Home(env, s)
    ensures Book(env, Next(env, s, step))
  {
    match step
    case OfTask(t, a) =>
      TaskStepBook(env, s, t, a);
      TaskStepRows(env, s, t, a);
      TaskStepWorkers(env, s, t, a);
      hide TasksBook, RowsBook, WorkersBook, TaskNext, Home;
    case OfWorker(w, a) =>
      WorkStepTasks(env, s, w, a);
      WorkStepRows(env, s, w, a);
      WorkStepWorkers(env, s, w, a);
      hide TasksBook, RowsBook, WorkersBook, WorkNext, Home;
    case Restart =>
      RestartBook(env, s);
      hide TasksBook, RowsBook, WorkersBook, Restarted, Home;
  }

  // ----- What was finalized stays in the archive

  lemma {:induction false} MadeStays(env: Env, s: System, step: Step, rel: string)
    requires Possible(env, s, step) && TasksBook(env, s) && rel in s.made
    ensures rel in Next(env, s, step).made && Next(env, s, step).made[rel] == s.made[rel]
  {
    hide TasksBook, TaskPossible, WorkPossible, TaskNext, WorkNext, DirectlyIn;
    match step
    case OfTask(t, a) =>
      MadeStaysInTask(env, s, t, a, rel);
    case OfWorker(w, a) =>
      WorkLeaves(env, s, w, a);
    case Restart =>
  }

  lemma {:induction false} MadeStaysInTask(env: Env, s: System, t: nat, a: TaskStep, rel: string)
    requires TaskPossible(env, s, t, a) && TasksBook(env, s) && rel in s.made
    ensures rel in TaskNext(env, s, t, a).made && TaskNext(env, s, t, a).made[rel] == s.made[rel]
  {
    TaskGrows(env, s, t, a);
    if a.EndManifest? {
      SealingIsNew(env, s, t);
    }
    hide TasksBook, TaskPossible, TaskNext;
  }

  lemma {:induction false} SealingIsNew(env: Env, s: System, t: nat)
    requires TaskPossible(env, s, t, EndManifest) && TasksBook(env, s)
    ensures s.tasks[t].rel !in s.made
  {
    TaskNamed(env, s, t);
    hide TasksBook;
  }

  /** The segment at `dir` and its manifest are not what the step writes. */
  ghost predicate Untouched(env: Env, s: System, step: Step, dir: string, rel: string)
    requires Possible(env, s, step)
  {
    Target(dir, rel) !in Written(env, s, step) && Sidecar(Target(dir, rel)) !in Written(env, s, step)
  }

  predicate WritesHome(a: TaskStep) {
    a.Rename? || a.BeginManifest? || a.EndManifest?
  }

  lemma {:induction false} TaskWritten(env: Env, s: System, t: nat, a: TaskStep, path: string)
    requires TaskPossible(env, s, t, a) && path in Written(env, s, OfTask(t, a))
    ensures var other := if a.Open? then a.rel else s.tasks[t].rel;
            || path == Tmp(env, other)
            || (WritesHome(a) && path in {Final(env, other), Sidecar(Final(env, other))})
  {
    hide Final, Tmp, Sidecar, Target;
  }

  lemma {:induction false} WorkWritten(env: Env, s: System, w: nat, a: WorkStep, path: string)
    requires WorkPossible(env, s, w, a) && path in Written(env, s, OfWorker(w, a))
    ensures !a.Claim? && !s.workers[w].phase.Claimed?
    ensures var target := Target(s.rows[s.workers[w].id].base, s.workers[w].rel);
            path in {target, Sidecar(target)}
  {
    hide Final, Tmp, Sidecar, Target;
  }

  lemma {:induction false} TaskSpares(env: Env, s: System, t: nat, a: TaskStep, dir: string, rel: string)
    requires TaskPossible(env, s, t, a)
    requires Tmp(env, if a.Open? then a.rel else s.tasks[t].rel) != Target(dir, rel)
    requires WritesHome(a) ==> PathsApart(Target(env.cfg.root, s.tasks[t].rel), Target(dir, rel))
    ensures Untouched(env, s, OfTask(t, a), dir, rel)
  {
    var other := if a.Open? then a.rel else s.tasks[t].rel;
    TmpIsNoSidecar(env, other, Target(dir, rel));
    assert Final(env, other) == Target(env.cfg.root, other);
    hide Final, Tmp, Sidecar, Target, TaskPossible, Written;
    forall path | path in {Target(dir, rel), Sidecar(Target(dir, rel))}
      ensures path !in Written(env, s, OfTask(t, a))
    {
      if path in Written(env, s, OfTask(t, a)) {
        TaskWritten(env, s, t, a, path);
      }
    }
  }

  lemma {:induction false} WorkSpares(env: Env, s: System, w: nat, a: WorkStep, dir: string, rel: string)
    requires WorkPossible(env, s, w, a)
    requires !a.Claim? && !s.workers[w].phase.Claimed? ==>
               PathsApart(Target(s.rows[s.workers[w].id].base, s.workers[w].rel), Target(dir, rel))
    ensures Untouched(env, s, OfWorker(w, a), dir, rel)
  {
    hide Final, Tmp, Sidecar, Target, WorkPossible, Written;
    forall path | path in {Target(dir, rel), Sidecar(Target(dir, rel))}
      ensures path !in Written(env, s, OfWorker(w, a))
    {
      if path in Written(env, s, OfWorker(w, a)) {
        WorkWritten(env, s, w, a, path);
      }
    }
  }

  lemma {:induction false} TaskNamed(env: Env, s: System, t: nat)
    requires t in s.tasks && TasksBook(env, s)
    ensures s.tasks[t].rel in s.used
    ensures InPlace(s.tasks[t]) ==> s.tasks[t].rel in s.moved && (s.tasks[t].stage.Enqueuing? <==> s.tasks[t].rel in s.made)
  {
    assert TaskBook(env, s, s.tasks[t]);
    hide IssuedBook;
  }

  lemma {:induction false} WorkerNamed(env: Env, s: System, w: nat)
    requires w in s.workers && Book(env, s)
    ensures var k := s.workers[w];
            && k.id in s.rows && (!k.phase.Claimed? ==> k.rel == s.rows[k.id].rel)
            && s.rows[k.id].rel in s.made && s.rows[k.id].rel in s.used && s.rows[k.id].base in env.bases
  {
    assert WorkBook(s, s.workers[w]);
    RowNamed(env, s, s.workers[w].id);
    hide TasksBook, RowsBook;
  }

  /** The setting of the theorem: nothing clashes, and the step opens one of the names and reuses no path. */
  ghost predicate Setting(env: Env, s: System, step: Step, names: set<string>) {
    && NoClash(env, names) && s.used <= names && Fresh(s, step)
    && (step.OfTask? && step.task.Open? ==> step.task.rel in names)
  }

  /** Which name a writer's step is about, and that a step that writes to the archive is about one not yet made. */
  lemma {:induction false} StepTaskNamed(env: Env, s: System, step: Step, names: set<string>)
    requires Possible(env, s, step) && TasksBook(env, s) && Setting(env, s, step, names) && step.OfTask?
    ensures step.task.Open? || step.t in s.tasks
    ensures (if step.task.Open? then step.task.rel else s.tasks[step.t].rel) in names
    ensures WritesHome(step.task) ==> step.t in s.tasks && s.tasks[step.t].rel !in s.made
  {
    if !step.task.Open? {
      TaskNamed(env, s, step.t);
      assert NamesBook(s);
    }
    hide TasksBook, NoClash, Final, Tmp;
  }

  lemma {:induction false} ClashFree(env: Env, names: set<string>, rel: string, a: string, other: string, b: string)
    requires NoClash(env, names) && rel in names && other in names && Directory(env, a) && Directory(env, b)
    ensures Spared(env, b, other) && Tmp(env, rel) != Target(b, other) && env.cfg.root !in env.bases
    ensures rel != other || a != b ==> PathsApart(Target(a, rel), Target(b, other))
  {
    hide Tmp, Target, Spared, PathsApart, Directory;
  }

  /** No step touches a finalized segment of the archive or its manifest. */
  lemma {:induction false} HomeSpared(env: Env, s: System, step: Step, rel: string, names: set<string>)
    requires Possible(env, s, step) && Book(env, s) && Setting(env, s, step, names) && rel in names
    requires rel in s.made || (step.OfTask? && WritesHome(step.task) ==> s.tasks[step.t].rel != rel)
    ensures Untouched(env, s, step, env.cfg.root, rel)
  {
    hide TasksBook, RowsBook, WorkersBook, NoClash, TaskPossible, WorkPossible, PathsApart, Fresh;
    if step.OfTask? {
      StepTaskNamed(env, s, step, names);
      ClashFree(env, names, if step.task.Open? then step.task.rel else s.tasks[step.t].rel, env.cfg.root, rel, env.cfg.root);
      TaskSpares(env, s, step.t, step.task, env.cfg.root, rel);
    } else if step.OfWorker? {
      if !step.work.Claim? {
        WorkIsNamed(env, s, step.w, step.work);
        ClashFree(env, names, s.rows[s.workers[step.w].id].rel, s.rows[s.workers[step.w].id].base, rel, env.cfg.root);
      }
      WorkSpares(env, s, step.w, step.work, env.cfg.root, rel);
    }
  }

  lemma {:induction false} WorkIsNamed(env: Env, s: System, w: nat, a: WorkStep)
    requires WorkPossible(env, s, w, a) && Book(env, s) && !a.Claim?
    ensures w in s.workers && s.workers[w].id in s.rows
    ensures var k := s.workers[w];
            && (!k.phase.Claimed? ==> k.rel == s.rows[k.id].rel)
            && s.rows[k.id].rel in s.made && s.rows[k.id].rel in s.used && s.rows[k.id].base in env.bases
  {
    WorkerNamed(env, s, w);
    hide TasksBook, RowsBook, WorkersBook;
  }

  /** Only the worker of the very job touches the copy of a segment. */
  lemma {:induction false} ReplicaSpared(env: Env, s: System, step: Step, base: string, rel: string, names: set<string>)
    requires Possible(env, s, step) && Book(env, s) && Setting(env, s, step, names) && base in env.bases && rel in names
    requires step.OfWorker? && !step.work.Claim? ==> Pair(s.rows[s.workers[step.w].id]) != (rel, base)
    ensures Untouched(env, s, step, base, rel)
  {
    hide TasksBook, RowsBook, WorkersBook, NoClash, TaskPossible, WorkPossible, PathsApart, Fresh;
    if step.OfTask? {
      StepTaskNamed(env, s, step, names);
      ClashFree(env, names, if step.task.Open? then step.task.rel else s.tasks[step.t].rel, env.cfg.root, rel, base);
      TaskSpares(env, s, step.t, step.task, base, rel);
    } else if step.OfWorker? {
      if !step.work.Claim? {
        WorkIsNamed(env, s, step.w, step.work);
        ClashFree(env, names, s.rows[s.workers[step.w].id].rel, s.rows[s.workers[step.w].id].base, rel, base);
      }
      WorkSpares(env, s, step.w, step.work, base, rel);
    }
  }

  lemma {:induction false} DisjointSymmetric(a: string, b: string)
    ensures Disjoint(a, b) <==> Disjoint(b, a)
  {
  }

  lemma {:induction false} RowNamed(env: Env, s: System, id: nat)
    requires id in s.rows && TasksBook(env, s) && RowsBook(s)
    ensures s.rows[id].rel in s.made && s.rows[id].rel in s.used && s.rows[id].base in env.bases
  {
    assert Pair(s.rows[id]) in s.issued;
  }

  lemma {:induction false} PairStays(env: Env, s: System, step: Step, dir: string, rel: string, of: Content)
    requires Possible(env, s, step) && Untouched(env, s, step, dir, rel) && Spared(env, dir, rel)
    requires PairAt(s, Target(dir, rel), rel, of)
    ensures PairAt(Next(env, s, step), Target(dir, rel), rel, of)
  {
    hide Next, Possible, Target, Sidecar, DirectlyIn, Written;
    OnlyWritten(env, s, step, Target(dir, rel));
    OnlyWritten(env, s, step, Sidecar(Target(dir, rel)));
  }

  lemma {:induction false} HomeStays(env: Env, s: System, step: Step, rel: string, names: set<string>)
    requires Possible(env, s, step) && Book(env, s) && Setting(env, s, step, names)
    requires rel in s.made && HomeOk(env, s, rel)
    ensures rel in Next(env, s, step).made && HomeOk(env, Next(env, s, step), rel)
  {
    assert rel in s.used;
    ClashFree(env, names, rel, env.cfg.root, rel, env.cfg.root);
    assert Final(env, rel) == Target(env.cfg.root, rel);
    HomeSpared(env, s, step, rel, names);
    MadeStays(env, s, step, rel);
    PairStays(env, s, step, env.cfg.root, rel, s.made[rel]);
    hide Next, PairAt, Final, Target, TasksBook, RowsBook, WorkersBook, Disjoint, TaskPossible, WorkPossible;
  }

  lemma {:induction false} FileStays(env: Env, s: System, step: Step, dir: string, rel: string)
    requires Possible(env, s, step) && Untouched(env, s, step, dir, rel) && Spared(env, dir, rel)
    requires Target(dir, rel) in s.files
    ensures Target(dir, rel) in Next(env, s, step).files && Next(env, s, step).files[Target(dir, rel)] == s.files[Target(dir, rel)]
  {
    hide Next, Possible, Target, Sidecar, DirectlyIn, Written;
    OnlyWritten(env, s, step, Target(dir, rel));
  }

  lemma {:induction false} OtherTaskHome(env: Env, s: System, step: Step, k: Task, names: set<string>)
    requires Possible(env, s, step) && Book(env, s) && Setting(env, s, step, names)
    requires k.rel in names && TaskHome(env, s, k)
    requires InPlace(k) && step.OfTask? && WritesHome(step.task) ==> s.tasks[step.t].rel != k.rel
    ensures TaskHome(env, Next(env, s, step), k)
  {
    assert Final(env, k.rel) == Target(env.cfg.root, k.rel);
    hide Next, Possible, TasksBook, RowsBook, WorkersBook, Final, Target, Spared, NoClash, Fresh;
    ClashFree(env, names, k.rel, env.cfg.root, k.rel, env.cfg.root);
    if k.stage.Hashed? || k.stage.Sealing? {
      HomeSpared(env, s, step, k.rel, names);
      FileStays(env, s, step, env.cfg.root, k.rel);
    }
  }

  lemma {:induction false} MovedTaskHome(env: Env, s: System, t: nat, a: TaskStep)
    requires TaskPossible(env, s, t, a) && t in TaskNext(env, s, t, a).tasks
    requires t in s.tasks ==> TaskHome(env, s, s.tasks[t])
    ensures TaskHome(env, TaskNext(env, s, t, a), TaskNext(env, s, t, a).tasks[t])
    ensures a.EndManifest? ==> s.tasks[t].rel in TaskNext(env, s, t, a).made && HomeOk(env, TaskNext(env, s, t, a), s.tasks[t].rel)
  {
    if t in s.tasks {
      var rel := s.tasks[t].rel;
      assert Final(env, rel) == Target(env.cfg.root, rel);
      NotItsOwnSidecar(Target(env.cfg.root, rel));
    }
    hide Final, Tmp, Sidecar, Target;
  }

  lemma {:induction false} TaskHomeKept(env: Env, s: System, step: Step, t: nat, names: set<string>)
    requires Possible(env, s, step) && Book(env, s) && Setting(env, s, step, names) && Home(env, s)
    requires t in Next(env, s, step).tasks
    ensures TaskHome(env, Next(env, s, step), Next(env, s, step).tasks[t])
  {
    hide TasksBook, RowsBook, WorkersBook, Disjoint, HomeOk, TaskHome, TaskNext, WorkNext, WorkPossible, NoClash;
    if step.OfTask? && step.t == t {
      MovedTaskHome(env, s, t, step.task);
    } else {
      OtherTask(env, s, step, t);
      OpensNew(env, s, step);
      TwoTasks(env, s, t, if step.OfTask? then step.t else t);
      hide TaskPossible;
      OtherTaskHome(env, s, step, s.tasks[t], names);
    }
  }

  lemma {:induction false} StaysIfSealed(env: Env, s: System, t: nat, a: TaskStep)
    requires TaskPossible(env, s, t, a)
    ensures t in TaskNext(env, s, t, a).tasks <==> !a.Leave?
  {
    hide Final, Tmp, Sidecar;
  }

  lemma {:induction false} TwoTasks(env: Env, s: System, t: nat, o: nat)
    requires TasksBook(env, s) && t in s.tasks
    ensures s.tasks[t].rel in s.used && (InPlace(s.tasks[t]) ==> s.tasks[t].rel in s.moved)
    ensures o in s.tasks && o != t && InPlace(s.tasks[o]) && InPlace(s.tasks[t]) ==> s.tasks[o].rel != s.tasks[t].rel
  {
    assert TaskBook(env, s, s.tasks[t]);
  }

  lemma {:induction false} StepKeepsHome(env: Env, s: System, step: Step, names: set<string>)
    requires Possible(env, s, step) && Book(env, s) && Setting(env, s, step, names) && Home(env, s)
    ensures Home(env, Next(env, s, step))
  {
    hide Next, Possible, Book, HomeOk, TaskHome, Setting;
    var n := Next(env, s, step);
    forall t | t in n.tasks
      ensures TaskHome(env, n, n.tasks[t])
    {
      TaskHomeKept(env, s, step, t, names);
    }
    forall rel | rel in n.made
      ensures HomeOk(env, n, rel)
    {
      MadeKept(env, s, step, rel, names);
    }
  }

  lemma {:induction false} MadeKept(env: Env, s: System, step: Step, rel: string, names: set<string>)
    requires Possible(env, s, step) && Book(env, s) && Setting(env, s, step, names) && Home(env, s)
    requires rel in Next(env, s, step).made
    ensures HomeOk(env, Next(env, s, step), rel)
  {
    hide TasksBook, RowsBook, WorkersBook, Disjoint, HomeOk, TaskHome, Setting, TaskNext, WorkNext;
    if rel in s.made {
      HomeStays(env, s, step, rel, names);
    } else if step.OfTask? {
      TaskGrows(env, s, step.t, step.task);
      OpensNew(env, s, step);
      StaysIfSealed(env, s, step.t, step.task);
      MovedTaskHome(env, s, step.t, step.task);
    } else if step.OfWorker? {
      WorkLeaves(env, s, step.w, step.work);
    }
  }

  // ----- What was copied stays at the replica

  lemma {:induction false} PairAwayKept(env: Env, s: System, step: Step, p: (string, string), names: set<string>)
    requires Possible(env, s, step) && Book(env, s) && Setting(env, s, step, names)
    requires p in s.delivered && PairAway(s, p)
    ensures PairAway(Next(env, s, step), p)
  {
    DeliveredNamed(env, s, p);
    if step.OfWorker? && !step.work.Claim? {
      WorkerUndelivered(env, s, step.w, step.work);
    }
    hide Possible, Next, TasksBook, RowsBook, WorkersBook, NoClash, Fresh, PairAt, Target, Spared;
    ClashFree(env, names, p.0, env.cfg.root, p.0, p.1);
    ReplicaSpared(env, s, step, p.1, p.0, names);
    MadeStays(env, s, step, p.0);
    PairStays(env, s, step, p.1, p.0, s.made[p.0]);
  }

  lemma {:induction false} DeliveredNamed(env: Env, s: System, p: (string, string))
    requires Book(env, s) && p in s.delivered
    ensures p.0 in s.made && p.0 in s.used && p.1 in env.bases
  {
    assert p in s.issued;
    hide WorkersBook;
  }

  /** A worker's job is not a delivered one, nor another worker's. */
  lemma {:induction false} WorkerUndelivered(env: Env, s: System, w: nat, a: WorkStep)
    requires Book(env, s) && w in s.workers
    ensures s.workers[w].id in s.rows && Pair(s.rows[s.workers[w].id]) !in s.delivered
    ensures forall o :: o in s.workers && o != w ==> s.workers[o].id in s.rows && Pair(s.rows[s.workers[o].id]) != Pair(s.rows[s.workers[w].id])
  {
    assert forall o :: o in s.workers ==> WorkBook(s, s.workers[o]);
    hide TasksBook;
  }

  lemma {:induction false} OtherWorkAway(env: Env, s: System, n: System, step: Step, k: Work, names: set<string>)
    requires Possible(env, s, step) && Book(env, s) && Setting(env, s, step, names) && n == Next(env, s, step)
    requires WorkBook(s, k) && WorkAway(s, k) && WorkBook(n, k) && Pair(n.rows[k.id]) == Pair(s.rows[k.id])
    requires step.OfWorker? && !step.work.Claim? ==> Pair(s.rows[s.workers[step.w].id]) != Pair(s.rows[k.id])
    ensures WorkAway(n, k)
  {
    RowNamed(env, s, k.id);
    hide Possible, Next, TasksBook, RowsBook, WorkersBook, WorkBook, NoClash, Fresh, Target, Spared, Sidecar;
    var row := s.rows[k.id];
    ClashFree(env, names, row.rel, env.cfg.root, row.rel, row.base);
    ReplicaSpared(env, s, step, row.base, row.rel, names);
    MadeStays(env, s, step, row.rel);
    if Target(row.base, row.rel) in s.files {
      FileStays(env, s, step, row.base, row.rel);
    }
    if k.phase.SidecarDone? {
      PairStays(env, s, step, row.base, row.rel, s.made[row.rel]);
    }
  }

  lemma {:induction false} MovedWorkAway(env: Env, s: System, w: nat, a: WorkStep)
    requires WorkPossible(env, s, w, a) && w in WorkNext(env, s, w, a).workers
    requires !a.Claim? ==> WorkBook(s, s.workers[w]) && WorkAway(s, s.workers[w])
    requires !a.Claim? ==> s.rows[s.workers[w].id].rel in s.made && HomeOk(env, s, s.rows[s.workers[w].id].rel)
    requires WorkBook(WorkNext(env, s, w, a), WorkNext(env, s, w, a).workers[w])
    ensures WorkAway(WorkNext(env, s, w, a), WorkNext(env, s, w, a).workers[w])
  {
    if !a.Claim? {
      var row := s.rows[s.workers[w].id];
      NotItsOwnSidecar(Target(row.base, row.rel));
    }
    hide Final, Tmp, Sidecar, Target;
  }

  /** Success is recorded only with both copies in place. */
  lemma {:induction false} SuccessIsAway(env: Env, s: System, w: nat)
    requires WorkPossible(env, s, w, Succeed) && WorkBook(s, s.workers[w]) && WorkAway(s, s.workers[w])
    ensures PairAway(WorkNext(env, s, w, Succeed), Pair(s.rows[s.workers[w].id]))
  {
    hide Final, Tmp, Sidecar, Target;
  }

  lemma {:induction false} WorkAwayKept(env: Env, s: System, step: Step, o: nat, names: set<string>)
    requires Possible(env, s, step) && Book(env, s) && Setting(env, s, step, names) && Home(env, s) && Away(s)
    requires Book(env, Next(env, s, step)) && o in Next(env, s, step).workers
    ensures WorkBook(Next(env, s, step), Next(env, s, step).workers[o]) && WorkAway(Next(env, s, step), Next(env, s, step).workers[o])
  {
    var n := Next(env, s, step);
    assert WorkBook(n, n.workers[o]);
    if step.OfWorker? && step.w == o {
      if !step.work.Claim? {
        assert WorkBook(s, s.workers[o]);
        RowHome(env, s, s.workers[o].id);
      }
      hide TasksBook, RowsBook, WorkersBook, Home, HomeOk, HomeParsed, WorkAway, WorkBook, WorkNext;
      MovedWorkAway(env, s, o, step.work);
    } else {
      SameWork(env, s, step, o);
      if step.OfWorker? && !step.work.Claim? {
        WorkerUndelivered(env, s, step.w, step.work);
      }
      assert WorkBook(s, s.workers[o]);
      hide TasksBook, RowsBook, WorkersBook, Home, WorkAway, WorkBook, Next, Setting;
      OtherWorkAway(env, s, n, step, s.workers[o], names);
    }
  }

  lemma {:induction false} SameWork(env: Env, s: System, step: Step, o: nat)
    requires Possible(env, s, step) && Book(env, s) && o in Next(env, s, step).workers
    requires !(step.OfWorker? && step.w == o)
    ensures o in s.workers && s.workers[o].id in s.rows && Next(env, s, step).workers[o] == s.workers[o]
    ensures var n := Next(env, s, step);
            s.workers[o].id in n.rows ==> Pair(n.rows[s.workers[o].id]) == Pair(s.rows[s.workers[o].id])
  {
    if step.OfTask? {
      TaskLeaves(env, s, step.t, step.task);
      assert WorkBook(s, s.workers[o]);
      OldRows(env, s, step.t, step.task, s.workers[o].id);
    } else if step.OfWorker? {
      OtherWorker(env, s, step.w, step.work, o);
      assert WorkBook(s, s.workers[o]);
    }
    hide TasksBook, TaskNext, WorkNext, TaskPossible, WorkPossible, DirectlyIn;
  }

  lemma {:induction false} OldRows(env: Env, s: System, t: nat, a: TaskStep, id: nat)
    requires TaskPossible(env, s, t, a) && RowsBook(s) && id in s.rows
    ensures id in TaskNext(env, s, t, a).rows && TaskNext(env, s, t, a).rows[id] == s.rows[id]
  {
    hide Final, Tmp, Sidecar;
  }

  lemma {:induction false} DeliveredKept(env: Env, s: System, step: Step, p: (string, string), names: set<string>)
    requires Possible(env, s, step) && Book(env, s) && Setting(env, s, step, names) && Away(s)
    requires p in Next(env, s, step).delivered
    ensures PairAway(Next(env, s, step), p)
  {
    if p in s.delivered {
      hide Possible, Next, Book, Setting, PairAway;
      PairAwayKept(env, s, step, p, names);
    } else {
      NewlyDelivered(env, s, step, p);
      assert WorkBook(s, s.workers[step.w]) && WorkAway(s, s.workers[step.w]);
      hide Book, Setting, PairAway, WorkAway, WorkBook, WorkNext;
      SuccessIsAway(env, s, step.w);
    }
  }

  lemma {:induction false} NewlyDelivered(env: Env, s: System, step: Step, p: (string, string))
    requires Possible(env, s, step) && p in Next(env, s, step).delivered && p !in s.delivered
    ensures step.OfWorker? && step.work.Succeed? && p == Pair(s.rows[s.workers[step.w].id])
  {
    if step.OfTask? {
      TaskLeaves(env, s, step.t, step.task);
    }
    hide TaskNext, TaskPossible, Final, Sidecar, Target, DirectlyIn;
  }

  ghost predicate Inv(env: Env, s: System) {
    Book(env, s) && Home(env, s) && Away(s)
  }

  lemma {:induction false} StepKeepsAway(env: Env, s: System, step: Step, names: set<string>)
    requires Possible(env, s, step) && Setting(env, s, step, names) && Inv(env, s) && Book(env, Next(env, s, step))
    ensures Away(Next(env, s, step))
  {
    hide Possible, Next, TasksBook, RowsBook, WorkersBook, Home, Setting, WorkAway, WorkBook, PairAway;
    var n := Next(env, s, step);
    forall o | o in n.workers
      ensures WorkBook(n, n.workers[o]) && WorkAway(n, n.workers[o])
    {
      WorkAwayKept(env, s, step, o, names);
    }
    forall p | p in n.delivered
      ensures PairAway(n, p)
    {
      DeliveredKept(env, s, step, p, names);
    }
  }

  lemma {:induction false} StepKeepsInv(env: Env, s: System, step: Step, names: set<string>)
    requires Possible(env, s, step) && Setting(env, s, step, names) && Inv(env, s)
    ensures Inv(env, Next(env, s, step))
  {
    hide Possible, Next, TasksBook, RowsBook, WorkersBook, Home, Away, NoClash, Fresh;
    StepKeepsBook(env, s, step);
    StepKeepsHome(env, s, step, names);
    StepKeepsAway(env, s, step, names);
  }

  // ----- Whole runs

  lemma {:induction false} RunKeepsInv(env: Env, s: System, steps: seq<Step>, names: set<string>)
    requires Run(env, s, steps) && Inv(env, s) && NoClash(env, names) && s.used <= names
    requires NoReuse(env, s, steps) && OpensOnly(steps, names)
    ensures Inv(env, After(env, s, steps))
    decreases |steps|
  {
    if steps != [] {
      hide Possible, Next, Inv, NoClash, OpensOnly, Fresh;
      TailOpens(steps, names);
      UsedGrows(env, s, steps[0]);
      StepKeepsInv(env, s, steps[0], names);
      RunKeepsInv(env, Next(env, s, steps[0]), steps[1..], names);
    }
  }

  /** The archive and the destination both hold the segment that was made and the manifest made for it. */
  ghost predicate Right(env: Env, s: System, rel: string, base: string) {
    rel in s.made && HomeOk(env, s, rel) && PairAway(s, (rel, base))
  }

  ghost predicate AllRight(env: Env, s: System) {
    forall rel, base :: (rel, base) in s.delivered ==> Right(env, s, rel, base)
  }

  /** In every run over these names that reuses no path, whatever fails or crashes, each delivery stays right. */
  ghost predicate AlwaysRight(env: Env, names: set<string>) {
    forall steps :: Run(env, Init(), steps) && OpensOnly(steps, names) && NoReuse(env, Init(), steps) ==> AllRight(env, After(env, Init(), steps))
  }

  /**
   * Whatever fails, crashes or is repeated: if no path is reused and nothing clashes, then once a job is
   * recorded as a success, the destination holds the segment now in the archive and the manifest that was
   * made for exactly that segment.
   */
  lemma {:induction false} DeliveredIsWhatWasFinalized(env: Env, steps: seq<Step>, names: set<string>, rel: string, base: string)
    requires Run(env, Init(), steps) && NoReuse(env, Init(), steps) && OpensOnly(steps, names) && NoClash(env, names)
    requires (rel, base) in After(env, Init(), steps).delivered
    ensures Right(env, After(env, Init(), steps), rel, base)
    ensures var files := After(env, Init(), steps).files;
            && Final(env, rel) in files && Sidecar(Final(env, rel)) in files
            && Target(base, rel) in files && Sidecar(Target(base, rel)) in files
            && files[Target(base, rel)] == files[Final(env, rel)]
            && files[Sidecar(Target(base, rel))] == files[Sidecar(Final(env, rel))] == Manifest(rel, files[Final(env, rel)])
  {
    RunKeepsInv(env, Init(), steps, names);
    hide Run, After, NoClash, NoReuse, OpensOnly, Final, Sidecar, Target, TasksBook, RowsBook;
    var s := After(env, Init(), steps);
    assert PairAway(s, (rel, base));
    assert HomeOk(env, s, rel);
  }
}
