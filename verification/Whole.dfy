/** A finalized segment holds what its writer finished, as long as no two writers share a temporary file. */
module Whole {
  import opened Durability
  import opened JobBook
  import opened Replicas
  import opened CrashRuns
  import Rotation

  /** A writer opens a name only when no other one is still writing or about to rename the same temporary file. */
  ghost predicate OneWriter(env: Env, s: System, step: Step) {
    step.OfTask? && step.task.Open? ==>
      forall t :: t in s.tasks && !InPlace(s.tasks[t]) ==> Tmp(env, s.tasks[t].rel) != Tmp(env, step.task.rel)
  }

  ghost predicate OneWriterAlways(env: Env, s: System, steps: seq<Step>)
    requires Run(env, s, steps)
    decreases |steps|
  {
    steps == [] || (OneWriter(env, s, steps[0]) && OneWriterAlways(env, Next(env, s, steps[0]), steps[1..]))
  }

  /** What a writer finishes in this step. */
  ghost function FinishedBy(s: System, step: Step): set<(string, seq<Rotation.Record>)> {
    match step
    case OfTask(t, Finish(records)) => if t in s.tasks then {(s.tasks[t].rel, records)} else {}
    case _ => {}
  }

  /** What the writers of a run finished. */
  ghost function Finishes(env: Env, s: System, steps: seq<Step>): set<(string, seq<Rotation.Record>)>
    requires Run(env, s, steps)
    decreases |steps|
  {
    if steps == [] then {} else FinishedBy(s, steps[0]) + Finishes(env, Next(env, s, steps[0]), steps[1..])
  }

  predicate IsDone(c: Content, rel: string, done: set<(string, seq<Rotation.Record>)>) {
    c.Segment? && (rel, c.records) in done
  }

  ghost predicate FileDone(s: System, path: string, rel: string, done: set<(string, seq<Rotation.Record>)>) {
    path in s.files && IsDone(s.files[path], rel, done)
  }

  /** A writer's segment, wherever it has got to, is what the writer finished. */
  ghost predicate TaskDone(env: Env, s: System, k: Task, done: set<(string, seq<Rotation.Record>)>) {
    match k.stage
    case Finished => FileDone(s, Tmp(env, k.rel), k.rel, done)
    case Renamed => FileDone(s, Final(env, k.rel), k.rel, done)
    case Hashed(of) => IsDone(of, k.rel, done)
    case Sealing(of) => IsDone(of, k.rel, done)
    case _ => true
  }

  ghost predicate TasksDone(env: Env, s: System, done: set<(string, seq<Rotation.Record>)>) {
    forall t :: t in s.tasks ==> TaskDone(env, s, s.tasks[t], done)
  }

  ghost predicate TmpsApart(env: Env, s: System) {
    forall t, o ::
      t in s.tasks && o in s.tasks && !InPlace(s.tasks[t]) && !InPlace(s.tasks[o]) && Tmp(env, s.tasks[t].rel) == Tmp(env, s.tasks[o].rel) ==> t == o
  }

  ghost predicate MadeDone(s: System, done: set<(string, seq<Rotation.Record>)>) {
    forall rel :: rel in s.made ==> IsDone(s.made[rel], rel, done)
  }

  lemma {:induction false} StepKeepsTmpsApart(env: Env, s: System, step: Step)
    requires Possible(env, s, step) && OneWriter(env, s, step) && TmpsApart(env, s)
    ensures TmpsApart(env, Next(env, s, step))
  {
    var n := Next(env, s, step);
    if step.OfTask? {
      TaskMoves(env, s, step.t, step.task);
      hide TaskNext, TaskPossible, Tmp, InPlace;
    } else {
      assert forall t :: t in n.tasks ==> t in s.tasks && n.tasks[t] == s.tasks[t] by {
        OtherTasks(env, s, step);
      }
      hide Next, Tmp, InPlace;
    }
  }

  /** A writer's step concerns its own task only, and no step takes a segment back out of its place. */
  lemma {:induction false} TaskMoves(env: Env, s: System, t: nat, a: TaskStep)
    requires TaskPossible(env, s, t, a)
    ensures var n := TaskNext(env, s, t, a);
            && (forall o :: o != t ==> (o in n.tasks <==> o in s.tasks) && (o in s.tasks ==> n.tasks[o] == s.tasks[o]))
            && (t in n.tasks ==> if a.Open? then n.tasks[t] == Task(a.rel, Writing)
                                 else t in s.tasks && n.tasks[t].rel == s.tasks[t].rel && (!InPlace(n.tasks[t]) ==> !InPlace(s.tasks[t])))
  {
    hide Final, Tmp, Sidecar, Target;
  }

  lemma {:induction false} OtherTasks(env: Env, s: System, step: Step)
    requires Possible(env, s, step) && !step.OfTask?
    ensures forall t :: t in Next(env, s, step).tasks ==> t in s.tasks && Next(env, s, step).tasks[t] == s.tasks[t]
    ensures Next(env, s, step).made == s.made
  {
    hide Final, Tmp, Sidecar, Target, DirectlyIn;
  }

  // ----- Temporary files

  lemma {:induction false} TaskWritesTmp(env: Env, s: System, t: nat, a: TaskStep, path: string)
    requires TaskPossible(env, s, t, a) && path in Written(env, s, OfTask(t, a))
    ensures if a.Open? then path == Tmp(env, a.rel)
            else
              t in s.tasks
              && (|| (path == Tmp(env, s.tasks[t].rel) && !InPlace(s.tasks[t]))
                  || path in {Final(env, s.tasks[t].rel), Sidecar(Final(env, s.tasks[t].rel))})
  {
    hide Final, Tmp, Sidecar, Target;
  }

  /** No other writer touches a writer's temporary file. */
  lemma {:induction false} TaskSparesTmp(env: Env, s: System, t: nat, a: TaskStep, o: nat, names: set<string>)
    requires TaskPossible(env, s, t, a) && TasksBook(env, s) && Setting(env, s, OfTask(t, a), names)
    requires OneWriter(env, s, OfTask(t, a)) && TmpsApart(env, s)
    requires o in s.tasks && o != t && !InPlace(s.tasks[o])
    ensures Tmp(env, s.tasks[o].rel) !in Written(env, s, OfTask(t, a))
  {
    var path := Tmp(env, s.tasks[o].rel);
    TaskNamed(env, s, o);
    if !a.Open? {
      TaskNamed(env, s, t);
      ClashFree(env, names, s.tasks[o].rel, env.cfg.root, s.tasks[t].rel, env.cfg.root);
      assert Final(env, s.tasks[t].rel) == Target(env.cfg.root, s.tasks[t].rel);
      TmpIsNoSidecar(env, s.tasks[o].rel, Final(env, s.tasks[t].rel));
    }
    hide TasksBook, NoClash, Fresh, Final, Tmp, Sidecar, Target, Written, TaskPossible, InPlace, PathsApart;
    if path in Written(env, s, OfTask(t, a)) {
      TaskWritesTmp(env, s, t, a, path);
    }
  }

  /** Nor does a replication worker. */
  lemma {:induction false} WorkSparesTmp(env: Env, s: System, w: nat, a: WorkStep, o: nat, names: set<string>)
    requires WorkPossible(env, s, w, a) && Book(env, s) && Setting(env, s, OfWorker(w, a), names)
    requires o in s.tasks
    ensures Tmp(env, s.tasks[o].rel) !in Written(env, s, OfWorker(w, a))
  {
    var path := Tmp(env, s.tasks[o].rel);
    TaskNamed(env, s, o);
    if path in Written(env, s, OfWorker(w, a)) {
      WorkWritten(env, s, w, a, path);
      WorkIsNamed(env, s, w, a);
      hide *;
      WorkerClashFree(env, s, w, o, names);
    }
  }

  lemma {:induction false} WorkerClashFree(env: Env, s: System, w: nat, o: nat, names: set<string>)
    requires NoClash(env, names) && s.used <= names && w in s.workers && s.workers[w].id in s.rows && o in s.tasks && s.tasks[o].rel in s.used
    requires var k := s.workers[w]; k.rel == s.rows[k.id].rel && k.rel in s.used && s.rows[k.id].base in env.bases
    ensures var target := Target(s.rows[s.workers[w].id].base, s.workers[w].rel);
            Tmp(env, s.tasks[o].rel) != target && Tmp(env, s.tasks[o].rel) != Sidecar(target)
  {
    var k := s.workers[w];
    TmpIsNoSidecar(env, s.tasks[o].rel, Target(s.rows[k.id].base, k.rel));
    hide NoClash, Tmp, Target, Sidecar;
    ClashFree(env, names, s.tasks[o].rel, s.rows[k.id].base, k.rel, s.rows[k.id].base);
  }

  lemma {:induction false} OnlyWorkWrites(env: Env, s: System, w: nat, a: WorkStep, path: string)
    requires WorkPossible(env, s, w, a) && path in s.files && path !in Written(env, s, OfWorker(w, a))
    ensures path in WorkNext(env, s, w, a).files && WorkNext(env, s, w, a).files[path] == s.files[path]
  {
    hide Final, Tmp, Sidecar, Target;
  }

  /** A finished temporary file stays as it is under every step but its own writer's and a restart. */
  lemma {:induction false} TmpStays(env: Env, s: System, step: Step, o: nat, names: set<string>)
    requires Possible(env, s, step) && Book(env, s) && Setting(env, s, step, names) && OneWriter(env, s, step) && TmpsApart(env, s)
    requires o in s.tasks && !InPlace(s.tasks[o]) && !(step.OfTask? && step.t == o) && !step.Restart?
    requires Tmp(env, s.tasks[o].rel) in s.files
    ensures var tmp := Tmp(env, s.tasks[o].rel);
            tmp in Next(env, s, step).files && Next(env, s, step).files[tmp] == s.files[tmp]
  {
    hide TasksBook, RowsBook, WorkersBook, Setting, OneWriter, TmpsApart, Tmp, InPlace, TaskPossible, WorkPossible, TaskNext, WorkNext, Written;
    var tmp := Tmp(env, s.tasks[o].rel);
    if step.OfTask? {
      TaskSparesTmp(env, s, step.t, step.task, o, names);
      OnlyTaskWrites(env, s, step.t, step.task, tmp);
    } else {
      WorkSparesTmp(env, s, step.w, step.work, o, names);
      OnlyWorkWrites(env, s, step.w, step.work, tmp);
    }
  }

  // ----- Segments in place

  /** A segment renamed and not yet hashed stays as it is. */
  lemma {:induction false} PlacedStays(env: Env, s: System, step: Step, o: nat, names: set<string>)
    requires Possible(env, s, step) && Book(env, s) && Setting(env, s, step, names)
    requires o in s.tasks && s.tasks[o].stage.Renamed? && !(step.OfTask? && step.t == o)
    requires Final(env, s.tasks[o].rel) in s.files
    ensures var final := Final(env, s.tasks[o].rel);
            final in Next(env, s, step).files && Next(env, s, step).files[final] == s.files[final]
  {
    var rel := s.tasks[o].rel;
    TaskNamed(env, s, o);
    assert rel in names;
    ClashFree(env, names, rel, env.cfg.root, rel, env.cfg.root);
    assert Final(env, rel) == Target(env.cfg.root, rel);
    if step.OfTask? && WritesHome(step.task) {
      OthersHome(env, s, step.t, step.task, o);
    }
    hide TasksBook, RowsBook, WorkersBook, Setting, Possible, Next, Final, Target;
    HomeSpared(env, s, step, rel, names);
    FileStays(env, s, step, env.cfg.root, rel);
  }

  lemma {:induction false} OthersHome(env: Env, s: System, t: nat, a: TaskStep, o: nat)
    requires TaskPossible(env, s, t, a) && WritesHome(a) && TasksBook(env, s) && Fresh(s, OfTask(t, a))
    requires o in s.tasks && InPlace(s.tasks[o]) && o != t
    ensures t in s.tasks && s.tasks[t].rel != s.tasks[o].rel
  {
    TwoTasks(env, s, t, o);
    TwoTasks(env, s, o, t);
    hide TasksBook, Final, Tmp, Sidecar;
  }

  // ----- Steps

  lemma {:induction false} DoneGrows(env: Env, s: System, k: Task, done: set<(string, seq<Rotation.Record>)>, more: set<(string, seq<Rotation.Record>)>)
    requires TaskDone(env, s, k, done)
    ensures TaskDone(env, s, k, done + more)
  {
    hide Final, Tmp;
  }

  lemma {:induction false} OwnTaskDone(env: Env, s: System, t: nat, a: TaskStep, done: set<(string, seq<Rotation.Record>)>)
    requires TaskPossible(env, s, t, a) && t in TaskNext(env, s, t, a).tasks
    requires t in s.tasks ==> TaskDone(env, s, s.tasks[t], done)
    ensures TaskDone(env, TaskNext(env, s, t, a), TaskNext(env, s, t, a).tasks[t], done + FinishedBy(s, OfTask(t, a)))
  {
    hide Final, Tmp, Sidecar, Target;
  }

  lemma {:induction false} OtherTaskDone(env: Env, s: System, step: Step, o: nat, names: set<string>, done: set<(string, seq<Rotation.Record>)>)
    requires Possible(env, s, step) && Book(env, s) && Setting(env, s, step, names) && OneWriter(env, s, step) && TmpsApart(env, s)
    requires o in s.tasks && !(step.OfTask? && step.t == o) && !step.Restart?
    requires TaskDone(env, s, s.tasks[o], done)
    ensures TaskDone(env, Next(env, s, step), s.tasks[o], done)
  {
    if s.tasks[o].stage.Finished? {
      assert !InPlace(s.tasks[o]);
      hide Book, Setting, OneWriter, TmpsApart, Possible, Next, Tmp, Final;
      TmpStays(env, s, step, o, names);
    } else if s.tasks[o].stage.Renamed? {
      hide Book, Setting, OneWriter, TmpsApart, Possible, Next, Tmp, Final;
      PlacedStays(env, s, step, o, names);
    }
    hide Book, Setting, OneWriter, TmpsApart, Possible, Next, Tmp, Final;
  }

  lemma {:induction false} StepKeepsTasksDone(env: Env, s: System, step: Step, names: set<string>, done: set<(string, seq<Rotation.Record>)>)
    requires Possible(env, s, step) && Book(env, s) && Setting(env, s, step, names) && OneWriter(env, s, step) && TmpsApart(env, s)
    requires TasksDone(env, s, done)
    ensures TasksDone(env, Next(env, s, step), done + FinishedBy(s, step))
  {
    var n := Next(env, s, step);
    hide Book, Setting, OneWriter, TmpsApart, TaskPossible, WorkPossible, TaskNext, WorkNext, TaskDone, FinishedBy;
    forall o | o in n.tasks
      ensures TaskDone(env, n, n.tasks[o], done + FinishedBy(s, step))
    {
      if step.OfTask? && step.t == o {
        OwnTaskDone(env, s, o, step.task, done);
      } else {
        if step.OfTask? {
          TaskMoves(env, s, step.t, step.task);
        } else {
          OtherTasks(env, s, step);
        }
        OtherTaskDone(env, s, step, o, names, done);
        DoneGrows(env, n, n.tasks[o], done, FinishedBy(s, step));
      }
    }
  }

  lemma {:induction false} StepKeepsMadeDone(env: Env, s: System, step: Step, done: set<(string, seq<Rotation.Record>)>)
    requires Possible(env, s, step) && TasksDone(env, s, done) && MadeDone(s, done)
    ensures MadeDone(Next(env, s, step), done + FinishedBy(s, step))
  {
    if step.OfTask? {
      SealedDone(env, s, step.t, step.task, done);
      hide TaskNext, TaskPossible, TasksDone, FinishedBy;
    } else {
      OtherTasks(env, s, step);
      hide Next, Possible, TasksDone, FinishedBy;
    }
  }

  lemma {:induction false} SealedDone(env: Env, s: System, t: nat, a: TaskStep, done: set<(string, seq<Rotation.Record>)>)
    requires TaskPossible(env, s, t, a) && TasksDone(env, s, done)
    ensures var n := TaskNext(env, s, t, a);
            forall rel :: rel in n.made ==> (rel in s.made && n.made[rel] == s.made[rel]) || IsDone(n.made[rel], rel, done)
  {
    assert t in s.tasks ==> TaskDone(env, s, s.tasks[t], done);
    hide Final, Tmp, Sidecar, Target, TasksDone;
  }

  // ----- Runs

  lemma {:induction false} RunKeepsDone(env: Env, s: System, steps: seq<Step>, names: set<string>, done: set<(string, seq<Rotation.Record>)>)
    requires Run(env, s, steps) && Inv(env, s) && NoClash(env, names) && s.used <= names
    requires NoReuse(env, s, steps) && OpensOnly(steps, names) && OneWriterAlways(env, s, steps)
    requires TmpsApart(env, s) && TasksDone(env, s, done) && MadeDone(s, done)
    ensures MadeDone(After(env, s, steps), done + Finishes(env, s, steps))
    decreases |steps|
  {
    if steps == [] {
      assert done + {} == done;
    } else {
      var step := steps[0];
      TailOpens(steps, names);
      UsedGrows(env, s, step);
      var n := Next(env, s, step);
      assert Setting(env, s, step, names);
      assert Book(env, s);
      hide Possible, Next, Inv, NoClash, OpensOnly, Fresh, OneWriter, TmpsApart, TasksDone, MadeDone, FinishedBy, Book, Setting;
      StepKeepsInv(env, s, step, names);
      StepKeepsTmpsApart(env, s, step);
      StepKeepsTasksDone(env, s, step, names, done);
      StepKeepsMadeDone(env, s, step, done);
      RunKeepsDone(env, n, steps[1..], names, done + FinishedBy(s, step));
      assert done + FinishedBy(s, step) + Finishes(env, n, steps[1..]) == done + (FinishedBy(s, step) + Finishes(env, n, steps[1..]));
    }
  }

  /**
   If besides no two writers share a temporary file, whatever fails or crashes, the copy a finished job leaves at
   its destination is a whole segment: the records some writer of that name finished.
   */
  lemma {:induction false} DeliveredIsWhole(env: Env, steps: seq<Step>, names: set<string>, rel: string, base: string)
    returns (records: seq<Rotation.Record>)
    requires Run(env, Init(), steps) && NoReuse(env, Init(), steps) && OpensOnly(steps, names) && NoClash(env, names)
    requires OneWriterAlways(env, Init(), steps)
    requires (rel, base) in After(env, Init(), steps).delivered
    ensures (rel, records) in Finishes(env, Init(), steps)
    ensures var files := After(env, Init(), steps).files;
            && Target(base, rel) in files && files[Target(base, rel)] == Segment(records)
            && Sidecar(Target(base, rel)) in files && files[Sidecar(Target(base, rel))] == Manifest(rel, Segment(records))
  {
    RunKeepsDone(env, Init(), steps, names, {});
    assert {} + Finishes(env, Init(), steps) == Finishes(env, Init(), steps);
    var s := After(env, Init(), steps);
    DeliveredIsWhatWasFinalized(env, steps, names, rel, base);
    records := s.made[rel].records;
    hide After, Run, NoReuse, NoClash, Finishes, OneWriterAlways;
  }

  lemma {:induction false} ThirdOpensTwice(env: Env, s: System, steps: seq<Step>, s1: System, s2: System)
    requires Run(env, s, steps) && |steps| > 2 && Possible(env, s, steps[0]) && s1 == Next(env, s, steps[0])
    requires Possible(env, s1, steps[1]) && s2 == Next(env, s1, steps[1]) && !OneWriter(env, s2, steps[2])
    ensures !OneWriterAlways(env, s, steps)
  {
    hide Possible, Next, OneWriter;
    assert steps[1..][0] == steps[1] && steps[1..][1..][0] == steps[2];
    assert OneWriterAlways(env, s, steps) ==> OneWriterAlways(env, s1, steps[1..]);
    assert OneWriterAlways(env, s1, steps[1..]) ==> OneWriterAlways(env, s2, steps[1..][1..]);
  }

  /** Otherwise it need not be: a second writer of the name tears the segment that the first renames. */
  lemma {:induction false} SecondWriterTears(env: Env, names: set<string>, rel: string, records: seq<Rotation.Record>)
    returns (steps: seq<Step>, t: System)
    requires rel in names
    ensures Reached(env, names, true, steps, t) && !OneWriterAlways(env, Init(), steps)
    ensures rel in t.made && t.made[rel] == Torn && Final(env, rel) in t.files && t.files[Final(env, rel)] == Torn
  {
    Begin(env, names, true);
    TmpIsNotFinal(env, rel);
    NotItsOwnSidecar(Final(env, rel));
    var s0 := Init();
    var s1 := Next(env, s0, OfTask(0, Open(rel)));
    var s2 := Next(env, s1, OfTask(0, Finish(records)));
    var s3 := Next(env, s2, OfTask(1, Open(rel)));
    assert !OneWriter(env, s2, OfTask(1, Open(rel)));
    hide Final, Tmp, Sidecar, Reached;
    steps := [];
    Push(env, names, true, steps, s0, OfTask(0, Open(rel)));
    steps := steps + [OfTask(0, Open(rel))];
    Push(env, names, true, steps, s1, OfTask(0, Finish(records)));
    steps := steps + [OfTask(0, Finish(records))];
    Push(env, names, true, steps, s2, OfTask(1, Open(rel)));
    steps := steps + [OfTask(1, Open(rel))];
    Push(env, names, true, steps, s3, OfTask(0, Rename));
    steps, t := steps + [OfTask(0, Rename)], Next(env, s3, OfTask(0, Rename));
    steps, t := Seal(env, names, true, steps, t, rel);
    ThirdOpensTwice(env, s0, steps, s1, s2);
  }
}
