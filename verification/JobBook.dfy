/** Which jobs there are: if no path is taken twice, one job for each segment and replica, and none once it is delivered. */
module JobBook {
  import opened Durability

  /** The step moves no segment onto a path that one was moved onto before. */
  ghost predicate Fresh(s: System, step: Step) {
    step.OfTask? && step.task.Rename? && step.t in s.tasks ==> s.tasks[step.t].rel !in s.moved
  }

  /** No final path is reused. Names may be opened again, after a crash or a failure, as often as need be. */
  ghost predicate NoReuse(env: Env, s: System, steps: seq<Step>)
    requires Run(env, s, steps)
    decreases |steps|
  {
    steps == [] || (Fresh(s, steps[0]) && NoReuse(env, Next(env, s, steps[0]), steps[1..]))
  }

  predicate InPlace(k: Task) {
    !k.stage.Writing? && !k.stage.Finished?
  }

  ghost predicate TaskBook(env: Env, s: System, k: Task) {
    && k.rel in s.used
    && (InPlace(k) ==> k.rel in s.moved && (k.stage.Enqueuing? <==> k.rel in s.made))
    && (k.stage.Enqueuing? ==> forall b :: b in k.stage.todo ==> b in env.bases && (k.rel, b) !in s.issued)
  }

  ghost predicate TasksBook(env: Env, s: System) {
    && (forall t :: t in s.tasks ==> TaskBook(env, s, s.tasks[t]))
    && (forall t, o :: t in s.tasks && o in s.tasks && InPlace(s.tasks[t]) && InPlace(s.tasks[o]) && s.tasks[t].rel == s.tasks[o].rel ==> t == o)
    && NamesBook(s) && IssuedBook(env, s)
  }

  ghost predicate NamesBook(s: System) {
    && (forall rel :: rel in s.made ==> rel in s.moved)
    && (forall rel :: rel in s.moved ==> rel in s.used)
  }

  ghost predicate IssuedBook(env: Env, s: System) {
    forall p :: p in s.issued ==> p.0 in s.made && p.1 in env.bases
  }

  ghost predicate RowsBook(s: System) {
    && (forall id :: id in s.rows ==> id < s.nextRow && Pair(s.rows[id]) in s.issued && Pair(s.rows[id]) !in s.delivered)
    && (forall i, j :: i in s.rows && j in s.rows && Pair(s.rows[i]) == Pair(s.rows[j]) ==> i == j)
    && s.delivered <= s.issued
  }

  function Pair(row: Row): (string, string) {
    (row.rel, row.base)
  }

  lemma {:induction false} TaskGrows(env: Env, s: System, t: nat, a: TaskStep)
    requires TaskPossible(env, s, t, a)
    ensures var n := TaskNext(env, s, t, a);
            && n.used == s.used + (if a.Open? then {a.rel} else {})
            && n.moved == s.moved + (if a.Rename? then {s.tasks[t].rel} else {})
            && n.made.Keys == s.made.Keys + (if a.EndManifest? then {s.tasks[t].rel} else {})
            && (forall rel :: rel in s.made && (a.EndManifest? ==> rel != s.tasks[t].rel) ==> n.made[rel] == s.made[rel])
            && n.issued == s.issued + (if a.Enqueue? then {(s.tasks[t].rel, a.base)} else {})
            && (t in n.tasks ==> n.tasks[t].rel == if a.Open? then a.rel else s.tasks[t].rel)
  {
    hide Final, Tmp, Sidecar;
  }

  lemma {:induction false} MovedTaskBook(env: Env, s: System, t: nat, a: TaskStep)
    requires TaskPossible(env, s, t, a) && t in TaskNext(env, s, t, a).tasks
    requires t in s.tasks ==> TaskBook(env, s, s.tasks[t])
    requires a.Rename? ==> s.tasks[t].rel !in s.made
    requires forall p :: p in s.issued ==> p.0 in s.made
    ensures TaskBook(env, TaskNext(env, s, t, a), TaskNext(env, s, t, a).tasks[t])
  {
    hide Final, Tmp, Sidecar;
  }

  lemma {:induction false} TaskStepNames(env: Env, s: System, t: nat, a: TaskStep)
    requires TaskPossible(env, s, t, a) && NamesBook(s)
    requires t in s.tasks ==> TaskBook(env, s, s.tasks[t])
    ensures NamesBook(TaskNext(env, s, t, a))
  {
    TaskGrows(env, s, t, a);
    assert a.EndManifest? ==> s.tasks[t].rel in s.moved;
    assert a.Rename? ==> s.tasks[t].rel in s.used;
    hide NamesBook, TaskNext, TaskPossible, TaskBook;
    GrownNames(s, TaskNext(env, s, t, a), if a.Open? then {a.rel} else {}, if a.Rename? then {s.tasks[t].rel} else {},
               if a.EndManifest? then {s.tasks[t].rel} else {});
  }

  lemma {:induction false} GrownNames(s: System, n: System, added: set<string>, renamed: set<string>, sealed: set<string>)
    requires NamesBook(s) && n.used == s.used + added && n.moved == s.moved + renamed && n.made.Keys == s.made.Keys + sealed
    requires renamed <= s.used && sealed <= s.moved
    ensures NamesBook(n)
  {
  }

  lemma {:induction false} TaskStepIssued(env: Env, s: System, t: nat, a: TaskStep)
    requires TaskPossible(env, s, t, a) && IssuedBook(env, s)
    requires t in s.tasks ==> TaskBook(env, s, s.tasks[t])
    ensures IssuedBook(env, TaskNext(env, s, t, a))
  {
    TaskGrows(env, s, t, a);
    hide TaskNext;
    if a.Enqueue? {
      assert (s.tasks[t].rel, a.base) !in s.issued;
    }
  }

  lemma {:induction false} OtherTaskBook(env: Env, s: System, t: nat, a: TaskStep, k: Task)
    requires TaskPossible(env, s, t, a) && TaskBook(env, s, k)
    requires t in s.tasks && InPlace(s.tasks[t]) && InPlace(k) ==> s.tasks[t].rel != k.rel
    requires a.Rename? ==> InPlace(k) ==> k.rel != s.tasks[t].rel
    ensures TaskBook(env, TaskNext(env, s, t, a), k)
  {
    TaskGrows(env, s, t, a);
    hide TaskNext;
  }

  lemma {:induction false} TaskStepBook(env: Env, s: System, t: nat, a: TaskStep)
    requires TaskPossible(env, s, t, a) && TasksBook(env, s) && Fresh(s, OfTask(t, a))
    ensures TasksBook(env, TaskNext(env, s, t, a))
  {
    var n := TaskNext(env, s, t, a);
    TaskStepNames(env, s, t, a);
    TaskStepIssued(env, s, t, a);
    TaskLeaves(env, s, t, a);
    TaskGrows(env, s, t, a);
    if t in n.tasks {
      MovedTaskBook(env, s, t, a);
    }
    forall o | o in n.tasks && o != t
      ensures TaskBook(env, n, n.tasks[o])
    {
      OtherTaskBook(env, s, t, a, s.tasks[o]);
    }
    RelsDistinct(env, s, t, a);
    hide TaskNext, TaskPossible, TaskBook, NamesBook, IssuedBook;
  }

  lemma {:induction false} RelsDistinct(env: Env, s: System, t: nat, a: TaskStep)
    requires TaskPossible(env, s, t, a) && TasksBook(env, s) && Fresh(s, OfTask(t, a))
    ensures var n := TaskNext(env, s, t, a);
            forall i, j :: i in n.tasks && j in n.tasks && InPlace(n.tasks[i]) && InPlace(n.tasks[j]) && n.tasks[i].rel == n.tasks[j].rel ==> i == j
  {
    TaskLeaves(env, s, t, a);
    TaskGrows(env, s, t, a);
    hide TaskNext, NamesBook, IssuedBook;
  }

  lemma {:induction false} WorkStepTasks(env: Env, s: System, w: nat, a: WorkStep)
    requires WorkPossible(env, s, w, a) && TasksBook(env, s)
    ensures TasksBook(env, WorkNext(env, s, w, a))
  {
    WorkLeaves(env, s, w, a);
    hide WorkNext, WorkPossible, TasksBook;
    SameTasksBook(env, s, WorkNext(env, s, w, a));
  }

  lemma {:induction false} SameTasksBook(env: Env, s: System, n: System)
    requires TasksBook(env, s)
    requires n.tasks == s.tasks && n.used == s.used && n.moved == s.moved && n.made == s.made && n.issued == s.issued
    ensures TasksBook(env, n)
  {
  }

  lemma {:induction false} TaskStepRows(env: Env, s: System, t: nat, a: TaskStep)
    requires TaskPossible(env, s, t, a) && TasksBook(env, s) && RowsBook(s)
    ensures RowsBook(TaskNext(env, s, t, a))
  {
    hide Final, Tmp, Sidecar;
  }

  lemma {:induction false} WorkStepRows(env: Env, s: System, w: nat, a: WorkStep)
    requires WorkPossible(env, s, w, a) && RowsBook(s)
    ensures RowsBook(WorkNext(env, s, w, a))
  {
    hide Final, Tmp, Sidecar, Target;
  }

  lemma {:induction false} UsedGrows(env: Env, s: System, step: Step)
    requires Possible(env, s, step)
    ensures Next(env, s, step).used == s.used + (if step.OfTask? && step.task.Open? then {step.task.rel} else {})
  {
    if step.OfTask? {
      TaskGrows(env, s, step.t, step.task);
    } else if step.OfWorker? {
      WorkLeaves(env, s, step.w, step.work);
    }
    hide TaskNext, WorkNext, WorkPossible, TaskPossible, DirectlyIn;
  }

  lemma {:induction false} RestartJobs(env: Env, s: System)
    requires TasksBook(env, s) && RowsBook(s)
    ensures TasksBook(env, Restarted(env, s)) && RowsBook(Restarted(env, s))
  {
    hide DirectlyIn;
  }

  lemma {:induction false} StepKeepsJobs(env: Env, s: System, step: Step)
    requires Possible(env, s, step) && Fresh(s, step) && TasksBook(env, s) && RowsBook(s)
    ensures TasksBook(env, Next(env, s, step)) && RowsBook(Next(env, s, step))
  {
    hide TasksBook, RowsBook, TaskNext, WorkNext, Restarted, TaskPossible, WorkPossible;
    match step
    case OfTask(t, a) =>
      TaskStepBook(env, s, t, a);
      TaskStepRows(env, s, t, a);
    case OfWorker(w, a) =>
      WorkStepTasks(env, s, w, a);
      WorkStepRows(env, s, w, a);
    case Restart =>
      RestartJobs(env, s);
  }

  lemma {:induction false} RunKeepsJobs(env: Env, s: System, steps: seq<Step>)
    requires Run(env, s, steps) && TasksBook(env, s) && RowsBook(s) && NoReuse(env, s, steps)
    ensures TasksBook(env, After(env, s, steps)) && RowsBook(After(env, s, steps))
    decreases |steps|
  {
    if steps != [] {
      hide Possible, Next, TasksBook, RowsBook, Fresh;
      StepKeepsJobs(env, s, steps[0]);
      RunKeepsJobs(env, Next(env, s, steps[0]), steps[1..]);
    }
  }

  /** A row never belongs to a segment and destination that were delivered, and no two rows to the same. */
  lemma {:induction false} OneJobPerReplica(env: Env, steps: seq<Step>, i: nat, j: nat)
    requires Run(env, Init(), steps) && NoReuse(env, Init(), steps)
    requires i in After(env, Init(), steps).rows && j in After(env, Init(), steps).rows
    ensures Pair(After(env, Init(), steps).rows[i]) !in After(env, Init(), steps).delivered
    ensures Pair(After(env, Init(), steps).rows[i]) == Pair(After(env, Init(), steps).rows[j]) ==> i == j
  {
    RunKeepsJobs(env, Init(), steps);
    hide Run, After, NoReuse, TasksBook;
  }
}
