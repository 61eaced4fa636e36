/** Which rows of the job table are claimed: those a worker holds, and those a stopped or killed worker held. */
module ClaimBook {
  import opened Durability

  /** The rows whose worker ends in this step without marking them. */
  ghost function LeftBy(s: System, step: Step): set<nat> {
    match step
    case OfWorker(w, Stop) => if w in s.workers then {s.workers[w].id} else {}
    case Restart => set w | w in s.workers :: s.workers[w].id
    case _ => {}
  }

  ghost function Left(env: Env, s: System, steps: seq<Step>): set<nat>
    requires Run(env, s, steps)
    decreases |steps|
  {
    if steps == [] then {} else LeftBy(s, steps[0]) + Left(env, Next(env, s, steps[0]), steps[1..])
  }

  ghost predicate HeldBy(s: System, w: nat, id: nat) {
    w in s.workers && s.workers[w].id == id
  }

  ghost predicate Held(s: System, id: nat) {
    exists w :: HeldBy(s, w, id)
  }

  /** Workers hold different rows, all claimed, and none that was left. */
  ghost predicate Holders(s: System, left: set<nat>) {
    && (forall w, id :: HeldBy(s, w, id) ==> id in s.rows && s.rows[id].claimed && id !in left)
    && (forall w, o, id :: HeldBy(s, w, id) && HeldBy(s, o, id) ==> w == o)
  }

  ghost predicate Claims(s: System, left: set<nat>) {
    && (forall id :: id in s.rows ==> id < s.nextRow)
    && (forall id :: id in left ==> id < s.nextRow)
    && (forall id :: id in s.rows ==> (s.rows[id].claimed <==> Held(s, id) || id in left))
  }

  lemma {:induction false} TaskKeepsClaims(env: Env, s: System, t: nat, step: TaskStep, left: set<nat>)
    requires TaskPossible(env, s, t, step) && Holders(s, left) && Claims(s, left)
    ensures Holders(TaskNext(env, s, t, step), left) && Claims(TaskNext(env, s, t, step), left)
  {
    var n := TaskNext(env, s, t, step);
    assert n.workers == s.workers;
    TaskRows(env, s, t, step);
    hide TaskNext, TaskPossible;
    SameHolders(s, n);
    NewUnheld(s, left);
    hide Held;
  }

  /** A task step adds at most one row, unclaimed. */
  lemma {:induction false} TaskRows(env: Env, s: System, t: nat, step: TaskStep)
    requires TaskPossible(env, s, t, step)
    ensures var n := TaskNext(env, s, t, step);
            && n.nextRow >= s.nextRow
            && (forall id :: id < s.nextRow ==> (id in n.rows <==> id in s.rows) && (id in s.rows ==> n.rows[id] == s.rows[id]))
            && (forall id :: id in n.rows && id !in s.rows ==> id == s.nextRow < n.nextRow && !n.rows[id].claimed)
  {
  }

  lemma {:induction false} NewUnheld(s: System, left: set<nat>)
    requires Holders(s, left) && Claims(s, left)
    ensures !Held(s, s.nextRow)
  {
  }

  lemma {:induction false} SameHolders(s: System, n: System)
    requires n.workers == s.workers
    ensures forall w, id :: HeldBy(s, w, id) <==> HeldBy(n, w, id)
    ensures forall id :: Held(s, id) <==> Held(n, id)
  {
    assert forall w, id :: HeldBy(s, w, id) <==> HeldBy(n, w, id);
  }

  /** A worker step that is not a claim touches at most the row its worker holds. */
  lemma {:induction false} OwnRowOnly(env: Env, s: System, w: nat, step: WorkStep)
    requires WorkPossible(env, s, w, step) && !step.Claim?
    ensures var n, id := WorkNext(env, s, w, step), s.workers[w].id;
            && n.nextRow == s.nextRow
            && (forall i :: i != id ==> (i in n.rows <==> i in s.rows) && (i in s.rows ==> n.rows[i].claimed == s.rows[i].claimed))
            && (forall o, i :: o != w ==> (HeldBy(n, o, i) <==> HeldBy(s, o, i)))
            && (if step.Succeed? then id !in n.rows && w !in n.workers
                else if step.Retry? then id in n.rows && !n.rows[id].claimed && w !in n.workers
                else if step.Stop? then n.rows == s.rows && w !in n.workers
                else n.rows == s.rows && HeldBy(n, w, id))
  {
  }

  lemma {:induction false} WorkKeepsClaims(env: Env, s: System, w: nat, step: WorkStep, left: set<nat>)
    requires WorkPossible(env, s, w, step) && Holders(s, left) && Claims(s, left)
    ensures var n, more := WorkNext(env, s, w, step), left + LeftBy(s, OfWorker(w, step));
            Holders(n, more) && Claims(n, more)
  {
    var n, more := WorkNext(env, s, w, step), left + LeftBy(s, OfWorker(w, step));
    if step.Claim? {
      assert forall o, i :: HeldBy(n, o, i) <==> (if o == w then i == step.id else HeldBy(s, o, i));
      hide WorkNext, WorkPossible;
      ClaimKeeps(s, n, w, step.id, left);
    } else {
      var id := s.workers[w].id;
      OwnRowOnly(env, s, w, step);
      assert HeldBy(s, w, id) && id in s.rows;
      assert more == left + (if step.Stop? then {id} else {});
      hide WorkNext, WorkPossible;
      EndKeeps(s, n, w, id, step, left, more);
    }
  }

  lemma {:induction false} ClaimKeeps(s: System, n: System, w: nat, id: nat, left: set<nat>)
    requires Holders(s, left) && Claims(s, left)
    requires w !in s.workers && id in s.rows && !s.rows[id].claimed
    requires n.nextRow == s.nextRow && n.rows == s.rows[id := s.rows[id].(claimed := true)]
    requires forall o, i :: HeldBy(n, o, i) <==> (if o == w then i == id else HeldBy(s, o, i))
    ensures Holders(n, left) && Claims(n, left)
  {
    assert HeldBy(n, w, id);
    forall i | i in n.rows
      ensures n.rows[i].claimed <==> Held(n, i) || i in left
    {
      if i != id && Held(s, i) {
        var o :| HeldBy(s, o, i);
        assert HeldBy(n, o, i);
      }
    }
  }

  lemma {:induction false} EndKeeps(s: System, n: System, w: nat, id: nat, step: WorkStep, left: set<nat>, more: set<nat>)
    requires Holders(s, left) && Claims(s, left) && HeldBy(s, w, id) && n.nextRow == s.nextRow
    requires more == left + (if step.Stop? then {id} else {})
    requires forall i :: i != id ==> (i in n.rows <==> i in s.rows) && (i in s.rows ==> n.rows[i].claimed == s.rows[i].claimed)
    requires forall o, i :: o != w ==> (HeldBy(n, o, i) <==> HeldBy(s, o, i))
    requires if step.Succeed? then id !in n.rows && w !in n.workers
             else if step.Retry? then id in n.rows && !n.rows[id].claimed && w !in n.workers
             else if step.Stop? then n.rows == s.rows && w !in n.workers
             else n.rows == s.rows && HeldBy(n, w, id)
    ensures Holders(n, more) && Claims(n, more)
  {
    forall i | i in n.rows
      ensures n.rows[i].claimed <==> Held(n, i) || i in more
    {
      if i != id && Held(s, i) {
        var o :| HeldBy(s, o, i);
        assert HeldBy(n, o, i);
      }
    }
  }

  lemma {:induction false} RestartKeepsClaims(env: Env, s: System, left: set<nat>)
    requires Holders(s, left) && Claims(s, left)
    ensures Holders(Restarted(env, s), left + LeftBy(s, Restart)) && Claims(Restarted(env, s), left + LeftBy(s, Restart))
  {
    var n, more := Restarted(env, s), left + LeftBy(s, Restart);
    assert n.rows == s.rows && n.nextRow == s.nextRow && n.workers == map[];
    hide Restarted;
    assert forall id :: id in more <==> id in left || Held(s, id) by {
      assert forall w :: w in s.workers ==> HeldBy(s, w, s.workers[w].id);
    }
  }

  lemma {:induction false} StepKeepsClaims(env: Env, s: System, step: Step, left: set<nat>)
    requires Possible(env, s, step) && Holders(s, left) && Claims(s, left)
    ensures Holders(Next(env, s, step), left + LeftBy(s, step)) && Claims(Next(env, s, step), left + LeftBy(s, step))
  {
    match step {
      case OfTask(t, a) =>
        TaskKeepsClaims(env, s, t, a, left);
        assert left + LeftBy(s, step) == left;
      case OfWorker(w, a) =>
        WorkKeepsClaims(env, s, w, a, left);
      case Restart =>
        RestartKeepsClaims(env, s, left);
    }
    hide Holders, Claims, TaskNext, WorkNext, Restarted, LeftBy, TaskPossible, WorkPossible;
  }

  lemma {:induction false} RunKeepsClaims(env: Env, s: System, steps: seq<Step>, left: set<nat>)
    requires Run(env, s, steps) && Holders(s, left) && Claims(s, left)
    ensures var n := After(env, s, steps);
            Holders(n, left + Left(env, s, steps)) && Claims(n, left + Left(env, s, steps))
    decreases |steps|
  {
    if steps == [] {
      assert left + {} == left;
    } else {
      var step := steps[0];
      hide Holders, Claims, Next, LeftBy, Possible;
      StepKeepsClaims(env, s, step, left);
      var n := Next(env, s, step);
      RunKeepsClaims(env, n, steps[1..], left + LeftBy(s, step));
      assert left + LeftBy(s, step) + Left(env, n, steps[1..]) == left + (LeftBy(s, step) + Left(env, n, steps[1..]));
    }
  }

  /**
   After any run, restarts included, a row of the job table is claimed exactly if a worker holds it or the worker
   that held it was stopped or killed: retries give their rows back, and nothing else does.
   */
  lemma {:induction false} ClaimedIffHeldOrLeft(env: Env, steps: seq<Step>, id: nat)
    requires Run(env, Init(), steps)
    ensures var s := After(env, Init(), steps);
            id in s.rows ==> (s.rows[id].claimed <==> (exists w :: w in s.workers && s.workers[w].id == id) || id in Left(env, Init(), steps))
  {
    RunKeepsClaims(env, Init(), steps, {});
    assert {} + Left(env, Init(), steps) == Left(env, Init(), steps);
    var s := After(env, Init(), steps);
    hide After, Left;
    assert Held(s, id) <==> exists w :: w in s.workers && s.workers[w].id == id by {
      if Held(s, id) {
        var w :| HeldBy(s, w, id);
        assert w in s.workers && s.workers[w].id == id;
      }
      if w :| w in s.workers && s.workers[w].id == id {
        assert HeldBy(s, w, id);
      }
    }
  }

  // ----- Whose copy a worker makes

  /** The manifests that lie in the store, with the names they are for. */
  ghost function Manifests(s: System): set<(string, string)> {
    set p | p in s.files && s.files[p].Manifest? :: (p, s.files[p].rel)
  }

  /** Those that have lain there at some time in a run. */
  ghost function Seen(env: Env, s: System, steps: seq<Step>): set<(string, string)>
    requires Run(env, s, steps)
    decreases |steps|
  {
    if steps == [] then {} else Manifests(s) + Seen(env, Next(env, s, steps[0]), steps[1..])
  }

  ghost predicate FromManifest(env: Env, s: System, w: nat, seen: set<(string, string)>) {
    w in s.workers && s.workers[w].id in s.rows && !s.workers[w].phase.Claimed? ==>
      (Sidecar(Final(env, s.rows[s.workers[w].id].rel)), s.workers[w].rel) in seen
  }

  /** A row keeps its segment and its destination for good. */
  lemma {:induction false} RowsKeepPairs(env: Env, s: System, step: Step)
    requires Possible(env, s, step)
    ensures var n := Next(env, s, step);
            forall id :: id in n.rows && id < s.nextRow ==> id in s.rows && n.rows[id].rel == s.rows[id].rel && n.rows[id].base == s.rows[id].base
  {
    hide Final, Tmp, Sidecar, Target, DirectlyIn;
  }

  lemma {:induction false} OwnParse(env: Env, s: System, w: nat, a: WorkStep, seen: set<(string, string)>)
    requires WorkPossible(env, s, w, a) && w in WorkNext(env, s, w, a).workers && FromManifest(env, s, w, seen)
    ensures FromManifest(env, WorkNext(env, s, w, a), w, seen + Manifests(s))
  {
    if a.Parse? {
      var path := Sidecar(Final(env, s.rows[s.workers[w].id].rel));
      assert (path, s.files[path].rel) in Manifests(s);
    }
    hide Final, Tmp, Sidecar, Target, Manifests;
  }

  /** A step leaves the other workers alone. */
  lemma {:induction false} OthersWork(env: Env, s: System, step: Step, o: nat)
    requires Possible(env, s, step) && o in Next(env, s, step).workers && !(step.OfWorker? && step.w == o)
    ensures o in s.workers && Next(env, s, step).workers[o] == s.workers[o]
  {
    hide Final, Tmp, Sidecar, Target, DirectlyIn;
  }

  lemma {:induction false} StepKeepsParsed(env: Env, s: System, step: Step, w: nat, left: set<nat>, seen: set<(string, string)>)
    requires Possible(env, s, step) && Holders(s, left) && Claims(s, left) && FromManifest(env, s, w, seen)
    ensures FromManifest(env, Next(env, s, step), w, seen + Manifests(s))
  {
    var n := Next(env, s, step);
    if w in n.workers {
      if step.OfWorker? && step.w == w {
        hide Holders, Claims, FromManifest, WorkPossible, WorkNext, Manifests;
        OwnParse(env, s, w, step.work, seen);
      } else {
        OthersWork(env, s, step, w);
        RowsKeepPairs(env, s, step);
        assert HeldBy(s, w, s.workers[w].id);
        hide Next, Possible, Manifests, Held, Sidecar, Final;
      }
    }
  }

  lemma {:induction false} RunKeepsParsed(env: Env, s: System, steps: seq<Step>, w: nat, left: set<nat>, seen: set<(string, string)>)
    requires Run(env, s, steps) && Holders(s, left) && Claims(s, left) && FromManifest(env, s, w, seen)
    ensures FromManifest(env, After(env, s, steps), w, seen + Seen(env, s, steps))
    decreases |steps|
  {
    if steps == [] {
      assert seen + {} == seen;
    } else {
      var step := steps[0];
      var n := Next(env, s, step);
      hide Holders, Claims, FromManifest, Possible, Next, Manifests, LeftBy;
      StepKeepsParsed(env, s, step, w, left, seen);
      StepKeepsClaims(env, s, step, left);
      RunKeepsParsed(env, n, steps[1..], w, left + LeftBy(s, step), seen + Manifests(s));
      assert seen + Manifests(s) + Seen(env, n, steps[1..]) == seen + (Manifests(s) + Seen(env, n, steps[1..]));
    }
  }

  /**
   After any run a worker past its claim copies to the name that stood in a manifest at its job's segment, whatever
   that manifest was for.
   */
  lemma {:induction false} CopiesWhatTheManifestNames(env: Env, steps: seq<Step>, w: nat)
    requires Run(env, Init(), steps)
    ensures var s := After(env, Init(), steps);
            w in s.workers && s.workers[w].id in s.rows && !s.workers[w].phase.Claimed? ==>
              (Sidecar(Final(env, s.rows[s.workers[w].id].rel)), s.workers[w].rel) in Seen(env, Init(), steps)
  {
    RunKeepsParsed(env, Init(), steps, w, {}, {});
    assert {} + Seen(env, Init(), steps) == Seen(env, Init(), steps);
    hide After, Seen, Sidecar, Final;
  }
}
