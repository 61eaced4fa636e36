/** Claim order, backoff and draining of the replication queue, over whole runs. */
module ReplicationOrder {
  import opened Queue
  import opened Replication

  /** The clock does not run backwards. */
  ghost predicate Monotone(s: System, steps: seq<Step>)
    requires Possible(s, steps)
    decreases |steps|
  {
    steps == [] || (steps[0].now >= s.clock && Monotone(Next(s, steps[0]), steps[1..]))
  }

  /** The time of the step before step `i`, or the start of the run. */
  function TimeBefore(clock: int, steps: seq<Step>, i: nat): int
    requires i <= |steps|
  {
    if i == 0 then clock else steps[i - 1].now
  }

  ghost predicate NoneEarlier(clock: int, steps: seq<Step>) {
    forall i :: 0 <= i < |steps| ==> steps[i].now >= TimeBefore(clock, steps, i)
  }

  /** The clock is the time of the last step: a run is monotone exactly when no step is earlier than the one before. */
  lemma {:induction false} MonotoneSpelled(s: System, steps: seq<Step>)
    requires Possible(s, steps)
    ensures Monotone(s, steps) <==> NoneEarlier(s.clock, steps)
    decreases |steps|
  {
    if steps != [] {
      var n := Next(s, steps[0]);
      assert n.clock == steps[0].now;
      MonotoneSpelled(n, steps[1..]);
      assert Monotone(s, steps) <==> steps[0].now >= s.clock && Monotone(n, steps[1..]);
      hide *;
      TimesCons(s.clock, steps);
    }
  }

  lemma {:induction false} TimesCons(clock: int, steps: seq<Step>)
    requires steps != []
    ensures NoneEarlier(clock, steps) <==> steps[0].now >= clock && NoneEarlier(steps[0].now, steps[1..])
  {
    var rest := steps[1..];
    assert forall i :: 0 <= i < |rest| ==> TimeBefore(steps[0].now, rest, i) == TimeBefore(clock, steps, i + 1);
    if NoneEarlier(clock, steps) {
      forall i | 0 <= i < |rest|
        ensures rest[i].now >= TimeBefore(steps[0].now, rest, i)
      {
        assert steps[i + 1].now >= TimeBefore(clock, steps, i + 1);
      }
      assert steps[0].now >= TimeBefore(clock, steps, 0);
    }
    if steps[0].now >= clock && NoneEarlier(steps[0].now, rest) {
      forall i | 0 <= i < |steps|
        ensures steps[i].now >= TimeBefore(clock, steps, i)
      {
        if i > 0 {
          assert rest[i - 1].now >= TimeBefore(steps[0].now, rest, i - 1);
        }
      }
    }
  }

  /** A row that is waiting for its first attempt. */
  predicate Waiting(t: Table, id: nat) {
    id in t.rows && t.rows[id].status == Pending && t.rows[id].attempts == 0
  }

  ghost predicate Ordered(s: System) {
    && (forall id :: Waiting(s.table, id) ==> s.table.rows[id].nextRetry <= s.clock)
    && Ascending(s.firstClaims)
    && (forall i, id :: 0 <= i < |s.firstClaims| && Waiting(s.table, id) ==> s.firstClaims[i] < id)
    && (forall i :: 0 <= i < |s.firstClaims| ==> s.firstClaims[i] < s.table.nextId)
  }

  lemma {:induction false} NeverFailedIds(t: Table, ids: seq<nat>)
    requires Ascending(ids) && forall i :: 0 <= i < |ids| ==> ids[i] in t.rows
    ensures Ascending(NeverFailed(t, ids))
    ensures forall i :: 0 <= i < |NeverFailed(t, ids)| ==>
              NeverFailed(t, ids)[i] in ids && t.rows[NeverFailed(t, ids)[i]].attempts == 0
  {
    if ids != [] {
      NeverFailedIds(t, ids[1..]);
      var rest := NeverFailed(t, ids[1..]);
      assert forall i :: 0 <= i < |rest| ==> rest[i] in ids[1..];
    }
  }

  lemma {:induction false} ClaimOrdered(s: System, step: Step)
    requires Inv(s) && Ordered(s) && Enabled(s, step) && step.Claim? && step.now >= s.clock
    ensures Ordered(Next(s, step))
  {
    var ids := Batch(s, step);
    ReadyIdsAreLowest(s.table, step.now, step.limit, 1);
    NeverFailedIds(s.table, ids);
    var n := Next(s, step);
    var newly := NeverFailed(s.table, ids);
    hide Batch, NeverFailed, Exclusive, HeldCurrent, Budgeted;
    forall i | 0 <= i < |newly|
      ensures Waiting(s.table, newly[i]) && newly[i] < s.table.nextId
    {
      var k :| 0 <= k < |ids| && ids[k] == newly[i];
      assert Ready(s.table, ids[k], step.now);
    }
    forall id | Waiting(n.table, id)
      ensures Waiting(s.table, id) && forall i :: 0 <= i < |ids| ==> ids[i] < id
    {
      assert id !in ids;
      assert Ready(s.table, id, step.now);
    }
  }

  lemma {:induction false} OtherStepsOrdered(s: System, step: Step)
    requires Inv(s) && Ordered(s) && Enabled(s, step) && !step.Claim? && step.now >= s.clock
    ensures Ordered(Next(s, step))
  {
    var n := Next(s, step);
    if step.Fail? || step.Succeed? {
      HeadIsCurrent(s, step.worker);
    }
    hide Exclusive, HeldCurrent;
    forall id | Waiting(n.table, id)
      ensures Waiting(s.table, id) || (step.Submit? && id == s.table.nextId)
    {
      if step.Revive? {
        assert WithinBudget(s.table.rows[id], Revivals(s, id));
      }
    }
  }

  lemma {:induction false} RunOrdered(s: System, steps: seq<Step>)
    requires Inv(s) && Ordered(s) && Possible(s, steps) && Monotone(s, steps)
    ensures Ordered(After(s, steps))
    decreases |steps|
  {
    if steps != [] {
      StepKeeps(s, steps[0]);
      if steps[0].Claim? {
        ClaimOrdered(s, steps[0]);
      } else {
        OtherStepsOrdered(s, steps[0]);
      }
      RunOrdered(Next(s, steps[0]), steps[1..]);
    }
  }

  /** With a clock that never runs backwards, jobs get their first attempt in the order they were enqueued. */
  lemma {:induction false} FirstAttemptsInOrder(clock: int, steps: seq<Step>)
    requires Possible(Start(clock), steps) && Monotone(Start(clock), steps)
    ensures Ascending(After(Start(clock), steps).firstClaims)
  {
    StartInv(clock);
    RunOrdered(Start(clock), steps);
  }

  // ----- Backoff

  /** Every claim in the run reads a clock before `t`. */
  predicate ClaimsBefore(steps: seq<Step>, t: int) {
    forall i :: 0 <= i < |steps| && steps[i].Claim? ==> steps[i].now < t
  }

  lemma {:induction false} NotYetReady(s: System, step: Step, id: nat)
    requires Inv(s) && Enabled(s, step)
    requires id in s.table.rows && s.table.rows[id].status == Pending
    requires step.Claim? ==> step.now < s.table.rows[id].nextRetry
    ensures id in Next(s, step).table.rows && Next(s, step).table.rows[id] == s.table.rows[id]
  {
    if step.Claim? {
      ReadyIdsAreLowest(s.table, step.now, step.limit, 1);
      assert !Ready(s.table, id, step.now);
      hide Exclusive, HeldCurrent, Budgeted;
    } else if step.Fail? || step.Succeed? {
      HeadIsCurrent(s, step.worker);
      hide Exclusive, HeldCurrent, Budgeted;
    }
  }

  lemma {:induction false} PendingUntilRetryTime(s: System, steps: seq<Step>, id: nat)
    requires Inv(s) && Possible(s, steps)
    requires id in s.table.rows && s.table.rows[id].status == Pending
    requires ClaimsBefore(steps, s.table.rows[id].nextRetry)
    ensures id in After(s, steps).table.rows && After(s, steps).table.rows[id] == s.table.rows[id]
    decreases |steps|
  {
    if steps != [] {
      StepKeeps(s, steps[0]);
      NotYetReady(s, steps[0], id);
      assert ClaimsBefore(steps[1..], s.table.rows[id].nextRetry);
      PendingUntilRetryTime(Next(s, steps[0]), steps[1..], id);
    }
  }

  /**
   A job that failed with budget left is back in the queue, and no claim that
   reads a clock before `now + backoff` takes it, whatever else happens.
   */
  lemma {:induction false} BackoffRespected(s: System, w: nat, error: string, backoff: nat, now: int, steps: seq<Step>)
    requires Inv(s) && Held(s, w) != []
    requires !Exhausted(Held(s, w)[0].attempts, Held(s, w)[0].maxRetries)
    requires Possible(Next(s, Fail(w, error, backoff, now)), steps) && ClaimsBefore(steps, now + backoff)
    ensures var f := Next(s, Fail(w, error, backoff, now));
            var id := Held(s, w)[0].id;
            && id in f.table.rows && f.table.rows[id].nextRetry == now + backoff
            && id in After(f, steps).table.rows && After(f, steps).table.rows[id] == f.table.rows[id]
            && f.table.rows[id].status == Pending
  {
    StepKeeps(s, Fail(w, error, backoff, now));
    HeadIsCurrent(s, w);
    var f := Next(s, Fail(w, error, backoff, now));
    PendingUntilRetryTime(f, steps, Held(s, w)[0].id);
  }

  // ----- Draining

  /** Attempts a live job can still use up. */
  function Weight(row: Row): nat {
    if row.status == Failed then 0
    else if row.maxRetries > row.attempts + 1 then row.maxRetries - row.attempts
    else 1
  }

  function Work(rows: map<nat, Row>, n: nat): nat {
    if n == 0 then 0 else Work(rows, n - 1) + (if n in rows then Weight(rows[n]) else 0)
  }

  function Load(s: System): nat {
    Work(s.table.rows, s.table.nextId)
  }

  function WeightAt(rows: map<nat, Row>, id: nat): nat {
    if id in rows then Weight(rows[id]) else 0
  }

  lemma {:induction false} WorkSame(a: map<nat, Row>, b: map<nat, Row>, n: nat)
    requires forall id :: 1 <= id <= n ==> WeightAt(a, id) == WeightAt(b, id)
    ensures Work(a, n) == Work(b, n)
  {
    if n > 0 {
      WorkSame(a, b, n - 1);
      assert WeightAt(a, n) == WeightAt(b, n);
    }
  }

  lemma {:induction false} WorkDiffers(a: map<nat, Row>, b: map<nat, Row>, n: nat, k: nat)
    requires 1 <= k <= n
    requires forall id :: id != k ==> WeightAt(a, id) == WeightAt(b, id)
    ensures Work(a, n) + WeightAt(b, k) == Work(b, n) + WeightAt(a, k)
  {
    if k == n {
      WorkSame(a, b, n - 1);
    } else {
      WorkDiffers(a, b, n - 1, k);
      assert WeightAt(a, n) == WeightAt(b, n);
    }
  }

  /** Every row has a finite retry limit. */
  ghost predicate Limited(t: Table) {
    forall id :: id in t.rows ==> t.rows[id].maxRetries > 0
  }

  predicate Marks(step: Step) {
    step.Succeed? || step.Fail?
  }

  lemma {:induction false} MarkLightens(s: System, step: Step)
    requires Inv(s) && Enabled(s, step) && Marks(step) && Limited(s.table)
    ensures Limited(Next(s, step).table)
    ensures Load(Next(s, step)) < Load(s)
  {
    var n := Next(s, step);
    HeadIsCurrent(s, step.worker);
    hide Exclusive, HeldCurrent, Budgeted, Accounted;
    var id := Held(s, step.worker)[0].id;
    assert 1 <= id < s.table.nextId by {
      AccountedRows(s);
    }
    WorkDiffers(s.table.rows, n.table.rows, s.table.nextId, id);
  }

  lemma {:induction false} AccountedRows(s: System)
    requires Accounted(s)
    ensures forall id :: id in s.table.rows ==> 1 <= id < s.table.nextId
  {
  }

  lemma {:induction false} OthersKeepLoad(s: System, step: Step)
    requires Inv(s) && Enabled(s, step) && (step.Claim? || step.Abandon?) && Limited(s.table)
    ensures Limited(Next(s, step).table)
    ensures Load(Next(s, step)) == Load(s)
  {
    if step.Claim? {
      BatchPending(s, step);
      hide Batch;
    }
    hide Exclusive, HeldCurrent, Budgeted, Accounted;
    WorkSame(s.table.rows, Next(s, step).table.rows, s.table.nextId);
  }

  function MarkCount(steps: seq<Step>): nat {
    if steps == [] then 0 else (if Marks(steps[0]) then 1 else 0) + MarkCount(steps[1..])
  }

  /** No job is added or revived. */
  predicate Quiet(steps: seq<Step>) {
    forall i :: 0 <= i < |steps| ==> !steps[i].Submit? && !steps[i].Revive?
  }

  /**
   With finite retry limits and no new or revived jobs, every processed job uses
   up load, whatever its outcome: at most `Load(s)` jobs are processed before
   nothing is left.
   */
  lemma {:induction false} QueueDrains(s: System, steps: seq<Step>)
    requires Inv(s) && Possible(s, steps) && Limited(s.table) && Quiet(steps)
    ensures MarkCount(steps) + Load(After(s, steps)) <= Load(s)
    decreases |steps|
  {
    if steps != [] {
      StepKeeps(s, steps[0]);
      if Marks(steps[0]) {
        MarkLightens(s, steps[0]);
      } else {
        OthersKeepLoad(s, steps[0]);
      }
      assert Quiet(steps[1..]);
      QueueDrains(Next(s, steps[0]), steps[1..]);
    }
  }

  lemma {:induction false} WorkPositive(rows: map<nat, Row>, n: nat, id: nat)
    requires 1 <= id <= n && WeightAt(rows, id) > 0
    ensures Work(rows, n) > 0
  {
    if id < n {
      WorkPositive(rows, n - 1, id);
    }
  }

  lemma {:induction false} WorkZero(rows: map<nat, Row>, n: nat)
    requires forall id :: WeightAt(rows, id) == 0
    ensures Work(rows, n) == 0
  {
    if n > 0 {
      WorkZero(rows, n - 1);
      assert WeightAt(rows, n) == 0;
    }
  }

  /** No load means no live job, and the other way round. */
  lemma {:induction false} DrainedIffNoLoad(s: System)
    requires Accounted(s)
    ensures Load(s) == 0 <==> LiveIds(s.table) == {}
  {
    if LiveIds(s.table) == {} {
      forall id
        ensures WeightAt(s.table.rows, id) == 0
      {
        assert id !in LiveIds(s.table);
      }
      WorkZero(s.table.rows, s.table.nextId);
    } else {
      var id :| id in LiveIds(s.table);
      WorkPositive(s.table.rows, s.table.nextId, id);
    }
  }

  /** An idle worker that asks for jobs gets some whenever one is ready. */
  lemma {:induction false} ReadyJobIsClaimed(s: System, step: Step, id: nat)
    requires Inv(s) && Enabled(s, step) && step.Claim? && step.limit > 0
    requires Ready(s.table, id, step.now)
    ensures Held(Next(s, step), step.worker) != []
  {
    ReadyIdsAreLowest(s.table, step.now, step.limit, 1);
    hide Ready, Exclusive, HeldCurrent, Budgeted;
  }
}
