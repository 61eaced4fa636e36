/**
 Runs of the replication queue with any number of workers. A worker claims a
 batch, then marks its jobs one at a time; it may stop part-way. Every theorem
 is about all finite interleavings of these steps.
 */
module Replication {
  import opened Queue

  /**
   `held` is what each worker still has to mark; `delivered`, `revivals` and
   `firstClaims` record history: ids marked successful, how often `retry_failed`
   revived each id, and the order in which never-failed jobs were claimed.
   */
  datatype System = System(
    table: Table,
    held: map<nat, seq<Job>>,
    delivered: set<nat>,
    revivals: map<nat, nat>,
    clock: int,
    firstClaims: seq<nat>)

  datatype Step =
    | Submit(segment: string, manifest: string, destination: string, maxRetries: nat, now: int)
    | Claim(worker: nat, limit: nat, now: int)
    | Succeed(worker: nat, now: int)
    | Fail(worker: nat, error: string, backoff: nat, now: int)
    | Abandon(worker: nat, now: int)
    | Revive(now: int)

  function Start(clock: int): System {
    System(EmptyTable(), map[], {}, map[], clock, [])
  }

  function Held(s: System, w: nat): seq<Job> {
    if w in s.held then s.held[w] else []
  }

  function Revivals(s: System, id: nat): nat {
    if id in s.revivals then s.revivals[id] else 0
  }

  predicate Enabled(s: System, step: Step) {
    match step
    case Submit(_, _, _, m, _) => m <= U32_MAX
    case Claim(w, _, _) => Held(s, w) == []
    case Succeed(w, _) => Held(s, w) != []
    case Fail(w, _, _, _) => Held(s, w) != []
    case Abandon(w, _) => true
    case Revive(_) => true
  }

  function NeverFailed(t: Table, ids: seq<nat>): seq<nat>
    requires forall i :: 0 <= i < |ids| ==> ids[i] in t.rows
  {
    if ids == [] then []
    else (if t.rows[ids[0]].attempts == 0 then [ids[0]] else []) + NeverFailed(t, ids[1..])
  }

  function Batch(s: System, step: Step): (ids: seq<nat>)
    requires step.Claim? && WellFormed(s.table)
    ensures forall i :: 0 <= i < |ids| ==> ids[i] in s.table.rows
  {
    ReadyIdsAreLowest(s.table, step.now, step.limit, 1);
    ReadyIds(s.table, step.now, step.limit, 1)
  }

  function Next(s: System, step: Step): System
    requires WellFormed(s.table) && Enabled(s, step)
  {
    match step
    case Submit(seg, man, dest, m, now) =>
      s.(table := Enqueue(s.table, NewRow(seg, man, dest, m, now)), clock := now)
    case Claim(w, limit, now) =>
      var ids := Batch(s, step);
      s.(table := MarkClaimed(s.table, ids, now), held := s.held[w := JobsOf(s.table, ids)], clock := now,
         firstClaims := s.firstClaims + NeverFailed(s.table, ids))
    case Succeed(w, now) =>
      var id := Held(s, w)[0].id;
      s.(table := MarkSuccess(s.table, id), held := s.held[w := Held(s, w)[1..]], delivered := s.delivered + {id}, clock := now)
    case Fail(w, error, backoff, now) =>
      s.(table := MarkFailed(s.table, Held(s, w)[0], error, backoff, now), held := s.held[w := Held(s, w)[1..]], clock := now)
    case Abandon(w, now) =>
      s.(held := s.held[w := []], clock := now)
    case Revive(now) =>
      s.(table := RetryFailed(s.table, now), clock := now,
         revivals := map id | id in s.revivals.Keys + FailedIds(s.table) ::
           if id in FailedIds(s.table) then Revivals(s, id) + 1 else Revivals(s, id))
  }

  // ----- The invariant

  /** Every id ever issued is a row or has been delivered, never both. */
  ghost predicate Accounted(s: System) {
    && WellFormed(s.table)
    && s.delivered !! s.table.rows.Keys
    && (forall id :: 1 <= id < s.table.nextId <==> id in s.delivered || id in s.table.rows)
  }

  /** A held job is in progress and its claimed snapshot is still the row. */
  predicate Current(t: Table, j: Job) {
    j.id in t.rows && t.rows[j.id].status == InProgress && j == JobOf(j.id, t.rows[j.id])
  }

  ghost predicate HeldCurrent(s: System) {
    forall w, i :: w in s.held && 0 <= i < |s.held[w]| ==> Current(s.table, s.held[w][i])
  }

  ghost predicate Exclusive(s: System) {
    forall w, i, v, j ::
      w in s.held && 0 <= i < |s.held[w]| && v in s.held && 0 <= j < |s.held[v]| && s.held[w][i].id == s.held[v][j].id
      ==> w == v && i == j
  }

  function Min(a: nat, b: nat): nat {
    if a < b then a else b
  }

  /** The exact retry budget of a row that has been revived `k` times, saturation included. */
  predicate WithinBudget(row: Row, k: nat) {
    var m := row.maxRetries;
    if m == 0 then row.status != Failed && k == 0
    else if row.status == Failed then row.attempts == Min(m + k, U32_MAX)
    else if k == 0 then row.attempts < m
    else row.attempts == Min(m + k - 1, U32_MAX)
  }

  ghost predicate Budgeted(s: System) {
    && (forall id :: id in s.table.rows ==> WithinBudget(s.table.rows[id], Revivals(s, id)))
    && (forall id :: id in s.revivals ==> 1 <= id < s.table.nextId)
  }

  ghost predicate Inv(s: System) {
    Accounted(s) && HeldCurrent(s) && Exclusive(s) && Budgeted(s)
  }

  lemma {:induction false} SubmitKeeps(s: System, step: Step)
    requires Inv(s) && Enabled(s, step) && step.Submit?
    ensures Inv(Next(s, step))
  {
    assert s.table.nextId !in s.revivals;
  }

  lemma {:induction false} BatchPending(s: System, step: Step)
    requires WellFormed(s.table) && step.Claim?
    ensures var ids := Batch(s, step);
            Ascending(ids) && forall i :: 0 <= i < |ids| ==> s.table.rows[ids[i]].status == Pending
  {
    ReadyIdsAreLowest(s.table, step.now, step.limit, 1);
    var ids := Batch(s, step);
    assert forall i :: 0 <= i < |ids| ==> Ready(s.table, ids[i], step.now);
  }

  lemma {:induction false} ClaimKeepsCurrent(s: System, step: Step)
    requires Inv(s) && Enabled(s, step) && step.Claim?
    ensures HeldCurrent(Next(s, step))
  {
    var ids := Batch(s, step);
    BatchPending(s, step);
    var n := Next(s, step);
    hide Batch, Exclusive, Budgeted;
    forall w, i | w in n.held && 0 <= i < |n.held[w]|
      ensures Current(n.table, n.held[w][i])
    {
      if w != step.worker {
        assert Current(s.table, s.held[w][i]);
      }
    }
  }

  lemma {:induction false} ClaimKeepsExclusive(s: System, step: Step)
    requires Inv(s) && Enabled(s, step) && step.Claim?
    ensures Exclusive(Next(s, step))
  {
    var ids := Batch(s, step);
    BatchPending(s, step);
    var n := Next(s, step);
    hide Batch, Budgeted;
    assert forall w, i :: w in s.held && 0 <= i < |s.held[w]| ==> s.held[w][i].id !in ids;
  }

  lemma {:induction false} ClaimKeeps(s: System, step: Step)
    requires Inv(s) && Enabled(s, step) && step.Claim?
    ensures Inv(Next(s, step))
  {
    ClaimKeepsCurrent(s, step);
    ClaimKeepsExclusive(s, step);
    ReadyIdsAreLowest(s.table, step.now, step.limit, 1);
    hide Batch, HeldCurrent, Exclusive;
  }

  lemma {:induction false} HeadIsCurrent(s: System, w: nat)
    requires Inv(s) && Held(s, w) != []
    ensures Current(s.table, Held(s, w)[0])
    ensures forall v, j :: v in s.held && 0 <= j < |s.held[v]| && s.held[v][j].id == Held(s, w)[0].id ==> v == w && j == 0
  {
    assert s.held[w][0] == Held(s, w)[0];
  }

  /** Marking the head touches no other held job. */
  lemma {:induction false} PopKeepsHolding(s: System, w: nat, t: Table, n: System)
    requires Inv(s) && Held(s, w) != []
    requires n.table == t && n.held == s.held[w := Held(s, w)[1..]]
    requires forall id :: id in s.table.rows && id != Held(s, w)[0].id ==> id in t.rows && t.rows[id] == s.table.rows[id]
    ensures HeldCurrent(n) && Exclusive(n)
  {
    HeadIsCurrent(s, w);
    forall v, j | v in n.held && 0 <= j < |n.held[v]|
      ensures Current(t, n.held[v][j])
    {
      var k := if v == w then j + 1 else j;
      assert n.held[v][j] == s.held[v][k];
      assert Current(s.table, s.held[v][k]);
    }
    forall v, i, u, j | v in n.held && 0 <= i < |n.held[v]| && u in n.held && 0 <= j < |n.held[u]| && n.held[v][i].id == n.held[u][j].id
      ensures v == u && i == j
    {
      var k := if v == w then i + 1 else i;
      var l := if u == w then j + 1 else j;
      assert n.held[v][i] == s.held[v][k] && n.held[u][j] == s.held[u][l];
    }
  }

  lemma {:induction false} SucceedKeeps(s: System, step: Step)
    requires Inv(s) && Enabled(s, step) && step.Succeed?
    ensures Inv(Next(s, step))
  {
    var n := Next(s, step);
    HeadIsCurrent(s, step.worker);
    PopKeepsHolding(s, step.worker, n.table, n);
    hide HeldCurrent, Exclusive;
  }

  lemma {:induction false} FailKeeps(s: System, step: Step)
    requires Inv(s) && Enabled(s, step) && step.Fail?
    ensures Inv(Next(s, step))
  {
    var n := Next(s, step);
    HeadIsCurrent(s, step.worker);
    PopKeepsHolding(s, step.worker, n.table, n);
    hide HeldCurrent, Exclusive;
    var job := Held(s, step.worker)[0];
    FailBudget(s.table.rows[job.id], job, step.error, step.backoff, step.now, Revivals(s, job.id));
  }

  lemma {:induction false} FailBudget(row: Row, job: Job, error: string, backoff: nat, now: int, k: nat)
    requires row.status == InProgress && job == JobOf(job.id, row) && WithinBudget(row, k)
    requires row.maxRetries <= U32_MAX && row.attempts <= U32_MAX
    ensures WithinBudget(FailedRow(row, job, error, backoff, now), k)
    ensures FailedRow(row, job, error, backoff, now).attempts <= U32_MAX
  {
  }

  lemma {:induction false} AbandonKeeps(s: System, step: Step)
    requires Inv(s) && Enabled(s, step) && step.Abandon?
    ensures Inv(Next(s, step))
  {
  }

  lemma {:induction false} ReviveKeeps(s: System, step: Step)
    requires Inv(s) && Enabled(s, step) && step.Revive?
    ensures Inv(Next(s, step))
  {
    var n := Next(s, step);
    forall w, i | w in n.held && 0 <= i < |n.held[w]|
      ensures Current(n.table, n.held[w][i])
    {
      assert Current(s.table, s.held[w][i]);
    }
    forall id | id in n.table.rows
      ensures WithinBudget(n.table.rows[id], Revivals(n, id))
    {
      assert WithinBudget(s.table.rows[id], Revivals(s, id));
    }
  }

  lemma {:induction false} StepKeeps(s: System, step: Step)
    requires Inv(s) && Enabled(s, step)
    ensures Inv(Next(s, step))
  {
    match step
    case Submit(_, _, _, _, _) => SubmitKeeps(s, step);
    case Claim(_, _, _) => ClaimKeeps(s, step);
    case Succeed(_, _) => SucceedKeeps(s, step);
    case Fail(_, _, _, _) => FailKeeps(s, step);
    case Abandon(_, _) => AbandonKeeps(s, step);
    case Revive(_) => ReviveKeeps(s, step);
  }

  // ----- Whole runs

  ghost predicate Possible(s: System, steps: seq<Step>)
    decreases |steps|
  {
    steps == [] || (WellFormed(s.table) && Enabled(s, steps[0]) && Possible(Next(s, steps[0]), steps[1..]))
  }

  ghost function After(s: System, steps: seq<Step>): System
    requires Possible(s, steps)
    decreases |steps|
  {
    if steps == [] then s else After(Next(s, steps[0]), steps[1..])
  }

  function Submissions(steps: seq<Step>): nat {
    if steps == [] then 0 else (if steps[0].Submit? then 1 else 0) + Submissions(steps[1..])
  }

  lemma {:induction false} RunKeeps(s: System, steps: seq<Step>)
    requires Inv(s) && Possible(s, steps)
    ensures Inv(After(s, steps))
    ensures After(s, steps).table.nextId == s.table.nextId + Submissions(steps)
    decreases |steps|
  {
    if steps != [] {
      StepKeeps(s, steps[0]);
      RunKeeps(Next(s, steps[0]), steps[1..]);
    }
  }

  /** The ids the first `n` insertions were given. */
  function Issued(n: nat): set<nat> {
    if n == 0 then {} else Issued(n - 1) + {n}
  }

  lemma {:induction false} IssuedIds(n: nat)
    ensures |Issued(n)| == n
    ensures forall id :: id in Issued(n) <==> 1 <= id <= n
  {
    if n > 0 {
      IssuedIds(n - 1);
    }
  }

  lemma {:induction false} SplitRows(t: Table)
    ensures LiveIds(t) + FailedIds(t) == t.rows.Keys && LiveIds(t) !! FailedIds(t)
    ensures |LiveIds(t)| + |FailedIds(t)| == |t.rows.Keys|
  {
    var live, failed := LiveIds(t), FailedIds(t);
    assert live + failed == t.rows.Keys && live !! failed;
    assert |live + failed| == |live| + |failed|;
  }

  /** Disjoint parts: the counts add up to the ids issued. */
  lemma {:induction false} CountParts(s: System)
    requires Accounted(s)
    ensures |LiveIds(s.table)| + |FailedIds(s.table)| + |s.delivered| == s.table.nextId - 1
    ensures s.delivered + s.table.rows.Keys == Issued(s.table.nextId - 1)
  {
    SplitRows(s.table);
    hide LiveIds, FailedIds, Issued;
    IssuedIds(s.table.nextId - 1);
    var all := s.delivered + s.table.rows.Keys;
    assert |all| == |s.delivered| + |s.table.rows.Keys|;
    assert all == Issued(s.table.nextId - 1);
  }

  /** `n` jobs were issued; each is delivered, live or failed, and no job is held twice or with a stale snapshot. */
  ghost predicate NothingLost(s: System, n: nat) {
    && |LiveIds(s.table)| + |FailedIds(s.table)| + |s.delivered| == n
    && s.delivered + (LiveIds(s.table) + FailedIds(s.table)) == Issued(n)
    && s.delivered !! (LiveIds(s.table) + FailedIds(s.table)) && LiveIds(s.table) !! FailedIds(s.table)
    && HeldCurrent(s) && Exclusive(s)
  }

  lemma {:induction false} InvLosesNothing(s: System)
    requires Inv(s)
    ensures NothingLost(s, s.table.nextId - 1)
  {
    CountParts(s);
    SplitRows(s.table);
    hide LiveIds, FailedIds, Issued, HeldCurrent, Exclusive, Budgeted;
  }

  lemma StartInv(clock: int)
    ensures Inv(Start(clock)) && Start(clock).table.nextId == 1
  {
  }

  /** Conservation: in every run the live rows, failed rows and delivered jobs are exactly the jobs enqueued. */
  lemma {:induction false} Conservation(clock: int, steps: seq<Step>)
    requires Possible(Start(clock), steps)
    ensures NothingLost(After(Start(clock), steps), Submissions(steps))
  {
    hide *;
    StartInv(clock);
    RunKeeps(Start(clock), steps);
    InvLosesNothing(After(Start(clock), steps));
  }

  /** The retry budget is exact in every run: see `WithinBudget`. */
  lemma {:induction false} RetryBudget(clock: int, steps: seq<Step>, id: nat)
    requires Possible(Start(clock), steps)
    requires id in After(Start(clock), steps).table.rows
    ensures var s := After(Start(clock), steps);
            WithinBudget(s.table.rows[id], Revivals(s, id))
  {
    StartInv(clock);
    RunKeeps(Start(clock), steps);
  }

  /** `retry_failed` keeps the attempts, so a revived job that fails again is out of budget at once. */
  lemma {:induction false} RevivedJobHasOneAttempt(s: System, w: nat, error: string, backoff: nat, now: int)
    requires Inv(s) && Held(s, w) != [] && Revivals(s, Held(s, w)[0].id) > 0
    ensures Next(s, Fail(w, error, backoff, now)).table.rows[Held(s, w)[0].id].status == Failed
  {
    HeadIsCurrent(s, w);
  }

  // ----- Orphans

  /** In progress, but no worker holds it any more. */
  ghost predicate Orphaned(s: System, id: nat) {
    && id in s.table.rows && s.table.rows[id].status == InProgress
    && (forall w, i :: w in s.held && 0 <= i < |s.held[w]| ==> s.held[w][i].id != id)
  }

  lemma {:induction false} OrphanStays(s: System, step: Step, id: nat)
    requires Inv(s) && Enabled(s, step) && Orphaned(s, id)
    ensures Orphaned(Next(s, step), id)
    ensures Next(s, step).table.rows[id] == s.table.rows[id]
  {
    hide HeldCurrent, Exclusive, Budgeted;
    match step
    case Submit(_, _, _, _, _) =>
    case Claim(_, _, _) =>
      BatchPending(s, step);
      hide Batch;
    case Succeed(w, _) => assert s.held[w][0].id != id;
    case Fail(w, _, _, _) => assert s.held[w][0].id != id;
    case Abandon(_, _) =>
    case Revive(_) =>
  }

  /** Nothing ever reclaims an orphaned row: whatever happens next, it stays in progress, unchanged and unheld. */
  lemma {:induction false} OrphanForever(s: System, steps: seq<Step>, id: nat)
    requires Inv(s) && Possible(s, steps) && Orphaned(s, id)
    ensures Orphaned(After(s, steps), id)
    ensures After(s, steps).table.rows[id] == s.table.rows[id]
    decreases |steps|
  {
    if steps != [] {
      StepKeeps(s, steps[0]);
      OrphanStays(s, steps[0], id);
      OrphanForever(Next(s, steps[0]), steps[1..], id);
    }
  }

  /** A worker that stops orphans exactly the jobs it held. */
  lemma {:induction false} AbandonOrphans(s: System, w: nat, i: nat, now: int)
    requires Inv(s) && i < |Held(s, w)|
    ensures Orphaned(Next(s, Abandon(w, now)), Held(s, w)[i].id)
  {
    assert Current(s.table, s.held[w][i]);
  }
}
