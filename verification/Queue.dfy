/**
 The persistent replication queue. `Table` is the value of the SQLite table; the
 functions on it are the statements the queue executes, and the class performs
 them in place.
 */
module Queue {
  import opened Common

  const U32_MAX: nat := 0xFFFF_FFFF

  datatype Status = Pending | InProgress | Failed

  datatype Row = Row(
    segment: string,
    manifest: string,
    destination: string,
    attempts: nat,
    maxRetries: nat,
    nextRetry: int,
    status: Status,
    lastError: Option<string>,
    created: int,
    updated: int)

  /** `nextId` is SQLite's AUTOINCREMENT counter: an id is never reused. */
  datatype Table = Table(rows: map<nat, Row>, nextId: nat)

  datatype Job = Job(id: nat, segment: string, manifest: string, destination: string, attempts: nat, maxRetries: nat)

  function EmptyTable(): Table {
    Table(map[], 1)
  }

  predicate WellFormed(t: Table) {
    && t.nextId >= 1
    && (forall id :: id in t.rows ==> 1 <= id < t.nextId)
    && (forall id :: id in t.rows ==> t.rows[id].attempts <= U32_MAX && t.rows[id].maxRetries <= U32_MAX)
  }

  function SaturatingInc(n: nat): nat {
    if n >= U32_MAX then U32_MAX else n + 1
  }

  function NewRow(segment: string, manifest: string, destination: string, maxRetries: nat, now: int): Row {
    Row(segment, manifest, destination, 0, maxRetries, now, Pending, None, now, now)
  }

  function Enqueue(t: Table, row: Row): Table {
    Table(t.rows[t.nextId := row], t.nextId + 1)
  }

  predicate Ready(t: Table, id: nat, now: int) {
    id in t.rows && t.rows[id].status == Pending && t.rows[id].nextRetry <= now
  }

  /** Ready ids from `from` upwards, ascending, at most `limit` of them. */
  function ReadyIds(t: Table, now: int, limit: nat, from: nat): seq<nat>
    decreases t.nextId - from
  {
    if limit == 0 || from >= t.nextId then []
    else if Ready(t, from, now) then [from] + ReadyIds(t, now, limit - 1, from + 1)
    else ReadyIds(t, now, limit, from + 1)
  }

  function Claimed(row: Row, now: int): Row {
    row.(status := InProgress, updated := now)
  }

  function MarkClaimed(t: Table, ids: seq<nat>, now: int): Table {
    t.(rows := map id | id in t.rows :: if id in ids then Claimed(t.rows[id], now) else t.rows[id])
  }

  function JobOf(id: nat, row: Row): Job {
    Job(id, row.segment, row.manifest, row.destination, row.attempts, row.maxRetries)
  }

  function JobsOf(t: Table, ids: seq<nat>): seq<Job>
    requires forall i :: 0 <= i < |ids| ==> ids[i] in t.rows
  {
    seq(|ids|, i requires 0 <= i < |ids| => JobOf(ids[i], t.rows[ids[i]]))
  }

  function MarkSuccess(t: Table, id: nat): Table {
    t.(rows := t.rows - {id})
  }

  predicate Exhausted(attempts: nat, maxRetries: nat) {
    maxRetries > 0 && SaturatingInc(attempts) >= maxRetries
  }

  /** The new row is computed from the claimed snapshot, not from the stored attempts. */
  function FailedRow(row: Row, job: Job, error: string, backoff: nat, now: int): Row {
    var next := SaturatingInc(job.attempts);
    if Exhausted(job.attempts, job.maxRetries)
    then row.(attempts := next, status := Failed, lastError := Some(error), updated := now)
    else row.(attempts := next, status := Pending, nextRetry := now + backoff, lastError := Some(error), updated := now)
  }

  function MarkFailed(t: Table, job: Job, error: string, backoff: nat, now: int): Table {
    if job.id in t.rows
    then t.(rows := t.rows[job.id := FailedRow(t.rows[job.id], job, error, backoff, now)])
    else t
  }

  function Revived(row: Row, now: int): Row {
    row.(status := Pending, nextRetry := now, updated := now)
  }

  function RetryFailed(t: Table, now: int): Table {
    t.(rows := map id | id in t.rows :: if t.rows[id].status == Failed then Revived(t.rows[id], now) else t.rows[id])
  }

  /** What `pending_count` counts: rows that are pending or in progress. */
  function LiveIds(t: Table): set<nat> {
    set id | id in t.rows && t.rows[id].status != Failed
  }

  function FailedIds(t: Table): set<nat> {
    set id | id in t.rows && t.rows[id].status == Failed
  }

  // ----- claim_ready returns exactly the lowest ready ids

  predicate Ascending(ids: seq<nat>) {
    forall i, j :: 0 <= i < j < |ids| ==> ids[i] < ids[j]
  }

  /** `ids` are the lowest ready ids, as many as there are up to `limit`. */
  ghost predicate LowestReady(t: Table, now: int, limit: nat, from: nat, ids: seq<nat>) {
    && Ascending(ids)
    && |ids| <= limit
    && (forall i :: 0 <= i < |ids| ==> from <= ids[i] && Ready(t, ids[i], now))
    && (forall id :: from <= id && Ready(t, id, now) && id !in ids ==>
          |ids| == limit && forall i :: 0 <= i < |ids| ==> ids[i] < id)
  }

  lemma {:induction false} ReadyIdsAreLowest(t: Table, now: int, limit: nat, from: nat)
    requires WellFormed(t)
    ensures LowestReady(t, now, limit, from, ReadyIds(t, now, limit, from))
    decreases t.nextId - from
  {
    if limit > 0 && from < t.nextId {
      if Ready(t, from, now) {
        ReadyIdsAreLowest(t, now, limit - 1, from + 1);
        PrependLowest(t, now, limit, from, ReadyIds(t, now, limit - 1, from + 1));
      } else {
        ReadyIdsAreLowest(t, now, limit, from + 1);
      }
    }
  }

  lemma {:induction false} PrependLowest(t: Table, now: int, limit: nat, from: nat, rest: seq<nat>)
    requires limit > 0 && Ready(t, from, now)
    requires LowestReady(t, now, limit - 1, from + 1, rest)
    ensures LowestReady(t, now, limit, from, [from] + rest)
  {
    var ids := [from] + rest;
    hide Ready;
    assert forall i :: 0 < i < |ids| ==> ids[i] == rest[i - 1];
    forall id | from <= id && Ready(t, id, now) && id !in ids
      ensures |ids| == limit && forall i :: 0 <= i < |ids| ==> ids[i] < id
    {
      assert ids[0] == from;
      assert id !in rest;
    }
  }

  /** The specification leaves no choice: only one sequence is the lowest ready prefix. */
  lemma {:induction false} LowestReadyUnique(t: Table, now: int, limit: nat, from: nat, a: seq<nat>, b: seq<nat>)
    requires LowestReady(t, now, limit, from, a) && LowestReady(t, now, limit, from, b)
    ensures a == b
  {
    var n := if |a| < |b| then |a| else |b|;
    SamePrefix(t, now, limit, from, a, b, n);
    hide Ready;
    assert |a| == |b| by {
      if |a| < |b| {
        PrefixExcludes(b, n);
        assert false;
      } else if |b| < |a| {
        PrefixExcludes(a, n);
        assert false;
      }
    }
  }

  lemma {:induction false} PrefixExcludes(s: seq<nat>, n: nat)
    requires Ascending(s) && n < |s|
    ensures s[n] !in s[..n]
  {
  }

  lemma {:induction false} NoneSmaller(t: Table, now: int, limit: nat, from: nat, a: seq<nat>, b: seq<nat>, k: nat)
    requires LowestReady(t, now, limit, from, b) && Ascending(a)
    requires k < |a| && k < |b| && a[..k] == b[..k]
    requires from <= a[k] && Ready(t, a[k], now)
    ensures b[k] <= a[k]
  {
    hide Ready;
    var x, y := a[k], b[k];
    assert forall i :: 0 <= i < k ==> b[i] == a[..k][i] < x;
    assert x < y ==> x !in b;
  }

  lemma {:induction false} SamePrefix(t: Table, now: int, limit: nat, from: nat, a: seq<nat>, b: seq<nat>, n: nat)
    requires LowestReady(t, now, limit, from, a) && LowestReady(t, now, limit, from, b)
    requires n <= |a| && n <= |b|
    ensures a[..n] == b[..n]
  {
    if n > 0 {
      SamePrefix(t, now, limit, from, a, b, n - 1);
      NoneSmaller(t, now, limit, from, a, b, n - 1);
      NoneSmaller(t, now, limit, from, b, a, n - 1);
      hide LowestReady;
      assert a[..n] == a[..n - 1] + [a[n - 1]] && b[..n] == b[..n - 1] + [b[n - 1]];
    }
  }

  /** In the order of their ids, at most `limit`; a pending row whose time has come is left out only if they are `limit` jobs of lower id. */
  ghost predicate LowestJobs(rows: map<nat, Row>, now: int, limit: nat, jobs: seq<Job>) {
    && |jobs| <= limit
    && (forall i, j :: 0 <= i < j < |jobs| ==> jobs[i].id < jobs[j].id)
    && (forall id :: id in rows && rows[id].status == Pending && rows[id].nextRetry <= now && (forall i :: 0 <= i < |jobs| ==> jobs[i].id != id) ==>
          |jobs| == limit && forall i :: 0 <= i < |jobs| ==> jobs[i].id < id)
  }

  /** What claimed jobs say and what becomes of the rows. */
  lemma {:induction false} ClaimMeans(t: Table, now: int, limit: nat)
    requires WellFormed(t)
    ensures var ids := ReadyIds(t, now, limit, 1);
            && (forall i :: 0 <= i < |ids| ==> ids[i] in t.rows)
            && var jobs, after := JobsOf(t, ids), MarkClaimed(t, ids, now);
               && after.nextId == t.nextId && after.rows.Keys == t.rows.Keys
               && (forall i :: 0 <= i < |jobs| ==>
                     && jobs[i].id in t.rows
                     && var row := t.rows[jobs[i].id];
                        && row.status == Pending && row.nextRetry <= now
                        && jobs[i].segment == row.segment && jobs[i].manifest == row.manifest && jobs[i].destination == row.destination
                        && jobs[i].attempts == row.attempts && jobs[i].maxRetries == row.maxRetries
                        && after.rows[jobs[i].id] == row.(status := InProgress, updated := now))
               && (forall id :: id in t.rows && (forall i :: 0 <= i < |jobs| ==> jobs[i].id != id) ==> after.rows[id] == t.rows[id])
               && LowestJobs(t.rows, now, limit, jobs)
  {
    ReadyIdsAreLowest(t, now, limit, 1);
    hide ReadyIds;
    var ids := ReadyIds(t, now, limit, 1);
    var jobs := JobsOf(t, ids);
    assert forall i :: 0 <= i < |jobs| ==> jobs[i].id == ids[i];
    forall id | id in ids
      ensures exists i :: 0 <= i < |jobs| && jobs[i].id == id
    {
      var i :| 0 <= i < |ids| && ids[i] == id;
      assert jobs[i].id == id;
    }
    LowestIdsLowestJobs(t, now, limit, ids);
  }

  lemma {:induction false} LowestIdsLowestJobs(t: Table, now: int, limit: nat, ids: seq<nat>)
    requires WellFormed(t) && LowestReady(t, now, limit, 1, ids)
    ensures (forall i :: 0 <= i < |ids| ==> ids[i] in t.rows) && LowestJobs(t.rows, now, limit, JobsOf(t, ids))
  {
    var jobs := JobsOf(t, ids);
    assert forall i :: 0 <= i < |jobs| ==> jobs[i].id == ids[i];
    forall id | id in t.rows && Ready(t, id, now) && (forall i :: 0 <= i < |jobs| ==> jobs[i].id != id)
      ensures |jobs| == limit && forall i :: 0 <= i < |jobs| ==> jobs[i].id < id
    {
      assert 1 <= id && forall i :: 0 <= i < |ids| ==> ids[i] != id;
    }
  }

  /** The queue as the daemon holds it: every method is one or more SQL statements on the table. */
  class ReplicationQueue {
    var rows: map<nat, Row>
    var nextId: nat

    ghost function Contents(): Table
      reads this
    {
      Table(rows, nextId)
    }

    constructor ()
      ensures Contents() == EmptyTable() && WellFormed(Contents())
    {
      rows, nextId := map[], 1;
    }

    method Insert(segment: string, manifest: string, destination: string, maxRetries: nat, now: int)
      requires WellFormed(Contents()) && maxRetries <= U32_MAX
      modifies this
      ensures Contents() == Enqueue(old(Contents()), NewRow(segment, manifest, destination, maxRetries, now))
      ensures WellFormed(Contents())
      ensures nextId == old(nextId) + 1 && rows.Keys == old(rows).Keys + {old(nextId)}
      ensures forall id :: id in old(rows) ==> rows[id] == old(rows)[id]
      ensures var row := rows[old(nextId)];
              && row.segment == segment && row.manifest == manifest && row.destination == destination
              && row.attempts == 0 && row.maxRetries == maxRetries && row.status == Pending && row.lastError == None
              && row.nextRetry == now && row.created == now && row.updated == now
    {
      rows := rows[nextId := Row(segment, manifest, destination, 0, maxRetries, now, Pending, None, now, now)];
      nextId := nextId + 1;
    }

    /** Select the ready rows, then mark them one by one inside the same transaction. */
    method ClaimReady(limit: nat, now: int) returns (jobs: seq<Job>)
      requires WellFormed(Contents())
      modifies this
      ensures var ids := ReadyIds(old(Contents()), now, limit, 1);
              && (forall i :: 0 <= i < |ids| ==> ids[i] in old(rows))
              && LowestReady(old(Contents()), now, limit, 1, ids)
              && jobs == JobsOf(old(Contents()), ids)
              && Contents() == MarkClaimed(old(Contents()), ids, now)
      ensures forall i :: 0 <= i < |jobs| ==>
                && jobs[i].id in old(rows)
                && var row := old(rows)[jobs[i].id];
                   && row.status == Pending && row.nextRetry <= now
                   && jobs[i].segment == row.segment && jobs[i].manifest == row.manifest && jobs[i].destination == row.destination
                   && jobs[i].attempts == row.attempts && jobs[i].maxRetries == row.maxRetries
                   && rows[jobs[i].id] == row.(status := InProgress, updated := now)
      ensures LowestJobs(old(rows), now, limit, jobs)
      ensures nextId == old(nextId) && rows.Keys == old(rows).Keys
      ensures forall id :: id in rows && (forall i :: 0 <= i < |jobs| ==> jobs[i].id != id) ==> rows[id] == old(rows)[id]
    {
      ghost var before := Contents();
      var ids := ReadyIds(Table(rows, nextId), now, limit, 1);
      ReadyIdsAreLowest(before, now, limit, 1);
      jobs := JobsOf(Table(rows, nextId), ids);
      for i := 0 to |jobs|
        invariant nextId == before.nextId && rows.Keys == before.rows.Keys
        invariant forall id :: id in rows ==>
          rows[id] == if id in ids[..i] then Claimed(before.rows[id], now) else before.rows[id]
      {
        var id := jobs[i].id;
        rows := rows[id := rows[id].(status := InProgress, updated := now)];
        assert ids[..i + 1] == ids[..i] + [ids[i]];
      }
      assert ids[..|jobs|] == ids;
      assert Contents() == MarkClaimed(before, ids, now);
      ClaimMeans(before, now, limit);
      hide ReadyIds, JobsOf, MarkClaimed, LowestReady;
    }

    method Delete(id: nat)
      modifies this
      ensures Contents() == MarkSuccess(old(Contents()), id)
      ensures id !in rows && nextId == old(nextId) && forall o :: o != id ==> (o in rows <==> o in old(rows)) && (o in rows ==> rows[o] == old(rows)[o])
    {
      rows := rows - {id};
    }

    method MarkJobFailed(job: Job, error: string, backoff: nat, now: int)
      modifies this
      ensures Contents() == MarkFailed(old(Contents()), job, error, backoff, now)
      ensures nextId == old(nextId) && rows.Keys == old(rows).Keys && forall o :: o in rows && o != job.id ==> rows[o] == old(rows)[o]
      ensures job.id in rows ==>
                var next := if job.attempts < U32_MAX then job.attempts + 1 else U32_MAX;
                var row := rows[job.id];
                && row.attempts == next && row.lastError == Some(error) && row.updated == now
                && row.(attempts := 0, lastError := None, updated := 0, status := Failed, nextRetry := 0)
                   == old(rows)[job.id].(attempts := 0, lastError := None, updated := 0, status := Failed, nextRetry := 0)
                && (if job.maxRetries > 0 && next >= job.maxRetries then row.status == Failed && row.nextRetry == old(rows)[job.id].nextRetry
                    else row.status == Pending && row.nextRetry == now + backoff)
    {
      var next := SaturatingInc(job.attempts);
      if job.id in rows {
        if job.maxRetries > 0 && next >= job.maxRetries {
          rows := rows[job.id := rows[job.id].(attempts := next, status := Failed, lastError := Some(error), updated := now)];
        } else {
          rows := rows[job.id := rows[job.id].(attempts := next, status := Pending, nextRetry := now + backoff,
                                               lastError := Some(error), updated := now)];
        }
      }
    }

    method ReviveFailed(now: int) returns (updated: nat)
      modifies this
      ensures Contents() == RetryFailed(old(Contents()), now)
      ensures updated == |FailedIds(old(Contents()))|
      ensures nextId == old(nextId) && rows.Keys == old(rows).Keys
      ensures forall id :: id in rows ==>
                rows[id] == if old(rows)[id].status == Failed then old(rows)[id].(status := Pending, nextRetry := now, updated := now) else old(rows)[id]
    {
      updated := |set id | id in rows && rows[id].status == Failed|;
      assert (set id | id in rows && rows[id].status == Failed) == FailedIds(Contents());
      rows := map id | id in rows :: if rows[id].status == Failed then Revived(rows[id], now) else rows[id];
    }

    method PendingCount() returns (n: nat)
      ensures n == |LiveIds(Contents())|
      ensures n == |set id | id in rows && (rows[id].status == Pending || rows[id].status == InProgress)|
    {
      n := |set id | id in rows && (rows[id].status == Pending || rows[id].status == InProgress)|;
      assert (set id | id in rows && (rows[id].status == Pending || rows[id].status == InProgress)) == LiveIds(Contents());
    }

    method FailedCount() returns (n: nat)
      ensures n == |FailedIds(Contents())|
      ensures n == |set id | id in rows && rows[id].status == Failed|
    {
      n := |set id | id in rows && rows[id].status == Failed|;
      assert (set id | id in rows && rows[id].status == Failed) == FailedIds(Contents());
    }
  }
}
