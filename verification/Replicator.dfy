/** The worker that drives the queue: destinations, fan-out of a segment into jobs, and one processing round. */
module Replicator {
  import opened Common
  import opened Queue
  import opened Replication

  datatype Kind = Local | S3

  datatype Mode = Primary | AsyncReplica

  datatype Destination = Destination(
    kind: Kind,
    mode: Mode,
    path: Option<string>,
    endpoint: Option<string>,
    bucket: Option<string>,
    prefix: Option<string>,
    backoff: Option<nat>,
    maxRetries: Option<nat>)

  function GetOr<T>(o: Option<T>, default: T): T {
    if o.Some? then o.value else default
  }

  /** The destination key; the S3 form leaves out the prefix. */
  function Key(d: Destination): string {
    match d.kind
    case Local => "local:" + GetOr(d.path, "<missing>")
    case S3 => "s3:" + GetOr(d.endpoint, "<missing>") + ":" + GetOr(d.bucket, "<missing>")
  }

  /** A local destination is known by its path, an S3 one by endpoint and bucket. */
  lemma {:induction false} KeySpelled(d: Destination)
    ensures d.kind == Local && d.path.Some? ==> Key(d) == "local:" + d.path.value
    ensures d.kind == Local && d.path.None? ==> Key(d) == "local:<missing>"
    ensures d.kind == S3 && d.endpoint.Some? && d.bucket.Some? ==> Key(d) == "s3:" + d.endpoint.value + ":" + d.bucket.value
    ensures d.kind == S3 && d.endpoint.None? && d.bucket.None? ==> Key(d) == "s3:<missing>:<missing>"
  {
  }

  /** Local destinations share a key exactly when they share the path, and never with an S3 one. */
  lemma {:induction false} LocalKeysTellPaths(d: Destination, e: Destination)
    requires d.kind == Local && d.path.Some?
    ensures e.kind == Local && e.path.Some? ==> (Key(d) == Key(e) <==> d.path == e.path)
    ensures e.kind == S3 ==> Key(d) != Key(e)
  {
    assert Key(d)[0] == 'l' && Key(d)[6..] == d.path.value;
    if e.kind == Local && e.path.Some? {
      assert Key(e)[6..] == e.path.value;
    }
    if e.kind == S3 {
      assert Key(e)[0] == 's';
    }
  }

  /** Collecting the configured destinations into a map: a later entry replaces an earlier one. */
  function ByKey(ds: seq<Destination>): map<string, Destination> {
    if ds == [] then map[]
    else ByKey(ds[..|ds| - 1])[Key(ds[|ds| - 1]) := ds[|ds| - 1]]
  }

  /** A key finds the last destination configured under it. */
  lemma {:induction false} ByKeyFindsLast(ds: seq<Destination>, i: nat)
    requires i < |ds| && forall j :: i < j < |ds| ==> Key(ds[j]) != Key(ds[i])
    ensures Key(ds[i]) in ByKey(ds) && ByKey(ds)[Key(ds[i])] == ds[i]
  {
    if i < |ds| - 1 {
      ByKeyFindsLast(ds[..|ds| - 1], i);
    }
  }

  lemma {:induction false} ByKeyOnlyConfigured(ds: seq<Destination>, k: string)
    requires k in ByKey(ds)
    ensures ByKey(ds)[k] in ds && Key(ByKey(ds)[k]) == k
  {
    var n := |ds| - 1;
    if k != Key(ds[n]) {
      ByKeyOnlyConfigured(ds[..n], k);
    }
  }

  lemma {:induction false} LastWithKey(ds: seq<Destination>, i: nat) returns (j: nat)
    requires i < |ds|
    ensures i <= j < |ds| && Key(ds[j]) == Key(ds[i])
    ensures forall l :: j < l < |ds| ==> Key(ds[l]) != Key(ds[j])
  {
    hide Key;
    j := |ds| - 1;
    while Key(ds[j]) != Key(ds[i])
      invariant i <= j < |ds|
      invariant forall l :: j < l < |ds| ==> Key(ds[l]) != Key(ds[i])
      decreases j
    {
      j := j - 1;
    }
  }

  /** Every configured destination survives the collection exactly when different destinations have different keys. */
  lemma {:induction false} AllDestinationsKept(ds: seq<Destination>)
    ensures (forall i :: 0 <= i < |ds| ==> Key(ds[i]) in ByKey(ds) && ByKey(ds)[Key(ds[i])] == ds[i])
       <==> (forall i, j :: 0 <= i < |ds| && 0 <= j < |ds| && Key(ds[i]) == Key(ds[j]) ==> ds[i] == ds[j])
  {
    if forall i, j :: 0 <= i < |ds| && 0 <= j < |ds| && Key(ds[i]) == Key(ds[j]) ==> ds[i] == ds[j] {
      forall i | 0 <= i < |ds|
        ensures Key(ds[i]) in ByKey(ds) && ByKey(ds)[Key(ds[i])] == ds[i]
      {
        var j := LastWithKey(ds, i);
        ByKeyFindsLast(ds, j);
      }
    }
  }

  /** Two S3 replicas that differ only in their prefix share a key, and the first one is lost. */
  lemma {:induction false} PrefixesCollapse(d: Destination, p: Option<string>, q: Option<string>)
    requires d.kind == S3 && p != q
    ensures Key(d.(prefix := p)) == Key(d.(prefix := q))
    ensures d.(prefix := p) !in ByKey([d.(prefix := p), d.(prefix := q)]).Values
  {
    var a, b := d.(prefix := p), d.(prefix := q);
    var ds := [a, b];
    assert ds[..1] == [a] && [a][..0] == [];
    assert Key(a) == Key(b);
    assert ByKey([a]) == map[Key(a) := a];
    assert ByKey(ds) == map[Key(a) := b];
  }

  predicate IsReplica(ds: map<string, Destination>, k: string) {
    k in ds && ds[k].mode == AsyncReplica
  }

  predicate Distinct(ks: seq<string>) {
    forall i, j :: 0 <= i < j < |ks| ==> ks[i] != ks[j]
  }

  /** One new row per key, in order. */
  function FanOut(t: Table, ds: map<string, Destination>, segment: string, manifest: string, keys: seq<string>, now: int): Table
    requires forall i :: 0 <= i < |keys| ==> keys[i] in ds
  {
    if keys == [] then t
    else
      var n := |keys| - 1;
      Enqueue(FanOut(t, ds, segment, manifest, keys[..n], now),
              NewRow(segment, manifest, keys[n], GetOr(ds[keys[n]].maxRetries, 0), now))
  }

  lemma {:induction false} FanOutNothing(t: Table, ds: map<string, Destination>, segment: string, manifest: string, now: int)
    ensures FanOut(t, ds, segment, manifest, [], now) == t
  {
  }

  lemma {:induction false} FanOutPush(t: Table, ds: map<string, Destination>, segment: string, manifest: string, keys: seq<string>, k: string, now: int)
    requires k in ds && forall i :: 0 <= i < |keys| ==> keys[i] in ds
    ensures FanOut(t, ds, segment, manifest, keys + [k], now)
            == Enqueue(FanOut(t, ds, segment, manifest, keys, now), NewRow(segment, manifest, k, GetOr(ds[k].maxRetries, 0), now))
  {
    assert (keys + [k])[..|keys|] == keys;
    hide NewRow, Enqueue;
  }

  /** Row `id` is a job just issued for `key`; without a configured limit it may be retried for ever. */
  predicate IsNewJob(rows: map<nat, Row>, id: nat, segment: string, manifest: string, key: string, limit: Option<nat>, now: int) {
    && id in rows
    && rows[id].segment == segment && rows[id].manifest == manifest && rows[id].destination == key
    && rows[id].attempts == 0 && rows[id].maxRetries == (if limit.Some? then limit.value else 0)
    && rows[id].status == Pending && rows[id].nextRetry == now
  }

  /** The rows of the fan-out, field by field. */
  lemma {:induction false} FanOutMeans(t: Table, ds: map<string, Destination>, segment: string, manifest: string, keys: seq<string>, now: int)
    requires WellFormed(t) && forall i :: 0 <= i < |keys| ==> keys[i] in ds
    ensures var f := FanOut(t, ds, segment, manifest, keys, now);
            && f.nextId == t.nextId + |keys|
            && (forall id :: id in t.rows ==> id in f.rows && f.rows[id] == t.rows[id])
            && forall i :: 0 <= i < |keys| ==>
                 IsNewJob(f.rows, t.nextId + i, segment, manifest, keys[i], ds[keys[i]].maxRetries, now)
  {
    if keys != [] {
      var n := |keys| - 1;
      FanOutMeans(t, ds, segment, manifest, keys[..n], now);
      assert forall i :: 0 <= i < n ==> keys[..n][i] == keys[i];
      var f := FanOut(t, ds, segment, manifest, keys, now);
      forall i | 0 <= i < |keys|
        ensures IsNewJob(f.rows, t.nextId + i, segment, manifest, keys[i], ds[keys[i]].maxRetries, now)
      {
        if i < n {
          assert keys[..n][i] == keys[i];
        }
      }
    }
  }

  /** What became of a claimed job: the copy, and whether its mark could be written. */
  datatype Outcome = Outcome(error: Option<string>, written: bool, at: int)

  function Backoff(ds: map<string, Destination>, key: string): nat {
    if key in ds then GetOr(ds[key].backoff, 5) else 5
  }

  function Mark(t: Table, ds: map<string, Destination>, job: Job, o: Outcome): Table {
    if o.error.Some? then MarkFailed(t, job, o.error.value, Backoff(ds, job.destination), o.at)
    else MarkSuccess(t, job.id)
  }

  /** The table after marking jobs `i..`; a mark that cannot be written ends the round. */
  function MarkRest(t: Table, ds: map<string, Destination>, jobs: seq<Job>, outcomes: nat -> Outcome, i: nat): Table
    requires i <= |jobs|
    decreases |jobs| - i
  {
    if i == |jobs| || !outcomes(i).written then t
    else MarkRest(Mark(t, ds, jobs[i], outcomes(i)), ds, jobs, outcomes, i + 1)
  }

  /** How many copies fail in the round, the one whose mark is lost included. */
  function FailureCount(jobs: seq<Job>, outcomes: nat -> Outcome, i: nat): nat
    requires i <= |jobs|
    decreases |jobs| - i
  {
    if i == |jobs| then 0
    else (if outcomes(i).error.Some? then 1 else 0) + (if outcomes(i).written then FailureCount(jobs, outcomes, i + 1) else 0)
  }

  /** What a written mark leaves of the job's row: nothing after a copy, the error and the next attempt after a failure. */
  predicate Settled(ds: map<string, Destination>, job: Job, o: Outcome, was: Row, rows: map<nat, Row>) {
    if o.error.None? then job.id !in rows
    else
      && job.id in rows
      && var row, next := rows[job.id], if job.attempts < U32_MAX then job.attempts + 1 else U32_MAX;
         && row.lastError == o.error && row.attempts == next && row.updated == o.at
         && row.segment == was.segment && row.manifest == was.manifest && row.destination == was.destination
         && row.maxRetries == was.maxRetries && row.created == was.created
         && (if job.maxRetries > 0 && next >= job.maxRetries then row.status == Failed && row.nextRetry == was.nextRetry
             else
               && row.status == Pending
               && row.nextRetry == o.at + (if job.destination in ds && ds[job.destination].backoff.Some? then ds[job.destination].backoff.value else 5))
  }

  /** No mark before that of job `k` was lost, nor is this one. */
  predicate WrittenUpTo(outcomes: nat -> Outcome, i: nat, k: nat) {
    forall j: nat :: i <= j <= k ==> outcomes(j).written
  }

  ghost predicate FirstSettled(ds: map<string, Destination>, jobs: seq<Job>, outcomes: nat -> Outcome, i: nat, before: map<nat, Row>, after: map<nat, Row>) {
    forall k: nat :: i <= k < |jobs| && WrittenUpTo(outcomes, i, k) && jobs[k].id in before ==>
      Settled(ds, jobs[k], outcomes(k), before[jobs[k].id], after)
  }

  ghost predicate RestLeft(jobs: seq<Job>, outcomes: nat -> Outcome, i: nat, before: map<nat, Row>, after: map<nat, Row>) {
    forall k: nat :: i <= k < |jobs| && !WrittenUpTo(outcomes, i, k) ==> SameAt(before, after, jobs[k].id)
  }

  ghost predicate OthersKept(jobs: seq<Job>, i: nat, before: map<nat, Row>, after: map<nat, Row>) {
    forall id :: (forall k :: i <= k < |jobs| ==> jobs[k].id != id) ==> SameAt(before, after, id)
  }

  predicate SameAt(before: map<nat, Row>, after: map<nat, Row>, id: nat) {
    (id in after <==> id in before) && (id in before ==> after[id] == before[id])
  }

  /** Marking jobs `i..` settles the rows up to the first lost mark, in the order of the batch, and leaves every other row alone. */
  ghost predicate Marked(ds: map<string, Destination>, jobs: seq<Job>, outcomes: nat -> Outcome, i: nat, before: map<nat, Row>, after: map<nat, Row>) {
    FirstSettled(ds, jobs, outcomes, i, before, after) && RestLeft(jobs, outcomes, i, before, after) && OthersKept(jobs, i, before, after)
  }

  predicate DistinctJobs(jobs: seq<Job>) {
    forall i, j :: 0 <= i < j < |jobs| ==> jobs[i].id != jobs[j].id
  }

  lemma {:induction false} MarkSettles(t: Table, ds: map<string, Destination>, job: Job, o: Outcome)
    ensures var n := Mark(t, ds, job, o);
            && (job.id in t.rows ==> Settled(ds, job, o, t.rows[job.id], n.rows))
            && forall id :: id != job.id ==> SameAt(t.rows, n.rows, id)
  {
  }

  lemma {:induction false} RestMarked(t: Table, ds: map<string, Destination>, jobs: seq<Job>, outcomes: nat -> Outcome, i: nat)
    requires i <= |jobs| && DistinctJobs(jobs)
    ensures Marked(ds, jobs, outcomes, i, t.rows, MarkRest(t, ds, jobs, outcomes, i).rows)
    decreases |jobs| - i
  {
    if i < |jobs| {
      if outcomes(i).written {
        MarkSettles(t, ds, jobs[i], outcomes(i));
        var n := Mark(t, ds, jobs[i], outcomes(i));
        RestMarked(n, ds, jobs, outcomes, i + 1);
        var after := MarkRest(n, ds, jobs, outcomes, i + 1);
        assert after == MarkRest(t, ds, jobs, outcomes, i);
        hide *;
        MarkedCons(ds, jobs, outcomes, i, t.rows, n.rows, after.rows);
      } else {
        assert forall k: nat :: i <= k ==> !WrittenUpTo(outcomes, i, k);
      }
    }
  }

  lemma {:induction false} MarkedCons(
    ds: map<string, Destination>, jobs: seq<Job>, outcomes: nat -> Outcome, i: nat, t: map<nat, Row>, n: map<nat, Row>, after: map<nat, Row>)
    requires i < |jobs| && DistinctJobs(jobs) && outcomes(i).written
    requires jobs[i].id in t ==> Settled(ds, jobs[i], outcomes(i), t[jobs[i].id], n)
    requires forall id :: id != jobs[i].id ==> SameAt(t, n, id)
    requires Marked(ds, jobs, outcomes, i + 1, n, after)
    ensures Marked(ds, jobs, outcomes, i, t, after)
  {
    assert FirstSettled(ds, jobs, outcomes, i + 1, n, after) && RestLeft(jobs, outcomes, i + 1, n, after) && OthersKept(jobs, i + 1, n, after);
    hide FirstSettled, RestLeft, OthersKept, Settled, SameAt, DistinctJobs;
    FirstCons(ds, jobs, outcomes, i, t, n, after);
    RestCons(jobs, outcomes, i, t, n, after);
    OthersCons(jobs, i, t, n, after);
  }

  lemma {:induction false} FirstCons(
    ds: map<string, Destination>, jobs: seq<Job>, outcomes: nat -> Outcome, i: nat, t: map<nat, Row>, n: map<nat, Row>, after: map<nat, Row>)
    requires i < |jobs| && DistinctJobs(jobs) && outcomes(i).written
    requires jobs[i].id in t ==> Settled(ds, jobs[i], outcomes(i), t[jobs[i].id], n)
    requires forall id :: id != jobs[i].id ==> SameAt(t, n, id)
    requires FirstSettled(ds, jobs, outcomes, i + 1, n, after) && OthersKept(jobs, i + 1, n, after)
    ensures FirstSettled(ds, jobs, outcomes, i, t, after)
  {
    OwnSettled(ds, jobs, outcomes, i, t, n, after);
    hide Settled, WrittenUpTo, DistinctJobs;
    forall k: nat | i < k < |jobs| && WrittenUpTo(outcomes, i, k) && jobs[k].id in t
      ensures Settled(ds, jobs[k], outcomes(k), t[jobs[k].id], after)
    {
      LaterJob(jobs, outcomes, i, k);
      assert SameAt(t, n, jobs[k].id);
    }
  }

  lemma {:induction false} RestCons(jobs: seq<Job>, outcomes: nat -> Outcome, i: nat, t: map<nat, Row>, n: map<nat, Row>, after: map<nat, Row>)
    requires i < |jobs| && DistinctJobs(jobs) && outcomes(i).written
    requires forall id :: id != jobs[i].id ==> SameAt(t, n, id)
    requires RestLeft(jobs, outcomes, i + 1, n, after)
    ensures RestLeft(jobs, outcomes, i, t, after)
  {
    hide DistinctJobs;
    forall k: nat | i <= k < |jobs| && !WrittenUpTo(outcomes, i, k)
      ensures SameAt(t, after, jobs[k].id)
    {
      LaterJob(jobs, outcomes, i, k);
      assert SameAt(t, n, jobs[k].id) && SameAt(n, after, jobs[k].id);
    }
  }

  lemma {:induction false} OthersCons(jobs: seq<Job>, i: nat, t: map<nat, Row>, n: map<nat, Row>, after: map<nat, Row>)
    requires i < |jobs|
    requires forall id :: id != jobs[i].id ==> SameAt(t, n, id)
    requires OthersKept(jobs, i + 1, n, after)
    ensures OthersKept(jobs, i, t, after)
  {
    forall id | forall k :: i <= k < |jobs| ==> jobs[k].id != id
      ensures SameAt(t, after, id)
    {
      assert id != jobs[i].id && SameAt(t, n, id) && SameAt(n, after, id);
    }
  }

  /** The rest of the batch does not touch the row that was settled. */
  lemma {:induction false} OwnSettled(
    ds: map<string, Destination>, jobs: seq<Job>, outcomes: nat -> Outcome, i: nat, t: map<nat, Row>, n: map<nat, Row>, after: map<nat, Row>)
    requires i < |jobs| && DistinctJobs(jobs)
    requires jobs[i].id in t ==> Settled(ds, jobs[i], outcomes(i), t[jobs[i].id], n)
    requires OthersKept(jobs, i + 1, n, after)
    ensures jobs[i].id in t ==> Settled(ds, jobs[i], outcomes(i), t[jobs[i].id], after)
  {
    assert forall k :: i + 1 <= k < |jobs| ==> jobs[k].id != jobs[i].id;
    hide DistinctJobs;
    assert SameAt(n, after, jobs[i].id);
  }

  lemma {:induction false} LaterJob(jobs: seq<Job>, outcomes: nat -> Outcome, i: nat, k: nat)
    requires i <= k < |jobs| && DistinctJobs(jobs) && outcomes(i).written
    ensures k == i ==> WrittenUpTo(outcomes, i, k)
    ensures k > i ==> jobs[k].id != jobs[i].id && (WrittenUpTo(outcomes, i, k) <==> WrittenUpTo(outcomes, i + 1, k))
  {
    if k > i {
      WrittenCons(outcomes, i, k);
    }
  }

  lemma {:induction false} WrittenCons(outcomes: nat -> Outcome, i: nat, k: nat)
    requires outcomes(i).written && i < k
    ensures WrittenUpTo(outcomes, i, k) <==> WrittenUpTo(outcomes, i + 1, k)
  {
  }

  /** A round settles the rows of its batch up to the first lost mark; the later ones stay in progress, and no other row changes. */
  ghost predicate RoundLeaves(ds: map<string, Destination>, jobs: seq<Job>, outcomes: nat -> Outcome, now: int, before: map<nat, Row>, after: map<nat, Row>) {
    && (forall k: nat :: k < |jobs| ==>
          && jobs[k].id in before
          && if WrittenUpTo(outcomes, 0, k) then Settled(ds, jobs[k], outcomes(k), before[jobs[k].id], after)
             else jobs[k].id in after && after[jobs[k].id] == before[jobs[k].id].(status := InProgress, updated := now))
    && OthersKept(jobs, 0, before, after)
  }

  lemma {:induction false} ClaimedRound(
    ds: map<string, Destination>, jobs: seq<Job>, outcomes: nat -> Outcome, now: int,
    before: map<nat, Row>, claimed: map<nat, Row>, after: map<nat, Row>)
    requires claimed.Keys == before.Keys
    requires forall k :: 0 <= k < |jobs| ==>
               jobs[k].id in before && claimed[jobs[k].id] == before[jobs[k].id].(status := InProgress, updated := now)
    requires forall id :: id in before && (forall k :: 0 <= k < |jobs| ==> jobs[k].id != id) ==> claimed[id] == before[id]
    requires Marked(ds, jobs, outcomes, 0, claimed, after)
    ensures RoundLeaves(ds, jobs, outcomes, now, before, after)
  {
    assert FirstSettled(ds, jobs, outcomes, 0, claimed, after) && RestLeft(jobs, outcomes, 0, claimed, after) && OthersKept(jobs, 0, claimed, after);
    hide WrittenUpTo;
    forall k: nat | k < |jobs|
      ensures if WrittenUpTo(outcomes, 0, k) then Settled(ds, jobs[k], outcomes(k), before[jobs[k].id], after)
              else jobs[k].id in after && after[jobs[k].id] == before[jobs[k].id].(status := InProgress, updated := now)
    {
      if WrittenUpTo(outcomes, 0, k) {
        SettledFrom(ds, jobs[k], outcomes(k), claimed[jobs[k].id], before[jobs[k].id], after);
      } else {
        assert SameAt(claimed, after, jobs[k].id);
      }
    }
    hide Settled;
    forall id | forall k :: 0 <= k < |jobs| ==> jobs[k].id != id
      ensures SameAt(before, after, id)
    {
      assert SameAt(claimed, after, id);
    }
  }

  lemma {:induction false} SettledFrom(ds: map<string, Destination>, job: Job, o: Outcome, was: Row, first: Row, rows: map<nat, Row>)
    requires Settled(ds, job, o, was, rows) && was == first.(status := was.status, updated := was.updated)
    ensures Settled(ds, job, o, first, rows)
  {
  }

  /** The failures of a round are the failed copies up to the first lost mark. */
  lemma {:induction false} FailuresSpelled(jobs: seq<Job>, outcomes: nat -> Outcome, i: nat)
    requires i <= |jobs|
    ensures FailureCount(jobs, outcomes, i) == |Failures(jobs, outcomes, i)|
    decreases |jobs| - i
  {
    if i < |jobs| {
      var rest := Failures(jobs, outcomes, i + 1);
      var mine := if outcomes(i).error.Some? then {i} else {};
      if outcomes(i).written {
        FailuresSpelled(jobs, outcomes, i + 1);
        assert Failures(jobs, outcomes, i) == mine + rest;
        assert i !in rest;
      } else {
        assert Failures(jobs, outcomes, i) == mine;
      }
    } else {
      assert Failures(jobs, outcomes, i) == {};
    }
  }

  ghost function Failures(jobs: seq<Job>, outcomes: nat -> Outcome, i: nat): set<nat> {
    set k: nat | i <= k < |jobs| && outcomes(k).error.Some? && forall j: nat :: i <= j < k ==> outcomes(j).written
  }

  const BATCH := 32

  /** A batch has at most 32 jobs, and fewer only if it has every ready one. */
  lemma {:induction false} BatchMeans(t: Table, now: int)
    requires WellFormed(t)
    ensures var ids := ReadyIds(t, now, BATCH, 1);
            && |ids| <= 32 && (forall i :: 0 <= i < |ids| ==> ids[i] in t.rows)
            && (|ids| < 32 ==> forall id :: id in t.rows && t.rows[id].status == Pending && t.rows[id].nextRetry <= now ==>
                  exists i :: 0 <= i < |ids| && JobsOf(t, ids)[i].id == id)
  {
    ReadyIdsAreLowest(t, now, BATCH, 1);
    hide ReadyIds;
    var ids := ReadyIds(t, now, BATCH, 1);
    if |ids| < 32 {
      forall id | id in t.rows && t.rows[id].status == Pending && t.rows[id].nextRetry <= now
        ensures exists i :: 0 <= i < |ids| && JobsOf(t, ids)[i].id == id
      {
        assert Ready(t, id, now) && 1 <= id && id in ids;
        var i :| 0 <= i < |ids| && ids[i] == id;
        assert JobsOf(t, ids)[i].id == id;
      }
    }
  }

  class Worker {
    const queue: ReplicationQueue
    const destinations: map<string, Destination>
    var failures: nat

    constructor (configured: seq<Destination>, queue: ReplicationQueue)
      ensures this.queue == queue && destinations == ByKey(configured) && failures == 0
    {
      this.queue := queue;
      destinations := ByKey(configured);
      failures := 0;
    }

    /**
     Enqueues the segment once per replica key, in whatever order the hash map
     yields them; `writes` insertions succeed before one fails.
     */
    method EnqueueSegment(segment: string, manifest: string, writes: nat, now: int) returns (ok: bool, order: seq<string>)
      requires WellFormed(queue.Contents())
      requires forall k :: k in destinations ==> GetOr(destinations[k].maxRetries, 0) <= U32_MAX
      modifies queue
      ensures Distinct(order)
      ensures forall i :: 0 <= i < |order| ==> order[i] in destinations && destinations[order[i]].mode == AsyncReplica
      ensures ok ==> forall k :: IsReplica(destinations, k) ==> k in order
      ensures !ok ==> |order| == writes
      ensures WellFormed(queue.Contents())
      ensures queue.Contents() == FanOut(old(queue.Contents()), destinations, segment, manifest, order, now)
      ensures queue.nextId == old(queue.nextId) + |order|
      ensures forall id :: id in old(queue.rows) ==> id in queue.rows && queue.rows[id] == old(queue.rows)[id]
      ensures forall i :: 0 <= i < |order| ==>
                IsNewJob(queue.rows, old(queue.nextId) + i, segment, manifest, order[i], destinations[order[i]].maxRetries, now)
    {
      hide FanOut, NewRow, Enqueue, WellFormed;
      order := [];
      FanOutNothing(queue.Contents(), destinations, segment, manifest, now);
      var left := destinations.Keys;
      while left != {}
        invariant left <= destinations.Keys
        invariant Distinct(order) && forall i :: 0 <= i < |order| ==> IsReplica(destinations, order[i]) && order[i] !in left
        invariant forall k :: IsReplica(destinations, k) ==> k in order || k in left
        invariant |order| <= writes
        invariant WellFormed(queue.Contents())
        invariant queue.Contents() == FanOut(old(queue.Contents()), destinations, segment, manifest, order, now)
        decreases left
      {
        var k :| k in left;
        left := left - {k};
        if destinations[k].mode == AsyncReplica {
          if |order| == writes {
            FanOutMeans(old(queue.Contents()), destinations, segment, manifest, order, now);
            return false, order;
          }
          queue.Insert(segment, manifest, k, GetOr(destinations[k].maxRetries, 0), now);
          FanOutPush(old(queue.Contents()), destinations, segment, manifest, order, k, now);
          order := order + [k];
        }
      }
      FanOutMeans(old(queue.Contents()), destinations, segment, manifest, order, now);
      ok := true;
    }

    method MarkOne(job: Job, o: Outcome)
      modifies queue
      ensures queue.Contents() == Mark(old(queue.Contents()), destinations, job, o)
      ensures o.error.None? ==> job.id !in queue.rows
      ensures o.error.Some? && job.id in old(queue.rows) ==>
                && job.id in queue.rows && queue.rows[job.id].lastError == o.error
                && (queue.rows[job.id].status == Pending ==>
                      queue.rows[job.id].nextRetry == o.at +
                        (if job.destination in destinations && destinations[job.destination].backoff.Some?
                         then destinations[job.destination].backoff.value else 5))
    {
      if o.error.Some? {
        var retry := if job.destination in destinations then GetOr(destinations[job.destination].backoff, 5) else 5;
        queue.MarkJobFailed(job, o.error.value, retry, o.at);
      } else {
        queue.Delete(job.id);
      }
    }

    /** Copy and mark each job of a claimed batch in turn; a mark that cannot be written ends the round. */
    method MarkBatch(jobs: seq<Job>, outcomes: nat -> Outcome) returns (ok: bool)
      modifies this, queue
      ensures queue.Contents() == MarkRest(old(queue.Contents()), destinations, jobs, outcomes, 0)
      ensures failures == old(failures) + FailureCount(jobs, outcomes, 0)
      ensures ok <==> forall i :: 0 <= i < |jobs| ==> outcomes(i).written
      ensures failures == old(failures) + |Failures(jobs, outcomes, 0)|
      ensures DistinctJobs(jobs) ==> Marked(destinations, jobs, outcomes, 0, old(queue.rows), queue.rows)
    {
      FailuresSpelled(jobs, outcomes, 0);
      if DistinctJobs(jobs) {
        RestMarked(queue.Contents(), destinations, jobs, outcomes, 0);
      }
      ghost var claimed := queue.Contents();
      hide Mark, Marked, Failures, DistinctJobs;
      for i := 0 to |jobs|
        invariant MarkRest(queue.Contents(), destinations, jobs, outcomes, i) == MarkRest(claimed, destinations, jobs, outcomes, 0)
        invariant failures + FailureCount(jobs, outcomes, i) == old(failures) + FailureCount(jobs, outcomes, 0)
        invariant forall j :: 0 <= j < i ==> outcomes(j).written
      {
        var o := outcomes(i);
        if o.error.Some? {
          failures := failures + 1;
        }
        if !o.written {
          return false;
        }
        MarkOne(jobs[i], o);
      }
      ok := true;
    }

    method RunOnce(now: int, outcomes: nat -> Outcome) returns (ok: bool, jobs: seq<Job>)
      requires WellFormed(queue.Contents())
      modifies this, queue
      ensures var ids := ReadyIds(old(queue.Contents()), now, BATCH, 1);
              && (forall i :: 0 <= i < |ids| ==> ids[i] in old(queue.Contents()).rows)
              && jobs == JobsOf(old(queue.Contents()), ids)
              && queue.Contents() == MarkRest(MarkClaimed(old(queue.Contents()), ids, now), destinations, jobs, outcomes, 0)
      ensures failures == old(failures) + FailureCount(jobs, outcomes, 0)
      ensures ok <==> forall i :: 0 <= i < |jobs| ==> outcomes(i).written
      ensures failures == old(failures) + |Failures(jobs, outcomes, 0)|
      ensures RoundLeaves(destinations, jobs, outcomes, now, old(queue.rows), queue.rows)
      ensures |jobs| <= 32 && (|jobs| < 32 ==> forall id :: id in old(queue.rows) && old(queue.rows)[id].status == Pending && old(queue.rows)[id].nextRetry <= now ==>
                exists i :: 0 <= i < |jobs| && jobs[i].id == id)
      ensures forall i :: 0 <= i < |jobs| ==>
                && jobs[i].id in old(queue.rows)
                && var row := old(queue.rows)[jobs[i].id];
                   && row.status == Pending && row.nextRetry <= now
                   && jobs[i].segment == row.segment && jobs[i].manifest == row.manifest && jobs[i].destination == row.destination
                   && jobs[i].attempts == row.attempts && jobs[i].maxRetries == row.maxRetries
    {
      BatchMeans(queue.Contents(), now);
      ghost var before := queue.rows;
      jobs := queue.ClaimReady(BATCH, now);
      ghost var claimed := queue.rows;
      hide LowestReady, MarkClaimed, Mark, ReadyIds, MarkRest, FailureCount, Marked, RoundLeaves, JobsOf, WellFormed, Failures, BATCH;
      assert DistinctJobs(jobs);
      hide DistinctJobs, LowestJobs;
      ok := MarkBatch(jobs, outcomes);
      ClaimedRound(destinations, jobs, outcomes, now, before, claimed, queue.rows);
    }
  }

  // ----- A round is a run of the interleaving model

  ghost function MarkStep(ds: map<string, Destination>, w: nat, job: Job, o: Outcome): Step {
    if o.error.Some? then Fail(w, o.error.value, Backoff(ds, job.destination), o.at) else Succeed(w, o.at)
  }

  /** The steps of worker `w` that mark jobs `i..`. */
  ghost function MarkSteps(ds: map<string, Destination>, w: nat, jobs: seq<Job>, outcomes: nat -> Outcome, i: nat): seq<Step>
    requires i <= |jobs|
    decreases |jobs| - i
  {
    if i == |jobs| then []
    else
      var o := outcomes(i);
      if !o.written then [Abandon(w, o.at)]
      else [MarkStep(ds, w, jobs[i], o)] + MarkSteps(ds, w, jobs, outcomes, i + 1)
  }

  /** Whatever the outcomes, marking a held batch is a possible run, and it leaves the table the method leaves. */
  lemma {:induction false} MarkingIsARun(s: System, ds: map<string, Destination>, w: nat, jobs: seq<Job>, outcomes: nat -> Outcome, i: nat)
    requires Inv(s) && i <= |jobs| && Held(s, w) == jobs[i..]
    ensures Possible(s, MarkSteps(ds, w, jobs, outcomes, i))
    ensures After(s, MarkSteps(ds, w, jobs, outcomes, i)).table == MarkRest(s.table, ds, jobs, outcomes, i)
    ensures Held(After(s, MarkSteps(ds, w, jobs, outcomes, i)), w) == []
    decreases |jobs| - i
  {
    if i < |jobs| {
      var steps := MarkSteps(ds, w, jobs, outcomes, i);
      assert Held(s, w)[0] == jobs[i] && Held(s, w)[1..] == jobs[i + 1..];
      StepKeeps(s, steps[0]);
      var n := Next(s, steps[0]);
      hide Inv;
      if outcomes(i).written {
        assert Held(n, w) == jobs[i + 1..];
        MarkingIsARun(n, ds, w, jobs, outcomes, i + 1);
        assert steps[1..] == MarkSteps(ds, w, jobs, outcomes, i + 1);
      } else {
        assert steps[1..] == [];
      }
    }
  }

  /** The whole round of an idle worker, claim included, is a run of the model: its theorems apply to it. */
  lemma {:induction false} RoundIsARun(s: System, ds: map<string, Destination>, w: nat, now: int, outcomes: nat -> Outcome)
    requires Inv(s) && Held(s, w) == []
    ensures var claim := Claim(w, BATCH, now);
            var ids := Batch(s, claim);
            var jobs := JobsOf(s.table, ids);
            var steps := [claim] + MarkSteps(ds, w, jobs, outcomes, 0);
            && Possible(s, steps)
            && After(s, steps).table == MarkRest(MarkClaimed(s.table, ids, now), ds, jobs, outcomes, 0)
            && Held(After(s, steps), w) == []
  {
    var claim := Claim(w, BATCH, now);
    var jobs := JobsOf(s.table, Batch(s, claim));
    StepKeeps(s, claim);
    var n := Next(s, claim);
    assert jobs[0..] == jobs;
    hide Inv, Batch;
    MarkingIsARun(n, ds, w, jobs, outcomes, 0);
    var steps := [claim] + MarkSteps(ds, w, jobs, outcomes, 0);
    assert steps[1..] == MarkSteps(ds, w, jobs, outcomes, 0);
  }
}
