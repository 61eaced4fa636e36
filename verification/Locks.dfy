/** Lock order of the archive service, and the scheduler's RIB snapshots. */
module Locks {
  import opened Common
  import Layout

  datatype Lock = UpdatesWriter | RibBucket | RibsLast

  function Rank(l: Lock): nat {
    match l
    case UpdatesWriter => 0
    case RibBucket => 1
    case RibsLast => 2
  }

  /**
   Where a call is between its lock operations. `Wait*` places are blocked on a
   lock; `In*` places run with the locks they hold. Errors leave from any `In*` place.
   */
  datatype Place =
    // ingest_update, ingest_peer_state
    | IngestWaitEnsure | IngestInEnsure | IngestWaitWrite | IngestInWrite
    // rollover of the updates stream
    | RollWaitTake | RollInTake | RollWaitEnsure | RollInEnsure
    // scheduler tick, with its snapshot taken under the bucket lock
    | TickWaitEnsure | TickInEnsure | TickWaitBucket | TickInBucket | TickWaitRibs | TickInRibs | TickInDone
    // snapshot_now, also as rollover of the RIB stream
    | SnapInWrite | SnapWaitRibs | SnapInRibs
    // status
    | StatusWaitWriter | StatusWaitRibs | StatusInBoth
    | Finished

  predicate Entry(p: Place) {
    p == IngestWaitEnsure || p == RollWaitTake || p == TickWaitEnsure || p == SnapInWrite || p == StatusWaitWriter
  }

  function Holds(p: Place): set<Lock> {
    match p
    case IngestInEnsure => {UpdatesWriter}
    case IngestInWrite => {UpdatesWriter}
    case RollInTake => {UpdatesWriter}
    case RollInEnsure => {UpdatesWriter}
    case TickInEnsure => {UpdatesWriter}
    case TickInBucket => {RibBucket}
    case TickWaitRibs => {RibBucket}
    case TickInRibs => {RibBucket, RibsLast}
    case TickInDone => {RibBucket}
    case SnapInRibs => {RibsLast}
    case StatusWaitRibs => {UpdatesWriter}
    case StatusInBoth => {UpdatesWriter, RibsLast}
    case _ => {}
  }

  function Wants(p: Place): Option<Lock> {
    match p
    case IngestWaitEnsure => Some(UpdatesWriter)
    case IngestWaitWrite => Some(UpdatesWriter)
    case RollWaitTake => Some(UpdatesWriter)
    case RollWaitEnsure => Some(UpdatesWriter)
    case TickWaitEnsure => Some(UpdatesWriter)
    case TickWaitBucket => Some(RibBucket)
    case TickWaitRibs => Some(RibsLast)
    case SnapWaitRibs => Some(RibsLast)
    case StatusWaitWriter => Some(UpdatesWriter)
    case StatusWaitRibs => Some(RibsLast)
    case _ => None
  }

  /** The places a call can go to next. */
  function Successors(p: Place): set<Place> {
    match p
    case IngestWaitEnsure => {IngestInEnsure}
    case IngestInEnsure => {IngestWaitWrite, Finished}
    case IngestWaitWrite => {IngestInWrite}
    case IngestInWrite => {Finished}
    case RollWaitTake => {RollInTake}
    case RollInTake => {RollWaitEnsure, Finished}
    case RollWaitEnsure => {RollInEnsure}
    case RollInEnsure => {Finished}
    case TickWaitEnsure => {TickInEnsure}
    case TickInEnsure => {TickWaitBucket, Finished}
    case TickWaitBucket => {TickInBucket}
    case TickInBucket => {TickWaitRibs, Finished}
    case TickWaitRibs => {TickInRibs}
    case TickInRibs => {TickInDone}
    case TickInDone => {Finished}
    case SnapInWrite => {SnapWaitRibs, Finished}
    case SnapWaitRibs => {SnapInRibs}
    case SnapInRibs => {Finished}
    case StatusWaitWriter => {StatusWaitRibs}
    case StatusWaitRibs => {StatusInBoth}
    case StatusInBoth => {Finished}
    case Finished => {}
  }

  /** Longest way to the end. */
  function Distance(p: Place): nat {
    match p
    case TickWaitEnsure => 7
    case TickInEnsure => 6
    case TickWaitBucket => 5
    case TickInBucket => 4
    case IngestWaitEnsure => 4
    case RollWaitTake => 4
    case IngestInEnsure => 3
    case RollInTake => 3
    case TickWaitRibs => 3
    case SnapInWrite => 3
    case StatusWaitWriter => 3
    case IngestWaitWrite => 2
    case RollWaitEnsure => 2
    case TickInRibs => 2
    case SnapWaitRibs => 2
    case StatusWaitRibs => 2
    case Finished => 0
    case _ => 1
  }

  /** A call at `p` moves to `q`: it takes at most the lock it waits for, and only if nobody else holds it. */
  ghost predicate CanMove(calls: seq<Place>, i: nat, q: Place) {
    && i < |calls|
    && q in Successors(calls[i])
    && (forall j, l :: 0 <= j < |calls| && j != i && l in Holds(q) ==> l !in Holds(calls[j]))
  }

  ghost predicate Exclusive(calls: seq<Place>) {
    forall i, j, l :: 0 <= i < j < |calls| && l in Holds(calls[i]) ==> l !in Holds(calls[j])
  }

  /** A lock is only waited for by calls whose own locks rank below it. */
  lemma {:induction false} LockOrder(p: Place, l: Lock)
    requires Wants(p).Some? && l in Holds(p)
    ensures Rank(l) < Rank(Wants(p).value)
  {
  }

  lemma {:induction false} MoveTakesOnlyWanted(p: Place, q: Place)
    requires q in Successors(p)
    ensures Holds(q) <= Holds(p) + (if Wants(p).Some? then {Wants(p).value} else {})
    ensures Distance(q) < Distance(p)
  {
  }

  function SomeSuccessor(p: Place): (q: Place)
    requires p != Finished
    ensures q in Successors(p)
  {
    match p
    case IngestWaitEnsure => IngestInEnsure
    case IngestWaitWrite => IngestInWrite
    case RollWaitTake => RollInTake
    case RollWaitEnsure => RollInEnsure
    case TickWaitEnsure => TickInEnsure
    case TickWaitBucket => TickInBucket
    case TickWaitRibs => TickInRibs
    case TickInRibs => TickInDone
    case SnapWaitRibs => SnapInRibs
    case StatusWaitWriter => StatusWaitRibs
    case StatusWaitRibs => StatusInBoth
    case _ => Finished
  }

  /** How high the lock a call waits for ranks; calls that wait for nothing rank above all. */
  function WaitRank(p: Place): nat {
    if Wants(p).Some? then Rank(Wants(p).value) else 3
  }

  /** Follow the holders upwards in rank: somebody on the way can move. */
  lemma {:induction false} FindMover(calls: seq<Place>, i: nat) returns (k: nat, q: Place)
    requires Exclusive(calls) && i < |calls| && calls[i] != Finished
    ensures CanMove(calls, k, q)
    decreases 3 - WaitRank(calls[i])
  {
    k, q := i, SomeSuccessor(calls[i]);
    MoveTakesOnlyWanted(calls[i], q);
    hide Successors, SomeSuccessor, Distance;
    if Wants(calls[i]).Some? && exists j :: 0 <= j < |calls| && j != i && Wants(calls[i]).value in Holds(calls[j]) {
      var j :| 0 <= j < |calls| && j != i && Wants(calls[i]).value in Holds(calls[j]);
      Blocked(calls[i], calls[j]);
      k, q := FindMover(calls, j);
    } else {
      forall j, l | 0 <= j < |calls| && j != i && l in Holds(q)
        ensures l !in Holds(calls[j])
      {
        if l in Holds(calls[i]) {
          OthersDoNotHold(calls, i, j, l);
        }
      }
    }
  }

  lemma {:induction false} OthersDoNotHold(calls: seq<Place>, i: nat, j: nat, l: Lock)
    requires Exclusive(calls) && i < |calls| && j < |calls| && i != j && l in Holds(calls[i])
    ensures l !in Holds(calls[j])
  {
    hide Holds;
  }

  /** The holder of a wanted lock is not finished and waits, if at all, for a higher one. */
  lemma {:induction false} Blocked(p: Place, holder: Place)
    requires Wants(p).Some? && Wants(p).value in Holds(holder)
    ensures holder != Finished && WaitRank(p) < WaitRank(holder)
  {
    if Wants(holder).Some? {
      LockOrder(holder, Wants(p).value);
    }
  }

  function TotalDistance(calls: seq<Place>): nat {
    if calls == [] then 0 else TotalDistance(calls[..|calls| - 1]) + Distance(calls[|calls| - 1])
  }

  lemma {:induction false} TotalDecreases(calls: seq<Place>, i: nat, q: Place)
    requires i < |calls| && Distance(q) < Distance(calls[i])
    ensures TotalDistance(calls[i := q]) < TotalDistance(calls)
  {
    hide Distance;
    var n := |calls| - 1;
    if i == n {
      assert calls[i := q][..n] == calls[..n];
    } else {
      assert calls[i := q][..n] == calls[..n][i := q];
      TotalDecreases(calls[..n], i, q);
    }
  }

  lemma {:induction false} MoveKeepsExclusive(calls: seq<Place>, i: nat, q: Place)
    requires Exclusive(calls) && CanMove(calls, i, q)
    ensures Exclusive(calls[i := q])
    ensures TotalDistance(calls[i := q]) < TotalDistance(calls)
  {
    MoveTakesOnlyWanted(calls[i], q);
    TotalDecreases(calls, i, q);
    hide Holds, Successors, Distance, TotalDistance;
  }

  /** Runs: each element is a call and the place it moves to. */
  ghost predicate Possible(calls: seq<Place>, moves: seq<(nat, Place)>)
    decreases |moves|
  {
    moves == [] || (CanMove(calls, moves[0].0, moves[0].1) && Possible(calls[moves[0].0 := moves[0].1], moves[1..]))
  }

  ghost function After(calls: seq<Place>, moves: seq<(nat, Place)>): seq<Place>
    requires Possible(calls, moves)
    decreases |moves|
  {
    if moves == [] then calls else After(calls[moves[0].0 := moves[0].1], moves[1..])
  }

  lemma {:induction false} RunKeepsExclusive(calls: seq<Place>, moves: seq<(nat, Place)>)
    requires Exclusive(calls) && Possible(calls, moves)
    ensures Exclusive(After(calls, moves))
    ensures |moves| + TotalDistance(After(calls, moves)) <= TotalDistance(calls)
    decreases |moves|
  {
    if moves != [] {
      hide Exclusive, CanMove, TotalDistance;
      MoveKeepsExclusive(calls, moves[0].0, moves[0].1);
      RunKeepsExclusive(calls[moves[0].0 := moves[0].1], moves[1..]);
    }
  }

  /**
   Any number of concurrent ingest, rollover, tick, snapshot and status calls:
   two calls never hold the same lock, a run has boundedly many lock operations,
   and as long as a call is unfinished some call can move. So every call finishes.
   */
  lemma {:induction false} NoDeadlock(calls: seq<Place>, moves: seq<(nat, Place)>, i: nat) returns (k: nat, q: Place)
    requires forall j :: 0 <= j < |calls| ==> Entry(calls[j])
    requires Possible(calls, moves)
    requires i < |After(calls, moves)| && After(calls, moves)[i] != Finished
    ensures Exclusive(After(calls, moves))
    ensures |moves| <= TotalDistance(calls)
    ensures CanMove(After(calls, moves), k, q)
  {
    assert forall j :: 0 <= j < |calls| ==> Holds(calls[j]) == {};
    assert Exclusive(calls);
    RunKeepsExclusive(calls, moves);
    k, q := FindMover(After(calls, moves), i);
  }

  // ----- What the locks are for

  /** In the code that reads or replaces the open segment. */
  predicate InWriter(p: Place) {
    || p == IngestInEnsure || p == IngestInWrite || p == RollInTake || p == RollInEnsure || p == TickInEnsure
    || p == StatusWaitRibs || p == StatusInBoth
  }

  /** Between the test of the snapshot bucket and its record. */
  predicate InBucket(p: Place) {
    p == TickInBucket || p == TickWaitRibs || p == TickInRibs || p == TickInDone
  }

  /** In the code that reads or replaces the last snapshot. */
  predicate InRibs(p: Place) {
    p == TickInRibs || p == SnapInRibs || p == StatusInBoth
  }

  lemma {:induction false} SectionsHold(p: Place)
    ensures InWriter(p) <==> UpdatesWriter in Holds(p)
    ensures InBucket(p) <==> RibBucket in Holds(p)
    ensures InRibs(p) <==> RibsLast in Holds(p)
  {
  }

  /** In every run no two calls are in sections over the same state at once. */
  lemma {:induction false} SectionsExclude(calls: seq<Place>, moves: seq<(nat, Place)>, i: nat, j: nat)
    requires forall k :: 0 <= k < |calls| ==> Entry(calls[k])
    requires Possible(calls, moves)
    requires i < j < |After(calls, moves)|
    ensures var p, q := After(calls, moves)[i], After(calls, moves)[j];
            && !(InWriter(p) && InWriter(q))
            && !(InBucket(p) && InBucket(q))
            && !(InRibs(p) && InRibs(q))
  {
    assert forall k :: 0 <= k < |calls| ==> Holds(calls[k]) == {};
    assert Exclusive(calls);
    RunKeepsExclusive(calls, moves);
    var after := After(calls, moves);
    SectionsHold(after[i]);
    SectionsHold(after[j]);
    hide InWriter, InBucket, InRibs, Holds, After, Possible;
  }

  /** The places of a call that meets no error and takes its snapshot, by the place it enters at. */
  function Program(entry: Place): seq<Place> {
    match entry
    case IngestWaitEnsure => [IngestWaitEnsure, IngestInEnsure, IngestWaitWrite, IngestInWrite, Finished]
    case RollWaitTake => [RollWaitTake, RollInTake, RollWaitEnsure, RollInEnsure, Finished]
    case TickWaitEnsure =>
      [TickWaitEnsure, TickInEnsure, TickWaitBucket, TickInBucket, TickWaitRibs, TickInRibs, TickInDone, Finished]
    case SnapInWrite => [SnapInWrite, SnapWaitRibs, SnapInRibs, Finished]
    case StatusWaitWriter => [StatusWaitWriter, StatusWaitRibs, StatusInBoth, Finished]
    case _ => []
  }

  /** Where an error, or a bucket that has its snapshot, can end a call early. */
  predicate MayEnd(p: Place) {
    p == IngestInEnsure || p == RollInTake || p == TickInEnsure || p == TickInBucket || p == SnapInWrite
  }

  /** Where a call has been: on its program, perhaps with an early end. */
  ghost predicate OnProgram(been: seq<Place>) {
    && been != [] && Entry(been[0])
    && (|| been <= Program(been[0])
        || (|been| > 1 && been[|been| - 1] == Finished && been[..|been| - 1] <= Program(been[0]) && MayEnd(been[|been| - 2])))
  }

  /** The places of call `i` in a run, the first included. */
  ghost function Been(calls: seq<Place>, moves: seq<(nat, Place)>, i: nat): seq<Place>
    requires Possible(calls, moves) && i < |calls|
    decreases |moves|
  {
    if moves == [] then [calls[i]]
    else
      var rest := Been(calls[moves[0].0 := moves[0].1], moves[1..], i);
      if moves[0].0 == i then [calls[i]] + rest else rest
  }

  /** The next place of the program, or an early end, is all a move can lead to. */
  lemma {:induction false} MoveStaysOnProgram(been: seq<Place>, q: Place)
    requires OnProgram(been) && q in Successors(been[|been| - 1])
    ensures OnProgram(been + [q])
  {
    var n, program := |been|, Program(been[0]);
    var more := been + [q];
    assert more[..n] == been && more[0] == been[0];
    if been <= program {
      assert been[n - 1] == program[n - 1];
      NextOnProgram(been[0], n, q);
      if n < |program| && q == program[n] {
        assert more == program[..n] + [program[n]] == program[..n + 1];
      }
    }
    hide Program, Successors, MayEnd, Entry;
  }

  lemma {:induction false} NextOnProgram(entry: Place, n: nat, q: Place)
    requires 0 < n <= |Program(entry)| && q in Successors(Program(entry)[n - 1])
    ensures (n < |Program(entry)| && q == Program(entry)[n]) || (q == Finished && MayEnd(Program(entry)[n - 1]))
  {
    assert n == 1 || n == 2 || n == 3 || n == 4 || n == 5 || n == 6 || n == 7 || n == 8;
  }

  lemma {:induction false} BeenUnfolds(calls: seq<Place>, moves: seq<(nat, Place)>, i: nat)
    requires Possible(calls, moves) && i < |calls| && moves != []
    ensures var next := calls[moves[0].0 := moves[0].1];
            && Possible(next, moves[1..])
            && Been(calls, moves, i) == (if moves[0].0 == i then [calls[i]] else []) + Been(next, moves[1..], i)
    ensures if moves[0].0 == i then moves[0].1 in Successors(calls[i]) else calls[moves[0].0 := moves[0].1][i] == calls[i]
  {
    hide Successors, Holds;
    var rest := Been(calls[moves[0].0 := moves[0].1], moves[1..], i);
    assert [] + rest == rest;
  }

  lemma {:induction false} BeenOnProgram(calls: seq<Place>, moves: seq<(nat, Place)>, i: nat, before: seq<Place>)
    requires Possible(calls, moves) && i < |calls| && OnProgram(before + [calls[i]])
    ensures OnProgram(before + Been(calls, moves, i))
    decreases |moves|
  {
    if moves == [] {
      assert Been(calls, moves, i) == [calls[i]];
    } else {
      BeenUnfolds(calls, moves, i);
      hide *;
      var next, been := calls[moves[0].0 := moves[0].1], before + (if moves[0].0 == i then [calls[i]] else []);
      if moves[0].0 == i {
        MoveStaysOnProgram(been, moves[0].1);
      } else {
        assert before + [] == before;
      }
      BeenOnProgram(next, moves[1..], i, been);
      assert before + ((if moves[0].0 == i then [calls[i]] else []) + Been(next, moves[1..], i)) == been + Been(next, moves[1..], i);
    }
  }

  /** In every run each call goes through the places of its program in order, or ends early where it may. */
  lemma {:induction false} CallsFollowProgram(calls: seq<Place>, moves: seq<(nat, Place)>, i: nat)
    requires Possible(calls, moves) && i < |calls| && Entry(calls[i])
    ensures OnProgram(Been(calls, moves, i))
  {
    assert [calls[i]] <= Program(calls[i]);
    assert [] + [calls[i]] == [calls[i]];
    BeenOnProgram(calls, moves, i, []);
    assert [] + Been(calls, moves, i) == Been(calls, moves, i);
  }

  /** And it can go through all of them, or end at each place where it may. */
  lemma {:induction false} ProgramsRun(entry: Place, n: nat)
    requires Entry(entry) && 0 < n < |Program(entry)|
    ensures Program(entry)[n] in Successors(Program(entry)[n - 1])
    ensures MayEnd(Program(entry)[n - 1]) ==> Finished in Successors(Program(entry)[n - 1])
  {
    assert n == 1 || n == 2 || n == 3 || n == 4 || n == 5 || n == 6 || n == 7;
  }

  // ----- Scheduled snapshots

  datatype TickInput = TickInput(now: int, snapshotOk: bool)

  /** The part of `tick` under the bucket lock. */
  class Scheduler {
    const interval: nat
    var lastBucket: Option<int>

    constructor (interval: nat)
      requires interval > 0
      ensures this.interval == interval && lastBucket == None
    {
      this.interval := interval;
      lastBucket := None;
    }

    /** Returns the bucket a snapshot was taken for, if one was. */
    method Tick(t: TickInput) returns (taken: Option<int>)
      requires interval > 0
      modifies this
      ensures (lastBucket, taken) == AfterTick(old(lastBucket), interval, t)
    {
      var bucket := Layout.AlignedEpoch(t.now, interval);
      taken := None;
      if lastBucket.None? || lastBucket.value != bucket {
        if t.snapshotOk {
          lastBucket := Some(bucket);
          taken := Some(bucket);
        }
      }
    }
  }

  function AfterTick(last: Option<int>, interval: nat, t: TickInput): (Option<int>, Option<int>)
    requires interval > 0
  {
    var bucket := Layout.AlignedEpoch(t.now, interval);
    if last == Some(bucket) || !t.snapshotOk then (last, None) else (Some(bucket), Some(bucket))
  }

  function LastBucket(interval: nat, ts: seq<TickInput>): Option<int>
    requires interval > 0
  {
    if ts == [] then None else AfterTick(LastBucket(interval, ts[..|ts| - 1]), interval, ts[|ts| - 1]).0
  }

  /** Buckets of the successful scheduled snapshots, in order. */
  function Snapshots(interval: nat, ts: seq<TickInput>): seq<int>
    requires interval > 0
  {
    if ts == [] then []
    else
      var n := |ts| - 1;
      var taken := AfterTick(LastBucket(interval, ts[..n]), interval, ts[n]).1;
      Snapshots(interval, ts[..n]) + (if taken.Some? then [taken.value] else [])
  }

  predicate Increasing(s: seq<int>) {
    forall i, j :: 0 <= i < j < |s| ==> s[i] < s[j]
  }

  lemma {:induction false} LastIsLastSnapshot(interval: nat, ts: seq<TickInput>)
    requires interval > 0
    ensures var s := Snapshots(interval, ts);
            LastBucket(interval, ts) == if s == [] then None else Some(s[|s| - 1])
  {
    if ts != [] {
      LastIsLastSnapshot(interval, ts[..|ts| - 1]);
      hide Layout.AlignedEpoch;
    }
  }

  /** No bucket is missed: it gets a snapshot exactly when some tick in it can take one, whatever the clock does. */
  lemma {:induction false} SnapshotIffPossible(interval: nat, ts: seq<TickInput>, b: int)
    requires interval > 0
    ensures b in Snapshots(interval, ts) <==>
            exists i :: 0 <= i < |ts| && ts[i].snapshotOk && Layout.AlignedEpoch(ts[i].now, interval) == b
  {
    if ts != [] {
      var n := |ts| - 1;
      SnapshotIffPossible(interval, ts[..n], b);
      LastIsLastSnapshot(interval, ts[..n]);
      hide Layout.AlignedEpoch, LastBucket;
      assert forall i :: 0 <= i < n ==> ts[..n][i] == ts[i];
      var s := Snapshots(interval, ts[..n]);
      assert s != [] ==> s[|s| - 1] in s;
    }
  }

  /** The buckets of the ticks that could take a snapshot never go back. */
  predicate BucketsInOrder(interval: nat, ts: seq<TickInput>)
    requires interval > 0
  {
    forall i, j :: 0 <= i < j < |ts| && ts[i].snapshotOk && ts[j].snapshotOk ==>
      Layout.AlignedEpoch(ts[i].now, interval) <= Layout.AlignedEpoch(ts[j].now, interval)
  }

  predicate AtMost(s: seq<int>, bound: int) {
    forall b :: b in s ==> b <= bound
  }

  predicate BucketsAtMost(interval: nat, ts: seq<TickInput>, bound: int)
    requires interval > 0
  {
    forall i :: 0 <= i < |ts| && ts[i].snapshotOk ==> Layout.AlignedEpoch(ts[i].now, interval) <= bound
  }

  lemma {:induction false} InOrderPush(interval: nat, ts: seq<TickInput>, t: TickInput)
    requires interval > 0
    ensures BucketsInOrder(interval, ts + [t]) <==>
            && BucketsInOrder(interval, ts)
            && (t.snapshotOk ==> BucketsAtMost(interval, ts, Layout.AlignedEpoch(t.now, interval)))
  {
    hide Layout.AlignedEpoch;
    var us := ts + [t];
    assert us[|ts|] == t && forall i :: 0 <= i < |ts| ==> us[i] == ts[i];
    if BucketsInOrder(interval, us) {
      forall i, j | 0 <= i < j < |ts| && ts[i].snapshotOk && ts[j].snapshotOk
        ensures Layout.AlignedEpoch(ts[i].now, interval) <= Layout.AlignedEpoch(ts[j].now, interval)
      {
        assert us[i] == ts[i] && us[j] == ts[j];
      }
    }
  }

  /** The snapshots taken so far are at most `bound` exactly when the ticks that could take one are. */
  lemma {:induction false} SnapshotsBounded(interval: nat, ts: seq<TickInput>, bound: int)
    requires interval > 0
    ensures AtMost(Snapshots(interval, ts), bound) <==> BucketsAtMost(interval, ts, bound)
  {
    hide Layout.AlignedEpoch, Snapshots;
    forall b
      ensures b in Snapshots(interval, ts) <==>
              exists i :: 0 <= i < |ts| && ts[i].snapshotOk && Layout.AlignedEpoch(ts[i].now, interval) == b
    {
      SnapshotIffPossible(interval, ts, b);
    }
    if AtMost(Snapshots(interval, ts), bound) {
      forall i | 0 <= i < |ts| && ts[i].snapshotOk
        ensures Layout.AlignedEpoch(ts[i].now, interval) <= bound
      {
        assert Layout.AlignedEpoch(ts[i].now, interval) in Snapshots(interval, ts);
      }
    }
  }

  /** Exactly: each bucket gets at most one snapshot, in order, if and only if those buckets never go back. */
  lemma {:induction false} OnceEachIffBucketsInOrder(interval: nat, ts: seq<TickInput>)
    requires interval > 0
    ensures Increasing(Snapshots(interval, ts)) <==> BucketsInOrder(interval, ts)
  {
    if ts != [] {
      var n := |ts| - 1;
      OnceEachIffBucketsInOrder(interval, ts[..n]);
      OneMoreTick(interval, ts[..n], ts[n]);
      hide *;
      assert ts == ts[..n] + [ts[n]];
    }
  }

  lemma {:induction false} OneMoreTick(interval: nat, before: seq<TickInput>, t: TickInput)
    requires interval > 0 && (Increasing(Snapshots(interval, before)) <==> BucketsInOrder(interval, before))
    ensures Increasing(Snapshots(interval, before + [t])) <==> BucketsInOrder(interval, before + [t])
  {
    hide *;
    var bucket := Layout.AlignedEpoch(t.now, interval);
    var s := Snapshots(interval, before);
    TickPush(interval, before, t);
    LastIsLastSnapshot(interval, before);
    InOrderPush(interval, before, t);
    SnapshotsBounded(interval, before, bucket);
    OneMore(s, bucket);
    TickTakes(LastBucket(interval, before), interval, t);
    assert s + [] == s;
  }

  lemma {:induction false} TickTakes(last: Option<int>, interval: nat, t: TickInput)
    requires interval > 0
    ensures var bucket := Layout.AlignedEpoch(t.now, interval);
            AfterTick(last, interval, t).1 == if t.snapshotOk && last != Some(bucket) then Some(bucket) else None
  {
  }

  predicate Distinct(s: seq<int>) {
    forall i, j :: 0 <= i < j < |s| ==> s[i] != s[j]
  }

  function OkBucket(interval: nat, ts: seq<TickInput>, i: nat): int
    requires interval > 0
  {
    if i < |ts| then Layout.AlignedEpoch(ts[i].now, interval) else 0
  }

  predicate Ok(ts: seq<TickInput>, i: nat) {
    i < |ts| && ts[i].snapshotOk
  }

  /** No tick that could take a snapshot comes back to a bucket after another such tick was in a different one. */
  ghost predicate NoReturn(interval: nat, ts: seq<TickInput>)
    requires interval > 0
  {
    forall i: nat, j: nat, k: nat :: i < j < k && Ok(ts, i) && Ok(ts, j) && Ok(ts, k) && OkBucket(interval, ts, i) == OkBucket(interval, ts, k) ==>
      OkBucket(interval, ts, j) == OkBucket(interval, ts, k)
  }

  /** A tick in bucket `b` would not come back to it. */
  ghost predicate Stays(interval: nat, ts: seq<TickInput>, b: int)
    requires interval > 0
  {
    forall i: nat, j: nat :: i < j && Ok(ts, i) && Ok(ts, j) && OkBucket(interval, ts, i) == b ==> OkBucket(interval, ts, j) == b
  }

  lemma {:induction false} NoReturnPush(interval: nat, ts: seq<TickInput>, t: TickInput)
    requires interval > 0
    ensures NoReturn(interval, ts + [t]) <==>
            NoReturn(interval, ts) && (t.snapshotOk ==> Stays(interval, ts, Layout.AlignedEpoch(t.now, interval)))
  {
    hide Layout.AlignedEpoch;
    var us, n := ts + [t], |ts|;
    assert us[n] == t;
    forall i: nat | i < n
      ensures us[i] == ts[i] && (Ok(us, i) <==> Ok(ts, i)) && OkBucket(interval, us, i) == OkBucket(interval, ts, i)
    {
    }
    assert OkBucket(interval, us, n) == Layout.AlignedEpoch(t.now, interval) && (Ok(us, n) <==> t.snapshotOk);
    hide Ok, OkBucket;
    if NoReturn(interval, us) && t.snapshotOk {
      forall i: nat, j: nat | i < j && Ok(ts, i) && Ok(ts, j) && OkBucket(interval, ts, i) == OkBucket(interval, us, n)
        ensures OkBucket(interval, ts, j) == OkBucket(interval, us, n)
      {
        OkWithin(ts, j);
        assert Ok(us, i) && Ok(us, j);
      }
    }
    if NoReturn(interval, us) {
      forall i: nat, j: nat, k: nat | i < j < k && Ok(ts, i) && Ok(ts, j) && Ok(ts, k) && OkBucket(interval, ts, i) == OkBucket(interval, ts, k)
        ensures OkBucket(interval, ts, j) == OkBucket(interval, ts, k)
      {
        OkWithin(ts, k);
        assert Ok(us, i) && Ok(us, j) && Ok(us, k);
      }
    }
    if NoReturn(interval, ts) && (t.snapshotOk ==> Stays(interval, ts, OkBucket(interval, us, n))) {
      forall i: nat, j: nat, k: nat | i < j < k && Ok(us, i) && Ok(us, j) && Ok(us, k) && OkBucket(interval, us, i) == OkBucket(interval, us, k)
        ensures OkBucket(interval, us, j) == OkBucket(interval, us, k)
      {
        OkWithin(us, k);
        assert Ok(ts, i) && Ok(ts, j) && (k < n ==> Ok(ts, k));
      }
    }
  }

  lemma {:induction false} OkWithin(ts: seq<TickInput>, i: nat)
    requires Ok(ts, i)
    ensures i < |ts|
  {
  }

  /** The last tick that could take a snapshot is in the last bucket. */
  lemma {:induction false} LastOk(interval: nat, ts: seq<TickInput>) returns (l: nat)
    requires interval > 0
    ensures LastBucket(interval, ts) == None ==> forall i :: !Ok(ts, i)
    ensures LastBucket(interval, ts).Some? ==>
              Ok(ts, l) && OkBucket(interval, ts, l) == LastBucket(interval, ts).value && forall i :: l < i ==> !Ok(ts, i)
  {
    l := 0;
    if ts != [] {
      var n := |ts| - 1;
      l := LastOk(interval, ts[..n]);
      hide Layout.AlignedEpoch;
      assert forall i: nat :: i < n ==> (Ok(ts, i) <==> Ok(ts[..n], i));
      assert forall i: nat :: i > n ==> !Ok(ts, i);
      assert forall i: nat :: i < n ==> OkBucket(interval, ts, i) == OkBucket(interval, ts[..n], i);
      if ts[n].snapshotOk {
        l := n;
      }
    }
  }

  /** Exactly: no bucket gets two snapshots if and only if no tick that could take one returns to an earlier bucket. */
  lemma {:induction false} OneEachIffNoReturn(interval: nat, ts: seq<TickInput>)
    requires interval > 0
    ensures Distinct(Snapshots(interval, ts)) <==> NoReturn(interval, ts)
  {
    if ts != [] {
      var n := |ts| - 1;
      OneEachIffNoReturn(interval, ts[..n]);
      OneMoreDistinct(interval, ts[..n], ts[n]);
      hide *;
      assert ts == ts[..n] + [ts[n]];
    }
  }

  lemma {:induction false} OneMoreDistinct(interval: nat, before: seq<TickInput>, t: TickInput)
    requires interval > 0 && (Distinct(Snapshots(interval, before)) <==> NoReturn(interval, before))
    ensures Distinct(Snapshots(interval, before + [t])) <==> NoReturn(interval, before + [t])
  {
    hide *;
    var bucket := Layout.AlignedEpoch(t.now, interval);
    var s := Snapshots(interval, before);
    TickPush(interval, before, t);
    NoReturnPush(interval, before, t);
    TickTakes(LastBucket(interval, before), interval, t);
    assert s + [] == s;
    DistinctPush(s, bucket);
    if t.snapshotOk {
      StaysIff(interval, before, bucket);
    }
  }

  lemma {:induction false} DistinctPush(s: seq<int>, x: int)
    ensures Distinct(s + [x]) <==> Distinct(s) && x !in s
  {
    var t := s + [x];
    assert t[|s|] == x && forall i :: 0 <= i < |s| ==> t[i] == s[i];
    if Distinct(t) {
      forall i, j | 0 <= i < j < |s|
        ensures s[i] != s[j]
      {
        assert t[i] != t[j];
      }
      forall i | 0 <= i < |s|
        ensures s[i] != x
      {
        assert t[i] != t[|s|];
      }
    }
    if Distinct(s) && x !in s {
      forall i, j | 0 <= i < j < |t|
        ensures t[i] != t[j]
      {
        if j < |s| {
          assert s[i] != s[j];
        } else {
          assert s[i] in s;
        }
      }
    }
  }

  /** Going on in the last bucket is no return; going to another is none exactly if it had no snapshot. */
  lemma {:induction false} StaysIff(interval: nat, ts: seq<TickInput>, b: int)
    requires interval > 0
    ensures LastBucket(interval, ts) == Some(b) && NoReturn(interval, ts) ==> Stays(interval, ts, b)
    ensures LastBucket(interval, ts) != Some(b) ==> (Stays(interval, ts, b) <==> b !in Snapshots(interval, ts))
  {
    var l := LastOk(interval, ts);
    SnapshotIffPossible(interval, ts, b);
    hide Layout.AlignedEpoch, LastBucket, Snapshots;
    assert b in Snapshots(interval, ts) <==> exists i: nat :: Ok(ts, i) && OkBucket(interval, ts, i) == b by {
      if b in Snapshots(interval, ts) {
        var i :| 0 <= i < |ts| && ts[i].snapshotOk && Layout.AlignedEpoch(ts[i].now, interval) == b;
        assert Ok(ts, i) && OkBucket(interval, ts, i) == b;
      }
    }
    hide Ok, OkBucket;
    if LastBucket(interval, ts) == Some(b) && NoReturn(interval, ts) {
      forall i: nat, j: nat | i < j && Ok(ts, i) && Ok(ts, j) && OkBucket(interval, ts, i) == b
        ensures OkBucket(interval, ts, j) == b
      {
        assert j <= l;
      }
    }
  }

  /** With a clock that never runs backwards each bucket gets at most one scheduled snapshot, in order. */
  lemma {:induction false} OneSnapshotPerBucket(interval: nat, ts: seq<TickInput>)
    requires interval > 0 && forall i, j :: 0 <= i < j < |ts| ==> ts[i].now <= ts[j].now
    ensures Increasing(Snapshots(interval, ts))
  {
    hide Layout.AlignedEpoch, Snapshots, Increasing;
    forall i, j | 0 <= i < j < |ts|
      ensures Layout.AlignedEpoch(ts[i].now, interval) <= Layout.AlignedEpoch(ts[j].now, interval)
    {
      Layout.AlignedMonotone(ts[i].now, ts[j].now, interval);
    }
    OnceEachIffBucketsInOrder(interval, ts);
  }

  /** Appending to an increasing sequence what is not its last element again. */
  lemma {:induction false} OneMore(s: seq<int>, x: int)
    ensures s != [] && s[|s| - 1] == x ==> (Increasing(s) ==> AtMost(s, x))
    ensures s == [] || s[|s| - 1] != x ==> (Increasing(s + [x]) <==> Increasing(s) && AtMost(s, x))
  {
    var t := s + [x];
    assert forall i :: 0 <= i < |s| ==> t[i] == s[i];
    if Increasing(t) {
      forall i, j | 0 <= i < j < |s|
        ensures s[i] < s[j]
      {
        assert t[i] < t[j];
      }
      forall b | b in s
        ensures b < x
      {
        var i :| 0 <= i < |s| && s[i] == b;
        assert t[i] < t[|s|];
      }
    }
    if Increasing(s) && s != [] {
      assert forall b :: b in s ==> b <= s[|s| - 1];
      assert s[|s| - 1] in s;
    }
  }

  lemma {:induction false} TickPush(interval: nat, ts: seq<TickInput>, t: TickInput)
    requires interval > 0
    ensures LastBucket(interval, ts + [t]) == AfterTick(LastBucket(interval, ts), interval, t).0
    ensures var taken := AfterTick(LastBucket(interval, ts), interval, t).1;
            Snapshots(interval, ts + [t]) == Snapshots(interval, ts) + (if taken.Some? then [taken.value] else [])
  {
    assert (ts + [t])[..|ts|] == ts;
    hide AfterTick;
  }

  /** A clock that steps back into an earlier bucket repeats its snapshot. */
  lemma {:induction false} BackwardClockRepeats(interval: nat, early: int, late: int)
    requires interval > 0 && Layout.AlignedEpoch(early, interval) != Layout.AlignedEpoch(late, interval)
    ensures var e, l := Layout.AlignedEpoch(early, interval), Layout.AlignedEpoch(late, interval);
            Snapshots(interval, [] + [TickInput(early, true)] + [TickInput(late, true)] + [TickInput(early, true)]) == [e, l, e]
  {
    hide Layout.AlignedEpoch, LastBucket, Snapshots;
    var a, b := TickInput(early, true), TickInput(late, true);
    StartsEmpty(interval);
    TickPush(interval, [], a);
    TickPush(interval, [] + [a], b);
    TickPush(interval, [] + [a] + [b], a);
  }

  lemma {:induction false} StartsEmpty(interval: nat)
    requires interval > 0
    ensures LastBucket(interval, []) == None && Snapshots(interval, []) == []
  {
  }
}
