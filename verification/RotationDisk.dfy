/** What the rotation leaves on disk: survival of records, bucket windows and freshness of paths. */
module RotationDisk {
  import opened Common
  import opened Rotation
  import Layout

  // ----- A renamed segment survives until its path is reused

  /** What a sequence of renames leaves at each final path. */
  function Latest(cfg: Config, segs: seq<Segment>): map<string, seq<Record>> {
    if segs == [] then map[]
    else Latest(cfg, segs[..|segs| - 1])[PathOf(cfg, segs[|segs| - 1].start) := segs[|segs| - 1].records]
  }

  /** A later segment was renamed to the same path. */
  ghost predicate Superseded(cfg: Config, segs: seq<Segment>, i: nat)
    requires i < |segs|
  {
    exists j :: i < j < |segs| && PathOf(cfg, segs[j].start) == PathOf(cfg, segs[i].start)
  }

  lemma {:induction false} LatestKeeps(cfg: Config, segs: seq<Segment>, i: nat)
    requires i < |segs| && !Superseded(cfg, segs, i)
    ensures PathOf(cfg, segs[i].start) in Latest(cfg, segs)
    ensures Latest(cfg, segs)[PathOf(cfg, segs[i].start)] == segs[i].records
  {
    hide PathOf;
    var n := |segs| - 1;
    if i < n {
      assert segs[..n][i] == segs[i];
      assert PathOf(cfg, segs[n].start) != PathOf(cfg, segs[i].start);
      assert forall j :: 0 <= j < n ==> segs[..n][j] == segs[j];
      LatestKeeps(cfg, segs[..n], i);
    }
  }

  lemma {:induction false} LatestComesFrom(cfg: Config, segs: seq<Segment>, p: string) returns (i: nat)
    requires p in Latest(cfg, segs)
    ensures i < |segs| && !Superseded(cfg, segs, i)
    ensures PathOf(cfg, segs[i].start) == p && Latest(cfg, segs)[p] == segs[i].records
  {
    hide PathOf;
    var n := |segs| - 1;
    if PathOf(cfg, segs[n].start) == p {
      i := n;
    } else {
      i := LatestComesFrom(cfg, segs[..n], p);
      assert forall j :: 0 <= j < n ==> segs[..n][j] == segs[j];
      assert segs[n] == segs[n];
    }
  }

  lemma {:induction false} RecordCounted(rs: seq<Record>, r: Record)
    requires r in rs
    ensures CallIds(rs)[r.call] >= 1
  {
    var n := |rs| - 1;
    if rs[n] != r {
      RecordCounted(rs[..n], r);
    }
  }

  lemma {:induction false} SegmentCounted(segs: seq<Segment>, i: nat, r: Record)
    requires i < |segs| && r in segs[i].records
    ensures Sum(segs)[r.call] >= 1
  {
    var n := |segs| - 1;
    if i == n {
      RecordCounted(segs[n].records, r);
    } else {
      SegmentCounted(segs[..n], i, r);
    }
    hide CallIds;
  }

  lemma {:induction false} TwoSegmentsCounted(segs: seq<Segment>, i: nat, j: nat, r: Record)
    requires i < j < |segs| && r in segs[i].records && r in segs[j].records
    ensures Sum(segs)[r.call] >= 2
  {
    var n := |segs| - 1;
    if j == n {
      SegmentCounted(segs[..n], i, r);
      RecordCounted(segs[n].records, r);
    } else {
      TwoSegmentsCounted(segs[..n], i, j, r);
    }
    hide CallIds;
  }

  /** The final paths hold the latest renames, and every renamed segment was finalized or abandoned. */
  ghost predicate OnDiskInv(cfg: Config, a: Archive) {
    && a.files == Latest(cfg, a.renamed)
    && Sum(a.renamed) <= SumClosed(a.finalized) + Sum(a.abandoned)
  }

  lemma {:induction false} LatestPush(cfg: Config, segs: seq<Segment>, w: Segment)
    ensures Latest(cfg, segs + [w]) == Latest(cfg, segs)[PathOf(cfg, w.start) := w.records]
  {
    assert (segs + [w])[..|segs|] == segs;
    hide PathOf;
  }

  lemma {:induction false} CloseKeepsDisk(cfg: Config, a: Archive, w: Segment, endTs: int, f: Finalize)
    requires OnDiskInv(cfg, a)
    ensures OnDiskInv(cfg, Close(cfg, a, w, endTs, f))
  {
    LatestPush(cfg, a.renamed, w);
    SumPush(a.renamed, w);
    SumPush(a.abandoned, w);
    SumClosedPush(a.finalized, Closed(w, endTs));
    hide Latest, Sum, SumClosed, PathOf, CallIds, Counts, CountsClosed;
  }

  lemma {:induction false} TakeKeepsDisk(cfg: Config, a: Archive, now: int, o: Outcome)
    requires OnDiskInv(cfg, a)
    ensures OnDiskInv(cfg, Take(cfg, a, now, o).0)
  {
    hide OnDiskInv, Close;
    if a.writer.Some? {
      CloseKeepsDisk(cfg, a, a.writer.value, now, o.finalize);
    }
  }

  /** The open segment is not on disk yet. */
  lemma {:induction false} WriterOffDisk(cfg: Config, a: Archive, w: Option<Segment>)
    requires OnDiskInv(cfg, a)
    ensures OnDiskInv(cfg, a.(writer := w))
  {
    hide Latest, Sum, SumClosed;
  }

  lemma {:induction false} EnsureKeepsDisk(cfg: Config, a: Archive, now: int, o: Outcome)
    requires OnDiskInv(cfg, a)
    ensures OnDiskInv(cfg, Ensure(cfg, a, now, o).0)
  {
    hide OnDiskInv, Take, Bucket;
    TakeKeepsDisk(cfg, a, now, o);
    WriterOffDisk(cfg, Take(cfg, a, now, o).0, Some(NewSegment(Bucket(cfg, now))));
  }

  lemma {:induction false} WriteKeepsDisk(cfg: Config, a: Archive, r: Record, written: bool)
    requires OnDiskInv(cfg, a)
    ensures OnDiskInv(cfg, Write(a, r, written).0)
  {
    hide OnDiskInv;
    WriterOffDisk(cfg, a, Write(a, r, written).0.writer);
  }

  lemma {:induction false} StepKeepsDisk(cfg: Config, s: System, step: Step)
    requires OnDiskInv(cfg, s.archive) && Enabled(s, step)
    ensures OnDiskInv(cfg, Next(cfg, s, step).archive)
  {
    hide OnDiskInv, Take, Ensure, Write;
    match step
    case BeginIngest(_, _) =>
    case BeginRollover(_, _) =>
    case BeginTick(_, _) =>
    case EnsureStep(id, o) => EnsureKeepsDisk(cfg, s.archive, Time(s.calls[id]), o);
    case TakeStep(id, o) => TakeKeepsDisk(cfg, s.archive, Time(s.calls[id]), o);
    case EncodeFails(_) =>
    case WriteStep(id, written) => WriteKeepsDisk(cfg, s.archive, Record(id, s.calls[id].ts), written);
  }

  lemma {:induction false} RunKeepsDisk(cfg: Config, s: System, steps: seq<Step>)
    requires OnDiskInv(cfg, s.archive) && ExactlyOnce(s) && Possible(cfg, s, steps)
    ensures OnDiskInv(cfg, After(cfg, s, steps).archive) && ExactlyOnce(After(cfg, s, steps))
    decreases |steps|
  {
    if steps != [] {
      hide OnDiskInv, ExactlyOnce, Next;
      StepKeepsDisk(cfg, s, steps[0]);
      StepKeepsExactlyOnce(cfg, s, steps[0]);
      RunKeepsDisk(cfg, Next(cfg, s, steps[0]), steps[1..]);
    }
  }

  /** The record can be read back from some final path. */
  ghost predicate Readable(a: Archive, r: Record) {
    exists p :: p in a.files && r in a.files[p]
  }

  lemma {:induction false} ReadableIffNotSuperseded(cfg: Config, a: Archive, i: nat, r: Record)
    requires OnDiskInv(cfg, a) && i < |a.renamed| && r in a.renamed[i].records
    requires Occurrences(a)[r.call] <= 1
    ensures Readable(a, r) <==> !Superseded(cfg, a.renamed, i)
  {
    hide Latest, Sum, SumClosed, OpenIds, PathOf;
    if !Superseded(cfg, a.renamed, i) {
      LatestKeeps(cfg, a.renamed, i);
    } else if Readable(a, r) {
      var p :| p in a.files && r in a.files[p];
      var k := LatestComesFrom(cfg, a.renamed, p);
      if k < i {
        TwoSegmentsCounted(a.renamed, k, i, r);
      } else if i < k {
        TwoSegmentsCounted(a.renamed, i, k, r);
      }
      hide Superseded;
    }
  }

  /**
   In every interleaving, a record of a closed segment is on disk exactly until
   another segment whose bucket starts in the same minute is moved into place.
   */
  lemma {:induction false} SurvivesUntilPathReused(cfg: Config, steps: seq<Step>, i: nat, r: Record)
    requires Possible(cfg, Start(), steps)
    requires i < |After(cfg, Start(), steps).archive.renamed|
    requires r in After(cfg, Start(), steps).archive.renamed[i].records
    ensures var a := After(cfg, Start(), steps).archive;
            Readable(a, r) <==>
            forall j :: i < j < |a.renamed| ==> Layout.MinuteOf(a.renamed[j].start) != Layout.MinuteOf(a.renamed[i].start)
  {
    assert AckedCalls(map[]) == {};
    RunKeepsDisk(cfg, Start(), steps);
    var a := After(cfg, Start(), steps).archive;
    hide After, Possible;
    ReadableIffNotSuperseded(cfg, a, i, r);
    SupersededIffSameMinute(cfg, a.renamed, i);
  }

  lemma {:induction false} SamePathIffSameMinute(cfg: Config, s: int, t: int)
    ensures PathOf(cfg, s) == PathOf(cfg, t) <==> Layout.MinuteOf(s) == Layout.MinuteOf(t)
  {
    Layout.SamePathIffSameMinute(cfg, Layout.Updates, s, t);
    hide Layout.PathOfBucket, Layout.MinuteOf;
    var p, q := Layout.PathOfBucket(cfg, Layout.Updates, s), Layout.PathOfBucket(cfg, Layout.Updates, t);
    if PathOf(cfg, s) == PathOf(cfg, t) {
      assert (cfg.root + "/" + p)[|cfg.root| + 1..] == p && (cfg.root + "/" + q)[|cfg.root| + 1..] == q;
    }
  }

  lemma {:induction false} SupersededIffSameMinute(cfg: Config, segs: seq<Segment>, i: nat)
    requires i < |segs|
    ensures Superseded(cfg, segs, i) <==>
            exists j :: i < j < |segs| && Layout.MinuteOf(segs[j].start) == Layout.MinuteOf(segs[i].start)
  {
    hide PathOf, Layout.MinuteOf;
    forall j | i < j < |segs|
      ensures PathOf(cfg, segs[j].start) == PathOf(cfg, segs[i].start) <==>
              Layout.MinuteOf(segs[j].start) == Layout.MinuteOf(segs[i].start)
    {
      SamePathIffSameMinute(cfg, segs[j].start, segs[i].start);
    }
  }

  // ----- Ingests one at a time, in timestamp order

  datatype Event =
    | Arrive(r: Record, outcome: Outcome, encoded: bool, written: bool)
    | Scheduler(now: int, outcome: Outcome)

  function Stamp(e: Event): int {
    if e.Arrive? then e.r.ts else e.now
  }

  /** The effect of `ingest_update`, or of the scheduler's writer check, run without interruption. */
  function Handle(cfg: Config, a: Archive, e: Event): Archive {
    var (b, ok) := Ensure(cfg, a, Stamp(e), e.outcome);
    if e.Arrive? && ok && e.encoded then Write(b, e.r, e.written).0 else b
  }

  function HandleAll(cfg: Config, a: Archive, es: seq<Event>): Archive {
    if es == [] then a else Handle(cfg, HandleAll(cfg, a, es[..|es| - 1]), es[|es| - 1])
  }

  predicate InOrder(es: seq<Event>) {
    forall i, j :: 0 <= i < j < |es| ==> Stamp(es[i]) <= Stamp(es[j])
  }

  predicate AllFinalized(es: seq<Event>) {
    forall i :: 0 <= i < |es| ==> es[i].outcome.finalize == Finished
  }

  /** Every record lies in the segment's bucket. */
  predicate InWindow(cfg: Config, w: Segment) {
    && w.start % cfg.updatesInterval == 0
    && forall i :: 0 <= i < |w.records| ==> w.start <= w.records[i].ts < w.start + cfg.updatesInterval
  }

  predicate ClosedWell(cfg: Config, c: Closed, clock: int) {
    && InWindow(cfg, c.segment)
    && c.segment.start < Bucket(cfg, c.endTs)
    && c.endTs <= clock
  }

  /** Windows in order, and each closed segment still at its own path. */
  ghost predicate Tidy(cfg: Config, a: Archive, clock: int) {
    && (forall i :: 0 <= i < |a.finalized| ==> ClosedWell(cfg, a.finalized[i], clock))
    && (forall i, j :: 0 <= i < j < |a.finalized| ==> Bucket(cfg, a.finalized[i].endTs) <= a.finalized[j].segment.start)
    && (a.writer.Some? ==>
          && InWindow(cfg, a.writer.value) && a.writer.value.start <= Bucket(cfg, clock)
          && forall i :: 0 <= i < |a.finalized| ==> Bucket(cfg, a.finalized[i].endTs) <= a.writer.value.start)
    && a.abandoned == []
    && |a.renamed| == |a.finalized|
    && (forall i :: 0 <= i < |a.renamed| ==> a.renamed[i] == a.finalized[i].segment)
  }

  lemma {:induction false} CloseTidy(cfg: Config, a: Archive, clock: int, now: int)
    requires Tidy(cfg, a, clock) && clock <= now && a.writer.Some? && a.writer.value.start != Bucket(cfg, now)
    ensures Tidy(cfg, Close(cfg, a, a.writer.value, now, Finished), now)
  {
    Layout.AlignedMonotone(clock, now, cfg.updatesInterval);
    WaitTidy(cfg, a, clock, now);
    hide Bucket, PathOf, InWindow, ClosedWell;
    var w := a.writer.value;
    var b := Close(cfg, a, w, now, Finished);
    assert b.finalized == a.finalized + [Closed(w, now)] && b.renamed == a.renamed + [w];
    ClosesWell(cfg, w, now);
    forall i | 0 <= i < |b.finalized|
      ensures ClosedWell(cfg, b.finalized[i], now) && b.renamed[i] == b.finalized[i].segment
    {
      assert i < |a.finalized| ==> b.finalized[i] == a.finalized[i] && b.renamed[i] == a.renamed[i];
    }
    forall i, j | 0 <= i < j < |b.finalized|
      ensures Bucket(cfg, b.finalized[i].endTs) <= b.finalized[j].segment.start
    {
      assert b.finalized[i] == a.finalized[i];
      assert j < |a.finalized| ==> b.finalized[j] == a.finalized[j];
    }
  }

  lemma {:induction false} ClosesWell(cfg: Config, w: Segment, now: int)
    requires InWindow(cfg, w) && w.start < Bucket(cfg, now)
    ensures ClosedWell(cfg, Closed(w, now), now)
  {
    hide InWindow, Bucket;
  }

  lemma {:induction false} OpenTidy(cfg: Config, a: Archive, clock: int)
    requires Tidy(cfg, a, clock) && a.writer.None?
    ensures Tidy(cfg, a.(writer := Some(NewSegment(Bucket(cfg, clock)))), clock)
  {
    assert Bucket(cfg, clock) % cfg.updatesInterval == 0;
    forall i | 0 <= i < |a.finalized|
      ensures Bucket(cfg, a.finalized[i].endTs) <= Bucket(cfg, clock)
    {
      assert ClosedWell(cfg, a.finalized[i], clock);
      Layout.AlignedMonotone(a.finalized[i].endTs, clock, cfg.updatesInterval);
    }
    hide Layout.AlignedEpoch, Bucket, ClosedWell;
  }

  lemma {:induction false} WaitTidy(cfg: Config, a: Archive, clock: int, now: int)
    requires Tidy(cfg, a, clock) && clock <= now
    ensures Tidy(cfg, a, now)
  {
    Layout.AlignedMonotone(clock, now, cfg.updatesInterval);
    hide Layout.AlignedEpoch, InWindow;
  }

  lemma {:induction false} EnsureTidy(cfg: Config, a: Archive, clock: int, now: int, o: Outcome)
    requires Tidy(cfg, a, clock) && clock <= now && o.finalize == Finished
    ensures Tidy(cfg, Ensure(cfg, a, now, o).0, now)
    ensures Ensure(cfg, a, now, o).1 ==>
              Ensure(cfg, a, now, o).0.writer.Some? && Ensure(cfg, a, now, o).0.writer.value.start == Bucket(cfg, now)
  {
    hide Tidy, Bucket, Close;
    var b := a;
    if a.writer.Some? && a.writer.value.start != Bucket(cfg, now) {
      CloseTidy(cfg, a, clock, now);
      b := Close(cfg, a, a.writer.value, now, Finished);
    } else {
      WaitTidy(cfg, a, clock, now);
    }
    if b.writer.None? {
      OpenTidy(cfg, b, now);
    }
    assert Take(cfg, a, now, o).0.writer.None?;
  }

  lemma {:induction false} WriteTidy(cfg: Config, a: Archive, r: Record, written: bool)
    requires Tidy(cfg, a, r.ts) && a.writer.Some? && a.writer.value.start == Bucket(cfg, r.ts)
    ensures Tidy(cfg, Write(a, r, written).0, r.ts)
  {
    var w := a.writer.value;
    assert w.start <= r.ts < w.start + cfg.updatesInterval;
    hide Layout.AlignedEpoch, ClosedWell, Bucket;
    assert InWindow(cfg, Append(w, r));
  }

  lemma {:induction false} HandleTidy(cfg: Config, a: Archive, clock: int, e: Event)
    requires Tidy(cfg, a, clock) && clock <= Stamp(e) && e.outcome.finalize == Finished
    ensures Tidy(cfg, Handle(cfg, a, e), Stamp(e))
  {
    EnsureTidy(cfg, a, clock, Stamp(e), e.outcome);
    hide Tidy, Ensure, Bucket, Write;
    var (b, ok) := Ensure(cfg, a, Stamp(e), e.outcome);
    if e.Arrive? && ok && e.encoded {
      WriteTidy(cfg, b, e.r, e.written);
    }
  }

  lemma {:induction false} RunTidy(cfg: Config, es: seq<Event>, clock: int)
    requires InOrder(es) && AllFinalized(es)
    requires forall i :: 0 <= i < |es| ==> Stamp(es[i]) <= clock
    ensures Tidy(cfg, HandleAll(cfg, EmptyArchive(), es), clock)
  {
    hide Handle, ClosedWell, InWindow, Bucket;
    if es == [] {
      assert Tidy(cfg, EmptyArchive(), clock);
    } else {
      var n := |es| - 1;
      var e := es[n];
      assert forall i :: 0 <= i < n ==> Stamp(es[..n][i]) <= Stamp(e);
      RunTidy(cfg, es[..n], Stamp(e));
      HandleTidy(cfg, HandleAll(cfg, EmptyArchive(), es[..n]), Stamp(e), e);
      WaitTidy(cfg, Handle(cfg, HandleAll(cfg, EmptyArchive(), es[..n]), e), Stamp(e), clock);
    }
  }

  /**
   With uninterrupted ingests in timestamp order and finalizations that succeed,
   closed segments have strictly increasing, disjoint windows that contain their
   records and end before the bucket in which they were closed.
   */
  lemma {:induction false} WindowsInOrder(cfg: Config, es: seq<Event>, i: nat, j: nat)
    requires InOrder(es) && AllFinalized(es)
    requires i < j < |HandleAll(cfg, EmptyArchive(), es).finalized|
    ensures var f := HandleAll(cfg, EmptyArchive(), es).finalized;
            && InWindow(cfg, f[i].segment) && InWindow(cfg, f[j].segment)
            && f[i].segment.start + cfg.updatesInterval <= Bucket(cfg, f[i].endTs) <= f[j].segment.start
  {
    var clock := LastStamp(es);
    RunTidy(cfg, es, clock);
    var a := HandleAll(cfg, EmptyArchive(), es);
    hide HandleAll, InWindow;
    assert ClosedWell(cfg, a.finalized[i], clock) && ClosedWell(cfg, a.finalized[j], clock);
    WindowStep(cfg, a.finalized[i]);
  }

  lemma {:induction false} LastStamp(es: seq<Event>) returns (clock: int)
    requires InOrder(es)
    ensures forall i :: 0 <= i < |es| ==> Stamp(es[i]) <= clock
  {
    clock := if es == [] then 0 else Stamp(es[|es| - 1]);
  }

  lemma {:induction false} WindowStep(cfg: Config, c: Closed)
    requires InWindow(cfg, c.segment) && c.segment.start < Bucket(cfg, c.endTs)
    ensures c.segment.start + cfg.updatesInterval <= Bucket(cfg, c.endTs)
  {
    var s, n := c.segment.start, cfg.updatesInterval;
    Layout.AlignedUnique(s, s, n);
    Layout.AlignedMonotone(s, Bucket(cfg, c.endTs), n);
    Layout.AlignedUnique(Bucket(cfg, c.endTs), Bucket(cfg, c.endTs), n);
  }

  /** In such a run, with buckets of at least a minute, no final path is written twice and every closed record is on disk. */
  lemma {:induction false} ClosedRecordsStayOnDisk(cfg: Config, es: seq<Event>, i: nat)
    requires InOrder(es) && AllFinalized(es) && cfg.updatesInterval >= 60
    requires i < |HandleAll(cfg, EmptyArchive(), es).finalized|
    ensures var a := HandleAll(cfg, EmptyArchive(), es);
            && |a.renamed| == |a.finalized|
            && (forall j :: 0 <= j < |a.renamed| && j != i ==> PathOf(cfg, a.renamed[j].start) != PathOf(cfg, a.renamed[i].start))
            && a.renamed[i] == a.finalized[i].segment
            && PathOf(cfg, a.renamed[i].start) in a.files
            && a.files[PathOf(cfg, a.renamed[i].start)] == a.finalized[i].segment.records
  {
    var a := HandleAll(cfg, EmptyArchive(), es);
    var clock := LastStamp(es);
    RunTidy(cfg, es, clock);
    HandleAllDisk(cfg, es);
    hide HandleAll, OpenIds, Latest, Sum, SumClosed;
    forall j | 0 <= j < |a.renamed| && j != i
      ensures PathOf(cfg, a.renamed[j].start) != PathOf(cfg, a.renamed[i].start)
    {
      DistinctStarts(cfg, a, clock, if i < j then i else j, if i < j then j else i);
    }
    assert !Superseded(cfg, a.renamed, i);
    LatestKeeps(cfg, a.renamed, i);
  }

  lemma {:induction false} DistinctStarts(cfg: Config, a: Archive, clock: int, i: nat, j: nat)
    requires Tidy(cfg, a, clock) && cfg.updatesInterval >= 60 && i < j < |a.renamed|
    ensures PathOf(cfg, a.renamed[i].start) != PathOf(cfg, a.renamed[j].start)
  {
    assert ClosedWell(cfg, a.finalized[i], clock) && ClosedWell(cfg, a.finalized[j], clock);
    var s, t := a.finalized[i].segment.start, a.finalized[j].segment.start;
    hide PathOf, Layout.AlignedEpoch;
    if PathOf(cfg, s) == PathOf(cfg, t) {
      SamePathIffSameMinute(cfg, s, t);
      Layout.MultiplesApart(s, t, cfg.updatesInterval);
    }
  }

  lemma {:induction false} HandleAllDisk(cfg: Config, es: seq<Event>)
    ensures OnDiskInv(cfg, HandleAll(cfg, EmptyArchive(), es))
  {
    if es != [] {
      var n := |es| - 1;
      var e := es[n];
      HandleAllDisk(cfg, es[..n]);
      var a := HandleAll(cfg, EmptyArchive(), es[..n]);
      assert HandleAll(cfg, EmptyArchive(), es) == Handle(cfg, a, e);
      hide OnDiskInv, Ensure, Write, HandleAll;
      EnsureKeepsDisk(cfg, a, Stamp(e), e.outcome);
      if e.Arrive? {
        WriteKeepsDisk(cfg, Ensure(cfg, a, Stamp(e), e.outcome).0, e.r, e.written);
      }
    }
  }

  /** Nothing failed to be queued or opened. */
  predicate NoFailure(es: seq<Event>) {
    forall i :: 0 <= i < |es| ==> es[i].outcome == Outcome(Finished, true, true)
  }

  /** Each segment starts in the bucket in which its predecessor was closed. */
  ghost predicate Linked(cfg: Config, a: Archive) {
    && (a.finalized != [] ==> a.writer.Some? && a.writer.value.start == Bucket(cfg, a.finalized[|a.finalized| - 1].endTs))
    && (forall i :: 0 <= i < |a.finalized| - 1 ==> a.finalized[i + 1].segment.start == Bucket(cfg, a.finalized[i].endTs))
  }

  lemma {:induction false} EnsureLinks(cfg: Config, a: Archive, now: int)
    requires Linked(cfg, a)
    ensures Linked(cfg, Ensure(cfg, a, now, FINE).0)
  {
    hide Bucket, PathOf;
    var b := Ensure(cfg, a, now, FINE).0;
    assert |b.finalized| > |a.finalized| ==> b.finalized[..|a.finalized|] == a.finalized;
    assert forall i :: 0 <= i < |a.finalized| ==> b.finalized[i] == a.finalized[i];
  }

  lemma {:induction false} WriteLinks(cfg: Config, a: Archive, r: Record, written: bool)
    requires Linked(cfg, a)
    ensures Linked(cfg, Write(a, r, written).0)
  {
    hide Bucket;
  }

  /** Without failures there are no gaps: the next segment begins exactly where the previous one was cut. */
  lemma {:induction false} SegmentsAreLinked(cfg: Config, es: seq<Event>)
    requires NoFailure(es)
    ensures Linked(cfg, HandleAll(cfg, EmptyArchive(), es))
  {
    if es != [] {
      var n := |es| - 1;
      var e := es[n];
      assert NoFailure(es[..n]);
      SegmentsAreLinked(cfg, es[..n]);
      var a := HandleAll(cfg, EmptyArchive(), es[..n]);
      assert HandleAll(cfg, EmptyArchive(), es) == Handle(cfg, a, e);
      hide Linked, Ensure, Write, HandleAll;
      EnsureLinks(cfg, a, Stamp(e));
      if e.Arrive? {
        WriteLinks(cfg, Ensure(cfg, a, Stamp(e), FINE).0, e.r, e.written);
      }
    }
  }

  // ----- Where the obvious claims fail

  const FINE := Outcome(Finished, true, true)

  /** A run from the start that has come to `s`. */
  ghost predicate Reached(cfg: Config, steps: seq<Step>, s: System) {
    Possible(cfg, Start(), steps) && After(cfg, Start(), steps) == s
  }

  lemma {:induction false} RunPush(cfg: Config, s: System, steps: seq<Step>, step: Step)
    requires Possible(cfg, s, steps) && Enabled(After(cfg, s, steps), step)
    ensures Possible(cfg, s, steps + [step]) && After(cfg, s, steps + [step]) == Next(cfg, After(cfg, s, steps), step)
    decreases |steps|
  {
    hide Next, Enabled;
    if steps == [] {
      RunOfOne(cfg, s, step);
      assert steps + [step] == [step];
    } else {
      assert (steps + [step])[0] == steps[0] && (steps + [step])[1..] == steps[1..] + [step];
      RunPush(cfg, Next(cfg, s, steps[0]), steps[1..], step);
    }
  }

  lemma {:induction false} Push(cfg: Config, steps: seq<Step>, s: System, step: Step)
    requires Reached(cfg, steps, s) && Enabled(s, step)
    ensures Reached(cfg, steps + [step], Next(cfg, s, step))
  {
    hide Possible, After, Next, Enabled;
    RunPush(cfg, Start(), steps, step);
  }

  lemma {:induction false} EnsureFine(cfg: Config, a: Archive, now: int)
    ensures Ensure(cfg, a, now, FINE).1 && Ensure(cfg, a, now, FINE).0.writer.Some? && Take(cfg, a, now, FINE).1
  {
    hide Bucket, PathOf;
  }

  /** One ingest from its beginning to its acknowledgement, nothing failing and nothing in between. */
  lemma {:induction false} WholeIngest(cfg: Config, before: seq<Step>, s: System, id: nat, ts: int) returns (steps: seq<Step>, t: System)
    requires Reached(cfg, before, s) && id !in s.calls
    ensures Reached(cfg, steps, t) && t.calls == s.calls[id := Ingest(ts, Acked)]
    ensures t.archive == Write(Ensure(cfg, s.archive, ts, FINE).0, Record(id, ts), true).0
  {
    EnsureFine(cfg, s.archive, ts);
    hide Reached, Ensure;
    steps, t := before, s;
    Push(cfg, steps, t, BeginIngest(id, ts));
    steps, t := steps + [BeginIngest(id, ts)], Next(cfg, t, BeginIngest(id, ts));
    Push(cfg, steps, t, EnsureStep(id, FINE));
    steps, t := steps + [EnsureStep(id, FINE)], Next(cfg, t, EnsureStep(id, FINE));
    Push(cfg, steps, t, WriteStep(id, true));
    steps, t := steps + [WriteStep(id, true)], Next(cfg, t, WriteStep(id, true));
  }

  lemma {:induction false} WholeRollover(cfg: Config, before: seq<Step>, s: System, id: nat, now: int) returns (steps: seq<Step>, t: System)
    requires Reached(cfg, before, s) && id !in s.calls
    ensures Reached(cfg, steps, t) && t.calls == s.calls[id := Rollover(now, Over)]
    ensures t.archive == Ensure(cfg, Take(cfg, s.archive, now, FINE).0, now, FINE).0
  {
    EnsureFine(cfg, s.archive, now);
    hide Reached, Ensure, Take;
    steps, t := before, s;
    Push(cfg, steps, t, BeginRollover(id, now));
    steps, t := steps + [BeginRollover(id, now)], Next(cfg, t, BeginRollover(id, now));
    Push(cfg, steps, t, TakeStep(id, FINE));
    steps, t := steps + [TakeStep(id, FINE)], Next(cfg, t, TakeStep(id, FINE));
    Push(cfg, steps, t, EnsureStep(id, FINE));
    steps, t := steps + [EnsureStep(id, FINE)], Next(cfg, t, EnsureStep(id, FINE));
  }

  lemma {:induction false} WholeTick(cfg: Config, before: seq<Step>, s: System, id: nat, now: int) returns (steps: seq<Step>, t: System)
    requires Reached(cfg, before, s) && id !in s.calls
    ensures Reached(cfg, steps, t) && t.calls == s.calls[id := Tick(now, true)]
    ensures t.archive == Ensure(cfg, s.archive, now, FINE).0
  {
    EnsureFine(cfg, s.archive, now);
    hide Reached, Ensure;
    steps, t := before, s;
    Push(cfg, steps, t, BeginTick(id, now));
    steps, t := steps + [BeginTick(id, now)], Next(cfg, t, BeginTick(id, now));
    Push(cfg, steps, t, EnsureStep(id, FINE));
    steps, t := steps + [EnsureStep(id, FINE)], Next(cfg, t, EnsureStep(id, FINE));
  }

  /** A manual rollover inside a bucket reopens it, and the next rotation replaces the first file. */
  lemma {:induction false} RolloverOverwrites(cfg: Config, ts: int, now: int, next: int, late: int, r: Record, q: Record)
    requires Bucket(cfg, ts) == Bucket(cfg, now) == Bucket(cfg, next) != Bucket(cfg, late)
    ensures var filled := Write(Ensure(cfg, EmptyArchive(), ts, FINE).0, r, true).0;
            var reopened := Ensure(cfg, Take(cfg, filled, now, FINE).0, now, FINE).0;
            var refilled := Write(Ensure(cfg, reopened, next, FINE).0, q, true).0;
            var last := Ensure(cfg, refilled, late, FINE).0;
            && |last.finalized| == 2 && last.finalized[0].segment.records == [r]
            && last.files == map[PathOf(cfg, Bucket(cfg, ts)) := [q]]
  {
    var start := Bucket(cfg, ts);
    hide Bucket, PathOf;
    var filled := Write(Ensure(cfg, EmptyArchive(), ts, FINE).0, r, true).0;
    assert NewSegment(start).records + [r] == [r] && NewSegment(start).records + [q] == [q];
    assert filled == EmptyArchive().(writer := Some(Segment(start, [r], 1)));
    var reopened := Ensure(cfg, Take(cfg, filled, now, FINE).0, now, FINE).0;
    assert reopened.files == map[PathOf(cfg, start) := [r]] && reopened.writer == Some(NewSegment(start));
    assert reopened.finalized == [Closed(Segment(start, [r], 1), now)];
    var refilled := Write(Ensure(cfg, reopened, next, FINE).0, q, true).0;
    assert refilled == reopened.(writer := Some(Segment(start, [q], 1)));
    assert Ensure(cfg, refilled, late, FINE).0.files == map[PathOf(cfg, start) := [q]];
  }

  /** A run from the start in which an acknowledged record of a finalized segment is on no path. */
  lemma {:induction false} RolloverLosesRecords(cfg: Config, ts: int, now: int, next: int, late: int) returns (steps: seq<Step>)
    requires Bucket(cfg, ts) == Bucket(cfg, now) == Bucket(cfg, next) != Bucket(cfg, late)
    ensures Possible(cfg, Start(), steps)
    ensures var s := After(cfg, Start(), steps);
            && 1 in AckedCalls(s.calls) && s.archive.finalized != []
            && Record(1, ts) in s.archive.finalized[0].segment.records && !Readable(s.archive, Record(1, ts))
  {
    hide *;
    RolloverOverwrites(cfg, ts, now, next, late, Record(1, ts), Record(3, next));
    var s: System;
    steps, s := ReopenedRun(cfg, ts, now);
    steps, s := WholeIngest(cfg, steps, s, 3, next);
    steps, s := WholeTick(cfg, steps, s, 4, late);
    OnlyOnPath(s.archive, PathOf(cfg, Bucket(cfg, ts)), Record(1, ts), Record(3, next));
    AckedCall(s.calls, 1, ts);
    ReachedMeans(cfg, steps, s);
  }

  lemma {:induction false} ReopenedRun(cfg: Config, ts: int, now: int) returns (steps: seq<Step>, s: System)
    ensures Reached(cfg, steps, s) && s.calls == map[1 := Ingest(ts, Acked), 2 := Rollover(now, Over)]
    ensures var filled := Write(Ensure(cfg, EmptyArchive(), ts, FINE).0, Record(1, ts), true).0;
            s.archive == Ensure(cfg, Take(cfg, filled, now, FINE).0, now, FINE).0
  {
    assert Reached(cfg, [], Start()) && Start() == System(EmptyArchive(), map[]);
    hide *;
    steps, s := WholeIngest(cfg, [], Start(), 1, ts);
    steps, s := WholeRollover(cfg, steps, s, 2, now);
  }

  lemma {:induction false} OnlyOnPath(a: Archive, path: string, r: Record, q: Record)
    requires a.files == map[path := [q]] && r != q
    ensures !Readable(a, r) && r in [r]
  {
  }

  lemma {:induction false} AckedCall(calls: map<nat, Call>, id: nat, ts: int)
    requires id in calls && calls[id] == Ingest(ts, Acked)
    ensures id in AckedCalls(calls)
  {
  }

  lemma {:induction false} ReachedMeans(cfg: Config, steps: seq<Step>, s: System)
    requires Reached(cfg, steps, s)
    ensures Possible(cfg, Start(), steps) && After(cfg, Start(), steps) == s
  {
  }

  /** Two ingests interleave between their locks: a record lands in a segment whose window excludes it. */
  lemma {:induction false} RecordInForeignBucket(cfg: Config, early: int, late: int)
    requires Bucket(cfg, early) != Bucket(cfg, late)
    ensures var steps := [BeginIngest(1, early), BeginIngest(2, late), EnsureStep(1, FINE), EnsureStep(2, FINE), WriteStep(1, true)];
            && Possible(cfg, Start(), steps)
            && var a := After(cfg, Start(), steps).archive;
               a.writer == Some(Segment(Bucket(cfg, late), [Record(1, early)], 1)) && !InWindow(cfg, a.writer.value)
  {
    var steps := [BeginIngest(1, early), BeginIngest(2, late), EnsureStep(1, FINE), EnsureStep(2, FINE), WriteStep(1, true)];
    var s2 := System(EmptyArchive(), map[1 := Ingest(early, Entered), 2 := Ingest(late, Entered)]);
    var w := Segment(Bucket(cfg, late), [Record(1, early)], 1);
    var last := ForeignWrite(cfg, early, late, s2);
    RunCons(cfg, System(EmptyArchive(), map[1 := Ingest(early, Entered)]), steps[1], steps[2..]);
    RunCons(cfg, Start(), steps[0], steps[1..]);
    hide Bucket, Possible, After;
    assert steps == [steps[0]] + steps[1..] && steps[1..] == [steps[1]] + steps[2..];
    assert steps[2..] == [EnsureStep(1, FINE), EnsureStep(2, FINE), WriteStep(1, true)];
    if InWindow(cfg, w) {
      assert w.records[0].ts == early;
      Layout.AlignedUnique(early, w.start, cfg.updatesInterval);
    }
  }

  lemma {:induction false} ForeignWrite(cfg: Config, early: int, late: int, s: System) returns (last: System)
    requires Bucket(cfg, early) != Bucket(cfg, late)
    requires s == System(EmptyArchive(), map[1 := Ingest(early, Entered), 2 := Ingest(late, Entered)])
    ensures var steps := [EnsureStep(1, FINE), EnsureStep(2, FINE), WriteStep(1, true)];
            && Possible(cfg, s, steps) && After(cfg, s, steps) == last
            && last.archive.writer == Some(Segment(Bucket(cfg, late), [Record(1, early)], 1))
  {
    hide Bucket, PathOf;
    var s3 := Next(cfg, s, EnsureStep(1, FINE));
    assert s3.archive.writer == Some(NewSegment(Bucket(cfg, early)));
    var s4 := Next(cfg, s3, EnsureStep(2, FINE));
    assert s4.archive.writer == Some(NewSegment(Bucket(cfg, late)));
    last := Next(cfg, s4, WriteStep(1, true));
    assert NewSegment(Bucket(cfg, late)).records + [Record(1, early)] == [Record(1, early)];
    assert last.archive.writer == Some(Segment(Bucket(cfg, late), [Record(1, early)], 1));
    RunOfOne(cfg, s4, WriteStep(1, true));
    RunCons(cfg, s3, EnsureStep(2, FINE), [WriteStep(1, true)]);
    RunCons(cfg, s, EnsureStep(1, FINE), [EnsureStep(2, FINE), WriteStep(1, true)]);
    hide Possible, After, Next;
    assert [EnsureStep(2, FINE)] + [WriteStep(1, true)] == [EnsureStep(2, FINE), WriteStep(1, true)];
    assert [EnsureStep(1, FINE)] + [EnsureStep(2, FINE), WriteStep(1, true)] == [EnsureStep(1, FINE), EnsureStep(2, FINE), WriteStep(1, true)];
  }

  /** Exactly when a write keeps the segment in its window: no rotation moved the writer off the record's bucket. */
  lemma {:induction false} WriteInWindowIff(cfg: Config, a: Archive, r: Record)
    requires a.writer.Some? && InWindow(cfg, a.writer.value)
    ensures InWindow(cfg, Write(a, r, true).0.writer.value) <==> a.writer.value.start == Bucket(cfg, r.ts)
  {
    var w := a.writer.value;
    var v := Append(w, r);
    assert v.records[|w.records|] == r;
    assert forall i :: 0 <= i < |w.records| ==> v.records[i] == w.records[i];
    if InWindow(cfg, v) {
      Layout.AlignedUnique(r.ts, w.start, cfg.updatesInterval);
    }
  }

  lemma {:induction false} RunOfOne(cfg: Config, s: System, step: Step)
    requires Enabled(s, step)
    ensures Possible(cfg, s, [step]) && After(cfg, s, [step]) == Next(cfg, s, step)
  {
    hide Next;
    assert [step][1..] == [];
  }

  lemma {:induction false} RunCons(cfg: Config, s: System, step: Step, rest: seq<Step>)
    requires Enabled(s, step) && Possible(cfg, Next(cfg, s, step), rest)
    ensures Possible(cfg, s, [step] + rest)
    ensures After(cfg, s, [step] + rest) == After(cfg, Next(cfg, s, step), rest)
  {
    hide Next;
    assert ([step] + rest)[1..] == rest;
  }
}
