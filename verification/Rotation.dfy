/**
 Rotation of the updates stream. The critical sections guarded by the writer lock
 are functions from archive to archive; calls of ingest, rollover and the
 scheduler tick interleave between them in any order.
 */
module Rotation {
  import opened Common
  import Layout

  /** A record is known by the ingest call that brought it. */
  datatype Record = Record(call: nat, ts: int)

  /** A segment being written, or as it was when it was closed. */
  datatype Segment = Segment(start: int, records: seq<Record>, count: nat)

  datatype Closed = Closed(segment: Segment, endTs: int)

  /**
   `finalized` are the segments whose finalization succeeded, `abandoned` those
   whose finalization failed; `renamed` lists every rename in order, and `files`
   is what the final paths hold.
   */
  datatype Archive = Archive(
    writer: Option<Segment>,
    finalized: seq<Closed>,
    abandoned: seq<Segment>,
    renamed: seq<Segment>,
    files: map<string, seq<Record>>)

  datatype Finalize = Finished | LostBeforeRename | LostAfterRename

  /** How the fallible parts of a critical section turn out. */
  datatype Outcome = Outcome(finalize: Finalize, enqueued: bool, created: bool)

  type Config = c: Layout.Config | c.updatesInterval > 0
    witness Layout.Config("focl01", Layout.RouteViews, Layout.Gzip, 900, 7200, "/archive", "/archive/.tmp")

  function EmptyArchive(): Archive {
    Archive(None, [], [], [], map[])
  }

  function Bucket(cfg: Config, ts: int): int {
    Layout.AlignedEpoch(ts, cfg.updatesInterval)
  }

  function PathOf(cfg: Config, start: int): string {
    Layout.FinalPath(cfg, Layout.PathOfBucket(cfg, Layout.Updates, start))
  }

  function NewSegment(start: int): Segment {
    Segment(start, [], 0)
  }

  /** Finalization of `w`, which has been taken out of the writer slot. */
  function Close(cfg: Config, a: Archive, w: Segment, endTs: int, f: Finalize): Archive {
    var b := a.(writer := None);
    var moved := b.(renamed := b.renamed + [w], files := b.files[PathOf(cfg, w.start) := w.records]);
    match f
    case Finished => moved.(finalized := b.finalized + [Closed(w, endTs)])
    case LostBeforeRename => b.(abandoned := b.abandoned + [w])
    case LostAfterRename => moved.(abandoned := b.abandoned + [w])
  }

  /** What the finalization of `w` does to everything but the writer. */
  ghost predicate Closes(cfg: Config, w: Segment, endTs: int, f: Finalize, before: Archive, after: Archive) {
    && after.finalized == before.finalized + (if f == Finished then [Closed(w, endTs)] else [])
    && after.abandoned == before.abandoned + (if f == Finished then [] else [w])
    && after.renamed == before.renamed + (if f == LostBeforeRename then [] else [w])
    && after.files == if f == LostBeforeRename then before.files else before.files[PathOf(cfg, w.start) := w.records]
  }

  /** Takes the writer, if there is one, finalizes it and queues it for replication. */
  function Take(cfg: Config, a: Archive, now: int, o: Outcome): (r: (Archive, bool))
    ensures r.0.writer == None
  {
    match a.writer
    case None => (a, true)
    case Some(w) => (Close(cfg, a, w, now, o.finalize), o.finalize == Finished && o.enqueued)
  }

  /** `ensure_updates_writer`: one critical section from the bucket test to the new writer. */
  function Ensure(cfg: Config, a: Archive, now: int, o: Outcome): (Archive, bool) {
    if a.writer.Some? && a.writer.value.start == Bucket(cfg, now) then (a, true)
    else
      var (b, ok) := Take(cfg, a, now, o);
      if !ok || !o.created then (b, false)
      else (b.(writer := Some(NewSegment(Bucket(cfg, now)))), true)
  }

  function Append(w: Segment, r: Record): Segment {
    Segment(w.start, w.records + [r], w.count + 1)
  }

  /** The second critical section of ingest; a write that fails leaves no effect. */
  function Write(a: Archive, r: Record, written: bool): (Archive, bool) {
    match a.writer
    case None => (a, false)
    case Some(w) => if written then (a.(writer := Some(Append(w, r))), true) else (a, false)
  }

  /** The archive service; each method body is the code between lock and unlock. */
  class ArchiveService {
    const cfg: Config
    var writer: Option<Segment>
    var finalized: seq<Closed>
    var abandoned: seq<Segment>
    var renamed: seq<Segment>
    var files: map<string, seq<Record>>

    ghost function Contents(): Archive
      reads this
    {
      Archive(writer, finalized, abandoned, renamed, files)
    }

    constructor (cfg: Config)
      ensures this.cfg == cfg && Contents() == EmptyArchive()
    {
      this.cfg := cfg;
      writer, finalized, abandoned, renamed, files := None, [], [], [], map[];
    }

    /** Rename, then manifest: a failure in between leaves the file without a manifest. */
    method FinalizeWriter(w: Segment, endTs: int, f: Finalize) returns (ok: bool)
      modifies this
      ensures Contents() == Close(cfg, old(Contents()), w, endTs, f)
      ensures ok <==> f == Finished
      ensures writer == None && Closes(cfg, w, endTs, f, old(Contents()), Contents())
    {
      writer := None;
      if f == LostBeforeRename {
        abandoned := abandoned + [w];
        return false;
      }
      files := files[PathOf(cfg, w.start) := w.records];
      renamed := renamed + [w];
      if f == LostAfterRename {
        abandoned := abandoned + [w];
        return false;
      }
      finalized := finalized + [Closed(w, endTs)];
      ok := true;
    }

    method EnsureUpdatesWriter(now: int, o: Outcome) returns (ok: bool)
      modifies this
      ensures (Contents(), ok) == Ensure(cfg, old(Contents()), now, o)
      ensures var bucket := now - now % cfg.updatesInterval;
              if old(writer).Some? && old(writer).value.start == bucket then ok && Contents() == old(Contents())
              else
                && (ok <==> o.created && (old(writer).Some? ==> o.finalize == Finished && o.enqueued))
                && writer == (if ok then Some(Segment(bucket, [], 0)) else None)
                && (old(writer).None? ==> (finalized, abandoned, renamed, files) == old((finalized, abandoned, renamed, files)))
                && (old(writer).Some? ==> Closes(cfg, old(writer).value, now, o.finalize, old(Contents()), Contents()))
    {
      var bucket := Bucket(cfg, now);
      if writer.None? || writer.value.start != bucket {
        if writer.Some? {
          ok := FinalizeWriter(writer.value, now, o.finalize);
          if !ok || !o.enqueued {
            return false;
          }
        }
        if !o.created {
          return false;
        }
        writer := Some(NewSegment(bucket));
      }
      ok := true;
    }

    /** A manual rollover with nothing in between: two critical sections. */
    method RotateUpdates(now: int, first: Outcome, second: Outcome) returns (ok: bool)
      modifies this
      ensures var (a, taken) := Take(cfg, old(Contents()), now, first);
              (Contents(), ok) == if taken then Ensure(cfg, a, now, second) else (a, false)
      ensures ok <==> second.created && (old(writer).Some? ==> first.finalize == Finished && first.enqueued)
      ensures writer == if ok then Some(Segment(now - now % cfg.updatesInterval, [], 0)) else None
      ensures if old(writer).Some? then Closes(cfg, old(writer).value, now, first.finalize, old(Contents()), Contents())
              else (finalized, abandoned, renamed, files) == old((finalized, abandoned, renamed, files))
    {
      if writer.Some? {
        ok := FinalizeWriter(writer.value, now, first.finalize);
        if !ok || !first.enqueued {
          return false;
        }
      }
      ok := EnsureUpdatesWriter(now, second);
    }

    /** An ingest with nothing in between: ensure, encode, write. */
    method IngestUpdate(r: Record, o: Outcome, encoded: bool, written: bool) returns (ok: bool)
      modifies this
      ensures var (a, ensured) := Ensure(cfg, old(Contents()), r.ts, o);
              (Contents(), ok) == if ensured && encoded then Write(a, r, written) else (a, false)
      ensures var bucket := r.ts - r.ts % cfg.updatesInterval;
              var kept := old(writer).Some? && old(writer).value.start == bucket;
              var before := if kept then old(writer).value else Segment(bucket, [], 0);
              && (ok ==> encoded && written && writer == Some(Segment(bucket, before.records + [r], before.count + 1)))
              && (!ok ==> writer == None || writer == Some(before))
              && (kept ==> (ok <==> encoded && written) && (finalized, abandoned, renamed, files) == old((finalized, abandoned, renamed, files)))
    {
      ok := EnsureUpdatesWriter(r.ts, o);
      if !ok || !encoded || writer.None? || !written {
        return false;
      }
      writer := Some(Segment(writer.value.start, writer.value.records + [r], writer.value.count + 1));
    }
  }

  // ----- Interleaving

  datatype IngestPc = Entered | Ensured | Acked | Rejected

  datatype RolloverPc = Waiting | Taken | Over

  datatype Call =
    | Ingest(ts: int, ipc: IngestPc)
    | Rollover(now: int, rpc: RolloverPc)
    | Tick(now: int, done: bool)

  datatype System = System(archive: Archive, calls: map<nat, Call>)

  /** One lock-level step of one call; encoding happens between the two locks of ingest. */
  datatype Step =
    | BeginIngest(id: nat, ts: int)
    | BeginRollover(id: nat, now: int)
    | BeginTick(id: nat, now: int)
    | EnsureStep(id: nat, outcome: Outcome)
    | TakeStep(id: nat, outcome: Outcome)
    | EncodeFails(id: nat)
    | WriteStep(id: nat, written: bool)

  /** The next lock the call takes is the one in `ensure_updates_writer`. */
  predicate WantsWriter(c: Call) {
    match c
    case Ingest(_, pc) => pc == Entered
    case Rollover(_, pc) => pc == Taken
    case Tick(_, done) => !done
  }

  predicate Enabled(s: System, step: Step) {
    match step
    case BeginIngest(id, _) => id !in s.calls
    case BeginRollover(id, _) => id !in s.calls
    case BeginTick(id, _) => id !in s.calls
    case EnsureStep(id, _) => id in s.calls && WantsWriter(s.calls[id])
    case TakeStep(id, _) => id in s.calls && s.calls[id].Rollover? && s.calls[id].rpc == Waiting
    case EncodeFails(id) => id in s.calls && s.calls[id].Ingest? && s.calls[id].ipc == Ensured
    case WriteStep(id, _) => id in s.calls && s.calls[id].Ingest? && s.calls[id].ipc == Ensured
  }

  function Time(c: Call): int {
    match c
    case Ingest(ts, _) => ts
    case Rollover(now, _) => now
    case Tick(now, _) => now
  }

  function AfterEnsure(c: Call, ok: bool): Call {
    match c
    case Ingest(ts, _) => Ingest(ts, if ok then Ensured else Rejected)
    case Rollover(now, _) => Rollover(now, Over)
    case Tick(now, _) => Tick(now, true)
  }

  function Next(cfg: Config, s: System, step: Step): System
    requires Enabled(s, step)
  {
    match step
    case BeginIngest(id, ts) => s.(calls := s.calls[id := Ingest(ts, Entered)])
    case BeginRollover(id, now) => s.(calls := s.calls[id := Rollover(now, Waiting)])
    case BeginTick(id, now) => s.(calls := s.calls[id := Tick(now, false)])
    case EnsureStep(id, o) =>
      var (a, ok) := Ensure(cfg, s.archive, Time(s.calls[id]), o);
      System(a, s.calls[id := AfterEnsure(s.calls[id], ok)])
    case TakeStep(id, o) =>
      var (a, ok) := Take(cfg, s.archive, Time(s.calls[id]), o);
      System(a, s.calls[id := s.calls[id].(rpc := if ok then Taken else Over)])
    case EncodeFails(id) => s.(calls := s.calls[id := s.calls[id].(ipc := Rejected)])
    case WriteStep(id, written) =>
      var (a, ok) := Write(s.archive, Record(id, s.calls[id].ts), written);
      System(a, s.calls[id := s.calls[id].(ipc := if ok then Acked else Rejected)])
  }

  // ----- Every acknowledged update is in exactly one segment

  function CallIds(rs: seq<Record>): multiset<nat> {
    if rs == [] then multiset{} else CallIds(rs[..|rs| - 1]) + multiset{rs[|rs| - 1].call}
  }

  function Sum(segs: seq<Segment>): multiset<nat> {
    if segs == [] then multiset{} else Sum(segs[..|segs| - 1]) + CallIds(segs[|segs| - 1].records)
  }

  function SumClosed(cs: seq<Closed>): multiset<nat> {
    if cs == [] then multiset{} else SumClosed(cs[..|cs| - 1]) + CallIds(cs[|cs| - 1].segment.records)
  }

  function OpenIds(w: Option<Segment>): multiset<nat> {
    if w.Some? then CallIds(w.value.records) else multiset{}
  }

  /** How often each call's record occurs in the open, finalized and abandoned segments together. */
  function Occurrences(a: Archive): multiset<nat> {
    OpenIds(a.writer) + SumClosed(a.finalized) + Sum(a.abandoned)
  }

  function Counts(segs: seq<Segment>): nat {
    if segs == [] then 0 else Counts(segs[..|segs| - 1]) + segs[|segs| - 1].count
  }

  function CountsClosed(cs: seq<Closed>): nat {
    if cs == [] then 0 else CountsClosed(cs[..|cs| - 1]) + cs[|cs| - 1].segment.count
  }

  /** Sum of the record counters of all segments. */
  function TotalCount(a: Archive): nat {
    (if a.writer.Some? then a.writer.value.count else 0) + CountsClosed(a.finalized) + Counts(a.abandoned)
  }

  function AckedCalls(calls: map<nat, Call>): set<nat> {
    set id | id in calls && calls[id].Ingest? && calls[id].ipc == Acked
  }

  lemma {:induction false} SumPush(segs: seq<Segment>, w: Segment)
    ensures Sum(segs + [w]) == Sum(segs) + CallIds(w.records)
    ensures Counts(segs + [w]) == Counts(segs) + w.count
  {
    assert (segs + [w])[..|segs|] == segs;
  }

  lemma {:induction false} SumClosedPush(cs: seq<Closed>, c: Closed)
    ensures SumClosed(cs + [c]) == SumClosed(cs) + CallIds(c.segment.records)
    ensures CountsClosed(cs + [c]) == CountsClosed(cs) + c.segment.count
  {
    assert (cs + [c])[..|cs|] == cs;
  }

  lemma {:induction false} CallIdsPush(rs: seq<Record>, r: Record)
    ensures CallIds(rs + [r]) == CallIds(rs) + multiset{r.call}
  {
    assert (rs + [r])[..|rs|] == rs;
  }

  /** Closing moves a segment's records, whatever the outcome; it creates and destroys none. */
  lemma {:induction false} CloseConserves(cfg: Config, a: Archive, w: Segment, endTs: int, f: Finalize)
    requires a.writer == Some(w)
    ensures Occurrences(Close(cfg, a, w, endTs, f)) == Occurrences(a)
    ensures TotalCount(Close(cfg, a, w, endTs, f)) == TotalCount(a)
  {
    SumPush(a.abandoned, w);
    SumClosedPush(a.finalized, Closed(w, endTs));
    hide Sum, SumClosed, Counts, CountsClosed, CallIds, PathOf;
  }

  lemma {:induction false} TakeConserves(cfg: Config, a: Archive, now: int, o: Outcome)
    ensures Occurrences(Take(cfg, a, now, o).0) == Occurrences(a)
    ensures TotalCount(Take(cfg, a, now, o).0) == TotalCount(a)
  {
    if a.writer.Some? {
      CloseConserves(cfg, a, a.writer.value, now, o.finalize);
    }
    hide Occurrences, TotalCount, Close;
  }

  lemma {:induction false} EnsureConserves(cfg: Config, a: Archive, now: int, o: Outcome)
    ensures Occurrences(Ensure(cfg, a, now, o).0) == Occurrences(a)
    ensures TotalCount(Ensure(cfg, a, now, o).0) == TotalCount(a)
  {
    TakeConserves(cfg, a, now, o);
    hide Sum, SumClosed, Counts, CountsClosed, Close, Bucket;
    assert CallIds([]) == multiset{};
  }

  lemma {:induction false} WriteAdds(a: Archive, r: Record, written: bool)
    ensures var (b, ok) := Write(a, r, written);
            && Occurrences(b) == Occurrences(a) + (if ok then multiset{r.call} else multiset{})
            && TotalCount(b) == TotalCount(a) + (if ok then 1 else 0)
  {
    if a.writer.Some? {
      CallIdsPush(a.writer.value.records, r);
    }
    hide Sum, SumClosed, Counts, CountsClosed, CallIds;
  }

  /** Each acknowledged call's record occurs once, every other call's never, and the counters add up. */
  ghost predicate ExactlyOnce(s: System) {
    && Occurrences(s.archive) == multiset(AckedCalls(s.calls))
    && TotalCount(s.archive) == |AckedCalls(s.calls)|
  }

  /** The step in which a call's record enters a segment and the call is acknowledged. */
  predicate Acknowledges(s: System, step: Step) {
    step.WriteStep? && step.written && s.archive.writer.Some?
  }

  lemma {:induction false} StepMovesRecords(cfg: Config, s: System, step: Step)
    requires Enabled(s, step)
    ensures var n := Next(cfg, s, step);
            && Occurrences(n.archive) == Occurrences(s.archive) + (if Acknowledges(s, step) then multiset{step.id} else multiset{})
            && TotalCount(n.archive) == TotalCount(s.archive) + (if Acknowledges(s, step) then 1 else 0)
  {
    hide Occurrences, TotalCount, Ensure, Take;
    match step
    case BeginIngest(_, _) =>
    case BeginRollover(_, _) =>
    case BeginTick(_, _) =>
    case EnsureStep(id, o) =>
      EnsureConserves(cfg, s.archive, Time(s.calls[id]), o);
    case TakeStep(id, o) =>
      TakeConserves(cfg, s.archive, Time(s.calls[id]), o);
    case EncodeFails(_) =>
    case WriteStep(id, written) =>
      WriteAdds(s.archive, Record(id, s.calls[id].ts), written);
  }

  lemma {:induction false} StepAcknowledges(cfg: Config, s: System, step: Step)
    requires Enabled(s, step)
    ensures AckedCalls(Next(cfg, s, step).calls) ==
            AckedCalls(s.calls) + (if Acknowledges(s, step) then {step.id} else {})
    ensures Acknowledges(s, step) ==> step.id !in AckedCalls(s.calls)
  {
    hide Ensure, Take;
    assert Next(cfg, s, step).calls == s.calls[step.id := Next(cfg, s, step).calls[step.id]];
  }

  lemma {:induction false} StepKeepsExactlyOnce(cfg: Config, s: System, step: Step)
    requires ExactlyOnce(s) && Enabled(s, step)
    ensures ExactlyOnce(Next(cfg, s, step))
  {
    hide Next, Occurrences, TotalCount, AckedCalls, Enabled, Acknowledges;
    StepMovesRecords(cfg, s, step);
    StepAcknowledges(cfg, s, step);
    if Acknowledges(s, step) {
      MultisetOfSetPlus(AckedCalls(s.calls), step.id);
    } else {
      assert AckedCalls(s.calls) + {} == AckedCalls(s.calls);
    }
  }

  lemma {:induction false} MultisetOfSetPlus(s: set<nat>, x: nat)
    requires x !in s
    ensures multiset(s + {x}) == multiset(s) + multiset{x}
  {
  }

  ghost predicate Possible(cfg: Config, s: System, steps: seq<Step>)
    decreases |steps|
  {
    steps == [] || (Enabled(s, steps[0]) && Possible(cfg, Next(cfg, s, steps[0]), steps[1..]))
  }

  ghost function After(cfg: Config, s: System, steps: seq<Step>): System
    requires Possible(cfg, s, steps)
    decreases |steps|
  {
    if steps == [] then s else After(cfg, Next(cfg, s, steps[0]), steps[1..])
  }

  function Start(): System {
    System(EmptyArchive(), map[])
  }

  lemma {:induction false} RunKeepsExactlyOnce(cfg: Config, s: System, steps: seq<Step>)
    requires ExactlyOnce(s) && Possible(cfg, s, steps)
    ensures ExactlyOnce(After(cfg, s, steps))
    decreases |steps|
  {
    if steps != [] {
      StepKeepsExactlyOnce(cfg, s, steps[0]);
      RunKeepsExactlyOnce(cfg, Next(cfg, s, steps[0]), steps[1..]);
    }
  }

  /**
   Under every interleaving of lock-level steps and every choice of failures, an
   acknowledged update is in exactly one segment, a rejected or unfinished one in
   none, and the record counters sum to the number acknowledged.
   */
  lemma {:induction false} ExactlyOnceAlways(cfg: Config, steps: seq<Step>, id: nat)
    requires Possible(cfg, Start(), steps)
    ensures var s := After(cfg, Start(), steps);
            && Occurrences(s.archive)[id] == (if id in AckedCalls(s.calls) then 1 else 0)
            && TotalCount(s.archive) == |AckedCalls(s.calls)|
  {
    assert AckedCalls(map[]) == {};
    RunKeepsExactlyOnce(cfg, Start(), steps);
  }
}
