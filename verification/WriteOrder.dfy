/** In which order segments hold their records: that in which the calls were acknowledged, told from the steps alone. */
module WriteOrder {
  import opened Common
  import opened Rotation

  /** The calls a run acknowledges, in step order. */
  ghost function Acks(cfg: Config, s: System, steps: seq<Step>): seq<nat>
    requires Possible(cfg, s, steps)
    decreases |steps|
  {
    if steps == [] then []
    else (if Acknowledges(s, steps[0]) then [steps[0].id] else []) + Acks(cfg, Next(cfg, s, steps[0]), steps[1..])
  }

  /** The calls whose records a segment holds, as they stand in it. */
  function Order(rs: seq<Record>): seq<nat> {
    seq(|rs|, i requires 0 <= i < |rs| => rs[i].call)
  }

  /** `x` stands somewhere before `y`. */
  ghost predicate Before(acks: seq<nat>, x: nat, y: nat) {
    exists a, b :: 0 <= a < b < |acks| && acks[a] == x && acks[b] == y
  }

  /** The records stand in the order of `acks`. */
  ghost predicate Follows(acks: seq<nat>, rs: seq<Record>) {
    && (forall i :: 0 <= i < |rs| ==> rs[i].call in acks)
    && (forall i, j :: 0 <= i < j < |rs| ==> Before(acks, rs[i].call, rs[j].call))
  }

  ghost predicate AllFollow(acks: seq<nat>, a: Archive) {
    && (a.writer.Some? ==> Follows(acks, a.writer.value.records))
    && (forall i :: 0 <= i < |a.finalized| ==> Follows(acks, a.finalized[i].segment.records))
    && (forall i :: 0 <= i < |a.abandoned| ==> Follows(acks, a.abandoned[i].records))
    && (forall p :: p in a.files ==> Follows(acks, a.files[p]))
  }

  // ----- What a step does to the records

  /** The records of the open segment, none if there is none. */
  function Open(a: Archive): seq<Record> {
    if a.writer.Some? then a.writer.value.records else []
  }

  lemma {:induction false} TakeFollows(cfg: Config, a: Archive, now: int, o: Outcome, acks: seq<nat>)
    requires AllFollow(acks, a)
    ensures AllFollow(acks, Take(cfg, a, now, o).0)
  {
    hide Follows, PathOf;
  }

  lemma {:induction false} EnsureFollows(cfg: Config, a: Archive, now: int, o: Outcome, acks: seq<nat>)
    requires AllFollow(acks, a)
    ensures AllFollow(acks, Ensure(cfg, a, now, o).0)
  {
    TakeFollows(cfg, a, now, o, acks);
    assert Follows(acks, []);
    hide Follows, PathOf, Take, Bucket;
  }

  lemma {:induction false} BeforeGrows(acks: seq<nat>, x: nat, y: nat, z: nat)
    ensures Before(acks, x, y) ==> Before(acks + [z], x, y)
    ensures x in acks ==> Before(acks + [z], x, z)
  {
    var more := acks + [z];
    if Before(acks, x, y) {
      var a, b :| 0 <= a < b < |acks| && acks[a] == x && acks[b] == y;
      assert more[a] == x && more[b] == y;
    }
    if x in acks {
      var a :| 0 <= a < |acks| && acks[a] == x;
      assert more[a] == x && more[|acks|] == z;
    }
  }

  lemma {:induction false} FollowsGrows(acks: seq<nat>, rs: seq<Record>, z: nat)
    requires Follows(acks, rs)
    ensures Follows(acks + [z], rs)
  {
    forall i, j | 0 <= i < j < |rs|
      ensures Before(acks + [z], rs[i].call, rs[j].call)
    {
      BeforeGrows(acks, rs[i].call, rs[j].call, z);
    }
  }

  /** What is written last stands last. */
  lemma {:induction false} AppendFollows(acks: seq<nat>, rs: seq<Record>, r: Record)
    requires Follows(acks, rs)
    ensures Follows(acks + [r.call], rs + [r])
  {
    var more := rs + [r];
    assert (acks + [r.call])[|acks|] == r.call;
    FollowsGrows(acks, rs, r.call);
    forall i, j | 0 <= i < j < |more|
      ensures Before(acks + [r.call], more[i].call, more[j].call)
    {
      assert more[i] == rs[i];
      if j < |rs| {
        assert more[j] == rs[j];
      } else {
        BeforeGrows(acks, rs[i].call, 0, r.call);
      }
    }
  }

  lemma {:induction false} AllFollowGrows(acks: seq<nat>, a: Archive, z: nat)
    requires AllFollow(acks, a)
    ensures AllFollow(acks + [z], a)
  {
    hide Follows;
    if a.writer.Some? {
      FollowsGrows(acks, a.writer.value.records, z);
    }
    forall i | 0 <= i < |a.finalized|
      ensures Follows(acks + [z], a.finalized[i].segment.records)
    {
      FollowsGrows(acks, a.finalized[i].segment.records, z);
    }
    forall i | 0 <= i < |a.abandoned|
      ensures Follows(acks + [z], a.abandoned[i].records)
    {
      FollowsGrows(acks, a.abandoned[i].records, z);
    }
    forall p | p in a.files
      ensures Follows(acks + [z], a.files[p])
    {
      FollowsGrows(acks, a.files[p], z);
    }
  }

  lemma {:induction false} WriteFollows(a: Archive, r: Record, acks: seq<nat>)
    requires AllFollow(acks, a) && a.writer.Some?
    ensures AllFollow(acks + [r.call], Write(a, r, true).0)
  {
    AllFollowGrows(acks, a, r.call);
    AppendFollows(acks, a.writer.value.records, r);
    hide Follows;
  }

  lemma {:induction false} StepFollows(cfg: Config, s: System, step: Step, acks: seq<nat>)
    requires Enabled(s, step) && AllFollow(acks, s.archive)
    ensures AllFollow(acks + (if Acknowledges(s, step) then [step.id] else []), Next(cfg, s, step).archive)
  {
    assert acks + [] == acks;
    match step
    case EnsureStep(id, o) =>
      EnsureFollows(cfg, s.archive, Time(s.calls[id]), o, acks);
      hide AllFollow, Ensure;
    case TakeStep(id, o) =>
      TakeFollows(cfg, s.archive, Time(s.calls[id]), o, acks);
      hide AllFollow, Take;
    case WriteStep(id, written) =>
      if Acknowledges(s, step) {
        WriteFollows(s.archive, Record(id, s.calls[id].ts), acks);
      }
      hide AllFollow;
    case _ =>
      hide AllFollow;
  }

  lemma {:induction false} RunFollows(cfg: Config, s: System, steps: seq<Step>, acks: seq<nat>)
    requires Possible(cfg, s, steps) && AllFollow(acks, s.archive)
    ensures AllFollow(acks + Acks(cfg, s, steps), After(cfg, s, steps).archive)
    decreases |steps|
  {
    if steps == [] {
      assert acks + [] == acks;
    } else {
      var now := if Acknowledges(s, steps[0]) then [steps[0].id] else [];
      StepFollows(cfg, s, steps[0], acks);
      hide AllFollow, Next;
      RunFollows(cfg, Next(cfg, s, steps[0]), steps[1..], acks + now);
      assert acks + now + Acks(cfg, Next(cfg, s, steps[0]), steps[1..]) == acks + (now + Acks(cfg, Next(cfg, s, steps[0]), steps[1..]));
    }
  }

  lemma {:induction false} AcksAreAcknowledged(cfg: Config, s: System, steps: seq<Step>)
    requires Possible(cfg, s, steps)
    ensures forall id :: id in Acks(cfg, s, steps) ==> id !in AckedCalls(s.calls)
    ensures AckedCalls(After(cfg, s, steps).calls) == AckedCalls(s.calls) + (set id | id in Acks(cfg, s, steps))
    ensures forall i, j :: 0 <= i < j < |Acks(cfg, s, steps)| ==> Acks(cfg, s, steps)[i] != Acks(cfg, s, steps)[j]
    decreases |steps|
  {
    if steps != [] {
      StepAcknowledges(cfg, s, steps[0]);
      hide Next, AckedCalls, Acknowledges;
      AcksAreAcknowledged(cfg, Next(cfg, s, steps[0]), steps[1..]);
    }
  }

  /**
   In every run, whatever interleaves or fails: every open, finalized and abandoned segment, and every final
   path, holds its records in the order in which their calls were acknowledged, and no call is acknowledged twice.
   */
  lemma {:induction false} SegmentsKeepWriteOrder(cfg: Config, steps: seq<Step>)
    requires Possible(cfg, Start(), steps)
    ensures AllFollow(Acks(cfg, Start(), steps), After(cfg, Start(), steps).archive)
    ensures var acks := Acks(cfg, Start(), steps);
            && (forall i, j :: 0 <= i < j < |acks| ==> acks[i] != acks[j])
            && forall id :: id in acks <==> id in AckedCalls(After(cfg, Start(), steps).calls)
  {
    assert AckedCalls(map[]) == {};
    AcksAreAcknowledged(cfg, Start(), steps);
    hide AckedCalls, After, Acks, Possible;
    RunFollows(cfg, Start(), steps, []);
    assert [] + Acks(cfg, Start(), steps) == Acks(cfg, Start(), steps);
  }

  // ----- Nothing is left out in between

  /** The closed segments one after another. */
  function Closeds(cs: seq<Closed>): seq<nat> {
    if cs == [] then [] else Closeds(cs[..|cs| - 1]) + Order(cs[|cs| - 1].segment.records)
  }

  /** The closed segments and then the open one. */
  function Whole(a: Archive): seq<nat> {
    Closeds(a.finalized) + Order(Open(a))
  }

  lemma {:induction false} ClosedsPush(cs: seq<Closed>, c: Closed)
    ensures Closeds(cs + [c]) == Closeds(cs) + Order(c.segment.records)
  {
    assert (cs + [c])[..|cs|] == cs;
  }

  lemma {:induction false} TakeKeepsWhole(cfg: Config, a: Archive, now: int, o: Outcome)
    ensures var b := Take(cfg, a, now, o).0;
            b.abandoned == [] ==> a.abandoned == [] && Whole(b) == Whole(a) && b.writer.None?
  {
    hide Closeds, PathOf;
    assert Order([]) == [];
    if a.writer.Some? {
      ClosedsPush(a.finalized, Closed(a.writer.value, now));
    }
  }

  lemma {:induction false} EnsureKeepsWhole(cfg: Config, a: Archive, now: int, o: Outcome)
    ensures var b := Ensure(cfg, a, now, o).0;
            b.abandoned == [] ==> a.abandoned == [] && Whole(b) == Whole(a)
  {
    TakeKeepsWhole(cfg, a, now, o);
    hide Closeds, PathOf, Bucket, Take, Order;
  }

  lemma {:induction false} WriteExtendsWhole(a: Archive, r: Record)
    requires a.writer.Some?
    ensures Whole(Write(a, r, true).0) == Whole(a) + [r.call] && Write(a, r, true).0.abandoned == a.abandoned
  {
    hide Closeds;
    var w := a.writer.value;
    assert Order(w.records + [r]) == Order(w.records) + [r.call];
  }

  lemma {:induction false} StepExtendsWhole(cfg: Config, s: System, step: Step)
    requires Enabled(s, step)
    ensures var n := Next(cfg, s, step).archive;
            n.abandoned == [] ==> s.archive.abandoned == [] && Whole(n) == Whole(s.archive) + (if Acknowledges(s, step) then [step.id] else [])
  {
    assert Whole(s.archive) + [] == Whole(s.archive);
    match step
    case EnsureStep(id, o) =>
      EnsureKeepsWhole(cfg, s.archive, Time(s.calls[id]), o);
      hide Ensure, Whole;
    case TakeStep(id, o) =>
      TakeKeepsWhole(cfg, s.archive, Time(s.calls[id]), o);
      hide Take, Whole;
    case WriteStep(id, written) =>
      if Acknowledges(s, step) {
        WriteExtendsWhole(s.archive, Record(id, s.calls[id].ts));
      }
      hide Whole;
    case _ =>
      hide Whole;
  }

  lemma {:induction false} Assoc(a: seq<nat>, b: seq<nat>, c: seq<nat>)
    ensures a + b + c == a + (b + c)
  {
  }

  lemma {:induction false} RunExtendsWhole(cfg: Config, s: System, steps: seq<Step>)
    requires Possible(cfg, s, steps)
    ensures var n := After(cfg, s, steps).archive;
            n.abandoned == [] ==> s.archive.abandoned == [] && Whole(n) == Whole(s.archive) + Acks(cfg, s, steps)
    decreases |steps|
  {
    if steps == [] {
      assert Whole(s.archive) + [] == Whole(s.archive);
    } else {
      var n := Next(cfg, s, steps[0]);
      var now := if Acknowledges(s, steps[0]) then [steps[0].id] else [];
      StepExtendsWhole(cfg, s, steps[0]);
      hide Whole, Next, Acknowledges, Enabled;
      RunExtendsWhole(cfg, n, steps[1..]);
      Assoc(Whole(s.archive), now, Acks(cfg, n, steps[1..]));
    }
  }

  /**
   However the calls interleave: unless a finalization failed, the closed segments in order followed by the
   open one are exactly the acknowledged calls in order of acknowledgement, none missing and none doubled.
   */
  lemma {:induction false} ArchiveIsTheAcknowledgedSequence(cfg: Config, steps: seq<Step>)
    requires Possible(cfg, Start(), steps) && After(cfg, Start(), steps).archive.abandoned == []
    ensures Whole(After(cfg, Start(), steps).archive) == Acks(cfg, Start(), steps)
  {
    RunExtendsWhole(cfg, Start(), steps);
    hide After, Acks, Possible;
    assert Whole(Start().archive) == [];
    assert [] + Acks(cfg, Start(), steps) == Acks(cfg, Start(), steps);
  }
}
