/** What each call does in a run, told from the archive its steps meet, and how it ends by that. */
module CallTraces {
  import opened Common
  import opened Rotation
  import RotationDisk

  /** A step of a call and whether it succeeds. */
  datatype Mark = Began | Took(ok: bool) | EnsuredWriter(ok: bool) | EncodeFailed | Wrote(ok: bool)

  /** The open segment, if there is one, can be finalized and queued. */
  predicate Closable(w: Option<Segment>, o: Outcome) {
    w.Some? ==> o.finalize == Finished && o.enqueued
  }

  /** The bucket's segment is open already, or can be opened. */
  predicate Openable(cfg: Config, w: Option<Segment>, now: int, o: Outcome) {
    (w.Some? && w.value.start == now - now % cfg.updatesInterval) || (o.created && Closable(w, o))
  }

  function MarkOf(cfg: Config, s: System, step: Step): Mark
    requires Enabled(s, step)
  {
    match step
    case EnsureStep(id, o) => EnsuredWriter(Openable(cfg, s.archive.writer, Time(s.calls[id]), o))
    case TakeStep(_, o) => Took(Closable(s.archive.writer, o))
    case EncodeFails(_) => EncodeFailed
    case WriteStep(_, written) => Wrote(written && s.archive.writer.Some?)
    case _ => Began
  }

  /** What call `id` does in a run. */
  ghost function Trace(cfg: Config, s: System, steps: seq<Step>, id: nat): seq<Mark>
    requires Possible(cfg, s, steps)
    decreases |steps|
  {
    if steps == [] then []
    else Own(cfg, s, steps[0], id) + Trace(cfg, Next(cfg, s, steps[0]), steps[1..], id)
  }

  ghost function Own(cfg: Config, s: System, step: Step, id: nat): seq<Mark>
    requires Enabled(s, step)
  {
    if step.id == id then [MarkOf(cfg, s, step)] else []
  }

  /** A call stands where its code is after these steps: a failure ends it, and nothing is done twice. */
  predicate Told(calls: map<nat, Call>, id: nat, trace: seq<Mark>) {
    if id !in calls then trace == []
    else
      match calls[id]
      case Ingest(_, pc) => (
        match pc
        case Entered => trace == [Began]
        case Ensured => trace == [Began, EnsuredWriter(true)]
        case Acked => trace == [Began, EnsuredWriter(true), Wrote(true)]
        case Rejected =>
          || trace == [Began, EnsuredWriter(false)]
          || trace == [Began, EnsuredWriter(true), EncodeFailed]
          || trace == [Began, EnsuredWriter(true), Wrote(false)])
      case Rollover(_, pc) => (
        match pc
        case Waiting => trace == [Began]
        case Taken => trace == [Began, Took(true)]
        case Over =>
          || trace == [Began, Took(false)]
          || trace == [Began, Took(true), EnsuredWriter(true)]
          || trace == [Began, Took(true), EnsuredWriter(false)])
      case Tick(_, done) =>
        if done then trace == [Began, EnsuredWriter(true)] || trace == [Began, EnsuredWriter(false)]
        else trace == [Began]
  }

  lemma {:induction false} EnsureIffOpenable(cfg: Config, a: Archive, now: int, o: Outcome)
    ensures Ensure(cfg, a, now, o).1 <==> Openable(cfg, a.writer, now, o)
  {
    hide Close;
  }

  lemma {:induction false} TakeIffClosable(cfg: Config, a: Archive, now: int, o: Outcome)
    ensures Take(cfg, a, now, o).1 <==> Closable(a.writer, o)
  {
    hide Close;
  }

  lemma {:induction false} StepKeepsTold(cfg: Config, s: System, step: Step, trace: seq<Mark>)
    requires Enabled(s, step) && Told(s.calls, step.id, trace)
    ensures Told(Next(cfg, s, step).calls, step.id, trace + [MarkOf(cfg, s, step)])
  {
    if step.EnsureStep? {
      EnsureIffOpenable(cfg, s.archive, Time(s.calls[step.id]), step.outcome);
    } else if step.TakeStep? {
      TakeIffClosable(cfg, s.archive, Time(s.calls[step.id]), step.outcome);
    }
    hide Ensure, Take, Openable, Closable;
  }

  lemma {:induction false} OthersUntold(cfg: Config, s: System, step: Step, id: nat, trace: seq<Mark>)
    requires Enabled(s, step) && id != step.id && Told(s.calls, id, trace)
    ensures Told(Next(cfg, s, step).calls, id, trace)
  {
    hide Ensure, Take, Told;
    assert Next(cfg, s, step).calls == s.calls[step.id := Next(cfg, s, step).calls[step.id]];
    assert id in Next(cfg, s, step).calls <==> id in s.calls;
    SameCall(s.calls, Next(cfg, s, step).calls, id, trace);
  }

  lemma {:induction false} SameCall(calls: map<nat, Call>, later: map<nat, Call>, id: nat, trace: seq<Mark>)
    requires (id in calls <==> id in later) && (id in calls ==> later[id] == calls[id])
    requires Told(calls, id, trace)
    ensures Told(later, id, trace)
  {
  }

  lemma {:induction false} RunKeepsTold(cfg: Config, s: System, steps: seq<Step>, id: nat, trace: seq<Mark>)
    requires Possible(cfg, s, steps) && Told(s.calls, id, trace)
    ensures Told(After(cfg, s, steps).calls, id, trace + Trace(cfg, s, steps, id))
    decreases |steps|
  {
    if steps == [] {
      assert trace + [] == trace;
    } else {
      var n, own := Next(cfg, s, steps[0]), Own(cfg, s, steps[0], id);
      if steps[0].id == id {
        StepKeepsTold(cfg, s, steps[0], trace);
      } else {
        OthersUntold(cfg, s, steps[0], id, trace);
        assert trace + [] == trace;
      }
      hide Told, Next, Enabled, MarkOf;
      RunKeepsTold(cfg, n, steps[1..], id, trace + own);
      assert trace + own + Trace(cfg, n, steps[1..], id) == trace + (own + Trace(cfg, n, steps[1..], id));
    }
  }

  /**
   Under every interleaving each call takes its code's steps in order, once each, and stops at its first failure:
   an ingest is acknowledged exactly after a successful ensure and a successful write, a rollover opens a segment
   only after a successful take, and no step follows the end of a call.
   */
  lemma {:induction false} CallsFollowTheirCode(cfg: Config, steps: seq<Step>, id: nat)
    requires Possible(cfg, Start(), steps)
    ensures Told(After(cfg, Start(), steps).calls, id, Trace(cfg, Start(), steps, id))
  {
    assert Told(Start().calls, id, []);
    RunKeepsTold(cfg, Start(), steps, id, []);
    assert [] + Trace(cfg, Start(), steps, id) == Trace(cfg, Start(), steps, id);
  }

  // ----- Uninterrupted calls

  /** The steps of an event that nothing interrupts: call `id`, from its beginning to its end. */
  function EventSteps(cfg: Config, a: Archive, e: RotationDisk.Event, id: nat): seq<Step> {
    match e
    case Arrive(r, o, encoded, written) =>
      [BeginIngest(id, r.ts), EnsureStep(id, o)]
      + (if !Openable(cfg, a.writer, r.ts, o) then [] else if encoded then [WriteStep(id, written)] else [EncodeFails(id)])
    case Scheduler(now, o) => [BeginTick(id, now), EnsureStep(id, o)]
  }

  lemma {:induction false} TwoSteps(cfg: Config, s: System, x: Step, y: Step)
    requires Enabled(s, x) && Enabled(Next(cfg, s, x), y)
    ensures Possible(cfg, s, [x, y]) && After(cfg, s, [x, y]) == Next(cfg, Next(cfg, s, x), y)
  {
    hide Enabled, Next;
    var n := Next(cfg, s, x);
    assert [x, y][1..] == [y] && [y][1..] == [];
    assert Possible(cfg, n, [y]) && After(cfg, n, [y]) == Next(cfg, n, y) by {
      assert Possible(cfg, Next(cfg, n, y), []);
    }
  }

  lemma {:induction false} ThreeSteps(cfg: Config, s: System, x: Step, y: Step, z: Step)
    requires Enabled(s, x) && Enabled(Next(cfg, s, x), y) && Enabled(Next(cfg, Next(cfg, s, x), y), z)
    ensures Possible(cfg, s, [x, y] + [z]) && After(cfg, s, [x, y] + [z]) == Next(cfg, Next(cfg, Next(cfg, s, x), y), z)
  {
    TwoSteps(cfg, Next(cfg, s, x), y, z);
    hide Enabled, Next;
    assert ([x, y] + [z])[1..] == [y, z] && ([x, y] + [z])[0] == x;
  }

  /** The two steps that every event begins with. */
  lemma {:induction false} AfterTwo(cfg: Config, s: System, e: RotationDisk.Event, id: nat)
    requires id !in s.calls && (e.Arrive? ==> e.r.call == id)
    ensures var x := if e.Arrive? then BeginIngest(id, e.r.ts) else BeginTick(id, e.now);
            var y := EnsureStep(id, e.outcome);
            && Enabled(s, x) && Enabled(Next(cfg, s, x), y)
            && var n := Next(cfg, Next(cfg, s, x), y);
               && (n.archive, Openable(cfg, s.archive.writer, RotationDisk.Stamp(e), e.outcome)) == Ensure(cfg, s.archive, RotationDisk.Stamp(e), e.outcome)
               && id in n.calls
               && (e.Arrive? ==> n.calls[id] == Ingest(e.r.ts, if Openable(cfg, s.archive.writer, e.r.ts, e.outcome) then Ensured else Rejected))
  {
    EnsureIffOpenable(cfg, s.archive, RotationDisk.Stamp(e), e.outcome);
    hide Ensure, Openable;
  }

  /** What an uninterrupted event does to the archive is what the run of its steps does. */
  lemma {:induction false} HandleIsARun(cfg: Config, s: System, e: RotationDisk.Event, id: nat)
    requires id !in s.calls && (e.Arrive? ==> e.r.call == id)
    ensures Possible(cfg, s, EventSteps(cfg, s.archive, e, id))
    ensures After(cfg, s, EventSteps(cfg, s.archive, e, id)).archive == RotationDisk.Handle(cfg, s.archive, e)
  {
    var x := if e.Arrive? then BeginIngest(id, e.r.ts) else BeginTick(id, e.now);
    var y := EnsureStep(id, e.outcome);
    AfterTwo(cfg, s, e, id);
    TwoSteps(cfg, s, x, y);
    var n := Next(cfg, Next(cfg, s, x), y);
    assert [x, y] + [] == [x, y];
    hide Ensure, Openable, Possible, After;
    if e.Arrive? && Openable(cfg, s.archive.writer, e.r.ts, e.outcome) {
      var z := if e.encoded then WriteStep(id, e.written) else EncodeFails(id);
      assert Enabled(n, z);
      assert e.encoded ==> Record(id, e.r.ts) == e.r;
      ThreeSteps(cfg, s, x, y, z);
      LastStep(cfg, n, e, id, z);
    }
    hide Next;
  }

  lemma {:induction false} LastStep(cfg: Config, n: System, e: RotationDisk.Event, id: nat, z: Step)
    requires e.Arrive? && id in n.calls && n.calls[id] == Ingest(e.r.ts, Ensured) && e.r.call == id
    requires z == if e.encoded then WriteStep(id, e.written) else EncodeFails(id)
    ensures Enabled(n, z) && Next(cfg, n, z).archive == if e.encoded then Write(n.archive, e.r, e.written).0 else n.archive
  {
    assert Record(id, e.r.ts) == e.r;
  }
}
