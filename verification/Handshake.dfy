/**
 Two speakers running `run_session` against each other over a connection that
 delivers messages in order (sections 4.2, 4.4 and 8.2.2 of RFC 4271).
 */
module Handshake {

  datatype Message = Open | KeepAlive | Update | Notification

  datatype Reason = ExpectedOpen | ExpectedKeepAlive | Notified | Broken

  /** Where a speaker is in `run_session`; `Announce(n)` still has `n` prefixes to send. */
  datatype Pc =
    | SendOpen
    | AwaitOpen
    | SendKeepAlive
    | AwaitKeepAlive
    | Announce(left: nat)
    | Loop
    | Over(reason: Reason)

  /** `sent` is everything written so far, `received` how much of the peer's has been read. */
  datatype Speaker = Speaker(prefixes: nat, pc: Pc, sent: seq<Message>, received: nat, established: bool)

  datatype Session = Session(a: Speaker, b: Speaker)

  datatype Side = A | B

  datatype Action = Write | Read | Break

  datatype Step = Step(side: Side, action: Action)

  function Me(s: Session, side: Side): Speaker {
    if side == A then s.a else s.b
  }

  function Other(side: Side): Side {
    if side == A then B else A
  }

  function Put(s: Session, side: Side, x: Speaker): Session {
    if side == A then s.(a := x) else s.(b := x)
  }

  function Begin(m: nat, n: nat): Session {
    Session(Speaker(m, SendOpen, [], 0, false), Speaker(n, SendOpen, [], 0, false))
  }

  predicate CanWrite(x: Speaker) {
    x.pc == SendOpen || x.pc == SendKeepAlive || x.pc.Announce? || x.pc == Loop
  }

  predicate CanRead(x: Speaker, peer: Speaker) {
    (x.pc == AwaitOpen || x.pc == AwaitKeepAlive || x.pc == Loop) && x.received < |peer.sent|
  }

  predicate Enabled(s: Session, step: Step) {
    var x := Me(s, step.side);
    match step.action
    case Write => CanWrite(x)
    case Read => CanRead(x, Me(s, Other(step.side)))
    case Break => !x.pc.Over?
  }

  /** In the loop a write is the keepalive of the timer; with no prefixes left, `Announce` enters the loop. */
  function AfterWrite(x: Speaker): Speaker
    requires CanWrite(x)
  {
    match x.pc
    case SendOpen => x.(sent := x.sent + [Open], pc := AwaitOpen)
    case SendKeepAlive => x.(sent := x.sent + [KeepAlive], pc := AwaitKeepAlive)
    case Announce(n) => if n == 0 then x.(pc := Loop) else x.(sent := x.sent + [Update], pc := Announce(n - 1))
    case Loop => x.(sent := x.sent + [KeepAlive])
  }

  /** In the loop every message but a notification is accepted, and no speaker here sends one. */
  function AfterRead(x: Speaker, peer: Speaker): Speaker
    requires CanRead(x, peer)
  {
    var m := peer.sent[x.received];
    var y := x.(received := x.received + 1);
    match x.pc
    case AwaitOpen => y.(pc := if m == Open then SendKeepAlive else Over(ExpectedOpen))
    case AwaitKeepAlive =>
      if m == KeepAlive then y.(pc := Announce(x.prefixes), established := true) else y.(pc := Over(ExpectedKeepAlive))
    case Loop => if m == Notification then y.(pc := Over(Notified)) else y
  }

  function Next(s: Session, step: Step): Session
    requires Enabled(s, step)
  {
    var x := Me(s, step.side);
    match step.action
    case Write => Put(s, step.side, AfterWrite(x))
    case Read => Put(s, step.side, AfterRead(x, Me(s, Other(step.side))))
    case Break => Put(s, step.side, x.(pc := Over(Broken)))
  }

  // ----- Safety

  /** Whatever a speaker has sent starts with OPEN, KEEPALIVE. */
  predicate Scripted(sent: seq<Message>) {
    (|sent| > 0 ==> sent[0] == Open) && (|sent| > 1 ==> sent[1] == KeepAlive)
  }

  /** How far each program counter implies the speaker has come. */
  predicate OnTrack(x: Speaker) {
    && Scripted(x.sent) && Notification !in x.sent
    && (|x.sent| > 1 ==> x.received >= 1)
    && (x.established ==> x.received >= 2)
    && match x.pc
       case SendOpen => |x.sent| == 0 && x.received == 0
       case AwaitOpen => |x.sent| == 1 && x.received == 0
       case SendKeepAlive => |x.sent| == 1 && x.received == 1
       case AwaitKeepAlive => |x.sent| == 2 && x.received == 1
       case Announce(_) => |x.sent| >= 2 && x.received >= 2 && x.established
       case Loop => |x.sent| >= 2 && x.received >= 2 && x.established
       case Over(reason) => reason == Broken
  }

  predicate Inv(s: Session) {
    && OnTrack(s.a) && OnTrack(s.b)
    && s.a.received <= |s.b.sent| && s.b.received <= |s.a.sent|
  }

  lemma {:induction false} WriteOnTrack(x: Speaker)
    requires OnTrack(x) && CanWrite(x)
    ensures OnTrack(AfterWrite(x))
    ensures AfterWrite(x).received == x.received && x.sent <= AfterWrite(x).sent
  {
  }

  lemma {:induction false} ReadOnTrack(x: Speaker, peer: Speaker)
    requires OnTrack(x) && OnTrack(peer) && CanRead(x, peer)
    ensures OnTrack(AfterRead(x, peer))
    ensures AfterRead(x, peer).received <= |peer.sent| && AfterRead(x, peer).sent == x.sent
  {
  }

  lemma {:induction false} StepKeeps(s: Session, step: Step)
    requires Inv(s) && Enabled(s, step)
    ensures Inv(Next(s, step))
  {
    var x, y := Me(s, step.side), Me(s, Other(step.side));
    match step.action
    case Write =>
      WriteOnTrack(x);
      hide OnTrack, AfterWrite;
    case Read =>
      ReadOnTrack(x, y);
      hide OnTrack, AfterRead;
    case Break =>
  }

  ghost predicate Possible(s: Session, steps: seq<Step>)
    decreases |steps|
  {
    steps == [] || (Enabled(s, steps[0]) && Possible(Next(s, steps[0]), steps[1..]))
  }

  ghost function After(s: Session, steps: seq<Step>): Session
    requires Possible(s, steps)
    decreases |steps|
  {
    if steps == [] then s else After(Next(s, steps[0]), steps[1..])
  }

  lemma {:induction false} RunKeeps(s: Session, steps: seq<Step>)
    requires Inv(s) && Possible(s, steps)
    ensures Inv(After(s, steps))
    decreases |steps|
  {
    if steps != [] {
      StepKeeps(s, steps[0]);
      RunKeeps(Next(s, steps[0]), steps[1..]);
    }
  }

  /**
   Against another focl speaker, in every run and whenever either connection
   breaks, neither "expected OPEN" nor "expected KEEPALIVE" is ever reported, and
   a speaker that became established did so after its peer read its OPEN.
   */
  lemma {:induction false} HandshakeIsSafe(m: nat, n: nat, steps: seq<Step>, side: Side)
    requires Possible(Begin(m, n), steps)
    ensures var s := After(Begin(m, n), steps);
            && Me(s, side).pc != Over(ExpectedOpen) && Me(s, side).pc != Over(ExpectedKeepAlive)
            && (Me(s, side).established ==> Me(s, side).sent != [] && Me(s, side).sent[0] == Open && Me(s, Other(side)).received >= 1)
  {
    RunKeeps(Begin(m, n), steps);
  }

  // ----- What a speaker says

  function Times(m: Message, k: nat): seq<Message> {
    seq(k, i => m)
  }

  /** The whole of what a speaker with `n` prefixes says, up to its `j`-th keepalive of the loop. */
  function Script(n: nat, j: nat): seq<Message> {
    [Open, KeepAlive] + Times(Update, n) + Times(KeepAlive, j)
  }

  /** At each place the speaker has said exactly what comes before it: OPEN, KEEPALIVE, one UPDATE for each prefix, keepalives. */
  ghost predicate Said(x: Speaker, n: nat) {
    match x.pc
    case SendOpen => x.sent == []
    case AwaitOpen => x.sent == [Open]
    case SendKeepAlive => x.sent == [Open]
    case AwaitKeepAlive => x.sent == [Open, KeepAlive]
    case Announce(left) => left <= n && x.sent == [Open, KeepAlive] + Times(Update, n - left)
    case Loop => exists j: nat :: x.sent == Script(n, j)
    case Over(_) => exists j: nat :: x.sent <= Script(n, j)
  }

  lemma {:induction false} TimesMore(m: Message, k: nat)
    ensures Times(m, k) + [m] == Times(m, k + 1)
  {
  }

  lemma {:induction false} ScriptMore(n: nat, j: nat)
    ensures Script(n, j) + [KeepAlive] == Script(n, j + 1)
    ensures Script(n, 0) == [Open, KeepAlive] + Times(Update, n)
  {
    TimesMore(KeepAlive, j);
    assert Times(KeepAlive, 0) == [];
    hide Times;
    assert Script(n, j) + [KeepAlive] == [Open, KeepAlive] + Times(Update, n) + (Times(KeepAlive, j) + [KeepAlive]);
    assert [Open, KeepAlive] + Times(Update, n) + [] == [Open, KeepAlive] + Times(Update, n);
  }

  lemma {:induction false} WriteSays(x: Speaker, n: nat)
    requires CanWrite(x) && Said(x, n)
    ensures Said(AfterWrite(x), n)
  {
    match x.pc
    case Announce(left) =>
      if left == 0 {
        ScriptMore(n, 0);
        assert AfterWrite(x).sent == Script(n, 0);
      } else {
        TimesMore(Update, n - left);
        assert [Open, KeepAlive] + Times(Update, n - left) + [Update] == [Open, KeepAlive] + (Times(Update, n - left) + [Update]);
      }
    case Loop =>
      var j: nat :| x.sent == Script(n, j);
      ScriptMore(n, j);
      assert AfterWrite(x).sent == Script(n, j + 1);
    case _ =>
  }

  lemma {:induction false} ReadSays(x: Speaker, peer: Speaker, n: nat)
    requires CanRead(x, peer) && Said(x, n) && x.prefixes == n
    ensures Said(AfterRead(x, peer), n)
  {
    var y := AfterRead(x, peer);
    if x.pc == AwaitKeepAlive {
      assert Times(Update, 0) == [];
      assert [Open, KeepAlive] <= Script(n, 0);
    } else if x.pc == AwaitOpen {
      assert [Open] <= Script(n, 0);
    }
  }

  lemma {:induction false} BreakSays(x: Speaker, n: nat)
    requires Said(x, n) && !x.pc.Over?
    ensures Said(x.(pc := Over(Broken)), n)
  {
    match x.pc
    case Announce(left) =>
      assert Times(Update, n) == Times(Update, n - left) + Times(Update, left);
      assert x.sent <= Script(n, 0);
    case Over(_) =>
    case Loop =>
    case SendOpen => assert x.sent <= Script(n, 0);
    case AwaitOpen => assert x.sent <= Script(n, 0);
    case SendKeepAlive => assert x.sent <= Script(n, 0);
    case AwaitKeepAlive => assert x.sent <= Script(n, 0);
  }

  ghost predicate BothSaid(s: Session, m: nat, n: nat) {
    Said(s.a, m) && Said(s.b, n) && s.a.prefixes == m && s.b.prefixes == n
  }

  lemma {:induction false} StepSays(s: Session, step: Step, m: nat, n: nat)
    requires Enabled(s, step) && BothSaid(s, m, n)
    ensures BothSaid(Next(s, step), m, n)
  {
    var x, k := Me(s, step.side), if step.side == A then m else n;
    match step.action
    case Write =>
      WriteSays(x, k);
      hide Said;
    case Read =>
      ReadSays(x, Me(s, Other(step.side)), k);
      hide Said;
    case Break =>
      BreakSays(x, k);
      hide Said;
  }

  lemma {:induction false} RunSays(s: Session, steps: seq<Step>, m: nat, n: nat)
    requires Possible(s, steps) && BothSaid(s, m, n)
    ensures BothSaid(After(s, steps), m, n)
    decreases |steps|
  {
    if steps != [] {
      StepSays(s, steps[0], m, n);
      hide BothSaid, Next;
      RunSays(Next(s, steps[0]), steps[1..], m, n);
    }
  }

  /** In every run both speakers have said what belongs to the place they are in; in the loop, every prefix has been announced once. */
  lemma {:induction false} EveryPrefixAnnounced(m: nat, n: nat, steps: seq<Step>)
    requires Possible(Begin(m, n), steps)
    ensures Said(After(Begin(m, n), steps).a, m) && Said(After(Begin(m, n), steps).b, n)
  {
    RunSays(Begin(m, n), steps, m, n);
  }

  // ----- Against any peer

  /** One speaker, whose peer has sent and will send `incoming`. */
  predicate CanAct(x: Speaker, incoming: seq<Message>, action: Action) {
    match action
    case Write => CanWrite(x)
    case Read => CanRead(x, Saying(incoming))
    case Break => !x.pc.Over?
  }

  function Saying(incoming: seq<Message>): Speaker {
    Speaker(0, Loop, incoming, 0, true)
  }

  function Acted(x: Speaker, incoming: seq<Message>, action: Action): Speaker
    requires CanAct(x, incoming, action)
  {
    match action
    case Write => AfterWrite(x)
    case Read => AfterRead(x, Saying(incoming))
    case Break => x.(pc := Over(Broken))
  }

  ghost predicate CanActAll(x: Speaker, incoming: seq<Message>, actions: seq<Action>)
    decreases |actions|
  {
    actions == [] || (CanAct(x, incoming, actions[0]) && CanActAll(Acted(x, incoming, actions[0]), incoming, actions[1..]))
  }

  ghost function ActedAll(x: Speaker, incoming: seq<Message>, actions: seq<Action>): Speaker
    requires CanActAll(x, incoming, actions)
    decreases |actions|
  {
    if actions == [] then x else ActedAll(Acted(x, incoming, actions[0]), incoming, actions[1..])
  }

  function Reads(actions: seq<Action>): nat {
    if actions == [] then 0 else (if actions[0] == Read then 1 else 0) + Reads(actions[1..])
  }

  /** What the speaker has concluded from the first `k` messages of the peer. */
  predicate Judges(x: Speaker, incoming: seq<Message>, k: nat) {
    && x.received == k <= |incoming|
    && (x.established <==> k >= 2 && incoming[0] == Open && incoming[1] == KeepAlive)
    && match x.pc
       case SendOpen => k == 0
       case AwaitOpen => k == 0
       case SendKeepAlive => k == 1 && incoming[0] == Open
       case AwaitKeepAlive => k == 1 && incoming[0] == Open
       case Announce(_) => k == 2 && x.established
       case Loop => k >= 2 && x.established && forall i :: 2 <= i < k ==> incoming[i] != Notification
       case Over(ExpectedOpen) => k == 1 && incoming[0] != Open
       case Over(ExpectedKeepAlive) => k == 2 && incoming[0] == Open && incoming[1] != KeepAlive
       case Over(Notified) => k > 2 && x.established && incoming[k - 1] == Notification && forall i :: 2 <= i < k - 1 ==> incoming[i] != Notification
       case Over(Broken) => true
  }

  lemma {:induction false} ActJudges(x: Speaker, incoming: seq<Message>, k: nat, action: Action)
    requires Judges(x, incoming, k) && CanAct(x, incoming, action)
    ensures Judges(Acted(x, incoming, action), incoming, if action == Read then k + 1 else k)
  {
  }

  lemma {:induction false} ActsJudge(x: Speaker, incoming: seq<Message>, k: nat, actions: seq<Action>)
    requires Judges(x, incoming, k) && CanActAll(x, incoming, actions)
    ensures Judges(ActedAll(x, incoming, actions), incoming, k + Reads(actions))
    decreases |actions|
  {
    if actions != [] {
      ActJudges(x, incoming, k, actions[0]);
      var n, m := Acted(x, incoming, actions[0]), if actions[0] == Read then k + 1 else k;
      ActsJudge(n, incoming, m, actions[1..]);
      hide Judges, Acted;
    }
  }

  /**
   Whatever the peer sends: after as many reads as `actions` has, the session is established exactly if the peer
   began with OPEN and KEEPALIVE, and it has ended for the reason its messages give, with the first that gives one.
   */
  lemma {:induction false} SpeakerJudgesPeer(prefixes: nat, incoming: seq<Message>, actions: seq<Action>)
    requires CanActAll(Begin(prefixes, 0).a, incoming, actions)
    ensures Judges(ActedAll(Begin(prefixes, 0).a, incoming, actions), incoming, Reads(actions))
  {
    ActsJudge(Begin(prefixes, 0).a, incoming, 0, actions);
  }

  // ----- Progress

  /** Handshake actions a speaker still has to take before it is established. */
  function Remaining(x: Speaker): nat {
    match x.pc
    case SendOpen => 4
    case AwaitOpen => 3
    case SendKeepAlive => 2
    case AwaitKeepAlive => 1
    case _ => 0
  }

  function ToGo(s: Session): nat {
    Remaining(s.a) + Remaining(s.b)
  }

  /** The step belongs to the handshake of its speaker. */
  predicate Advances(s: Session, step: Step) {
    step.action != Break && Remaining(Me(s, step.side)) > 0
  }

  predicate NoBreak(steps: seq<Step>) {
    forall i :: 0 <= i < |steps| ==> steps[i].action != Break
  }

  /** Without breaks, each handshake step brings establishment one step nearer and no other step moves it away. */
  lemma {:induction false} StepMeasure(s: Session, step: Step)
    requires Inv(s) && Enabled(s, step) && step.action != Break
    ensures ToGo(Next(s, step)) == ToGo(s) - (if Advances(s, step) then 1 else 0)
    ensures !s.a.pc.Over? && !s.b.pc.Over? ==> !Next(s, step).a.pc.Over? && !Next(s, step).b.pc.Over?
  {
    StepKeeps(s, step);
  }

  ghost function AdvanceCount(s: Session, steps: seq<Step>): nat
    requires Possible(s, steps)
    decreases |steps|
  {
    if steps == [] then 0
    else (if Advances(s, steps[0]) then 1 else 0) + AdvanceCount(Next(s, steps[0]), steps[1..])
  }

  lemma {:induction false} MeasureOverRun(s: Session, steps: seq<Step>)
    requires Inv(s) && Possible(s, steps) && NoBreak(steps) && !s.a.pc.Over? && !s.b.pc.Over?
    ensures AdvanceCount(s, steps) + ToGo(After(s, steps)) == ToGo(s)
    ensures !After(s, steps).a.pc.Over? && !After(s, steps).b.pc.Over?
    decreases |steps|
  {
    if steps != [] {
      StepMeasure(s, steps[0]);
      StepKeeps(s, steps[0]);
      MeasureOverRun(Next(s, steps[0]), steps[1..]);
    }
  }

  lemma {:induction false} SomeoneCanAdvance(s: Session) returns (step: Step)
    requires Inv(s) && !s.a.pc.Over? && !s.b.pc.Over? && !(s.a.established && s.b.established)
    ensures Enabled(s, step) && Advances(s, step)
  {
    if s.a.pc == SendOpen || s.a.pc == SendKeepAlive {
      step := Step(A, Write);
    } else if s.b.pc == SendOpen || s.b.pc == SendKeepAlive {
      step := Step(B, Write);
    } else if Remaining(s.a) > 0 && s.a.received < |s.b.sent| {
      step := Step(A, Read);
    } else {
      step := Step(B, Read);
    }
  }

  /** A handshake step that is possible stays possible until its own speaker moves. */
  lemma {:induction false} AdvanceStaysEnabled(s: Session, step: Step, other: Step)
    requires Inv(s) && Enabled(s, step) && Advances(s, step)
    requires Enabled(s, other) && other.side != step.side && other.action != Break
    ensures Enabled(Next(s, other), step) && Advances(Next(s, other), step)
  {
  }

  /**
   Without connection failure exactly eight handshake steps separate the start
   from both speakers being established, one is always possible until then, and
   when none is possible both are established.
   */
  lemma {:induction false} HandshakeCompletes(m: nat, n: nat, steps: seq<Step>)
    requires Possible(Begin(m, n), steps) && NoBreak(steps)
    ensures var s := After(Begin(m, n), steps);
            && AdvanceCount(Begin(m, n), steps) + ToGo(s) == 8
            && (ToGo(s) == 0 <==> s.a.established && s.b.established)
            && (ToGo(s) > 0 <==> exists step :: Enabled(s, step) && Advances(s, step))
  {
    RunKeeps(Begin(m, n), steps);
    MeasureOverRun(Begin(m, n), steps);
    var s := After(Begin(m, n), steps);
    if ToGo(s) > 0 {
      var step := SomeoneCanAdvance(s);
    }
  }

  // ----- Fair runs

  predicate CanAdvance(s: Session, side: Side) {
    Remaining(Me(s, side)) > 0 && (Enabled(s, Step(side, Write)) || Enabled(s, Step(side, Read)))
  }

  /** At some point of the run the speaker moves, or has no handshake step to take. */
  ghost predicate Served(s: Session, steps: seq<Step>, side: Side)
    requires Possible(s, steps)
    decreases |steps|
  {
    || !CanAdvance(s, side)
    || (steps != [] && (steps[0].side == side || Served(Next(s, steps[0]), steps[1..], side)))
  }

  lemma {:induction false} ServedAdvances(s: Session, steps: seq<Step>, side: Side)
    requires Inv(s) && !s.a.pc.Over? && !s.b.pc.Over?
    requires Possible(s, steps) && NoBreak(steps) && CanAdvance(s, side) && Served(s, steps, side)
    ensures AdvanceCount(s, steps) >= 1
    decreases |steps|
  {
    if steps[0].side != side {
      var step := if Enabled(s, Step(side, Write)) then Step(side, Write) else Step(side, Read);
      AdvanceStaysEnabled(s, step, steps[0]);
      StepKeeps(s, steps[0]);
      StepMeasure(s, steps[0]);
      hide Inv, Next, Enabled;
      ServedAdvances(Next(s, steps[0]), steps[1..], side);
    }
  }

  /** A run in rounds without breaks, each of which serves both speakers. */
  ghost predicate Fair(s: Session, rounds: seq<seq<Step>>)
    decreases |rounds|
  {
    rounds == [] ||
    (&& Possible(s, rounds[0]) && NoBreak(rounds[0]) && Served(s, rounds[0], A) && Served(s, rounds[0], B)
     && Fair(After(s, rounds[0]), rounds[1..]))
  }

  ghost function AfterRounds(s: Session, rounds: seq<seq<Step>>): Session
    requires Fair(s, rounds)
    decreases |rounds|
  {
    if rounds == [] then s else AfterRounds(After(s, rounds[0]), rounds[1..])
  }

  lemma {:induction false} RoundComesNearer(s: Session, steps: seq<Step>)
    requires Inv(s) && !s.a.pc.Over? && !s.b.pc.Over?
    requires Possible(s, steps) && NoBreak(steps) && Served(s, steps, A) && Served(s, steps, B)
    ensures Inv(After(s, steps)) && !After(s, steps).a.pc.Over? && !After(s, steps).b.pc.Over?
    ensures ToGo(After(s, steps)) < ToGo(s) || ToGo(s) == 0
    ensures ToGo(After(s, steps)) <= ToGo(s)
  {
    RunKeeps(s, steps);
    MeasureOverRun(s, steps);
    if ToGo(s) > 0 {
      var step := SomeoneCanAdvance(s);
      hide Possible, After, Served, NoBreak;
      assert CanAdvance(s, step.side);
      ServedAdvances(s, steps, step.side);
    }
  }

  lemma {:induction false} RoundsEstablish(s: Session, rounds: seq<seq<Step>>)
    requires Inv(s) && !s.a.pc.Over? && !s.b.pc.Over? && Fair(s, rounds) && ToGo(s) <= |rounds|
    ensures Inv(AfterRounds(s, rounds)) && ToGo(AfterRounds(s, rounds)) == 0
    ensures !AfterRounds(s, rounds).a.pc.Over? && !AfterRounds(s, rounds).b.pc.Over?
    decreases |rounds|
  {
    if rounds != [] {
      RoundComesNearer(s, rounds[0]);
      hide Inv, ToGo, Possible, After, Served, NoBreak;
      RoundsEstablish(After(s, rounds[0]), rounds[1..]);
    }
  }

  /** Without connection failure eight rounds that serve both speakers establish both, whatever else happens in them. */
  lemma {:induction false} FairRunEstablishes(m: nat, n: nat, rounds: seq<seq<Step>>)
    requires Fair(Begin(m, n), rounds) && |rounds| >= 8
    ensures AfterRounds(Begin(m, n), rounds).a.established && AfterRounds(Begin(m, n), rounds).b.established
  {
    hide Fair, AfterRounds;
    RoundsEstablish(Begin(m, n), rounds);
  }
}
