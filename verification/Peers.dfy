/** The peer table: starting peers, state reports of their loops, and concurrent resets. */
module Peers {
  import opened Common

  datatype PeerState = Idle | Connect | Active | OpenSent | OpenConfirm | Established

  datatype PeerConfig = PeerConfig(address: string, enabled: bool, retrySecs: nat)

  datatype Info = Info(state: PeerState, lastError: Option<string>, establishedAt: Option<int>)

  /** `loop` identifies the spawned peer loop. */
  datatype Runtime = Runtime(info: Info, cfg: PeerConfig, loop: nat)

  function FreshInfo(): Info {
    Info(Idle, None, None)
  }

  function EnabledAddresses(ps: seq<PeerConfig>): set<string> {
    set i | 0 <= i < |ps| && ps[i].enabled :: ps[i].address
  }

  /** No two enabled peers share an address. */
  ghost predicate UniqueAddresses(ps: seq<PeerConfig>) {
    forall i, j :: 0 <= i < j < |ps| && ps[i].enabled && ps[j].enabled ==> ps[i].address != ps[j].address
  }

  /** How a session ended: before it connected, during the handshake, or after it was established. */
  datatype SessionEnd = NoConnection(error: string) | NoHandshake(error: string) | Dropped(at: int, error: string)

  function Reported(info: Info, state: PeerState, error: Option<string>, at: Option<int>): Info {
    info.(state := state,
          lastError := if error.Some? then error else if state == Established then None else info.lastError,
          establishedAt := if at.Some? then at else info.establishedAt)
  }

  /** The states a peer loop reports in one round of connect, session and retry. */
  function Round(end: SessionEnd): seq<PeerState> {
    match end
    case NoConnection(_) => [Connect, Active]
    case NoHandshake(_) => [Connect, OpenSent, Active]
    case Dropped(_, _) => [Connect, OpenSent, Established, Active]
  }

  function Rounds(ends: seq<SessionEnd>): seq<PeerState> {
    if ends == [] then [] else Rounds(ends[..|ends| - 1]) + Round(ends[|ends| - 1])
  }

  class BgpService {
    var peers: map<string, Runtime>
    var spawned: nat
    var events: seq<(string, PeerState)>

    constructor ()
      ensures peers == map[] && spawned == 0 && events == []
    {
      peers, spawned, events := map[], 0, [];
    }

    /** Every enabled entry gets a loop; an address that occurs again replaces the entry, not the loop. */
    method StartPeers(ps: seq<PeerConfig>)
      requires peers == map[] && spawned == 0
      modifies this
      ensures peers.Keys == EnabledAddresses(ps)
      ensures peers == Started(ps).peers && spawned == Started(ps).nextLoop
      ensures events == old(events)
      ensures forall i: nat :: Latest(ps, i) ==>
                ps[i].address in peers && peers[ps[i].address] == Runtime(Info(Idle, None, None), ps[i], EnabledCount(ps[..i]))
    {
      for i := 0 to |ps|
        invariant peers.Keys == EnabledAddresses(ps[..i])
        invariant peers == Started(ps[..i]).peers && spawned == Started(ps[..i]).nextLoop
        invariant events == old(events)
      {
        assert ps[..i + 1][..i] == ps[..i];
        EnabledPush(ps, i);
        if ps[i].enabled {
          peers := peers[ps[i].address := Runtime(FreshInfo(), ps[i], spawned)];
          spawned := spawned + 1;
        }
      }
      assert ps[..|ps|] == ps;
      forall i: nat | Latest(ps, i)
        ensures ps[i].address in peers && peers[ps[i].address] == Runtime(Info(Idle, None, None), ps[i], EnabledCount(ps[..i]))
      {
        StartedSpelled(ps, i);
      }
    }

    /** A report for an address that is not in the table is dropped. */
    method SetPeerState(address: string, state: PeerState, error: Option<string>, at: Option<int>)
      modifies this
      ensures spawned == old(spawned) && peers.Keys == old(peers).Keys
      ensures forall a :: a in peers && a != address ==> peers[a] == old(peers)[a]
      ensures address in peers ==>
                && peers[address] == old(peers)[address].(info := Reported(old(peers)[address].info, state, error, at))
                && events == old(events) + [(address, state)]
      ensures address !in peers ==> events == old(events)
      ensures address in peers ==>
                var was, now := old(peers)[address], peers[address];
                && now.info.state == state && now.cfg == was.cfg && now.loop == was.loop
                && (error.Some? ==> now.info.lastError == error)
                && (error.None? && state == Established ==> now.info.lastError == None)
                && (error.None? && state != Established ==> now.info.lastError == was.info.lastError)
                && (at.Some? ==> now.info.establishedAt == at)
                && (at.None? ==> now.info.establishedAt == was.info.establishedAt)
    {
      if address in peers {
        var info := peers[address].info;
        var lastError := info.lastError;
        if error.Some? {
          lastError := error;
        } else if state == Established {
          lastError := None;
        }
        peers := peers[address := peers[address].(info := info.(state := state, lastError := lastError,
                                                  establishedAt := if at.Some? then at else info.establishedAt))];
        events := events + [(address, state)];
      }
    }

    /** One round of `peer_loop` with its session. */
    method RunRound(address: string, end: SessionEnd)
      modifies this
      ensures spawned == old(spawned) && peers.Keys == old(peers).Keys
      ensures forall a :: a in peers && a != address ==> peers[a] == old(peers)[a]
      ensures address in peers ==>
                && peers[address].info.state == Active && peers[address].info.lastError == Some(end.error)
                && peers[address].cfg == old(peers)[address].cfg && peers[address].loop == old(peers)[address].loop
                && peers[address].info.establishedAt == (if end.Dropped? then Some(end.at) else old(peers)[address].info.establishedAt)
      ensures events == old(events) + (if address in peers then Tagged(address, Round(end)) else [])
      ensures address in peers ==>
                && (end.NoConnection? ==> events == old(events) + [(address, Connect), (address, Active)])
                && (end.NoHandshake? ==> events == old(events) + [(address, Connect), (address, OpenSent), (address, Active)])
                && (end.Dropped? ==>
                      events == old(events) + [(address, Connect), (address, OpenSent), (address, Established), (address, Active)])
    {
      SetPeerState(address, Connect, None, None);
      if !end.NoConnection? {
        SetPeerState(address, OpenSent, None, None);
        if end.Dropped? {
          SetPeerState(address, Established, None, Some(end.at));
        }
      }
      SetPeerState(address, Active, Some(end.error), None);
    }

    /** `peer_loop` for the given sessions. */
    method PeerLoop(address: string, ends: seq<SessionEnd>)
      modifies this
      ensures peers.Keys == old(peers).Keys && forall a :: a in peers && a != address ==> peers[a] == old(peers)[a]
      ensures events == old(events) + (if address in peers then Tagged(address, Rounds(ends)) else [])
    {
      assert Tagged(address, Rounds([])) == [];
      hide Rounds, Round, Tagged;
      assert ends[..0] == [];
      for i := 0 to |ends|
        invariant peers.Keys == old(peers).Keys && forall a :: a in peers && a != address ==> peers[a] == old(peers)[a]
        invariant events == old(events) + (if address in peers then Tagged(address, Rounds(ends[..i])) else [])
      {
        TaggedTake(address, ends, i, old(events));
        RunRound(address, ends[i]);
      }
      assert ends[..|ends|] == ends;
    }
  }

  function Tagged(address: string, ss: seq<PeerState>): seq<(string, PeerState)> {
    seq(|ss|, i requires 0 <= i < |ss| => (address, ss[i]))
  }

  lemma {:induction false} RoundsTake(ends: seq<SessionEnd>, i: nat)
    requires i < |ends|
    ensures Rounds(ends[..i + 1]) == Rounds(ends[..i]) + Round(ends[i])
  {
    assert ends[..i + 1][..i] == ends[..i];
  }

  lemma {:induction false} TaggedTake(address: string, ends: seq<SessionEnd>, i: nat, before: seq<(string, PeerState)>)
    requires i < |ends|
    ensures before + Tagged(address, Rounds(ends[..i + 1])) == before + Tagged(address, Rounds(ends[..i])) + Tagged(address, Round(ends[i]))
  {
    RoundsTake(ends, i);
    hide *;
    TaggedConcat(address, Rounds(ends[..i]), Round(ends[i]));
  }

  lemma {:induction false} TaggedConcat(address: string, a: seq<PeerState>, b: seq<PeerState>)
    ensures Tagged(address, a + b) == Tagged(address, a) + Tagged(address, b)
  {
  }

  lemma {:induction false} EnabledPush(ps: seq<PeerConfig>, i: nat)
    requires i < |ps|
    ensures EnabledAddresses(ps[..i + 1]) == EnabledAddresses(ps[..i]) + (if ps[i].enabled then {ps[i].address} else {})
  {
    var qs := ps[..i + 1];
    assert qs[i] == ps[i];
    assert forall j :: 0 <= j < i ==> qs[j] == ps[..i][j];
    assert EnabledAddresses(qs) == EnabledAddresses(ps[..i]) + (if ps[i].enabled then {ps[i].address} else {});
  }

  // ----- The reports of a loop stopped at any point

  /** The state reports of a round in progress. */
  predicate RoundBegun(p: seq<PeerState>) {
    p == [] || p == [Connect] || p == [Connect, OpenSent] || p == [Connect, OpenSent, Established]
  }

  lemma {:induction false} PrefixOfRound(end: SessionEnd, k: nat)
    requires k < |Round(end)|
    ensures RoundBegun(Round(end)[..k])
  {
  }

  /** Wherever the loop is stopped, its reports are complete rounds followed by a round in progress. */
  lemma {:induction false} ReportsFollowRounds(ends: seq<SessionEnd>, k: nat) returns (done: nat, part: seq<PeerState>)
    requires k <= |Rounds(ends)|
    ensures done <= |ends| && RoundBegun(part) && Rounds(ends)[..k] == Rounds(ends[..done]) + part
  {
    if ends == [] {
      done, part := 0, [];
    } else {
      var n := |ends| - 1;
      var before, last := Rounds(ends[..n]), Round(ends[n]);
      if k <= |before| {
        done, part := ReportsFollowRounds(ends[..n], k);
        assert Rounds(ends)[..k] == before[..k];
        assert ends[..n][..done] == ends[..done];
      } else if k == |before + last| {
        done, part := n + 1, [];
        assert ends[..n + 1] == ends;
        assert Rounds(ends)[..k] == Rounds(ends);
      } else {
        done, part := n, last[..k - |before|];
        PrefixOfRound(ends[n], k - |before|);
        assert (before + last)[..k] == before + last[..k - |before|];
      }
    }
  }

  // ----- Concurrent resets

  /** A reset in flight: the entry is out of the table; `newLoop` is its new loop once spawned. */
  datatype Reset = Reset(address: string, cfg: PeerConfig, newLoop: Option<nat>)

  /** What a peer loop has last reported in its present round. */
  datatype Pc = Top | Connecting | Opening | Up

  /** `log` is everything the loop has reported, whether or not the table took it. */
  datatype Loop = Loop(address: string, pc: Pc, log: seq<PeerState>)

  /** `alive` are the loops that no reset has stopped; a stopped one may run on for a while in `loops`. */
  datatype System = System(peers: map<string, Runtime>, resets: map<nat, Reset>, loops: map<nat, Loop>, alive: set<nat>, nextLoop: nat)

  /** How the next part of a round goes. */
  datatype Turn = Proceed(at: int) | Fail(error: string)

  /** Steps of `peer_reset` calls and of peer loops, in any order. */
  datatype Step =
    | Remove(call: nat, address: string)
    | Spawn(call: nat)
    | Insert(call: nat)
    | Act(loop: nat, turn: Turn)
    | Stop(loop: nat)

  predicate Possible(s: System, step: Step) {
    match step
    case Remove(c, _) => c !in s.resets
    case Spawn(c) => c in s.resets && s.resets[c].newLoop.None?
    case Insert(c) => c in s.resets && s.resets[c].newLoop.Some?
    case Act(l, turn) => l in s.loops && (s.loops[l].pc == Top ==> turn.Proceed?) && (s.loops[l].pc == Up ==> turn.Fail?)
    case Stop(l) => l in s.loops && l !in s.alive
  }

  /** The state a loop reports next, and where it then is. */
  function NextReport(pc: Pc, turn: Turn): (PeerState, Pc) {
    if turn.Fail? then (Active, Top)
    else
      match pc
      case Top => (Connect, Connecting)
      case Connecting => (OpenSent, Opening)
      case _ => (Established, Up)
  }

  function AfterAct(loop: Loop, turn: Turn): Loop {
    var (state, pc) := NextReport(loop.pc, turn);
    Loop(loop.address, pc, loop.log + [state])
  }

  /** A report for an address that is not in the table is dropped. */
  function Show(peers: map<string, Runtime>, a: string, state: PeerState, turn: Turn): map<string, Runtime> {
    if a !in peers then peers
    else
      var error := if turn.Fail? then Some(turn.error) else None;
      var at := if state == Established && turn.Proceed? then Some(turn.at) else None;
      peers[a := peers[a].(info := Reported(peers[a].info, state, error, at))]
  }

  /** A report changes nothing but what an entry shows. */
  lemma {:induction false} ShowKeeps(peers: map<string, Runtime>, a: string, state: PeerState, turn: Turn)
    ensures Show(peers, a, state, turn).Keys == peers.Keys
    ensures forall b :: b in peers ==> Show(peers, a, state, turn)[b].cfg == peers[b].cfg && Show(peers, a, state, turn)[b].loop == peers[b].loop
  {
  }

  lemma {:induction false} ActKeeps(s: System, step: Step)
    requires Possible(s, step) && step.Act?
    ensures var n := Next(s, step);
            && n.resets == s.resets && n.alive == s.alive && n.nextLoop == s.nextLoop && n.peers.Keys == s.peers.Keys
            && (forall b :: b in s.peers ==> n.peers[b].cfg == s.peers[b].cfg && n.peers[b].loop == s.peers[b].loop)
            && n.loops.Keys == s.loops.Keys && forall l :: l in s.loops ==> n.loops[l].address == s.loops[l].address
  {
    ShowKeeps(s.peers, s.loops[step.loop].address, NextReport(s.loops[step.loop].pc, step.turn).0, step.turn);
    hide Show, NextReport;
  }

  /** What the entry of a loop that acts shows, and what the loop has reported then. */
  lemma {:induction false} ActSpelled(s: System, l: nat, turn: Turn)
    requires Possible(s, Act(l, turn)) && s.loops[l].address in s.peers
    ensures var a := s.loops[l].address;
            var n := Next(s, Act(l, turn));
            a in n.peers && l in n.loops &&
            (var was, now := s.peers[a].info, n.peers[a].info;
             && n.loops[l].log == s.loops[l].log + [now.state]
             && (turn.Fail? ==> now == Info(Active, Some(turn.error), was.establishedAt) && n.loops[l].pc == Top)
             && (turn.Proceed? && s.loops[l].pc == Top ==> now == Info(Connect, was.lastError, was.establishedAt))
             && (turn.Proceed? && s.loops[l].pc == Connecting ==> now == Info(OpenSent, was.lastError, was.establishedAt))
             && (turn.Proceed? && s.loops[l].pc == Opening ==> now == Info(Established, None, Some(turn.at))))
  {
  }

  /** Removing an unknown address is the error "peer not found" and changes nothing. */
  function Next(s: System, step: Step): System
    requires Possible(s, step)
  {
    match step
    case Remove(c, a) =>
      if a !in s.peers then s
      else s.(peers := s.peers - {a}, resets := s.resets[c := Reset(a, s.peers[a].cfg, None)], alive := s.alive - {s.peers[a].loop})
    case Spawn(c) =>
      s.(resets := s.resets[c := s.resets[c].(newLoop := Some(s.nextLoop))],
         loops := s.loops[s.nextLoop := Loop(s.resets[c].address, Top, [])],
         alive := s.alive + {s.nextLoop}, nextLoop := s.nextLoop + 1)
    case Insert(c) =>
      var r := s.resets[c];
      s.(peers := s.peers[r.address := Runtime(FreshInfo(), r.cfg, r.newLoop.value)], resets := s.resets - {c})
    case Act(l, turn) =>
      var loop := s.loops[l];
      s.(peers := Show(s.peers, loop.address, NextReport(loop.pc, turn).0, turn), loops := s.loops[l := AfterAct(loop, turn)])
    case Stop(l) => s.(loops := s.loops - {l})
  }

  /** Every configured peer is in the table or in exactly one reset, with its configuration unchanged. */
  ghost predicate Partitioned(s: System, configured: map<string, PeerConfig>) {
    SameConfigs(s, configured) && Apart(s) && Covered(s, configured)
  }

  ghost predicate Apart(s: System) {
    && (forall c :: c in s.resets ==> s.resets[c].address !in s.peers)
    && (forall c, d :: c in s.resets && d in s.resets && s.resets[c].address == s.resets[d].address ==> c == d)
  }

  ghost predicate SameConfigs(s: System, configured: map<string, PeerConfig>) {
    && (forall a :: a in s.peers ==> a in configured && s.peers[a].cfg == configured[a])
    && (forall c :: c in s.resets ==> s.resets[c].address in configured && s.resets[c].cfg == configured[s.resets[c].address])
  }

  ghost predicate Covered(s: System, configured: map<string, PeerConfig>) {
    forall a :: a in configured && a !in s.peers ==> exists c :: c in s.resets && s.resets[c].address == a
  }

  /** The table and the spawned resets refer to running loops, no two to the same one. */
  ghost predicate DistinctLoops(s: System) {
    && (forall a :: a in s.peers ==> s.peers[a].loop in s.alive)
    && (forall c :: c in s.resets && s.resets[c].newLoop.Some? ==> s.resets[c].newLoop.value in s.alive)
    && (forall a, b :: a in s.peers && b in s.peers && s.peers[a].loop == s.peers[b].loop ==> a == b)
    && (forall a, c :: a in s.peers && c in s.resets && s.resets[c].newLoop.Some? ==> s.resets[c].newLoop.value != s.peers[a].loop)
    && (forall c, d :: c in s.resets && d in s.resets && s.resets[c].newLoop.Some? && s.resets[c].newLoop == s.resets[d].newLoop ==> c == d)
    && (forall l :: l in s.alive ==> l < s.nextLoop)
  }

  ghost predicate Held(s: System, l: nat) {
    (exists a :: a in s.peers && s.peers[a].loop == l) || (exists c :: c in s.resets && s.resets[c].newLoop == Some(l))
  }

  /** Every running loop can still be stopped through the table or a reset. */
  ghost predicate NoStrayLoop(s: System) {
    forall l :: l in s.alive ==> Held(s, l)
  }

  lemma {:induction false} StepKeepsPartition(s: System, configured: map<string, PeerConfig>, step: Step)
    requires Partitioned(s, configured) && Possible(s, step)
    ensures Partitioned(Next(s, step), configured)
  {
    hide Next, Apart, Covered, SameConfigs;
    StepKeepsCovered(s, configured, step);
    StepKeepsConfigs(s, configured, step);
    StepKeepsApart(s, step);
  }

  lemma {:induction false} StepKeepsApart(s: System, step: Step)
    requires Apart(s) && Possible(s, step)
    ensures Apart(Next(s, step))
  {
    if step.Act? {
      ActKeeps(s, step);
      hide Next;
    }
    hide Show, AfterAct;
  }

  lemma {:induction false} StepKeepsConfigs(s: System, configured: map<string, PeerConfig>, step: Step)
    requires SameConfigs(s, configured) && Possible(s, step)
    ensures SameConfigs(Next(s, step), configured)
  {
  }

  lemma {:induction false} StepKeepsCovered(s: System, configured: map<string, PeerConfig>, step: Step)
    requires Covered(s, configured) && Possible(s, step)
    ensures Covered(Next(s, step), configured)
  {
    var n := Next(s, step);
    forall a | a in configured && a !in n.peers
      ensures exists c :: c in n.resets && n.resets[c].address == a
    {
      if step.Remove? && a in s.peers {
        assert n.resets[step.call].address == a;
      } else {
        var c :| c in s.resets && s.resets[c].address == a;
        assert c in n.resets && n.resets[c].address == a;
      }
    }
  }

  lemma {:induction false} StepKeepsDistinct(s: System, step: Step)
    requires DistinctLoops(s) && Possible(s, step)
    requires step.Insert? ==> s.resets[step.call].address !in s.peers
    ensures DistinctLoops(Next(s, step))
  {
    if step.Act? {
      ActKeeps(s, step);
      hide Next;
    }
    hide Show, AfterAct;
  }

  /** A table entry's loop runs under its address, and so does the loop of a reset. */
  ghost predicate OwnLoops(s: System) {
    && (forall a :: a in s.peers ==> s.peers[a].loop in s.loops && s.loops[s.peers[a].loop].address == a)
    && (forall c :: c in s.resets && s.resets[c].newLoop.Some? ==>
          s.resets[c].newLoop.value in s.loops && s.loops[s.resets[c].newLoop.value].address == s.resets[c].address)
    && (forall l :: l in s.loops ==> l < s.nextLoop)
  }

  lemma {:induction false} StepKeepsOwn(s: System, step: Step)
    requires DistinctLoops(s) && OwnLoops(s) && Possible(s, step)
    ensures OwnLoops(Next(s, step))
  {
    if step.Act? {
      ActKeeps(s, step);
      hide Next;
    }
    hide Show, AfterAct;
  }

  lemma {:induction false} StepKeepsHeld(s: System, step: Step, l: nat)
    requires Possible(s, step) && Held(s, l) && l in Next(s, step).alive
    requires step.Insert? ==> s.resets[step.call].address !in s.peers
    ensures Held(Next(s, step), l)
  {
    var n := Next(s, step);
    if exists a :: a in s.peers && s.peers[a].loop == l {
      var a :| a in s.peers && s.peers[a].loop == l;
      assert a in n.peers && n.peers[a].loop == l;
    } else {
      var c :| c in s.resets && s.resets[c].newLoop == Some(l);
      if step.Insert? && c == step.call {
        assert n.peers[s.resets[c].address].loop == l;
      } else {
        assert c in n.resets && n.resets[c].newLoop == Some(l);
      }
    }
  }

  lemma {:induction false} StepStraysNoLoop(s: System, step: Step)
    requires Possible(s, step) && NoStrayLoop(s)
    requires step.Insert? ==> s.resets[step.call].address !in s.peers
    ensures NoStrayLoop(Next(s, step))
  {
    var n := Next(s, step);
    forall l | l in n.alive
      ensures Held(n, l)
    {
      if step.Spawn? && l == s.nextLoop {
        assert n.resets[step.call].newLoop == Some(l);
      } else {
        StepKeepsHeld(s, step, l);
      }
    }
  }

  // ----- The table after start-up

  /** The table, loops and next loop number after the peers of `ps` are started in order. */
  function Started(ps: seq<PeerConfig>): (s: System)
    ensures s.resets == map[]
  {
    if ps == [] then System(map[], map[], map[], {}, 0)
    else
      var s, p := Started(ps[..|ps| - 1]), ps[|ps| - 1];
      if p.enabled then
        System(s.peers[p.address := Runtime(FreshInfo(), p, s.nextLoop)], map[],
               s.loops[s.nextLoop := Loop(p.address, Top, [])], s.alive + {s.nextLoop}, s.nextLoop + 1)
      else s
  }

  lemma {:induction false} StartedDistinct(ps: seq<PeerConfig>)
    ensures DistinctLoops(Started(ps)) && OwnLoops(Started(ps)) && Started(ps).peers.Keys == EnabledAddresses(ps)
  {
    if ps == [] {
      assert EnabledAddresses(ps) == {};
    } else {
      var n := |ps| - 1;
      StartedDistinct(ps[..n]);
      EnabledPush(ps, n);
      assert ps[..n + 1] == ps;
      if ps[n].enabled {
        StartPush(Started(ps[..n]), ps[n], Started(ps));
      }
      hide EnabledAddresses, DistinctLoops, OwnLoops;
    }
  }

  function EnabledCount(ps: seq<PeerConfig>): nat {
    if ps == [] then 0 else EnabledCount(ps[..|ps| - 1]) + (if ps[|ps| - 1].enabled then 1 else 0)
  }

  /** Entry `i` is enabled and no later enabled entry has its address. */
  predicate Latest(ps: seq<PeerConfig>, i: nat) {
    i < |ps| && ps[i].enabled && forall j :: i < j < |ps| && ps[j].enabled ==> ps[j].address != ps[i].address
  }

  /** The table after start-up: the last enabled entry of an address stands, idle, with the loop spawned for it. */
  lemma {:induction false} StartedSpelled(ps: seq<PeerConfig>, i: nat)
    requires Latest(ps, i)
    ensures Started(ps).nextLoop == EnabledCount(ps)
    ensures ps[i].address in Started(ps).peers
    ensures Started(ps).peers[ps[i].address] == Runtime(Info(Idle, None, None), ps[i], EnabledCount(ps[..i]))
  {
    var n := |ps| - 1;
    StartedCount(ps);
    StartedCount(ps[..n]);
    if i < n {
      assert Latest(ps[..n], i) by {
        assert forall j :: 0 <= j < n ==> ps[..n][j] == ps[j];
      }
      StartedSpelled(ps[..n], i);
      assert ps[..n][..i] == ps[..i];
    }
  }

  lemma {:induction false} StartedCount(ps: seq<PeerConfig>)
    ensures Started(ps).nextLoop == EnabledCount(ps)
  {
    if ps != [] {
      StartedCount(ps[..|ps| - 1]);
    }
  }

  lemma {:induction false} StartPush(s: System, p: PeerConfig, t: System)
    requires DistinctLoops(s) && OwnLoops(s) && s.resets == map[]
    requires t == System(s.peers[p.address := Runtime(FreshInfo(), p, s.nextLoop)], map[],
                         s.loops[s.nextLoop := Loop(p.address, Top, [])], s.alive + {s.nextLoop}, s.nextLoop + 1)
    ensures DistinctLoops(t) && OwnLoops(t) && t.peers.Keys == s.peers.Keys + {p.address}
  {
  }

  /** After start-up every running loop is reachable through the table exactly when no address is enabled twice. */
  lemma {:induction false} NoStrayLoopIffUnique(ps: seq<PeerConfig>)
    ensures NoStrayLoop(Started(ps)) <==> UniqueAddresses(ps)
  {
    if ps != [] {
      var n := |ps| - 1;
      var p, s := ps[n], Started(ps[..n]);
      NoStrayLoopIffUnique(ps[..n]);
      StartedDistinct(ps[..n]);
      UniquePush(ps, n);
      if p.enabled {
        NoStrayPush(s, p, Started(ps));
      }
      hide EnabledAddresses, UniqueAddresses, NoStrayLoop, DistinctLoops;
    }
  }

  lemma {:induction false} NoStrayPush(s: System, p: PeerConfig, t: System)
    requires DistinctLoops(s) && s.resets == map[]
    requires t.peers == s.peers[p.address := Runtime(FreshInfo(), p, s.nextLoop)] && t.resets == map[]
    requires t.alive == s.alive + {s.nextLoop} && t.nextLoop == s.nextLoop + 1
    ensures NoStrayLoop(t) <==> NoStrayLoop(s) && p.address !in s.peers
  {
    assert t.peers[p.address].loop == s.nextLoop;
    if NoStrayLoop(s) && p.address !in s.peers {
      forall l | l in t.alive
        ensures Held(t, l)
      {
        if l != s.nextLoop {
          var a :| a in s.peers && s.peers[a].loop == l;
          assert t.peers[a].loop == l;
        }
      }
    }
    if NoStrayLoop(t) {
      HeldBefore(s, p, t);
    }
  }

  lemma {:induction false} HeldBefore(s: System, p: PeerConfig, t: System)
    requires DistinctLoops(s) && s.resets == map[]
    requires t.peers == s.peers[p.address := Runtime(FreshInfo(), p, s.nextLoop)] && t.resets == map[]
    requires t.alive == s.alive + {s.nextLoop} && t.nextLoop == s.nextLoop + 1
    requires NoStrayLoop(t)
    ensures NoStrayLoop(s) && p.address !in s.peers
  {
    forall l | l in s.alive
      ensures exists a :: a in s.peers && a != p.address && s.peers[a].loop == l
    {
      assert Held(t, l);
      var a :| a in t.peers && t.peers[a].loop == l;
      assert a in s.peers && a != p.address && s.peers[a].loop == l;
    }
  }

  lemma {:induction false} UniquePush(ps: seq<PeerConfig>, n: nat)
    requires |ps| == n + 1
    ensures UniqueAddresses(ps) <==> UniqueAddresses(ps[..n]) && (ps[n].enabled ==> ps[n].address !in EnabledAddresses(ps[..n]))
  {
    assert forall i :: 0 <= i < n ==> ps[..n][i] == ps[i];
  }

  // ----- What the loops report

  /** The reports of a round that has come to `pc`. */
  function Begun(pc: Pc): seq<PeerState> {
    match pc
    case Top => []
    case Connecting => [Connect]
    case Opening => [Connect, OpenSent]
    case Up => [Connect, OpenSent, Established]
  }

  ghost predicate Follows(log: seq<PeerState>, ends: seq<SessionEnd>, pc: Pc) {
    log == Rounds(ends) + Begun(pc)
  }

  /** The loop has reported whole rounds, then the beginning of one. */
  ghost predicate InRounds(loop: Loop) {
    exists ends :: Follows(loop.log, ends, loop.pc)
  }

  ghost predicate LoopsInRounds(s: System) {
    forall l :: l in s.loops ==> InRounds(s.loops[l])
  }

  /** A loop's next report continues its round or ends it. */
  lemma {:induction false} ActFollows(loop: Loop, turn: Turn)
    requires InRounds(loop) && (loop.pc == Top ==> turn.Proceed?) && (loop.pc == Up ==> turn.Fail?)
    ensures InRounds(AfterAct(loop, turn))
  {
    hide Rounds, Round;
    var ends :| Follows(loop.log, ends, loop.pc);
    if turn.Proceed? {
      assert Follows(AfterAct(loop, turn).log, ends, AfterAct(loop, turn).pc);
    } else {
      FailFollows(loop.log, ends, loop.pc, turn.error);
      hide Follows;
      assert Follows(AfterAct(loop, turn).log, ends + [EndOf(loop.pc, turn.error)], Top);
    }
  }

  lemma {:induction false} FailFollows(log: seq<PeerState>, ends: seq<SessionEnd>, pc: Pc, error: string)
    requires Follows(log, ends, pc) && pc != Top
    ensures Follows(log + [Active], ends + [EndOf(pc, error)], Top)
  {
    var end := EndOf(pc, error);
    RoundsPush(ends, end);
    EndClosesRound(pc, error);
    hide Rounds, Round, Begun, EndOf;
    assert Rounds(ends) + (Begun(pc) + [Active]) == Rounds(ends) + Begun(pc) + [Active];
  }

  /** How a session that fails at `pc` has ended. */
  function EndOf(pc: Pc, error: string): SessionEnd {
    match pc
    case Opening => NoHandshake(error)
    case Up => Dropped(0, error)
    case _ => NoConnection(error)
  }

  lemma {:induction false} EndClosesRound(pc: Pc, error: string)
    requires pc != Top
    ensures Begun(pc) + [Active] == Round(EndOf(pc, error))
  {
  }

  lemma {:induction false} RoundsPush(ends: seq<SessionEnd>, end: SessionEnd)
    ensures Rounds(ends + [end]) + Begun(Top) == Rounds(ends) + Round(end)
  {
    var more := ends + [end];
    assert more[..|ends|] == ends && more[|ends|] == end;
  }

  lemma {:induction false} StepKeepsRounds(s: System, step: Step)
    requires Possible(s, step) && LoopsInRounds(s)
    ensures LoopsInRounds(Next(s, step))
  {
    FreshInRounds(if step.Spawn? then s.resets[step.call].address else "");
    if step.Act? {
      ActFollows(s.loops[step.loop], step.turn);
    }
    hide InRounds, AfterAct, Show, NextReport;
  }

  lemma {:induction false} FreshInRounds(address: string)
    ensures InRounds(Loop(address, Top, []))
  {
    assert Follows([], [], Top);
  }

  lemma {:induction false} StartedInRounds(ps: seq<PeerConfig>)
    ensures LoopsInRounds(Started(ps))
  {
    if ps != [] {
      StartedInRounds(ps[..|ps| - 1]);
      FreshInRounds(ps[|ps| - 1].address);
      hide InRounds;
    }
  }

  /** In every run of overlapping resets, every loop, stopped or not, has reported whole rounds and the beginning of one. */
  lemma {:induction false} RunKeepsRounds(s: System, steps: seq<Step>)
    requires LoopsInRounds(s) && Run(s, steps)
    ensures LoopsInRounds(After(s, steps))
    decreases |steps|
  {
    if steps != [] {
      StepKeepsRounds(s, steps[0]);
      hide LoopsInRounds, Next;
      RunKeepsRounds(Next(s, steps[0]), steps[1..]);
    }
  }

  lemma {:induction false} LoopsReportRounds(ps: seq<PeerConfig>, steps: seq<Step>, l: nat)
    requires Run(Started(ps), steps) && l in After(Started(ps), steps).loops
    ensures exists ends :: After(Started(ps), steps).loops[l].log == Rounds(ends) + Begun(After(Started(ps), steps).loops[l].pc)
  {
    StartedInRounds(ps);
    RunKeepsRounds(Started(ps), steps);
    hide Run, After, Started;
    assert InRounds(After(Started(ps), steps).loops[l]);
    var ends :| Follows(After(Started(ps), steps).loops[l].log, ends, After(Started(ps), steps).loops[l].pc);
  }

  // ----- Whole runs

  ghost predicate Run(s: System, steps: seq<Step>)
    decreases |steps|
  {
    steps == [] || (Possible(s, steps[0]) && Run(Next(s, steps[0]), steps[1..]))
  }

  ghost function After(s: System, steps: seq<Step>): System
    requires Run(s, steps)
    decreases |steps|
  {
    if steps == [] then s else After(Next(s, steps[0]), steps[1..])
  }

  /** However many resets overlap, no peer is lost or run twice, and its configuration survives. */
  lemma {:induction false} ResetsKeepPeers(s: System, configured: map<string, PeerConfig>, steps: seq<Step>)
    requires Partitioned(s, configured) && DistinctLoops(s) && NoStrayLoop(s) && OwnLoops(s) && Run(s, steps)
    ensures Partitioned(After(s, steps), configured)
    ensures DistinctLoops(After(s, steps)) && NoStrayLoop(After(s, steps)) && OwnLoops(After(s, steps))
    decreases |steps|
  {
    if steps != [] {
      StepKeepsPartition(s, configured, steps[0]);
      StepKeepsDistinct(s, steps[0]);
      StepStraysNoLoop(s, steps[0]);
      StepKeepsOwn(s, steps[0]);
      hide Partitioned, DistinctLoops, NoStrayLoop, OwnLoops, Next;
      ResetsKeepPeers(Next(s, steps[0]), configured, steps[1..]);
    }
  }

  function Configured(ps: seq<PeerConfig>): map<string, PeerConfig> {
    var t := Started(ps).peers;
    map a | a in t :: t[a].cfg
  }

  /** From start-up with distinct addresses: at every point of every run the table and the resets share out the enabled peers. */
  lemma {:induction false} PeersNeverLost(ps: seq<PeerConfig>, steps: seq<Step>)
    requires UniqueAddresses(ps) && Run(Started(ps), steps)
    ensures Configured(ps).Keys == EnabledAddresses(ps)
    ensures Partitioned(After(Started(ps), steps), Configured(ps))
    ensures DistinctLoops(After(Started(ps), steps)) && NoStrayLoop(After(Started(ps), steps)) && OwnLoops(After(Started(ps), steps))
  {
    StartedDistinct(ps);
    NoStrayLoopIffUnique(ps);
    assert Partitioned(Started(ps), Configured(ps));
    ResetsKeepPeers(Started(ps), Configured(ps), steps);
  }
}
