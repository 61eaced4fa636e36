/**
 The keepalive and hold timers of the established session loop (sections 4.2 and
 4.4 of RFC 4271). Instants are reals; each turn of the loop is given by the
 instant it reads at the top, whether a write succeeds, how its read ends, and the
 instant just after.
 */
module HoldTimer {

  datatype ReadEnd = Heard | TimedOut | Notified | Broken

  /** `wrote` tells whether a keepalive due in this turn can be written. */
  datatype Turn = Turn(now: real, wrote: bool, read: ReadEnd, ended: real)

  /** `first` and `second` are the two instants read before the loop, for keepalive and hold. */
  datatype Setup = Setup(configured: nat, first: real, second: real)

  datatype Timers = Timers(nextKeepalive: real, deadline: real)

  datatype End = Running | WriteFailed | HoldExpired | GotNotification | ReadFailed

  function HoldTime(configured: nat): nat {
    if configured < 3 then 3 else configured
  }

  function KeepaliveSecs(configured: nat): nat {
    if HoldTime(configured) / 3 < 1 then 1 else HoldTime(configured) / 3
  }

  function Hold(s: Setup): real {
    HoldTime(s.configured) as real
  }

  function Interval(s: Setup): real {
    KeepaliveSecs(s.configured) as real
  }

  /** Three keepalive intervals fit into the hold time, whatever is configured. */
  lemma {:induction false} KeepaliveFits(s: Setup)
    ensures 1.0 <= Interval(s) && 3.0 * Interval(s) <= Hold(s)
  {
    var h := HoldTime(s.configured);
    assert h / 3 >= 1 && 3 * (h / 3) <= h;
  }

  /** The hold time is what is configured, at least three seconds; a keepalive interval is a third of it, rounded down. */
  lemma {:induction false} IntervalsSpelled(configured: nat)
    ensures HoldTime(configured) >= 3 && HoldTime(configured) >= configured
    ensures HoldTime(configured) == 3 || HoldTime(configured) == configured
    ensures 3 * KeepaliveSecs(configured) <= HoldTime(configured) < 3 * KeepaliveSecs(configured) + 3
  {
  }

  function Initially(s: Setup): Timers {
    Timers(s.first + Interval(s), s.second + Hold(s))
  }

  predicate Due(t: Timers, now: real) {
    now >= t.nextKeepalive
  }

  /** The keepalive check at the top of a turn. */
  function AfterKeepalive(s: Setup, t: Timers, now: real): Timers {
    if Due(t, now) then t.(nextKeepalive := now + Interval(s)) else t
  }

  /** How long the read of a turn may take: until the next keepalive, at most a second. */
  function ReadTimeout(t: Timers, now: real): real {
    var left := if t.nextKeepalive > now then t.nextKeepalive - now else 0.0;
    if left < 1.0 then left else 1.0
  }

  /** A read never outlasts a second or the wait for the next keepalive, and otherwise it may take all of either. */
  lemma {:induction false} ReadTimeoutSpelled(t: Timers, now: real)
    ensures 0.0 <= ReadTimeout(t, now) <= 1.0
    ensures now <= t.nextKeepalive ==> now + ReadTimeout(t, now) <= t.nextKeepalive
    ensures ReadTimeout(t, now) == 1.0 || now + ReadTimeout(t, now) == t.nextKeepalive || (Due(t, now) && ReadTimeout(t, now) == 0.0)
  {
  }

  /** The timers at the top of turn `i`. */
  function TimersAt(s: Setup, turns: seq<Turn>, i: nat): Timers
    requires i <= |turns|
  {
    if i == 0 then Initially(s)
    else
      var turn := turns[i - 1];
      var t := AfterKeepalive(s, TimersAt(s, turns, i - 1), turn.now);
      if turn.read == Heard then t.(deadline := turn.ended + Hold(s)) else t
  }

  predicate ExpiresAt(s: Setup, turns: seq<Turn>, i: nat)
    requires i < |turns|
  {
    turns[i].now >= TimersAt(s, turns, i).deadline
  }

  /** A keepalive is due in turn `i` and cannot be written. */
  predicate WriteFailsAt(s: Setup, turns: seq<Turn>, i: nat)
    requires i < |turns|
  {
    Due(TimersAt(s, turns, i), turns[i].now) && !turns[i].wrote
  }

  /** No write has failed before turn `i`. */
  predicate Writes(s: Setup, turns: seq<Turn>, i: nat)
    requires i <= |turns|
  {
    forall j :: 0 <= j < i ==> !WriteFailsAt(s, turns, j)
  }

  /** The loop is still running at the top of turn `i`. */
  predicate Reaches(s: Setup, turns: seq<Turn>, i: nat)
    requires i <= |turns|
  {
    && Writes(s, turns, i)
    && forall j :: 0 <= j < i ==> !ExpiresAt(s, turns, j) && (turns[j].read == Heard || turns[j].read == TimedOut)
  }

  /** When the keepalives of the first `i` turns were sent. */
  function Keepalives(s: Setup, turns: seq<Turn>, i: nat): seq<real>
    requires i <= |turns|
  {
    if i == 0 then []
    else
      var sends := Due(TimersAt(s, turns, i - 1), turns[i - 1].now) && turns[i - 1].wrote;
      Keepalives(s, turns, i - 1) + (if sends then [turns[i - 1].now] else [])
  }

  /** The loop of `run_session`, fed with the turns its environment produces. */
  method EstablishedLoop(s: Setup, turns: seq<Turn>) returns (end: End, sent: seq<real>, used: nat)
    ensures used <= |turns|
    ensures end == Running ==> used == |turns| && Reaches(s, turns, used)
    ensures end != Running ==> used > 0 && Reaches(s, turns, used - 1)
    ensures end == WriteFailed <==> used > 0 && Reaches(s, turns, used - 1) && WriteFailsAt(s, turns, used - 1)
    ensures end == HoldExpired <==>
            used > 0 && Reaches(s, turns, used - 1) && !WriteFailsAt(s, turns, used - 1) && ExpiresAt(s, turns, used - 1)
    ensures end == GotNotification ==> turns[used - 1].read == Notified
    ensures end == ReadFailed ==> turns[used - 1].read == Broken
    ensures sent == Keepalives(s, turns, used)
  {
    var nextKeepalive := s.first + Interval(s);
    var deadline := s.second + Hold(s);
    sent := [];
    used := 0;
    while used < |turns|
      invariant used <= |turns|
      invariant TimersAt(s, turns, used) == Timers(nextKeepalive, deadline)
      invariant Reaches(s, turns, used)
      invariant sent == Keepalives(s, turns, used)
    {
      var now := turns[used].now;
      used := used + 1;
      if now >= nextKeepalive {
        if !turns[used - 1].wrote {
          return WriteFailed, sent, used;
        }
        sent := sent + [now];
        nextKeepalive := now + Interval(s);
      }
      if now >= deadline {
        return HoldExpired, sent, used;
      }
      match turns[used - 1].read
      case Heard => deadline := turns[used - 1].ended + Hold(s);
      case Notified => return GotNotification, sent, used;
      case Broken => return ReadFailed, sent, used;
      case TimedOut =>
    }
    end := Running;
  }

  // ----- Timing assumptions

  /**
   Instants do not run backwards, and a turn takes at most its timeout plus the
   slack `d` for waking up and writing.
   */
  ghost predicate Timed(s: Setup, turns: seq<Turn>, d: real) {
    && d >= 0.0 && s.first <= s.second
    && (|turns| > 0 ==> s.second <= turns[0].now <= s.first + d)
    && (forall i :: 0 <= i < |turns| ==> turns[i].now <= turns[i].ended)
    && (forall i :: 0 <= i < |turns| - 1 ==>
          turns[i].ended <= turns[i + 1].now <= turns[i].now + TurnTimeout(s, turns, i) + d)
  }

  function TurnTimeout(s: Setup, turns: seq<Turn>, i: nat): real
    requires i < |turns|
  {
    ReadTimeout(AfterKeepalive(s, TimersAt(s, turns, i), turns[i].now), turns[i].now)
  }

  // ----- Keepalives are regular

  /** The last keepalive before turn `i`, or the instant the first interval is counted from. */
  function LastKeepalive(s: Setup, turns: seq<Turn>, i: nat): real
    requires i <= |turns|
  {
    var k := Keepalives(s, turns, i);
    if k == [] then s.first else k[|k| - 1]
  }

  lemma {:induction false} NextIsLastPlusInterval(s: Setup, turns: seq<Turn>, i: nat)
    requires i <= |turns| && Writes(s, turns, i)
    ensures TimersAt(s, turns, i).nextKeepalive == LastKeepalive(s, turns, i) + Interval(s)
  {
    if i > 0 {
      NextIsLastPlusInterval(s, turns, i - 1);
      assert !WriteFailsAt(s, turns, i - 1);
    }
  }

  /** The top of a turn is never more than the slack late for the next keepalive. */
  lemma {:induction false} TopNotLate(s: Setup, turns: seq<Turn>, d: real, i: nat)
    requires Timed(s, turns, d) && i < |turns|
    ensures turns[i].now <= TimersAt(s, turns, i).nextKeepalive + d
  {
    KeepaliveFits(s);
    hide Interval, Hold;
    if i > 0 {
      assert turns[i - 1 + 1].now <= turns[i - 1].now + TurnTimeout(s, turns, i - 1) + d;
    }
  }

  /**
   At every turn the last keepalive is at most interval plus slack ago; and when
   one is sent, it is at least an interval after the one before.
   */
  lemma {:induction false} KeepaliveGap(s: Setup, turns: seq<Turn>, d: real, i: nat)
    requires Timed(s, turns, d) && i < |turns| && Writes(s, turns, i)
    ensures turns[i].now - LastKeepalive(s, turns, i) <= Interval(s) + d
    ensures Due(TimersAt(s, turns, i), turns[i].now) <==> turns[i].now - LastKeepalive(s, turns, i) >= Interval(s)
  {
    TopNotLate(s, turns, d, i);
    NextIsLastPlusInterval(s, turns, i);
    hide TimersAt, LastKeepalive, Timed, Writes;
  }

  function Later(x: real, y: real): real {
    if x < y then y else x
  }

  /** The last send, or `from` if that is later or nothing was sent. */
  function LastOr(sends: seq<real>, from: real): real {
    if sends == [] then from else Later(sends[|sends| - 1], from)
  }

  /** The send before send `c`, or `from` if that is later. */
  function Since(sends: seq<real>, from: real, c: nat): real
    requires c <= |sends|
  {
    if c == 0 then from else Later(sends[c - 1], from)
  }

  /** From instant `from` on there is no gap longer than `gap`; what was sent before does not matter. */
  predicate Regular(sends: seq<real>, from: real, gap: real) {
    forall c :: 0 <= c < |sends| ==> sends[c] <= Since(sends, from, c) + gap
  }

  lemma {:induction false} RegularPush(sends: seq<real>, from: real, gap: real, x: real)
    requires Regular(sends, from, gap) && x <= LastOr(sends, from) + gap
    ensures Regular(sends + [x], from, gap)
  {
    forall c | 0 <= c <= |sends|
      ensures (sends + [x])[c] <= Since(sends + [x], from, c) + gap
    {
      if c < |sends| {
        assert sends[c] <= Since(sends, from, c) + gap;
      }
    }
  }

  /**
   The whole schedule of a session that is still running at its last turn is
   regular, whatever the session announced before its loop began.
   */
  lemma {:induction false} KeepalivesRegular(s: Setup, announced: seq<real>, turns: seq<Turn>, d: real, i: nat)
    requires Timed(s, turns, d) && i <= |turns| && Writes(s, turns, if i > 0 then i - 1 else 0)
    requires forall k :: 0 <= k < |announced| ==> announced[k] <= s.first
    ensures Regular(announced + Keepalives(s, turns, i), s.first, Interval(s) + d)
    ensures LastOr(announced + Keepalives(s, turns, i), s.first) == LastOr(Keepalives(s, turns, i), s.first)
    ensures i > 0 ==> turns[i - 1].now <= LastOr(Keepalives(s, turns, i), s.first) + Interval(s) + d
  {
    if i == 0 {
      assert announced + Keepalives(s, turns, 0) == announced;
    } else {
      var before, now := Keepalives(s, turns, i - 1), turns[i - 1].now;
      var sends := Due(TimersAt(s, turns, i - 1), now) && turns[i - 1].wrote;
      KeepalivesRegular(s, announced, turns, d, i - 1);
      LoopGap(s, turns, d, i - 1);
      assert Keepalives(s, turns, i) == before + (if sends then [now] else []);
      hide *;
      GrowRegular(announced, before, s.first, Interval(s) + d, now, sends);
    }
  }

  lemma {:induction false} LoopGap(s: Setup, turns: seq<Turn>, d: real, i: nat)
    requires Timed(s, turns, d) && i < |turns| && Writes(s, turns, i)
    ensures s.first <= turns[i].now <= LastOr(Keepalives(s, turns, i), s.first) + Interval(s) + d
    ensures Interval(s) + d >= 0.0
  {
    KeepaliveGap(s, turns, d, i);
    KeepaliveFits(s);
    KeepalivesFrom(s, turns, d, i);
    assert d >= 0.0;
    hide Timed, Interval, Writes, TimersAt, Keepalives;
  }

  lemma {:induction false} GrowRegular(announced: seq<real>, before: seq<real>, from: real, gap: real, now: real, sends: bool)
    requires Regular(announced + before, from, gap) && LastOr(announced + before, from) == LastOr(before, from)
    requires gap >= 0.0 && from <= now <= LastOr(before, from) + gap
    ensures var after := before + (if sends then [now] else []);
            && Regular(announced + after, from, gap) && LastOr(announced + after, from) == LastOr(after, from)
            && now <= LastOr(after, from) + gap
  {
    if sends {
      RegularPush(announced + before, from, gap, now);
      assert announced + (before + [now]) == announced + before + [now];
    } else {
      assert before + [] == before;
    }
    hide Regular;
  }

  /** The loop sends nothing before it begins. */
  lemma {:induction false} KeepalivesFrom(s: Setup, turns: seq<Turn>, d: real, i: nat)
    requires Timed(s, turns, d) && i <= |turns|
    ensures forall k :: 0 <= k < |Keepalives(s, turns, i)| ==> s.first <= Keepalives(s, turns, i)[k]
    ensures i < |turns| ==> s.first <= turns[i].now
  {
    if i > 0 {
      KeepalivesFrom(s, turns, d, i - 1);
      if i < |turns| {
        assert turns[i - 1].ended <= turns[i - 1 + 1].now;
      }
      hide TimersAt, TurnTimeout;
    }
  }

  // ----- The hold timer is sound and prompt

  /** When the peer was last heard before turn `i`, or when the loop began. */
  function LastHeard(s: Setup, turns: seq<Turn>, i: nat): real
    requires i <= |turns|
  {
    if i == 0 then s.second
    else if turns[i - 1].read == Heard then turns[i - 1].ended
    else LastHeard(s, turns, i - 1)
  }

  lemma {:induction false} DeadlineIsLastHeardPlusHold(s: Setup, turns: seq<Turn>, i: nat)
    requires i <= |turns|
    ensures TimersAt(s, turns, i).deadline == LastHeard(s, turns, i) + Hold(s)
  {
    if i > 0 {
      DeadlineIsLastHeardPlusHold(s, turns, i - 1);
    }
  }

  /** The timer expires exactly when nothing was heard for the hold time. */
  lemma {:induction false} ExpiresIffSilent(s: Setup, turns: seq<Turn>, i: nat)
    requires i < |turns|
    ensures ExpiresAt(s, turns, i) <==> turns[i].now - LastHeard(s, turns, i) >= Hold(s)
  {
    DeadlineIsLastHeardPlusHold(s, turns, i);
    hide TimersAt, LastHeard;
  }

  /** A silent peer is noticed at most a second and the slack after the hold time ran out. */
  lemma {:induction false} SilenceNoticedPromptly(s: Setup, turns: seq<Turn>, d: real, i: nat)
    requires Timed(s, turns, d) && i < |turns| && Reaches(s, turns, i)
    ensures turns[i].now - LastHeard(s, turns, i) < Hold(s) + 1.0 + d
  {
    KeepaliveFits(s);
    hide Hold, Interval;
    if i > 0 {
      assert turns[i - 1].ended <= turns[i - 1 + 1].now <= turns[i - 1].now + TurnTimeout(s, turns, i - 1) + d;
      assert TurnTimeout(s, turns, i - 1) <= 1.0;
      assert !ExpiresAt(s, turns, i - 1);
      ExpiresIffSilent(s, turns, i - 1);
      hide TurnTimeout, ExpiresAt, Reaches;
    }
  }

  // ----- Two ends of a connection

  /** Messages read before turn `j`. */
  function HeardCount(turns: seq<Turn>, j: nat): nat
    requires j <= |turns|
  {
    if j == 0 then 0 else HeardCount(turns, j - 1) + (if turns[j - 1].read == Heard then 1 else 0)
  }

  /**
   The receiver reads, in order, messages sent at `sends`: none before it is
   sent, and a read times out only if the next message had not arrived, which
   happens within `latency` of sending.
   */
  ghost predicate Linked(sends: seq<real>, s: Setup, turns: seq<Turn>, latency: real) {
    && (forall j :: 0 <= j < |turns| && turns[j].read == Heard ==>
          HeardCount(turns, j) < |sends| && sends[HeardCount(turns, j)] <= turns[j].ended)
    && (forall j :: 0 <= j < |turns| && turns[j].read == TimedOut && HeardCount(turns, j) < |sends| ==>
          sends[HeardCount(turns, j)] + latency > turns[j].now + TurnTimeout(s, turns, j))
  }

  /** What has been heard was sent before the last hearing. */
  lemma {:induction false} HeardWasSent(sends: seq<real>, s: Setup, turns: seq<Turn>, latency: real, i: nat)
    requires Linked(sends, s, turns, latency) && i <= |turns|
    requires forall j :: 0 <= j < |turns| - 1 ==> turns[j].ended <= turns[j + 1].now && turns[j].now <= turns[j].ended
    ensures HeardCount(turns, i) <= |sends|
    ensures HeardCount(turns, i) > 0 ==> sends[HeardCount(turns, i) - 1] <= LastHeard(s, turns, i)
  {
    if i > 0 {
      HeardWasSent(sends, s, turns, latency, i - 1);
    }
  }

  lemma {:induction false} LastHeardAfterStart(s: Setup, turns: seq<Turn>, d: real, i: nat)
    requires Timed(s, turns, d) && i <= |turns|
    ensures s.second <= LastHeard(s, turns, i)
    ensures i < |turns| ==> LastHeard(s, turns, i) <= turns[i].now && s.second <= turns[i].now
  {
    if i > 0 {
      LastHeardAfterStart(s, turns, d, i - 1);
      if i < |turns| {
        assert turns[i - 1].ended <= turns[i - 1 + 1].now;
      }
      hide TurnTimeout;
    }
  }

  /** While messages keep arriving regularly, the next unread one was sent at most `gap` after the last hearing. */
  lemma {:induction false} NextMessageSoon(sends: seq<real>, from: real, gap: real, skew: real, c: nat, heard: real)
    requires Regular(sends, from, gap) && c < |sends| && from <= heard + skew && skew >= 0.0
    requires c > 0 ==> sends[c - 1] <= heard
    ensures sends[c] <= heard + skew + gap
  {
    assert sends[c] <= Since(sends, from, c) + gap;
  }

  /** After a read that timed out, the next turn begins before the silence exceeds gap, skew, latency and slack. */
  lemma {:induction false} SilenceBounded(
    sends: seq<real>, from: real, gap: real, skew: real, horizon: real, latency: real, s: Setup, turns: seq<Turn>, d: real, j: nat)
    requires Timed(s, turns, d) && Linked(sends, s, turns, latency)
    requires Regular(sends, from, gap) && horizon <= LastOr(sends, from) + gap
    requires from <= s.second + skew && skew >= 0.0
    requires j + 1 < |turns| && turns[j].read == TimedOut && turns[j + 1].now <= horizon + latency
    ensures turns[j + 1].now <= LastHeard(s, turns, j) + gap + skew + latency + d
    ensures turns[j + 1].now < horizon + latency ==> turns[j + 1].now < LastHeard(s, turns, j) + gap + skew + latency + d
  {
    TimedBasics(s, turns, d);
    HeardWasSent(sends, s, turns, latency, j);
    LastHeardAfterStart(s, turns, d, j);
    var c, heard := HeardCount(turns, j), LastHeard(s, turns, j);
    hide TurnTimeout, LastHeard, HeardCount;
    assert d >= 0.0 && turns[j + 1].now <= turns[j].now + TurnTimeout(s, turns, j) + d;
    if c < |sends| {
      assert sends[c] + latency > turns[j].now + TurnTimeout(s, turns, j);
      hide Linked, Timed, Regular;
      NextMessageSoon(sends, from, gap, skew, c, heard);
    }
  }

  /**
   If the peer's messages leave no gap longer than `gap` from `from` to `horizon`,
   and gap, latency, wake-up slack and the skew between the two loop starts
   together do not exceed the receiver's own hold time, the receiver's hold timer
   does not expire before `horizon + latency`, nor at that instant if they stay below it.
   */
  lemma {:induction false} RegularPeerKeepsSessionUp(
    sends: seq<real>, from: real, gap: real, skew: real, horizon: real, latency: real, s: Setup, turns: seq<Turn>, d: real, i: nat)
    requires Timed(s, turns, d) && Linked(sends, s, turns, latency)
    requires Regular(sends, from, gap) && horizon <= LastOr(sends, from) + gap
    requires from <= s.second + skew && skew >= 0.0
    requires gap + skew + latency + d <= Hold(s) && 1.0 + d < Hold(s)
    requires i < |turns| && turns[i].now <= horizon + latency && Reaches(s, turns, i)
    requires gap + skew + latency + d < Hold(s) || turns[i].now < horizon + latency
    ensures !ExpiresAt(s, turns, i)
  {
    ExpiresIffSilent(s, turns, i);
    if i == 0 {
      assert turns[0].now <= s.second + d;
    } else {
      assert turns[i - 1].read == Heard || turns[i - 1].read == TimedOut;
      if turns[i - 1].read == TimedOut {
        SilenceBounded(sends, from, gap, skew, horizon, latency, s, turns, d, i - 1);
      } else {
        assert TurnTimeout(s, turns, i - 1) <= 1.0;
        hide TurnTimeout;
        assert turns[i - 1].now <= turns[i - 1].ended;
        assert turns[i - 1 + 1].now <= turns[i - 1].now + TurnTimeout(s, turns, i - 1) + d;
      }
    }
    hide TurnTimeout, ExpiresAt, Reaches, Hold, Linked, Timed, Regular;
  }

  lemma {:induction false} TimedBasics(s: Setup, turns: seq<Turn>, d: real)
    requires Timed(s, turns, d)
    ensures forall j :: 0 <= j < |turns| - 1 ==> turns[j].ended <= turns[j + 1].now && turns[j].now <= turns[j].ended
  {
    hide TurnTimeout;
  }

  /**
   Two sessions in their loops: while the sender's keepalive interval, both slacks,
   the latency and the skew do not exceed the receiver's own hold time, the receiver's
   timer does not expire for as long as the sender's loop runs, whatever prefixes the
   sender announced before its loop.
   */
  lemma {:induction false} KeepalivesKeepSessionUp(
    sender: Setup, announced: seq<real>, sturns: seq<Turn>, sd: real, receiver: Setup, rturns: seq<Turn>, rd: real,
    latency: real, skew: real, i: nat)
    requires Timed(sender, sturns, sd) && Timed(receiver, rturns, rd) && sturns != []
    requires Writes(sender, sturns, |sturns| - 1) && forall k :: 0 <= k < |announced| ==> announced[k] <= sender.first
    requires Linked(announced + Keepalives(sender, sturns, |sturns|), receiver, rturns, latency)
    requires sender.first <= receiver.second + skew && skew >= 0.0
    requires Interval(sender) + sd + skew + latency + rd <= Hold(receiver) && 1.0 + rd < Hold(receiver)
    requires i < |rturns| && rturns[i].now <= sturns[|sturns| - 1].now + latency && Reaches(receiver, rturns, i)
    requires Interval(sender) + sd + skew + latency + rd < Hold(receiver) || rturns[i].now < sturns[|sturns| - 1].now + latency
    ensures !ExpiresAt(receiver, rturns, i)
  {
    KeepalivesRegular(sender, announced, sturns, sd, |sturns|);
    hide Timed, Linked, Regular, Interval, Hold, Reaches, ExpiresAt, Keepalives, LastOr;
    RegularPeerKeepsSessionUp(announced + Keepalives(sender, sturns, |sturns|), sender.first, Interval(sender) + sd, skew,
                              sturns[|sturns| - 1].now, latency, receiver, rturns, rd, i);
  }

  // ----- The hold time is not negotiated: exactly when that does not matter

  /** A prompt exchange: both sides act without slack or latency, and the sender is in its loop first. */
  ghost predicate Prompt(sender: Setup, announced: seq<real>, sturns: seq<Turn>, receiver: Setup, rturns: seq<Turn>) {
    && Timed(sender, sturns, 0.0) && Timed(receiver, rturns, 0.0) && sturns != []
    && Writes(sender, sturns, |sturns| - 1) && (forall k :: 0 <= k < |announced| ==> announced[k] <= sender.first)
    && Linked(announced + Keepalives(sender, sturns, |sturns|), receiver, rturns, 0.0)
    && sender.first <= receiver.second
  }

  /** No prompt exchange ends by the receiver's hold timer while the sender is in its loop. */
  ghost predicate NeverDropped(a: nat, b: nat) {
    forall sender: Setup, announced: seq<real>, sturns: seq<Turn>, receiver: Setup, rturns: seq<Turn>, i: nat ::
      && Prompt(sender, announced, sturns, receiver, rturns) && sender.configured == a && receiver.configured == b
      && i < |rturns| && rturns[i].now < sturns[|sturns| - 1].now && Reaches(receiver, rturns, i)
      ==> !ExpiresAt(receiver, rturns, i)
  }

  /** `n` turns of a second each in which nothing is heard, and the beginning of one more. */
  function Seconds(n: nat): seq<Turn> {
    seq(n, i requires 0 <= i < n => Turn(i as real, true, TimedOut, (i + 1) as real)) + [Turn(n as real, true, Broken, n as real)]
  }

  /** In such turns the next keepalive is due at a whole second, not before the turn, and the deadline stands. */
  lemma {:induction false} SecondsTimers(s: Setup, n: nat, i: nat) returns (next: nat)
    requires s.first == 0.0 && s.second == 0.0 && i <= n
    ensures TimersAt(s, Seconds(n), i) == Timers(next as real, Hold(s))
    ensures i <= next
    ensures i <= KeepaliveSecs(s.configured) ==> next == KeepaliveSecs(s.configured)
  {
    next := KeepaliveSecs(s.configured);
    if i > 0 {
      next := SecondsTimers(s, n, i - 1);
      assert Seconds(n)[i - 1] == Turn((i - 1) as real, true, TimedOut, i as real);
      if next == i - 1 {
        next := i - 1 + KeepaliveSecs(s.configured);
      }
    }
  }

  lemma {:induction false} SecondsTimeout(s: Setup, n: nat, i: nat)
    requires s.first == 0.0 && s.second == 0.0 && i < n
    ensures TurnTimeout(s, Seconds(n), i) == 1.0
  {
    var next := SecondsTimers(s, n, i);
    assert Seconds(n)[i].now == i as real;
    hide TimersAt, Seconds;
    if next == i {
      assert (i + KeepaliveSecs(s.configured)) as real == i as real + Interval(s);
    }
  }

  lemma {:induction false} SecondsTimed(s: Setup, n: nat)
    requires s.first == 0.0 && s.second == 0.0
    ensures Timed(s, Seconds(n), 0.0) && Writes(s, Seconds(n), n + 1)
    ensures forall i :: 0 <= i <= n ==> HeardCount(Seconds(n), i) == 0
  {
    var turns := Seconds(n);
    forall i | 0 <= i < n
      ensures TurnTimeout(s, turns, i) == 1.0
    {
      SecondsTimeout(s, n, i);
    }
    SecondsSilent(n, n);
    hide TurnTimeout, TimersAt, HeardCount;
  }

  lemma {:induction false} SecondsSilent(n: nat, i: nat)
    requires i <= n
    ensures forall j :: 0 <= j <= i ==> HeardCount(Seconds(n), j) == 0
  {
    if i > 0 {
      SecondsSilent(n, i - 1);
      assert Seconds(n)[i - 1].read == TimedOut;
    }
  }

  /** The first keepalive goes out when it is due, and none before. */
  lemma {:induction false} SecondsKeepalives(s: Setup, n: nat, i: nat)
    requires s.first == 0.0 && s.second == 0.0 && n == KeepaliveSecs(s.configured) && i <= n + 1
    ensures Keepalives(s, Seconds(n), i) == if i <= n then [] else [n as real]
  {
    if i > 0 {
      SecondsKeepalives(s, n, i - 1);
      var next := SecondsTimers(s, n, i - 1);
      assert Seconds(n)[i - 1].now == (i - 1) as real && Seconds(n)[i - 1].wrote;
      hide TimersAt, Seconds;
    }
  }

  /** For every longer keepalive interval there is a prompt exchange in which the receiver drops the sender. */
  lemma {:induction false} UnnegotiatedHoldExpires(a: nat, b: nat)
    requires KeepaliveSecs(a) > HoldTime(b)
    ensures var sender, receiver, h := Setup(a, 0.0, 0.0), Setup(b, 0.0, 0.0), HoldTime(b);
            var sturns, rturns := Seconds(KeepaliveSecs(a)), Seconds(h);
            && Prompt(sender, [], sturns, receiver, rturns) && Reaches(sender, sturns, |sturns| - 1)
            && rturns[h].now < sturns[|sturns| - 1].now && Reaches(receiver, rturns, h) && ExpiresAt(receiver, rturns, h)
  {
    var sender, receiver, h, k := Setup(a, 0.0, 0.0), Setup(b, 0.0, 0.0), HoldTime(b), KeepaliveSecs(a);
    SecondsTimed(sender, k);
    SecondsTimed(receiver, h);
    SecondsKeepalives(sender, k, k + 1);
    SecondsReach(sender, k);
    SecondsReach(receiver, h);
    var next := SecondsTimers(receiver, h, h);
    SecondsLinked(receiver, h, k);
    hide TimersAt, Timed, Writes, Reaches, Linked, Keepalives;
    assert [] + [k as real] == [k as real];
  }

  lemma {:induction false} SecondsReach(s: Setup, n: nat)
    requires s.first == 0.0 && s.second == 0.0 && n <= HoldTime(s.configured)
    ensures Reaches(s, Seconds(n), n)
  {
    SecondsTimed(s, n);
    forall j | 0 <= j < n
      ensures !ExpiresAt(s, Seconds(n), j)
    {
      var next := SecondsTimers(s, n, j);
      hide TimersAt;
    }
    hide ExpiresAt, Timed, WriteFailsAt;
  }

  lemma {:induction false} SecondsLinked(s: Setup, n: nat, k: nat)
    requires s.first == 0.0 && s.second == 0.0 && n < k
    ensures Linked([k as real], s, Seconds(n), 0.0)
  {
    SecondsTimed(s, n);
    var turns := Seconds(n);
    forall j | 0 <= j < n
      ensures k as real > turns[j].now + TurnTimeout(s, turns, j)
    {
      SecondsTimeout(s, n, j);
      hide TurnTimeout;
    }
    hide TurnTimeout, Timed, Writes, HeardCount;
  }

  /** Though nothing is negotiated, prompt sessions stay up exactly when the sender's interval fits the receiver's hold time. */
  lemma {:induction false} NeverDroppedIff(a: nat, b: nat)
    ensures NeverDropped(a, b) <==> KeepaliveSecs(a) <= HoldTime(b)
  {
    if KeepaliveSecs(a) > HoldTime(b) {
      UnnegotiatedHoldExpires(a, b);
      hide Prompt, Reaches, ExpiresAt, Seconds;
    } else {
      forall sender: Setup, announced: seq<real>, sturns: seq<Turn>, receiver: Setup, rturns: seq<Turn>, i: nat |
        && Prompt(sender, announced, sturns, receiver, rturns) && sender.configured == a && receiver.configured == b
        && i < |rturns| && rturns[i].now < sturns[|sturns| - 1].now && Reaches(receiver, rturns, i)
        ensures !ExpiresAt(receiver, rturns, i)
      {
        hide Timed, Linked, Reaches, ExpiresAt, Keepalives, Writes;
        KeepalivesKeepSessionUp(sender, announced, sturns, 0.0, receiver, rturns, 0.0, 0.0, 0.0, i);
      }
    }
  }
}
