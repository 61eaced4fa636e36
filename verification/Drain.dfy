/** When the queue empties: in rounds that start late enough, exactly if no job was orphaned. */
module Drain {
  import opened Queue
  import opened Replication
  import opened ReplicationOrder

  ghost predicate HeldBySome(s: System, id: nat) {
    exists w: nat, i: nat :: i < |Held(s, w)| && Held(s, w)[i].id == id
  }

  /** Whatever is in progress is in some worker's hands. */
  ghost predicate NoOrphans(s: System) {
    forall id :: id in s.table.rows && s.table.rows[id].status == InProgress ==> HeldBySome(s, id)
  }

  ghost predicate AtRest(s: System) {
    forall w: nat :: Held(s, w) == []
  }

  predicate NoStops(steps: seq<Step>) {
    forall i :: 0 <= i < |steps| ==> !steps[i].Abandon?
  }

  /** The row of a step's job aside, a step other than a claim leaves what is in progress alone. */
  lemma {:induction false} StillHeld(s: System, step: Step, id: nat)
    requires Inv(s) && Enabled(s, step) && !step.Abandon? && HeldBySome(s, id)
    requires (step.Succeed? || step.Fail?) ==> Held(s, step.worker)[0].id != id
    ensures HeldBySome(Next(s, step), id)
  {
    var w: nat, i: nat :| i < |Held(s, w)| && Held(s, w)[i].id == id;
    var n := Next(s, step);
    hide Inv;
    if (step.Succeed? || step.Fail?) && step.worker == w {
      assert Held(n, w) == Held(s, w)[1..];
      assert Held(n, w)[i - 1].id == id;
    } else {
      assert Held(n, w) == Held(s, w);
    }
  }

  lemma {:induction false} ClaimedIsHeld(s: System, step: Step, id: nat)
    requires Inv(s) && Enabled(s, step) && step.Claim? && id in Batch(s, step)
    ensures HeldBySome(Next(s, step), id)
  {
    hide HeldCurrent, Exclusive, Budgeted;
    var ids := Batch(s, step);
    var i :| 0 <= i < |ids| && ids[i] == id;
    assert Held(Next(s, step), step.worker) == JobsOf(s.table, ids);
    assert JobsOf(s.table, ids)[i].id == id;
  }

  /** Where a row in progress comes from. */
  lemma {:induction false} InProgressOrigin(s: System, step: Step, id: nat)
    requires Inv(s) && Enabled(s, step) && id in Next(s, step).table.rows && Next(s, step).table.rows[id].status == InProgress
    ensures || (step.Claim? && id in Batch(s, step))
            || (id in s.table.rows && s.table.rows[id].status == InProgress && (step.Succeed? || step.Fail? ==> Held(s, step.worker)[0].id != id))
  {
    if step.Fail? {
      HeadIsCurrent(s, step.worker);
    }
    hide HeldCurrent, Exclusive, Budgeted, Batch;
  }

  lemma {:induction false} StepKeepsNoOrphans(s: System, step: Step)
    requires Inv(s) && Enabled(s, step) && !step.Abandon? && NoOrphans(s)
    ensures NoOrphans(Next(s, step))
  {
    var n := Next(s, step);
    hide HeldCurrent, Exclusive, Budgeted, Batch, Next, HeldBySome;
    forall id | id in n.table.rows && n.table.rows[id].status == InProgress
      ensures HeldBySome(n, id)
    {
      InProgressOrigin(s, step, id);
      if step.Claim? && id in Batch(s, step) {
        ClaimedIsHeld(s, step, id);
      } else {
        StillHeld(s, step, id);
      }
    }
  }

  /** If no worker has ever stopped in mid-batch, nothing is orphaned. */
  lemma {:induction false} RunKeepsNoOrphans(s: System, steps: seq<Step>)
    requires Inv(s) && Possible(s, steps) && NoStops(steps) && NoOrphans(s)
    ensures Inv(After(s, steps)) && NoOrphans(After(s, steps))
    decreases |steps|
  {
    if steps != [] {
      StepKeeps(s, steps[0]);
      StepKeepsNoOrphans(s, steps[0]);
      hide HeldCurrent, Exclusive, Budgeted, Next, NoOrphans;
      RunKeepsNoOrphans(Next(s, steps[0]), steps[1..]);
    }
  }

  // ----- Rounds

  /** A clock reading at which every job's retry time has passed. */
  ghost predicate Late(t: Table, now: int) {
    forall id :: id in t.rows ==> t.rows[id].nextRetry <= now
  }

  /**
   A round in which nothing is added or revived and no worker stops: it begins with a claim, late enough,
   and ends when nobody holds a job.
   */
  ghost predicate Round(s: System, steps: seq<Step>) {
    && Inv(s) && Possible(s, steps) && Quiet(steps) && NoStops(steps) && AtRest(After(s, steps))
    && steps != [] && steps[0].Claim? && steps[0].limit > 0 && Late(s.table, steps[0].now)
  }

  lemma {:induction false} HoldingMustMark(s: System, steps: seq<Step>, w: nat)
    requires Inv(s) && Possible(s, steps) && Quiet(steps) && NoStops(steps) && AtRest(After(s, steps)) && Held(s, w) != []
    ensures MarkCount(steps) >= 1
    decreases |steps|
  {
    if steps != [] && !Marks(steps[0]) {
      StepKeeps(s, steps[0]);
      assert Held(Next(s, steps[0]), w) == Held(s, w);
      hide Inv, Next;
      HoldingMustMark(Next(s, steps[0]), steps[1..], w);
    }
  }

  lemma {:induction false} AtRestHoldsNothing(s: System, id: nat)
    requires AtRest(s)
    ensures !HeldBySome(s, id)
  {
  }

  lemma {:induction false} LiveIsReady(s: System, id: nat, now: int)
    requires NoOrphans(s) && AtRest(s) && id in LiveIds(s.table) && Late(s.table, now)
    ensures Ready(s.table, id, now)
  {
    AtRestHoldsNothing(s, id);
    hide HeldBySome, AtRest;
  }

  /** While a job is live, a round from rest processes at least one and so lightens the load. */
  lemma {:induction false} RoundLightens(s: System, steps: seq<Step>)
    requires NoOrphans(s) && AtRest(s) && Limited(s.table) && Round(s, steps)
    ensures Inv(After(s, steps)) && NoOrphans(After(s, steps)) && Limited(After(s, steps).table)
    ensures Load(After(s, steps)) < Load(s) || Load(After(s, steps)) == 0
  {
    RunKeepsNoOrphans(s, steps);
    QueueDrains(s, steps);
    RunKeepsLimits(s, steps);
    hide HeldCurrent, Exclusive, Budgeted, Accounted, Next, NoOrphans, Load, LiveIds, Late, Limited, Enabled, Possible, After, AtRest;
    if Load(s) > 0 {
      LoadedRoundMarks(s, steps);
    }
  }

  lemma {:induction false} LoadedRoundMarks(s: System, steps: seq<Step>)
    requires NoOrphans(s) && AtRest(s) && Round(s, steps) && Load(s) > 0
    ensures MarkCount(steps) >= 1
  {
    DrainedIffNoLoad(s);
    hide HeldCurrent, Exclusive, Budgeted, Next, NoOrphans, Load, LiveIds, Late, AtRest;
    var id :| id in LiveIds(s.table);
    LiveIsReady(s, id, steps[0].now);
    ReadyJobIsClaimed(s, steps[0], id);
    StepKeeps(s, steps[0]);
    HoldingMustMark(Next(s, steps[0]), steps[1..], steps[0].worker);
  }

  lemma {:induction false} RunKeepsLimits(s: System, steps: seq<Step>)
    requires Inv(s) && Possible(s, steps) && Limited(s.table) && Quiet(steps)
    ensures Limited(After(s, steps).table)
    decreases |steps|
  {
    if steps != [] {
      StepKeeps(s, steps[0]);
      if Marks(steps[0]) {
        MarkLightens(s, steps[0]);
      } else {
        OthersKeepLoad(s, steps[0]);
      }
      hide Inv, Next, Limited, Load;
      RunKeepsLimits(Next(s, steps[0]), steps[1..]);
    }
  }

  ghost predicate Rounds(s: System, rounds: seq<seq<Step>>)
    decreases |rounds|
  {
    rounds == [] || (Round(s, rounds[0]) && Rounds(After(s, rounds[0]), rounds[1..]))
  }

  ghost function AfterRounds(s: System, rounds: seq<seq<Step>>): System
    requires Rounds(s, rounds)
    decreases |rounds|
  {
    if rounds == [] then s else AfterRounds(After(s, rounds[0]), rounds[1..])
  }

  lemma {:induction false} RoundsDrain(s: System, rounds: seq<seq<Step>>)
    requires Inv(s) && NoOrphans(s) && AtRest(s) && Limited(s.table) && Rounds(s, rounds) && Load(s) <= |rounds|
    ensures LiveIds(AfterRounds(s, rounds).table) == {}
    decreases |rounds|
  {
    if rounds == [] {
      DrainedIffNoLoad(s);
    } else {
      RoundLightens(s, rounds[0]);
      hide Inv, NoOrphans, Limited, Load, LiveIds;
      RoundsDrain(After(s, rounds[0]), rounds[1..]);
    }
  }

  // ----- An orphan is what keeps the queue from emptying

  lemma {:induction false} NotHeldIsOrphaned(s: System, id: nat)
    requires id in s.table.rows && s.table.rows[id].status == InProgress && !HeldBySome(s, id)
    ensures Orphaned(s, id)
  {
    assert forall w: nat :: w in s.held ==> Held(s, w) == s.held[w];
    forall w, i | w in s.held && 0 <= i < |s.held[w]|
      ensures s.held[w][i].id != id
    {
      assert Held(s, w)[i] == s.held[w][i];
    }
  }

  lemma {:induction false} OrphanOutlivesRounds(s: System, rounds: seq<seq<Step>>, id: nat)
    requires Inv(s) && Orphaned(s, id) && Rounds(s, rounds)
    ensures id in LiveIds(AfterRounds(s, rounds).table)
    decreases |rounds|
  {
    if rounds != [] {
      OrphanForever(s, rounds[0], id);
      RunKeeps(s, rounds[0]);
      hide Inv, Orphaned, LiveIds;
      OrphanOutlivesRounds(After(s, rounds[0]), rounds[1..], id);
    }
  }

  /**
   From rest and with finite retry limits, enough rounds empty the queue whatever the outcomes, exactly if
   no worker left a job behind.
   */
  lemma {:induction false} RoundsDrainIffNoOrphans(s: System, rounds: seq<seq<Step>>)
    requires Inv(s) && AtRest(s) && Limited(s.table) && Rounds(s, rounds) && Load(s) <= |rounds|
    ensures LiveIds(AfterRounds(s, rounds).table) == {} <==> NoOrphans(s)
  {
    if NoOrphans(s) {
      RoundsDrain(s, rounds);
    } else {
      var id :| id in s.table.rows && s.table.rows[id].status == InProgress && !HeldBySome(s, id);
      NotHeldIsOrphaned(s, id);
      OrphanOutlivesRounds(s, rounds, id);
    }
  }
}
