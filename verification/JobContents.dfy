/** What a job is about: over every run, exactly what was submitted under its id, told from the steps alone. */
module JobContents {
  import opened Queue
  import opened Replication

  /** The submissions of a run in order; the n-th one is given id n. */
  function Submits(steps: seq<Step>): seq<Step> {
    if steps == [] then [] else (if steps[0].Submit? then [steps[0]] else []) + Submits(steps[1..])
  }

  /** These contents are those of submission `id`. */
  ghost predicate Submitted(subs: seq<Step>, id: nat, segment: string, manifest: string, destination: string, maxRetries: nat) {
    && 1 <= id <= |subs| && subs[id - 1].Submit?
    && subs[id - 1].segment == segment && subs[id - 1].manifest == manifest
    && subs[id - 1].destination == destination && subs[id - 1].maxRetries == maxRetries
  }

  ghost predicate RowsSubmitted(subs: seq<Step>, t: Table) {
    && t.nextId == |subs| + 1
    && forall id :: id in t.rows ==>
         Submitted(subs, id, t.rows[id].segment, t.rows[id].manifest, t.rows[id].destination, t.rows[id].maxRetries)
  }

  ghost predicate JobsSubmitted(subs: seq<Step>, jobs: seq<Job>) {
    forall i :: 0 <= i < |jobs| ==> Submitted(subs, jobs[i].id, jobs[i].segment, jobs[i].manifest, jobs[i].destination, jobs[i].maxRetries)
  }

  ghost predicate AllSubmitted(subs: seq<Step>, s: System) {
    RowsSubmitted(subs, s.table) && forall w :: w in s.held ==> JobsSubmitted(subs, s.held[w])
  }

  lemma {:induction false} SubmittedGrows(subs: seq<Step>, more: seq<Step>, s: System)
    requires AllSubmitted(subs, s)
    ensures forall w :: w in s.held ==> JobsSubmitted(subs + more, s.held[w])
    ensures forall id :: id in s.table.rows ==>
              Submitted(subs + more, id, s.table.rows[id].segment, s.table.rows[id].manifest, s.table.rows[id].destination, s.table.rows[id].maxRetries)
  {
    assert forall i :: 0 <= i < |subs| ==> (subs + more)[i] == subs[i];
  }

  lemma {:induction false} SubmitKeepsContents(s: System, step: Step, subs: seq<Step>)
    requires Inv(s) && Enabled(s, step) && step.Submit? && AllSubmitted(subs, s)
    ensures AllSubmitted(subs + [step], Next(s, step))
  {
    SubmittedGrows(subs, [step], s);
    assert (subs + [step])[|subs|] == step;
    hide HeldCurrent, Exclusive, Budgeted, JobsSubmitted;
  }

  lemma {:induction false} ClaimKeepsContents(s: System, step: Step, subs: seq<Step>)
    requires Inv(s) && Enabled(s, step) && step.Claim? && AllSubmitted(subs, s)
    ensures AllSubmitted(subs, Next(s, step))
  {
    hide HeldCurrent, Exclusive, Budgeted, Submitted, Batch;
    var jobs := JobsOf(s.table, Batch(s, step));
    forall i | 0 <= i < |jobs|
      ensures Submitted(subs, jobs[i].id, jobs[i].segment, jobs[i].manifest, jobs[i].destination, jobs[i].maxRetries)
    {
      assert Batch(s, step)[i] in s.table.rows;
    }
  }

  lemma {:induction false} OthersKeepContents(s: System, step: Step, subs: seq<Step>)
    requires Inv(s) && Enabled(s, step) && !step.Submit? && !step.Claim? && AllSubmitted(subs, s)
    ensures AllSubmitted(subs, Next(s, step))
  {
    hide HeldCurrent, Exclusive, Budgeted, Submitted;
    if step.Succeed? || step.Fail? {
      assert Held(s, step.worker) == s.held[step.worker];
    }
  }

  lemma {:induction false} Assoc(a: seq<Step>, b: seq<Step>, c: seq<Step>)
    ensures a + b + c == a + (b + c)
  {
  }

  lemma {:induction false} RunKeepsContents(s: System, steps: seq<Step>, subs: seq<Step>)
    requires Inv(s) && Possible(s, steps) && AllSubmitted(subs, s)
    ensures AllSubmitted(subs + Submits(steps), After(s, steps))
    decreases |steps|
  {
    if steps == [] {
      assert subs + [] == subs;
    } else {
      var step, rest := steps[0], steps[1..];
      StepKeeps(s, step);
      assert subs + [] == subs;
      if step.Submit? {
        SubmitKeepsContents(s, step, subs);
      } else if step.Claim? {
        ClaimKeepsContents(s, step, subs);
      } else {
        OthersKeepContents(s, step, subs);
      }
      hide Inv, Next, AllSubmitted, Enabled;
      var now := if step.Submit? then [step] else [];
      RunKeepsContents(Next(s, step), rest, subs + now);
      Assoc(subs, now, Submits(rest));
    }
  }

  /**
   In every run, whoever holds it and however often it failed, stopped or was revived: a job has the segment,
   manifest, destination and retry limit of the submission that was given its id, and so has every row.
   */
  lemma {:induction false} JobsAreWhatWasSubmitted(clock: int, steps: seq<Step>)
    requires Possible(Start(clock), steps)
    ensures var s, subs := After(Start(clock), steps), Submits(steps);
            && (forall w, i: nat :: w in s.held && i < |s.held[w]| ==>
                  var j := s.held[w][i];
                  && 1 <= j.id <= |subs| && subs[j.id - 1].Submit?
                  && j.segment == subs[j.id - 1].segment && j.manifest == subs[j.id - 1].manifest
                  && j.destination == subs[j.id - 1].destination && j.maxRetries == subs[j.id - 1].maxRetries)
            && (forall id :: id in s.table.rows ==>
                  var row := s.table.rows[id];
                  && 1 <= id <= |subs| && subs[id - 1].Submit?
                  && row.segment == subs[id - 1].segment && row.manifest == subs[id - 1].manifest
                  && row.destination == subs[id - 1].destination && row.maxRetries == subs[id - 1].maxRetries)
  {
    StartInv(clock);
    RunKeepsContents(Start(clock), steps, []);
    hide After, Possible, Submits;
    assert [] + Submits(steps) == Submits(steps);
    var s := After(Start(clock), steps);
    assert RowsSubmitted(Submits(steps), s.table);
    forall w, i: nat | w in s.held && i < |s.held[w]|
      ensures Submitted(Submits(steps), s.held[w][i].id, s.held[w][i].segment, s.held[w][i].manifest, s.held[w][i].destination, s.held[w][i].maxRetries)
    {
      assert JobsSubmitted(Submits(steps), s.held[w]);
    }
  }
}
