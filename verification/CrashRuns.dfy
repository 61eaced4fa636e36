/** Runs from the start that lose or tear files, and so exactly which names keep every queue row's files. */
module CrashRuns {
  import opened Durability
  import opened JobBook
  import Rotation

  /** One more step at the end of a run. */
  lemma {:induction false} RunPush(env: Env, s: System, steps: seq<Step>, step: Step)
    requires Run(env, s, steps) && Possible(env, After(env, s, steps), step)
    ensures Run(env, s, steps + [step]) && After(env, s, steps + [step]) == Next(env, After(env, s, steps), step)
    decreases |steps|
  {
    hide Possible, Next;
    var all := steps + [step];
    if steps == [] {
      assert all[1..] == [];
      assert Run(env, Next(env, s, step), []);
    } else {
      assert all[0] == steps[0] && all[1..] == steps[1..] + [step];
      RunPush(env, Next(env, s, steps[0]), steps[1..], step);
    }
  }

  lemma {:induction false} OpensPush(steps: seq<Step>, step: Step, names: set<string>)
    requires OpensOnly(steps, names) && (step.OfTask? && step.task.Open? ==> step.task.rel in names)
    ensures OpensOnly(steps + [step], names)
  {
    var all := steps + [step];
    forall i: nat, rel | Opens(all, i, rel)
      ensures rel in names
    {
      assert i < |steps| ==> Opens(steps, i, rel);
    }
  }

  lemma {:induction false} NoReusePush(env: Env, s: System, steps: seq<Step>, step: Step)
    requires Run(env, s, steps) && NoReuse(env, s, steps) && Possible(env, After(env, s, steps), step) && Fresh(After(env, s, steps), step)
    ensures Run(env, s, steps + [step]) && NoReuse(env, s, steps + [step])
    decreases |steps|
  {
    RunPush(env, s, steps, step);
    hide Possible, Next, Fresh;
    var all := steps + [step];
    if steps == [] {
      assert all[1..] == [];
      assert NoReuse(env, Next(env, s, step), []);
    } else {
      assert all[0] == steps[0] && all[1..] == steps[1..] + [step];
      NoReusePush(env, Next(env, s, steps[0]), steps[1..], step);
    }
  }

  /** A run over `names` that has come to `s`, and has reused no path if `once` is set. */
  ghost predicate Reached(env: Env, names: set<string>, once: bool, steps: seq<Step>, s: System) {
    && Run(env, Init(), steps) && OpensOnly(steps, names) && After(env, Init(), steps) == s
    && (once ==> NoReuse(env, Init(), steps))
  }

  lemma {:induction false} Begin(env: Env, names: set<string>, once: bool)
    ensures Reached(env, names, once, [], Init())
  {
  }

  lemma {:induction false} Push(env: Env, names: set<string>, once: bool, steps: seq<Step>, s: System, step: Step)
    requires Reached(env, names, once, steps, s) && Possible(env, s, step) && (once ==> Fresh(s, step))
    requires step.OfTask? && step.task.Open? ==> step.task.rel in names
    ensures Reached(env, names, once, steps + [step], Next(env, s, step))
  {
    hide Run, After, Possible, Next, OpensOnly, NoReuse, Fresh;
    RunPush(env, Init(), steps, step);
    OpensPush(steps, step, names);
    if once {
      NoReusePush(env, Init(), steps, step);
    }
  }

  /** A writer opens `rel` and moves its segment into place; only the two paths change. */
  lemma {:induction false} Place(env: Env, names: set<string>, once: bool, before: seq<Step>, s: System, rel: string, records: seq<Rotation.Record>)
    returns (steps: seq<Step>, t: System)
    requires Reached(env, names, once, before, s) && 0 !in s.tasks && rel in names && (once ==> rel !in s.moved)
    ensures Reached(env, names, once, steps, t)
    ensures t.tasks == s.tasks[0 := Task(rel, Renamed)] && t.rows == s.rows && t.workers == s.workers && t.nextRow == s.nextRow
    ensures t.moved == s.moved + {rel} && t.made == s.made && t.delivered == s.delivered
    ensures steps == before + [OfTask(0, Open(rel)), OfTask(0, Finish(records)), OfTask(0, Rename)]
    ensures Final(env, rel) in t.files && t.files[Final(env, rel)] == Segment(records)
    ensures Tmp(env, rel) !in t.files
    ensures forall p :: p in s.files && p != Tmp(env, rel) && p != Final(env, rel) ==> p in t.files && t.files[p] == s.files[p]
  {
    TmpIsNotFinal(env, rel);
    hide Reached, Final, Tmp, Sidecar, Target;
    steps, t := before, s;
    Push(env, names, once, steps, t, OfTask(0, Open(rel)));
    steps, t := steps + [OfTask(0, Open(rel))], Next(env, t, OfTask(0, Open(rel)));
    Push(env, names, once, steps, t, OfTask(0, Finish(records)));
    steps, t := steps + [OfTask(0, Finish(records))], Next(env, t, OfTask(0, Finish(records)));
    Push(env, names, once, steps, t, OfTask(0, Rename));
    steps, t := steps + [OfTask(0, Rename)], Next(env, t, OfTask(0, Rename));
  }

  /** The writer completes the manifest. */
  lemma {:induction false} Seal(env: Env, names: set<string>, once: bool, before: seq<Step>, s: System, rel: string)
    returns (steps: seq<Step>, t: System)
    requires Reached(env, names, once, before, s) && 0 in s.tasks && s.tasks[0] == Task(rel, Renamed) && Final(env, rel) in s.files
    ensures Reached(env, names, once, steps, t)
    ensures t.tasks == s.tasks[0 := Task(rel, Enqueuing(env.bases))] && t.workers == s.workers && t.rows == s.rows && t.nextRow == s.nextRow
    ensures t.files == s.files[Sidecar(Final(env, rel)) := Manifest(rel, s.files[Final(env, rel)])]
    ensures t.moved == s.moved && t.made == s.made[rel := s.files[Final(env, rel)]] && t.delivered == s.delivered
    ensures steps == before + [OfTask(0, Hash), OfTask(0, BeginManifest), OfTask(0, EndManifest)]
  {
    hide Reached, Final, Tmp, Sidecar, Target;
    steps, t := before, s;
    Push(env, names, once, steps, t, OfTask(0, Hash));
    steps, t := steps + [OfTask(0, Hash)], Next(env, t, OfTask(0, Hash));
    Push(env, names, once, steps, t, OfTask(0, BeginManifest));
    steps, t := steps + [OfTask(0, BeginManifest)], Next(env, t, OfTask(0, BeginManifest));
    Push(env, names, once, steps, t, OfTask(0, EndManifest));
    steps, t := steps + [OfTask(0, EndManifest)], Next(env, t, OfTask(0, EndManifest));
  }

  /** The writer issues a job. */
  lemma {:induction false} Issue(env: Env, names: set<string>, once: bool, before: seq<Step>, s: System, rel: string, todo: set<string>, base: string)
    returns (steps: seq<Step>, t: System)
    requires Reached(env, names, once, before, s) && 0 in s.tasks && s.tasks[0] == Task(rel, Enqueuing(todo)) && base in todo
    ensures Reached(env, names, once, steps, t)
    ensures t.tasks == s.tasks[0 := Task(rel, Enqueuing(todo - {base}))] && t.workers == s.workers && t.files == s.files
    ensures t.rows == s.rows[s.nextRow := Row(rel, base, false)] && t.nextRow == s.nextRow + 1
    ensures t.moved == s.moved && t.made == s.made && t.delivered == s.delivered
  {
    hide Reached, Final, Tmp, Sidecar, Target;
    Push(env, names, once, before, s, OfTask(0, Enqueue(base)));
    steps, t := before + [OfTask(0, Enqueue(base))], Next(env, s, OfTask(0, Enqueue(base)));
  }

  /** The writer ends, with or without an error. */
  lemma {:induction false} Depart(env: Env, names: set<string>, once: bool, before: seq<Step>, s: System) returns (steps: seq<Step>, t: System)
    requires Reached(env, names, once, before, s) && 0 in s.tasks
    ensures Reached(env, names, once, steps, t) && t == s.(tasks := s.tasks - {0})
  {
    hide Reached, Final, Tmp, Sidecar, Target;
    Push(env, names, once, before, s, OfTask(0, Leave));
    steps, t := before + [OfTask(0, Leave)], Next(env, s, OfTask(0, Leave));
  }

  /** A segment is finalized and one job issued for it. */
  lemma {:induction false} Job(
    env: Env, names: set<string>, once: bool, before: seq<Step>, s: System, rel: string, records: seq<Rotation.Record>, base: string)
    returns (steps: seq<Step>, t: System)
    requires Reached(env, names, once, before, s) && 0 !in s.tasks && rel in names && base in env.bases && (once ==> rel !in s.moved)
    ensures Reached(env, names, once, steps, t)
    ensures t.tasks == s.tasks - {0} && t.workers == s.workers && t.delivered == s.delivered && t.moved == s.moved + {rel}
    ensures t.rows == s.rows[s.nextRow := Row(rel, base, false)] && t.nextRow == s.nextRow + 1
    ensures t.made == s.made[rel := Segment(records)]
    ensures Sidecar(Final(env, rel)) in t.files && t.files[Sidecar(Final(env, rel))] == Manifest(rel, Segment(records))
    ensures Final(env, rel) in t.files && t.files[Final(env, rel)] == Segment(records)
  {
    NotItsOwnSidecar(Final(env, rel));
    hide Reached, Final, Sidecar, Tmp;
    steps, t := Place(env, names, once, before, s, rel, records);
    steps, t := Seal(env, names, once, steps, t, rel);
    steps, t := Issue(env, names, once, steps, t, rel, env.bases, base);
    steps, t := Depart(env, names, once, steps, t);
  }

  /** From the start. */
  lemma {:induction false} FirstJob(env: Env, names: set<string>, once: bool, rel: string, records: seq<Rotation.Record>, base: string)
    returns (steps: seq<Step>, t: System)
    requires rel in names && base in env.bases
    ensures Reached(env, names, once, steps, t)
    ensures t.tasks == map[] && t.workers == map[] && t.rows == map[0 := Row(rel, base, false)] && t.nextRow == 1
    ensures t.moved == {rel} && t.made == map[rel := Segment(records)] && t.delivered == {}
    ensures Sidecar(Final(env, rel)) in t.files && t.files[Sidecar(Final(env, rel))] == Manifest(rel, Segment(records))
    ensures Final(env, rel) in t.files && t.files[Final(env, rel)] == Segment(records)
  {
    Begin(env, names, once);
    var init := Init();
    hide Reached, Final, Sidecar, Tmp;
    steps, t := Job(env, names, once, [], init, rel, records, base);
  }

  lemma {:induction false} NotItsOwnSidecar(path: string)
    ensures path != Sidecar(path)
  {
    assert |Sidecar(path)| == |path| + 5;
  }

  /** A crash before the rename and a writer that opens the same name again afterwards reuse no path. */
  lemma {:induction false} ReopenAfterCrash(env: Env, names: set<string>, rel: string, records: seq<Rotation.Record>) returns (steps: seq<Step>, t: System)
    requires rel in names
    ensures |steps| > 2 && steps[0] == OfTask(0, Open(rel)) && steps[1] == Restart && steps[2] == OfTask(0, Open(rel))
    ensures Reached(env, names, true, steps, t) && t.moved == {rel} && Final(env, rel) in t.files && t.files[Final(env, rel)] == Segment(records)
  {
    Begin(env, names, true);
    var s := Init();
    hide Reached, Final, Sidecar, Tmp;
    Push(env, names, true, [], s, OfTask(0, Open(rel)));
    s := Next(env, s, OfTask(0, Open(rel)));
    assert [] + [OfTask(0, Open(rel))] == [OfTask(0, Open(rel))];
    Push(env, names, true, [OfTask(0, Open(rel))], s, Restart);
    s := Next(env, s, Restart);
    steps, t := Place(env, names, true, [OfTask(0, Open(rel))] + [Restart], s, rel, records);
  }

  /** Start-up after the job was issued sweeps its files if they lie in the temporary root itself. */
  lemma {:induction false} SweptRow(env: Env, names: set<string>, rel: string, base: string) returns (steps: seq<Step>, t: System)
    requires rel in names && base in env.bases && !Spared(env, env.cfg.root, rel)
    ensures Reached(env, names, false, steps, t) && !RowsStored(env, t)
  {
    assert Final(env, rel) == Target(env.cfg.root, rel);
    steps, t := FirstJob(env, names, false, rel, [], base);
    Push(env, names, false, steps, t, Restart);
    steps, t := steps + [Restart], Next(env, t, Restart);
    hide Reached, Final, Sidecar, Target, DirectlyIn;
    assert 0 in t.rows && !Stored(env, t, t.rows[0].rel);
  }

  /** A segment whose temporary path is that of another segment takes that away when it is moved. */
  lemma {:induction false} MovedRow(env: Env, names: set<string>, rel: string, other: string, base: string) returns (steps: seq<Step>, t: System)
    requires rel in names && other in names && base in env.bases && Tmp(env, rel) == Final(env, other)
    ensures Reached(env, names, false, steps, t) && !RowsStored(env, t)
  {
    hide Reached, Final, Sidecar, Tmp;
    steps, t := FirstJob(env, names, false, other, [], base);
    steps, t := Place(env, names, false, steps, t, rel, []);
    assert 0 in t.rows && !Stored(env, t, t.rows[0].rel);
  }

  /**
   Exactly: in every run over these names each queue row's files are there at every crash point if and
   only if the temporary root holds no segments itself and no segment is at another's temporary path.
   */
  lemma {:induction false} RowsStoredIffSafe(env: Env, names: set<string>)
    requires env.bases != {}
    ensures AlwaysStored(env, names) <==> SafeNames(env, names)
  {
    if SafeNames(env, names) {
      forall steps | Run(env, Init(), steps) && OpensOnly(steps, names)
        ensures RowsStored(env, After(env, Init(), steps))
      {
        RowsNameExistingFiles(env, steps, names);
      }
    } else {
      var base :| base in env.bases;
      hide Run, After, OpensOnly, RowsStored, Final, Sidecar, Tmp, Spared;
      if rel :| rel in names && !Spared(env, env.cfg.root, rel) {
        var steps, t := SweptRow(env, names, rel, base);
      } else {
        var rel, other :| rel in names && other in names && Tmp(env, rel) == Final(env, other);
        var steps, t := MovedRow(env, names, rel, other, base);
      }
    }
  }
}
