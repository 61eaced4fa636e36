/** Runs from the start that deliver, and so exactly which paths keep every delivery right. */
module ReplicaPaths {
  import opened Durability
  import opened JobBook
  import opened CrashRuns
  import opened Replicas
  import Rotation

  /** A worker claims a job and reads the manifest. */
  lemma {:induction false} Take(env: Env, names: set<string>, once: bool, before: seq<Step>, s: System, id: nat, rel: string, base: string)
    returns (steps: seq<Step>, t: System)
    requires Reached(env, names, once, before, s) && 0 !in s.workers && id in s.rows && s.rows[id] == Row(rel, base, false)
    requires Sidecar(Final(env, rel)) in s.files && s.files[Sidecar(Final(env, rel))].Manifest? && s.files[Sidecar(Final(env, rel))].rel == rel
    ensures Reached(env, names, once, steps, t)
    ensures t == s.(workers := s.workers[0 := Work(id, Parsed, rel)], rows := s.rows[id := Row(rel, base, true)])
  {
    hide Reached, Final, Tmp, Sidecar, Target;
    steps, t := before, s;
    Push(env, names, once, steps, t, OfWorker(0, Claim(id)));
    steps, t := steps + [OfWorker(0, Claim(id))], Next(env, t, OfWorker(0, Claim(id)));
    Push(env, names, once, steps, t, OfWorker(0, Parse));
    steps, t := steps + [OfWorker(0, Parse)], Next(env, t, OfWorker(0, Parse));
  }

  /** What a copy leaves of `files`: truncated first, then filled from what is there. */
  function Copied(files: map<string, Content>, from: string, to: string): map<string, Content>
    requires from in files
  {
    files[to := if from == to then Torn else files[from]]
  }

  lemma {:induction false} CopySegment(env: Env, names: set<string>, once: bool, before: seq<Step>, s: System, id: nat, rel: string, base: string)
    returns (steps: seq<Step>, t: System)
    requires Reached(env, names, once, before, s)
    requires 0 in s.workers && s.workers[0] == Work(id, Parsed, rel) && id in s.rows && s.rows[id] == Row(rel, base, true)
    requires Final(env, rel) in s.files
    ensures Reached(env, names, once, steps, t)
    ensures t == s.(files := Copied(s.files, Final(env, rel), Target(base, rel)), workers := s.workers[0 := Work(id, SegmentDone, rel)])
  {
    hide Reached, Final, Tmp, Sidecar, Target;
    steps, t := before, s;
    Push(env, names, once, steps, t, OfWorker(0, BeginSegment));
    steps, t := steps + [OfWorker(0, BeginSegment)], Next(env, t, OfWorker(0, BeginSegment));
    Push(env, names, once, steps, t, OfWorker(0, EndSegment));
    steps, t := steps + [OfWorker(0, EndSegment)], Next(env, t, OfWorker(0, EndSegment));
  }

  /** It copies the manifest in the same way and records the success. */
  lemma {:induction false} CopySidecar(env: Env, names: set<string>, once: bool, before: seq<Step>, s: System, id: nat, rel: string, base: string)
    returns (steps: seq<Step>, t: System)
    requires Reached(env, names, once, before, s)
    requires 0 in s.workers && s.workers[0] == Work(id, SegmentDone, rel) && id in s.rows && s.rows[id] == Row(rel, base, true)
    requires Sidecar(Final(env, rel)) in s.files
    ensures Reached(env, names, once, steps, t)
    ensures t == s.(files := Copied(s.files, Sidecar(Final(env, rel)), Sidecar(Target(base, rel))), workers := s.workers - {0},
                    rows := s.rows - {id}, delivered := s.delivered + {(rel, base)})
  {
    hide Reached, Final, Tmp, Sidecar, Target;
    steps, t := before, s;
    Push(env, names, once, steps, t, OfWorker(0, BeginSidecar));
    steps, t := steps + [OfWorker(0, BeginSidecar)], Next(env, t, OfWorker(0, BeginSidecar));
    Push(env, names, once, steps, t, OfWorker(0, EndSidecar));
    steps, t := steps + [OfWorker(0, EndSidecar)], Next(env, t, OfWorker(0, EndSidecar));
    Push(env, names, once, steps, t, OfWorker(0, Succeed));
    steps, t := steps + [OfWorker(0, Succeed)], Next(env, t, OfWorker(0, Succeed));
  }

  /** A worker takes a job to its success. */
  lemma {:induction false} Deliver(env: Env, names: set<string>, once: bool, before: seq<Step>, s: System, id: nat, rel: string, base: string)
    returns (steps: seq<Step>, t: System)
    requires Reached(env, names, once, before, s) && s.workers == map[] && id in s.rows && s.rows[id] == Row(rel, base, false)
    requires Sidecar(Final(env, rel)) in s.files && s.files[Sidecar(Final(env, rel))].Manifest? && s.files[Sidecar(Final(env, rel))].rel == rel
    requires Final(env, rel) in s.files
    ensures Reached(env, names, once, steps, t)
    ensures var files := Copied(s.files, Final(env, rel), Target(base, rel));
            t == s.(files := Copied(files, Sidecar(Final(env, rel)), Sidecar(Target(base, rel))),
                    rows := s.rows - {id}, delivered := s.delivered + {(rel, base)})
  {
    hide Reached, Final, Tmp, Sidecar, Target;
    steps, t := Take(env, names, once, before, s, id, rel, base);
    steps, t := CopySegment(env, names, once, steps, t, id, rel, base);
    steps, t := CopySidecar(env, names, once, steps, t, id, rel, base);
    assert t.rows == s.rows - {id};
  }

  // ----- What goes wrong

  /**
   * With any replica apart from the archive, moving two segments onto one path can end in a success whose
   * manifest hashes another segment: the copy ran between the rename and the new manifest.
   */
  lemma {:induction false} ReuseTearsPair(
    env: Env, rel: string, base: string, first: seq<Rotation.Record>, second: seq<Rotation.Record>) returns (steps: seq<Step>)
    requires base in env.bases && Disjoint(base, env.cfg.root)
    ensures Run(env, Init(), steps)
    ensures var t := After(env, Init(), steps);
            && (rel, base) in t.delivered
            && Target(base, rel) in t.files && Sidecar(Target(base, rel)) in t.files
            && t.files[Target(base, rel)] == Segment(second)
            && t.files[Sidecar(Target(base, rel))] == Manifest(rel, Segment(first))
  {
    var t: System;
    TargetsApart(base, rel, env.cfg.root, rel);
    assert Final(env, rel) == Target(env.cfg.root, rel);
    NotItsOwnSidecar(Final(env, rel));
    NotItsOwnSidecar(Target(base, rel));
    TmpIsNoSidecar(env, rel, Final(env, rel));
    hide Run, After, Final, Sidecar, Target, Tmp, Disjoint, OpensOnly, NoReuse;
    steps, t := FirstJob(env, {rel}, false, rel, first, base);
    steps, t := Place(env, {rel}, false, steps, t, rel, second);
    steps, t := Deliver(env, {rel}, false, steps, t, 0, rel, base);
  }

  /** A replica on the archive root: the very first delivery ends in success with segment and manifest cut short. */
  lemma {:induction false} ReplicaOnRootTearsSegment(env: Env, rel: string, records: seq<Rotation.Record>) returns (steps: seq<Step>)
    requires env.cfg.root in env.bases
    ensures Run(env, Init(), steps) && OpensOnly(steps, {rel}) && NoReuse(env, Init(), steps)
    ensures var t := After(env, Init(), steps);
            && (rel, env.cfg.root) in t.delivered
            && Final(env, rel) in t.files && t.files[Final(env, rel)] == Torn
            && Sidecar(Final(env, rel)) in t.files && t.files[Sidecar(Final(env, rel))] == Torn
  {
    var t: System;
    var root := env.cfg.root;
    assert Final(env, rel) == Target(root, rel);
    NotItsOwnSidecar(Final(env, rel));
    hide Run, After, Final, Sidecar, Target, Tmp, OpensOnly, NoReuse;
    steps, t := FirstJob(env, {rel}, true, rel, records, root);
    steps, t := Deliver(env, {rel}, true, steps, t, 0, rel, root);
  }

  // ----- Every clash makes some delivery wrong

  lemma {:induction false} RightThen(env: Env, names: set<string>, steps: seq<Step>, s: System)
    requires AlwaysRight(env, names) && Reached(env, names, true, steps, s)
    ensures AllRight(env, s)
  {
    hide Run, After, OpensOnly, NoReuse, AllRight;
  }

  /** The archive or replica directory `dir` holds the segment that was made and its manifest. */
  ghost predicate HeldIn(s: System, dir: string, rel: string) {
    rel in s.made && PairAt(s, Target(dir, rel), rel, s.made[rel])
  }

  lemma {:induction false} RightIsHeld(env: Env, s: System, rel: string, base: string)
    requires AllRight(env, s) && (rel, base) in s.delivered
    ensures HeldIn(s, env.cfg.root, rel) && HeldIn(s, base, rel)
  {
    assert Right(env, s, rel, base);
    assert Final(env, rel) == Target(env.cfg.root, rel);
    hide Final, Target, Sidecar;
  }

  /** The replica through which a delivery shows what `dir` holds. */
  ghost function BaseFor(env: Env, dir: string): (base: string)
    requires env.bases != {} && Directory(env, dir)
    ensures base in env.bases && (dir == env.cfg.root || dir == base)
  {
    if dir in env.bases then dir else
      var base :| base in env.bases; base
  }

  lemma {:induction false} DeliverFirst(env: Env, names: set<string>, rel: string, base: string) returns (steps: seq<Step>, s: System)
    requires rel in names && base in env.bases
    ensures Reached(env, names, true, steps, s) && (rel, base) in s.delivered
    ensures s.tasks == map[] && s.workers == map[] && s.rows == map[] && s.nextRow == 1 && s.moved == {rel}
    ensures s.made == map[rel := Segment([])]
  {
    hide Reached, Final, Sidecar, Target;
    steps, s := FirstJob(env, names, true, rel, [], base);
    steps, s := Deliver(env, names, true, steps, s, 0, rel, base);
    assert map[0 := Row(rel, base, false)] - {0} == map[];
  }

  lemma {:induction false} RootIsNoReplica(env: Env, names: set<string>)
    requires AlwaysRight(env, names) && names != {}
    ensures env.cfg.root !in env.bases
  {
    if env.cfg.root in env.bases {
      var rel :| rel in names;
      assert Final(env, rel) == Target(env.cfg.root, rel);
      NotItsOwnSidecar(Final(env, rel));
      hide Reached, AlwaysRight, AllRight, Final, Sidecar, Target;
      var steps, s := FirstJob(env, names, true, rel, [], env.cfg.root);
      steps, s := Deliver(env, names, true, steps, s, 0, rel, env.cfg.root);
      RightThen(env, names, steps, s);
      RightIsHeld(env, s, rel, env.cfg.root);
    }
  }

  /** Start-up after the delivery leaves both files only if it spares them. */
  lemma {:induction false} SparedIfRight(env: Env, names: set<string>, rel: string, dir: string)
    requires AlwaysRight(env, names) && env.bases != {} && rel in names && Directory(env, dir)
    ensures Spared(env, dir, rel)
  {
    var base := BaseFor(env, dir);
    hide Reached, AlwaysRight, AllRight, Final, Sidecar, Target, DirectlyIn;
    var steps, s := DeliverFirst(env, names, rel, base);
    Push(env, names, true, steps, s, Restart);
    steps, s := steps + [Restart], Next(env, s, Restart);
    RightThen(env, names, steps, s);
    RightIsHeld(env, s, rel, base);
    assert HeldIn(s, dir, rel);
  }

  /** Opening a name after the delivery of another leaves its files only if its temporary path is elsewhere. */
  lemma {:induction false} TmpApartIfRight(env: Env, names: set<string>, rel: string, other: string, dir: string)
    requires AlwaysRight(env, names) && env.bases != {} && rel in names && other in names && Directory(env, dir)
    ensures Tmp(env, rel) != Target(dir, other)
  {
    var base := BaseFor(env, dir);
    hide Reached, AlwaysRight, AllRight, Final, Sidecar, Target, Tmp;
    var steps, s := DeliverFirst(env, names, other, base);
    Push(env, names, true, steps, s, OfTask(0, Open(rel)));
    steps, s := steps + [OfTask(0, Open(rel))], Next(env, s, OfTask(0, Open(rel)));
    RightThen(env, names, steps, s);
    RightIsHeld(env, s, other, base);
    assert HeldIn(s, dir, other) && s.made[other] == Segment([]);
  }

  /** Two segments held with their manifests lie apart. */
  lemma {:induction false} HeldApart(s: System, a: string, rel: string, b: string, other: string)
    requires HeldIn(s, a, rel) && HeldIn(s, b, other) && s.made[rel].Segment? && s.made[other].Segment?
    requires rel != other || Target(a, rel) != Target(b, other)
    ensures PathsApart(Target(a, rel), Target(b, other))
  {
    SidecarInjective(Target(a, rel), Target(b, other));
    hide Target, Sidecar;
  }

  lemma {:induction false} SameNameApart(a: string, b: string, rel: string)
    requires a != b
    ensures Target(a, rel) != Target(b, rel)
  {
    if |a| == |b| {
      assert Target(a, rel)[..|a|] == a && Target(b, rel)[..|b|] == b;
    }
  }

  /** One name in two directories. */
  lemma {:induction false} CopiesApartIfRight(env: Env, names: set<string>, rel: string, a: string, b: string)
    requires AlwaysRight(env, names) && env.bases != {} && rel in names && Directory(env, a) && Directory(env, b) && a != b
    ensures PathsApart(Target(a, rel), Target(b, rel))
  {
    SameNameApart(a, b, rel);
    hide Reached, AlwaysRight, AllRight, Final, Sidecar, Target, PathsApart, HeldIn;
    var steps, s;
    if a == env.cfg.root || b == env.cfg.root {
      var base := if a == env.cfg.root then b else a;
      steps, s := DeliverFirst(env, names, rel, base);
      RightThen(env, names, steps, s);
      RightIsHeld(env, s, rel, base);
    } else {
      steps, s := DeliverTwice(env, names, rel, a, b);
      RightThen(env, names, steps, s);
      RightIsHeld(env, s, rel, a);
      RightIsHeld(env, s, rel, b);
    }
    HeldApart(s, a, rel, b, rel);
  }

  lemma {:induction false} DeliverTwice(env: Env, names: set<string>, rel: string, a: string, b: string) returns (steps: seq<Step>, s: System)
    requires AlwaysRight(env, names) && rel in names && a in env.bases && b in env.bases && a != b
    ensures Reached(env, names, true, steps, s) && (rel, a) in s.delivered && (rel, b) in s.delivered
    ensures rel in s.made && s.made[rel] == Segment([])
  {
    Begin(env, names, true);
    var init := Init();
    assert Final(env, rel) == Target(env.cfg.root, rel);
    NotItsOwnSidecar(Final(env, rel));
    hide Reached, AlwaysRight, AllRight, Final, Sidecar, Target, Tmp;
    steps, s := Place(env, names, true, [], init, rel, []);
    steps, s := Seal(env, names, true, steps, s, rel);
    steps, s := Issue(env, names, true, steps, s, rel, env.bases, a);
    steps, s := Issue(env, names, true, steps, s, rel, env.bases - {a}, b);
    steps, s := Depart(env, names, true, steps, s);
    steps, s := Deliver(env, names, true, steps, s, 0, rel, a);
    RightThen(env, names, steps, s);
    RightIsHeld(env, s, rel, a);
    steps, s := Deliver(env, names, true, steps, s, 1, rel, b);
  }

  /** Two names. */
  lemma {:induction false} NamesApartIfRight(env: Env, names: set<string>, rel: string, a: string, other: string, b: string)
    requires AlwaysRight(env, names) && env.bases != {} && rel in names && other in names && rel != other
    requires Directory(env, a) && Directory(env, b)
    ensures PathsApart(Target(a, rel), Target(b, other))
  {
    var base, last := BaseFor(env, a), BaseFor(env, b);
    hide Reached, AlwaysRight, AllRight, Final, Sidecar, Target, PathsApart, HeldIn;
    var steps, s := DeliverFirst(env, names, rel, base);
    steps, s := Job(env, names, true, steps, s, other, [], last);
    steps, s := Deliver(env, names, true, steps, s, 1, other, last);
    RightThen(env, names, steps, s);
    RightIsHeld(env, s, rel, base);
    RightIsHeld(env, s, other, last);
    HeldApart(s, a, rel, b, other);
  }

  /**
   * Exactly: over all runs that reuse no path, whatever fails or crashes, every delivery leaves the archive
   * and the destination with the segment that was made and its manifest, if and only if nothing clashes.
   */
  lemma {:induction false} AlwaysRightIffNoClash(env: Env, names: set<string>)
    requires env.bases != {}
    ensures AlwaysRight(env, names) <==> NoClash(env, names)
  {
    hide Tmp, Target, Spared, PathsApart, Directory, Run, After, NoReuse, OpensOnly, Right;
    if NoClash(env, names) {
      forall steps | Run(env, Init(), steps) && OpensOnly(steps, names) && NoReuse(env, Init(), steps)
        ensures AllRight(env, After(env, Init(), steps))
      {
        forall rel, base | (rel, base) in After(env, Init(), steps).delivered
          ensures Right(env, After(env, Init(), steps), rel, base)
        {
          DeliveredIsWhatWasFinalized(env, steps, names, rel, base);
        }
      }
    }
    if AlwaysRight(env, names) {
      hide AlwaysRight;
      NoClashIfRight(env, names);
    }
  }

  lemma {:induction false} NoClashIfRight(env: Env, names: set<string>)
    requires env.bases != {} && AlwaysRight(env, names)
    ensures NoClash(env, names)
  {
    hide Tmp, Target, Spared, PathsApart, Directory, AlwaysRight;
    if names != {} {
      RootIsNoReplica(env, names);
    }
    forall rel, dir | rel in names && Directory(env, dir)
      ensures Spared(env, dir, rel)
    {
      SparedIfRight(env, names, rel, dir);
    }
    forall rel, other, dir | rel in names && other in names && Directory(env, dir)
      ensures Tmp(env, rel) != Target(dir, other)
    {
      TmpApartIfRight(env, names, rel, other, dir);
    }
    forall rel, other, a, b | rel in names && other in names && Directory(env, a) && Directory(env, b) && (rel != other || a != b)
      ensures PathsApart(Target(a, rel), Target(b, other))
    {
      if rel == other {
        CopiesApartIfRight(env, names, rel, a, b);
      } else {
        NamesApartIfRight(env, names, rel, a, other, b);
      }
    }
  }
}
