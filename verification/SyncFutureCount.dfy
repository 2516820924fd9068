/** Exactly the runs without overlap lower the count of a `SyncFuture` once for each completed promise
    (core/future.h:519-542, 616-622). */
module SyncFutureCount {
  import opened SyncFuture

  /** The threads that are going to lower the count, and the promises they do it for. */
  ghost function Bound(completers: map<Tid, Completer>): set<Tid> {
    set c | c in completers && (completers[c].Marking? || completers[c].Lowering?)
  }

  ghost function Aims(completers: map<Tid, Completer>): set<Promise> {
    set c | c in Bound(completers) :: completers[c].p
  }

  /** By how much the count is or is going to be lowered too often. */
  ghost function Excess(s: State): int {
    |s.promises - (s.lowered + Aims(s.completers))| + |Bound(s.completers)| - s.count
  }

  /** Where a thread may be in any run, overlapping or not. */
  ghost predicate FreeSite(s: State, x: Completer) {
    match x
    case Checking(p) => p in s.promises
    case Marking(p) => p in s.promises
    case Lowering(p) => p in s.done
    case _ => true
  }

  ghost predicate FreeInv(s: State) {
    s.lowered <= s.done <= s.promises && forall c :: c in s.completers ==> FreeSite(s, s.completers[c])
  }

  lemma FreeStep(s: State, step: Step)
    requires FreeInv(s) && Can(s, step)
    ensures FreeInv(Do(s, step))
  {
    var s' := Do(s, step);
    if step.Check? || step.Mark? || step.Lower? {
      assert FreeSite(s, s.completers[step.c]);
    }
    forall c | c in s'.completers ensures FreeSite(s', s'.completers[c]) {
      assert FreeSite(s, s.completers[c]);
    }
  }

  // ---------------------------------------------------------------------------------------------
  // How one thread's move changes the bound threads and their aims

  /** A thread that is bound neither before nor after. */
  lemma Unbound(completers: map<Tid, Completer>, c: Tid, x: Completer)
    requires c in completers && c !in Bound(completers) && !x.Marking? && !x.Lowering?
    ensures Bound(completers[c := x]) == Bound(completers) && Aims(completers[c := x]) == Aims(completers)
  {
    var after := completers[c := x];
    assert Bound(after) == Bound(completers);
    forall d | d in Bound(completers) ensures after[d] == completers[d] {
    }
  }

  /** A thread that becomes bound to `p`. */
  lemma Binds(completers: map<Tid, Completer>, c: Tid, p: Promise)
    requires c in completers && c !in Bound(completers)
    ensures var after := completers[c := Marking(p)];
      Bound(after) == Bound(completers) + {c} && Aims(after) == Aims(completers) + {p}
  {
    var after := completers[c := Marking(p)];
    assert Bound(after) == Bound(completers) + {c};
    forall q | q in Aims(completers) + {p} ensures q in Aims(after) {
      if q == p {
        assert c in Bound(after) && after[c].p == p;
      } else {
        var d :| d in Bound(completers) && completers[d].p == q;
        assert d in Bound(after) && after[d].p == q;
      }
    }
  }

  /** A thread that goes from marking to lowering. */
  lemma StaysBound(completers: map<Tid, Completer>, c: Tid, p: Promise)
    requires c in completers && completers[c] == Marking(p)
    ensures var after := completers[c := Lowering(p)];
      Bound(after) == Bound(completers) && Aims(after) == Aims(completers)
  {
    var after := completers[c := Lowering(p)];
    assert Bound(after) == Bound(completers);
    forall d | d in Bound(completers) ensures after[d].p == completers[d].p {
    }
    forall q | q in Aims(completers) ensures q in Aims(after) {
      var d :| d in Bound(completers) && completers[d].p == q;
      assert d in Bound(after) && after[d].p == q;
    }
  }

  /** A thread that has lowered the count for `p`. */
  lemma Unbinds(completers: map<Tid, Completer>, c: Tid, p: Promise, x: Completer)
    requires c in completers && completers[c] == Lowering(p) && !x.Marking? && !x.Lowering?
    ensures var after := completers[c := x];
      Bound(after) == Bound(completers) - {c} && Aims(after) + {p} == Aims(completers) && c in Bound(completers)
  {
    var after := completers[c := x];
    assert Bound(after) == Bound(completers) - {c};
    assert c in Bound(completers) && completers[c].p == p;
    forall q | q in Aims(completers) ensures q in Aims(after) + {p} {
      var d :| d in Bound(completers) && completers[d].p == q;
      assert d != c ==> d in Bound(after) && after[d].p == q;
    }
  }

  // ---------------------------------------------------------------------------------------------
  // The excess rises with each overlap and never falls

  lemma CreateExcess(s: State, p: Promise)
    requires FreeInv(s) && Can(s, Create(p))
    ensures Excess(Do(s, Create(p))) == Excess(s)
  {
    assert Bound(s.completers) == {};
    OneMore(s.promises, s.lowered + Aims(s.completers), p);
  }

  /** A thread that finds the flag clear raises the excess exactly if another one has found it clear too. */
  lemma CheckExcess(s: State, c: Tid)
    requires FreeInv(s) && Can(s, Check(c)) && !Overlap(s)
    ensures Excess(Do(s, Check(c))) == Excess(s) + if Overlap(Do(s, Check(c))) then 1 else 0
  {
    CheckRaises(s, c);
    CheckOverlaps(s, c);
  }

  lemma CheckRaises(s: State, c: Tid)
    requires FreeInv(s) && Can(s, Check(c))
    ensures var p := s.completers[c].p;
      Excess(Do(s, Check(c))) == Excess(s) + if p !in s.done && p in Aims(s.completers) then 1 else 0
  {
    var p := s.completers[c].p;
    assert FreeSite(s, s.completers[c]) && c !in Bound(s.completers);
    if p in s.done {
      Unbound(s.completers, c, Idle);
    } else {
      Binds(s.completers, c, p);
      var a, b := s.lowered + Aims(s.completers), s.promises;
      if p in Aims(s.completers) {
        assert Aims(s.completers) + {p} == Aims(s.completers);
      } else {
        assert b - (s.lowered + (Aims(s.completers) + {p})) == (b - a) - {p};
        assert p in b - a;
      }
    }
  }

  lemma CheckOverlaps(s: State, c: Tid)
    requires FreeInv(s) && Can(s, Check(c)) && !Overlap(s)
    ensures var p := s.completers[c].p;
      Overlap(Do(s, Check(c))) <==> p !in s.done && p in Aims(s.completers)
  {
    if Overlap(Do(s, Check(c))) {
      OverlapFrom(s, c);
    }
    if s.completers[c].p !in s.done && s.completers[c].p in Aims(s.completers) {
      OverlapArises(s, c);
    }
  }

  lemma OverlapArises(s: State, c: Tid)
    requires FreeInv(s) && Can(s, Check(c)) && s.completers[c].p !in s.done && s.completers[c].p in Aims(s.completers)
    ensures Overlap(Do(s, Check(c)))
  {
    var p, s' := s.completers[c].p, Do(s, Check(c));
    var d :| d in Bound(s.completers) && s.completers[d].p == p;
    assert FreeSite(s, s.completers[d]);
    assert d != c && s'.completers[d] == s'.completers[c] == Marking(p);
  }

  /** An overlap was there before, or the checking thread is part of it. */
  lemma OverlapFrom(s: State, c: Tid)
    requires Can(s, Check(c)) && Overlap(Do(s, Check(c)))
    ensures Overlap(s) || (s.completers[c].p !in s.done && s.completers[c].p in Aims(s.completers))
  {
    var s' := Do(s, Check(c));
    var d, e :| d in s'.completers && e in s'.completers && d != e
      && s'.completers[d].Marking? && s'.completers[d] == s'.completers[e];
    if d == c {
      assert e in Bound(s.completers) && s.completers[e].p == s.completers[c].p;
    } else if e == c {
      assert d in Bound(s.completers) && s.completers[d].p == s.completers[c].p;
    } else {
      assert s.completers[d] == s.completers[e];
    }
  }

  lemma MarkExcess(s: State, c: Tid)
    requires FreeInv(s) && Can(s, Mark(c))
    ensures Excess(Do(s, Mark(c))) == Excess(s)
  {
    StaysBound(s.completers, c, s.completers[c].p);
  }

  lemma LowerExcess(s: State, c: Tid)
    requires FreeInv(s) && Can(s, Lower(c))
    ensures Excess(Do(s, Lower(c))) == Excess(s)
  {
    var p, s' := s.completers[c].p, Do(s, Lower(c));
    Unbinds(s.completers, c, p, s'.completers[c]);
    assert s'.lowered + Aims(s'.completers) == s.lowered + Aims(s.completers);
  }

  lemma OtherExcess(s: State, step: Step)
    requires FreeInv(s) && Can(s, step) && !step.Create? && !step.Check? && !step.Mark? && !step.Lower?
    ensures Excess(Do(s, step)) == Excess(s)
  {
    if step.SetValue? || step.SetException? || step.Resume? {
      Unbound(s.completers, step.c, Do(s, step).completers[step.c]);
    }
  }

  /** Other steps than such a check do not create an overlap. */
  lemma NoNewOverlap(s: State, step: Step)
    requires Can(s, step) && !step.Check?
    ensures Overlap(Do(s, step)) ==> Overlap(s)
  {
    var s' := Do(s, step);
    if Overlap(s') {
      var d, e :| d in s'.completers && e in s'.completers && d != e
        && s'.completers[d].Marking? && s'.completers[d] == s'.completers[e];
      assert s.completers[d] == s'.completers[d] && s.completers[e] == s'.completers[e];
    }
  }

  lemma ExcessStep(s: State, step: Step)
    requires FreeInv(s) && Can(s, step)
    ensures Excess(s) <= Excess(Do(s, step))
    ensures !Overlap(s) ==> (Excess(s) == Excess(Do(s, step)) <==> !Overlap(Do(s, step)))
  {
    match step
    case Create(p) => CreateExcess(s, p);
    case Check(c) =>
      CheckRaises(s, c);
      if !Overlap(s) {
        CheckExcess(s, c);
      }
    case Mark(c) => MarkExcess(s, c);
    case Lower(c) => LowerExcess(s, c);
    case _ => OtherExcess(s, step);
    if !step.Check? {
      NoNewOverlap(s, step);
    }
  }

  lemma {:induction false} ExcessNeverFalls(s: State, steps: seq<Step>, s': State)
    requires FreeInv(s) && FreeRuns(s, steps, s')
    ensures Excess(s) <= Excess(s') && FreeInv(s')
    decreases |steps|
  {
    if steps != [] {
      FreeStep(s, steps[0]);
      ExcessStep(s, steps[0]);
      ExcessNeverFalls(Do(s, steps[0]), steps[1..], s');
    }
  }

  lemma {:induction false} ExcessInRun(s: State, steps: seq<Step>, s': State)
    requires FreeInv(s) && !Overlap(s) && FreeRuns(s, steps, s')
    ensures Excess(s) == Excess(s') <==> Runs(s, steps, s')
    decreases |steps|
  {
    if steps != [] {
      var s1 := Do(s, steps[0]);
      FreeStep(s, steps[0]);
      ExcessStep(s, steps[0]);
      ExcessNeverFalls(s1, steps[1..], s');
      if !Overlap(s1) {
        ExcessInRun(s1, steps[1..], s');
      }
    }
  }

  /** For every run from the start, at any point where no thread is about to lower the count: the count is the number of
      outstanding promises if and only if in no state of the run two threads had found the flag of one promise clear
      and not yet set it. */
  lemma CountedOnceIff(s0: State, steps: seq<Step>, s: State)
    requires IsInit(s0) && FreeRuns(s0, steps, s)
    requires forall c :: c in s.completers ==> !s.completers[c].Marking? && !s.completers[c].Lowering?
    ensures s.count == |s.promises - s.lowered| <==> Runs(s0, steps, s)
    ensures s.count <= |s.promises - s.lowered|
  {
    assert Bound(s0.completers) == {} && Bound(s.completers) == {};
    assert s0.promises - (s0.lowered + Aims(s0.completers)) == {};
    assert s.lowered + Aims(s.completers) == s.lowered;
    ExcessInRun(s0, steps, s);
    ExcessNeverFalls(s0, steps, s);
  }
}
