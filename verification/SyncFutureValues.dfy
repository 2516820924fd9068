/** The results of a `SyncFuture` against the calls of a run (core/future.h:519-542, 581-589): what `get` finds is what
    the promises were last completed with. The history here is read off the steps alone. */
module SyncFutureValues {
  import opened Util
  import opened SyncFuture

  ghost function Created(steps: seq<Step>): set<Promise>
    decreases |steps|
  {
    if steps == [] then {} else Created(Front(steps)) + if Last(steps).Create? then {Last(steps).p} else {}
  }

  /** The last value that promise `p` was given. */
  ghost function LastValue(steps: seq<Step>, p: Promise): Option<int>
    decreases |steps|
  {
    if steps == [] then None
    else if Last(steps).SetValue? && Last(steps).p == p then Some(Last(steps).value)
    else LastValue(Front(steps), p)
  }

  /** The last exception that promise `p` was given. */
  ghost function LastError(steps: seq<Step>, p: Promise): Option<int>
    decreases |steps|
  {
    if steps == [] then None
    else if Last(steps).SetException? && Last(steps).p == p then Some(Last(steps).error)
    else LastError(Front(steps), p)
  }

  ghost function Lookup(m: map<Promise, int>, p: Promise): Option<int> {
    if p in m then Some(m[p]) else None
  }

  ghost predicate Recorded(s: State, steps: seq<Step>) {
    && s.promises == Created(steps)
    && (forall p :: Lookup(s.values, p) == LastValue(steps, p))
    && (forall p :: Lookup(s.errors, p) == LastError(steps, p))
  }

  lemma {:induction false} RunsLast(s0: State, steps: seq<Step>, s: State) returns (mid: State)
    requires steps != [] && FreeRuns(s0, steps, s)
    ensures FreeRuns(s0, Front(steps), mid) && Can(mid, Last(steps)) && s == Do(mid, Last(steps))
    decreases |steps|
  {
    var next := Do(s0, steps[0]);
    if |steps| == 1 {
      mid := s0;
      assert steps[1..] == [] && Front(steps) == [];
    } else {
      mid := RunsLast(next, steps[1..], s);
      assert Front(steps)[1..] == Front(steps[1..]) && Front(steps)[0] == steps[0];
    }
  }

  lemma RecordedStep(s: State, steps: seq<Step>)
    requires steps != [] && Recorded(s, Front(steps)) && Can(s, Last(steps))
    ensures Recorded(Do(s, Last(steps)), steps)
  {
    var s' := Do(s, Last(steps));
    forall p ensures Lookup(s'.values, p) == LastValue(steps, p) && Lookup(s'.errors, p) == LastError(steps, p) {
      assert Lookup(s.values, p) == LastValue(Front(steps), p) && Lookup(s.errors, p) == LastError(Front(steps), p);
    }
  }

  /** In every run from the start, overlapping completions included, each promise has the value and the exception that
      it was last given, whichever completion counted. */
  lemma {:induction false} ResultsAreLast(s0: State, steps: seq<Step>, s: State)
    requires IsInit(s0) && FreeRuns(s0, steps, s)
    ensures Recorded(s, steps)
    decreases |steps|
  {
    if steps != [] {
      var mid := RunsLast(s0, steps, s);
      ResultsAreLast(s0, Front(steps), mid);
      RecordedStep(mid, steps);
    }
  }

  lemma {:induction false} RunsAreFree(s0: State, steps: seq<Step>, s: State)
    requires Runs(s0, steps, s)
    ensures FreeRuns(s0, steps, s)
    decreases |steps|
  {
    if steps != [] {
      RunsAreFree(Do(s0, steps[0]), steps[1..], s);
    }
  }

  /** `get` returns only when every promise created was completed by some call of the run, and it then finds what these
      calls gave last. */
  lemma GetReturnsLast(s0: State, steps: seq<Step>, s: State, w: Tid)
    requires IsInit(s0) && Runs(s0, steps, s) && w in s.waiters && s.waiters[w] == Returned
    ensures forall p <- Created(steps) :: LastValue(steps, p).Some? || LastError(steps, p).Some?
    ensures forall p :: Lookup(s.values, p) == LastValue(steps, p) && Lookup(s.errors, p) == LastError(steps, p)
  {
    RunsAreFree(s0, steps, s);
    ResultsAreLast(s0, steps, s);
    GetReturnsComplete(s, w);
    forall p <- Created(steps) ensures LastValue(steps, p).Some? || LastError(steps, p).Some? {
      assert Lookup(s.values, p) == LastValue(steps, p) && Lookup(s.errors, p) == LastError(steps, p);
    }
  }
}
