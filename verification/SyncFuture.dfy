/** The latch of `SyncFuture` (core/future.h:508-638) over `ConditionWrapper` (core/future.h:69-99): any number of
    threads complete promises and any number wait in `get`, as atomic steps. The promises are created before the first
    of them is completed or waited for. A signalled condition wakes at least one sleeper (`pthread_cond_signal`,
    core/thread.h:65-68), and a sleeper may also wake for no reason. */
module SyncFuture {
  import opened Util

  type Tid = nat
  type Promise = nat

  /** Where a thread is inside `set_value` or `set_exception`: before reading `_done`, before setting it, before
      lowering the count, before `resume`. */
  datatype Completer = Idle | Checking(p: Promise) | Marking(p: Promise) | Lowering(p: Promise) | Resuming

  /** Where a thread is inside `get`: before it, before `yield` takes the lock, asleep, awake again, after `wait`. */
  datatype Waiter = Out | Yielding | Sleeping | Woken | Returned

  /** `done` holds the promises whose flag is set, `lowered` those for which `done()` lowered the count; `left` records
      the waiters still asleep after the signal. */
  datatype State = State(
    promises: set<Promise>, values: map<Promise, int>, errors: map<Promise, int>, done: set<Promise>,
    lowered: set<Promise>, count: int, ready: bool,
    completers: map<Tid, Completer>, waiters: map<Tid, Waiter>, left: set<Tid>)

  datatype Step =
    | Create(p: Promise)
    | SetValue(c: Tid, p: Promise, value: int) | SetException(c: Tid, p: Promise, error: int)
    | Check(c: Tid) | Mark(c: Tid) | Lower(c: Tid) | Resume(c: Tid, woken: set<Tid>)
    | Enter(w: Tid) | Yield(w: Tid) | Stir(w: Tid) | Recheck(w: Tid)

  ghost function Sleepers(waiters: map<Tid, Waiter>): set<Tid> {
    set w | w in waiters && waiters[w] == Sleeping
  }

  ghost predicate Can(s: State, step: Step) {
    match step
    case Create(p) =>
      && p !in s.promises && s.done == {}
      && (forall c :: c in s.completers ==> s.completers[c] == Idle)
      && (forall w :: w in s.waiters ==> s.waiters[w] == Out)
    case SetValue(c, p, _) => c in s.completers && s.completers[c] == Idle && p in s.promises
    case SetException(c, p, _) => c in s.completers && s.completers[c] == Idle && p in s.promises
    case Check(c) => c in s.completers && s.completers[c].Checking?
    case Mark(c) => c in s.completers && s.completers[c].Marking?
    case Lower(c) => c in s.completers && s.completers[c].Lowering?
    case Resume(c, woken) =>
      && c in s.completers && s.completers[c].Resuming?
      && woken <= Sleepers(s.waiters) && (woken == {} ==> Sleepers(s.waiters) == {})
    case Enter(w) => w in s.waiters && s.waiters[w] == Out
    case Yield(w) => w in s.waiters && s.waiters[w] == Yielding
    case Stir(w) => w in s.waiters && s.waiters[w] == Sleeping
    case Recheck(w) => w in s.waiters && s.waiters[w] == Woken
  }

  ghost function Wake(waiters: map<Tid, Waiter>, woken: set<Tid>): map<Tid, Waiter> {
    map w | w in waiters :: if w in woken then Woken else waiters[w]
  }

  ghost function Do(s: State, step: Step): State
    requires Can(s, step)
  {
    match step
    case Create(p) => s.(promises := s.promises + {p}, count := s.count + 1, ready := s.ready && s.count + 1 != 1)
    case SetValue(c, p, x) => s.(values := s.values[p := x], completers := s.completers[c := Checking(p)])
    case SetException(c, p, x) => s.(errors := s.errors[p := x], completers := s.completers[c := Checking(p)])
    case Check(c) =>
      var p := s.completers[c].p;
      s.(completers := s.completers[c := if p in s.done then Idle else Marking(p)])
    case Mark(c) =>
      var p := s.completers[c].p;
      s.(done := s.done + {p}, completers := s.completers[c := Lowering(p)])
    case Lower(c) =>
      s.(lowered := s.lowered + {s.completers[c].p}, count := s.count - 1,
         completers := s.completers[c := if s.count - 1 == 0 then Resuming else Idle])
    case Resume(c, woken) =>
      if s.ready then s.(completers := s.completers[c := Idle]) else
      s.(ready := true, waiters := Wake(s.waiters, woken), left := Sleepers(s.waiters) - woken,
         completers := s.completers[c := Idle])
    case Enter(w) => s.(waiters := s.waiters[w := if s.count != 0 then Yielding else Returned])
    case Yield(w) => s.(waiters := s.waiters[w := if s.ready then Returned else Sleeping])
    case Stir(w) => s.(waiters := s.waiters[w := Woken])
    case Recheck(w) => s.(waiters := s.waiters[w := if s.ready then Returned else Sleeping])
  }

  // ---------------------------------------------------------------------------------------------
  // Invariant

  /** Two threads have found the flag of one promise clear and neither has set it. */
  ghost predicate Overlap(s: State) {
    exists c, d :: c in s.completers && d in s.completers && c != d
      && s.completers[c].Marking? && s.completers[c] == s.completers[d]
  }

  ghost predicate Sets(s: State) {
    s.lowered <= s.done <= s.promises && s.done <= s.values.Keys + s.errors.Keys
  }

  ghost predicate CountOk(s: State) {
    s.count == |s.promises - s.lowered|
  }

  ghost predicate Site(s: State, x: Completer) {
    match x
    case Idle => true
    case Checking(p) => p in s.promises && p in s.values.Keys + s.errors.Keys
    case Marking(p) => p in s.promises && p in s.values.Keys + s.errors.Keys && p !in s.done
    case Lowering(p) => p in s.done && p !in s.lowered
    case Resuming => !s.ready && s.lowered == s.promises && s.promises != {}
  }

  ghost predicate Sites(s: State) {
    forall c :: c in s.completers ==> Site(s, s.completers[c])
  }

  /** One thread at a time between setting the flag and the end of `done()`. */
  ghost predicate Unique(s: State) {
    forall c, d :: c in s.completers && d in s.completers && c != d && s.completers[c] == s.completers[d] ==>
      s.completers[c] == Idle || s.completers[c].Checking?
  }

  ghost predicate Under(s: State, x: Completer) {
    exists c :: c in s.completers && s.completers[c] == x
  }

  ghost predicate FlagsCarried(s: State) {
    forall p :: p in s.done && p !in s.lowered ==> Under(s, Lowering(p))
  }

  ghost predicate LatchOk(s: State) {
    && (s.ready ==> s.lowered == s.promises && Sleepers(s.waiters) <= s.left)
    && (s.lowered == s.promises && s.promises != {} ==> s.ready || Under(s, Resuming))
  }

  ghost predicate GetOk(s: State) {
    forall w :: w in s.waiters && s.waiters[w] == Returned ==> s.lowered == s.promises
  }

  ghost predicate Inv(s: State) {
    Sets(s) && CountOk(s) && Sites(s) && Unique(s) && FlagsCarried(s) && LatchOk(s) && GetOk(s)
  }

  lemma SetsStep(s: State, step: Step)
    requires Sets(s) && Sites(s) && Can(s, step)
    ensures Sets(Do(s, step))
  {
    if step.Check? || step.Mark? || step.Lower? {
      assert Site(s, s.completers[step.c]);
    }
  }

  lemma CountStep(s: State, step: Step)
    requires Sets(s) && CountOk(s) && Sites(s) && Can(s, step)
    ensures CountOk(Do(s, step))
  {
    match step
    case Create(p) => CountCreate(s, p);
    case Lower(c) => CountLower(s, c);
    case _ => CountSame(s, step);
  }

  lemma CountCreate(s: State, p: Promise)
    requires Sets(s) && CountOk(s) && Can(s, Create(p))
    ensures CountOk(Do(s, Create(p)))
  {
    OneMore(s.promises, s.lowered, p);
  }

  lemma OneMore(promises: set<Promise>, lowered: set<Promise>, p: Promise)
    requires p !in promises && p !in lowered
    ensures |promises + {p} - lowered| == |promises - lowered| + 1
  {
    assert promises + {p} - lowered == (promises - lowered) + {p};
  }

  lemma CountLower(s: State, c: Tid)
    requires Sets(s) && CountOk(s) && Sites(s) && Can(s, Lower(c))
    ensures CountOk(Do(s, Lower(c)))
  {
    var p := s.completers[c].p;
    assert Site(s, Lowering(p));
    assert s.promises - (s.lowered + {p}) == (s.promises - s.lowered) - {p};
  }

  lemma CountSame(s: State, step: Step)
    requires CountOk(s) && Can(s, step) && !step.Create? && !step.Lower?
    ensures CountOk(Do(s, step))
  {
  }

  /** The thread that moves arrives where it may be. */
  lemma MoverStep(s: State, step: Step, c: Tid)
    requires Sets(s) && CountOk(s) && Sites(s) && LatchOk(s) && Can(s, step) && CountOk(Do(s, step))
    requires c in s.completers && s.completers[c] != Do(s, step).completers[c]
    ensures Site(Do(s, step), Do(s, step).completers[c])
  {
    assert Site(s, s.completers[c]);
  }

  /** The others are still where they may be. */
  lemma OtherStep(s: State, step: Step, c: Tid)
    requires Sets(s) && CountOk(s) && Sites(s) && Unique(s) && LatchOk(s) && Can(s, step)
    requires c in s.completers && s.completers[c] == Do(s, step).completers[c]
    ensures Site(Do(s, step), s.completers[c])
  {
    assert Site(s, s.completers[c]);
    if step.Mark? || step.Lower? || step.Resume? {
      assert Site(s, s.completers[step.c]);
    }
  }

  lemma SitesStep(s: State, step: Step)
    requires Sets(s) && CountOk(s) && Sites(s) && Unique(s) && LatchOk(s) && Can(s, step)
    ensures Sites(Do(s, step))
  {
    CountStep(s, step);
    forall c | c in Do(s, step).completers ensures Site(Do(s, step), Do(s, step).completers[c]) {
      if s.completers[c] == Do(s, step).completers[c] {
        OtherStep(s, step, c);
      } else {
        MoverStep(s, step, c);
      }
    }
  }

  /** The promise that is lowered last is the only one that leads to `resume`. */
  lemma UniqueStep(s: State, step: Step)
    requires Sets(s) && CountOk(s) && Sites(s) && Unique(s) && Can(s, step) && !Overlap(Do(s, step))
    ensures Unique(Do(s, step))
  {
    var s' := Do(s, step);
    forall c, d | c in s'.completers && d in s'.completers && c != d && s'.completers[c] == s'.completers[d]
      ensures s'.completers[c] == Idle || s'.completers[c].Checking?
    {
      assert Site(s, s.completers[c]) && Site(s, s.completers[d]);
    }
  }

  lemma FlagsStep(s: State, step: Step)
    requires Sets(s) && Sites(s) && FlagsCarried(s) && Can(s, step)
    ensures FlagsCarried(Do(s, step))
  {
    var s' := Do(s, step);
    forall p | p in s'.done && p !in s'.lowered ensures Under(s', Lowering(p)) {
      if step.Mark? && s.completers[step.c].p == p {
        assert s'.completers[step.c] == Lowering(p);
      } else {
        var c :| c in s.completers && s.completers[c] == Lowering(p);
        assert s'.completers[c] == Lowering(p);
      }
    }
  }

  lemma LatchStep(s: State, step: Step)
    requires Sets(s) && CountOk(s) && Sites(s) && LatchOk(s) && Can(s, step)
    ensures LatchOk(Do(s, step))
  {
    var s' := Do(s, step);
    CountStep(s, step);
    if s'.ready {
      SleepersStep(s, step);
    }
    if step.Lower? {
      assert Site(s, s.completers[step.c]);
      assert s'.lowered == s'.promises ==> s'.completers[step.c] == Resuming;
    } else if Under(s, Resuming) && !step.Create? {
      var c :| c in s.completers && s.completers[c] == Resuming;
      assert step.Resume? || s'.completers[c] == Resuming;
    }
    if step.Create? {
      assert step.p in s'.promises && step.p !in s'.lowered;
    }
  }

  /** Nobody falls asleep once the latch is open. */
  lemma SleepersStep(s: State, step: Step)
    requires Sets(s) && LatchOk(s) && Can(s, step) && Do(s, step).ready
    ensures Sleepers(Do(s, step).waiters) <= Do(s, step).left
  {
  }

  lemma GetStep(s: State, step: Step)
    requires Sets(s) && CountOk(s) && Sites(s) && LatchOk(s) && GetOk(s) && Can(s, step)
    ensures GetOk(Do(s, step))
  {
    if step.Enter? && s.count == 0 {
      assert s.promises - s.lowered == {};
    }
    if step.Lower? {
      assert Site(s, s.completers[step.c]);
    }
  }

  lemma StepKeepsInv(s: State, step: Step)
    requires Inv(s) && Can(s, step) && !Overlap(Do(s, step))
    ensures Inv(Do(s, step))
  {
    SetsStep(s, step);
    CountStep(s, step);
    SitesStep(s, step);
    UniqueStep(s, step);
    FlagsStep(s, step);
    LatchStep(s, step);
    GetStep(s, step);
  }

  // ---------------------------------------------------------------------------------------------
  // Runs

  ghost predicate IsInit(s: State) {
    && s.promises == {} && s.values == map[] && s.errors == map[] && s.done == {} && s.lowered == {} && s.count == 0
    && !s.ready && s.left == {}
    && (forall c :: c in s.completers ==> s.completers[c] == Idle)
    && (forall w :: w in s.waiters ==> s.waiters[w] == Out)
  }

  /** A run in which no two threads at once find the flag of one promise clear. */
  ghost predicate Runs(s: State, steps: seq<Step>, s': State)
    decreases |steps|
  {
    if steps == [] then s == s'
    else Can(s, steps[0]) && !Overlap(Do(s, steps[0])) && Runs(Do(s, steps[0]), steps[1..], s')
  }

  /** Also kept: a single waiter is not left behind by the signal. */
  ghost predicate LeftOk(s: State) {
    s.left <= s.waiters.Keys && (|s.waiters.Keys| <= 1 ==> s.left == {})
  }

  lemma LeftStep(s: State, step: Step)
    requires LeftOk(s) && Can(s, step)
    ensures LeftOk(Do(s, step)) && Do(s, step).waiters.Keys == s.waiters.Keys
  {
    var s' := Do(s, step);
    assert s'.waiters.Keys == s.waiters.Keys;
    if step.Resume? && s'.left != {} && !s.ready {
      var w :| w in s'.left;
      assert step.woken != {};
      var v :| v in step.woken;
      assert {v, w} <= s.waiters.Keys;
      SubsetSize({v, w}, s.waiters.Keys);
    }
  }

  lemma {:induction false} RunKeepsInv(s: State, steps: seq<Step>, s': State)
    requires Inv(s) && LeftOk(s) && Runs(s, steps, s')
    ensures Inv(s') && LeftOk(s')
    decreases |steps|
  {
    if steps != [] {
      StepKeepsInv(s, steps[0]);
      LeftStep(s, steps[0]);
      RunKeepsInv(Do(s, steps[0]), steps[1..], s');
    }
  }

  ghost predicate Reachable(s: State) {
    exists s0, steps :: IsInit(s0) && Runs(s0, steps, s)
  }

  lemma ReachableInv(s: State)
    requires Reachable(s)
    ensures Inv(s) && LeftOk(s)
  {
    var s0, steps :| IsInit(s0) && Runs(s0, steps, s);
    assert s0.promises - s0.lowered == {};
    RunKeepsInv(s0, steps, s);
  }

  /** `get` returns only after every promise has its value or exception and its `done()` has lowered the count. */
  lemma GetReturnsComplete(s: State, w: Tid)
    requires Reachable(s) && w in s.waiters && s.waiters[w] == Returned
    ensures s.promises == s.done == s.lowered && s.count == 0 && s.promises <= s.values.Keys + s.errors.Keys
  {
    ReachableInv(s);
    assert s.promises - s.lowered == {};
  }

  /** However often it is completed, a promise lowers the count once. */
  lemma CountIsOutstanding(s: State, c: Tid, p: Promise, x: int)
    requires Reachable(s)
    ensures s.count == |s.promises - s.lowered|
    ensures p in s.done && c in s.completers && s.completers[c] == Idle ==>
      exists s' :: Runs(s, [SetValue(c, p, x), Check(c)], s') && s'.completers == s.completers && s'.count == s.count
  {
    ReachableInv(s);
    if p in s.done && c in s.completers && s.completers[c] == Idle {
      var s' := RepeatedCall(s, c, p, x);
    }
  }

  lemma RepeatedCall(s: State, c: Tid, p: Promise, x: int) returns (s': State)
    requires Inv(s) && p in s.done && c in s.completers && s.completers[c] == Idle
    ensures Runs(s, [SetValue(c, p, x), Check(c)], s') && s'.completers == s.completers && s'.count == s.count
  {
    var s1 := Do(s, SetValue(c, p, x));
    s' := Do(s1, Check(c));
    assert s'.completers == s.completers;
    NoOverlap(s1, s);
    NoOverlap(s', s);
    TwoSteps(s, SetValue(c, p, x), Check(c));
  }

  lemma TwoSteps(s: State, a: Step, b: Step)
    requires Can(s, a) && !Overlap(Do(s, a)) && Can(Do(s, a), b) && !Overlap(Do(Do(s, a), b))
    ensures Runs(s, [a, b], Do(Do(s, a), b))
  {
    var s1, s2 := Do(s, a), Do(Do(s, a), b);
    assert [a, b][1..] == [b] && [b][1..] == [];
    assert Runs(s2, [], s2);
    assert Runs(s1, [b], s2);
  }

  lemma NoOverlap(s': State, s: State)
    requires Unique(s)
    requires forall c :: c in s'.completers && s'.completers[c].Marking? ==>
      c in s.completers && s.completers[c] == s'.completers[c]
    ensures !Overlap(s')
  {
  }

  /** Every promise is completed and every `done()` has returned. */
  ghost predicate Quiet(s: State) {
    s.promises == s.done && forall c :: c in s.completers ==> s.completers[c] == Idle
  }

  /** Then the latch is open; the waiters asleep are among those that the signal did not reach, and a single waiter is
      never among them. */
  lemma LatchOpens(s: State)
    requires Reachable(s) && Quiet(s) && s.promises != {}
    ensures s.ready && s.count == 0 && Sleepers(s.waiters) <= s.left
    ensures |s.waiters.Keys| <= 1 ==> Sleepers(s.waiters) == {}
  {
    ReachableInv(s);
    QuietLatch(s);
  }

  /** What a waiter that is not asleep does next. */
  ghost function NextStep(w: Tid, x: Waiter): Step
    requires x in {Out, Yielding, Woken}
  {
    match x case Out => Enter(w) case Yielding => Yield(w) case Woken => Recheck(w)
  }

  /** And a waiter that is not asleep returns at its next step. */
  lemma WaiterReleased(s: State, w: Tid)
    requires Reachable(s) && Quiet(s) && s.promises != {}
    requires w in s.waiters && s.waiters[w] in {Out, Yielding, Woken}
    ensures Can(s, NextStep(w, s.waiters[w])) && Do(s, NextStep(w, s.waiters[w])).waiters[w] == Returned
  {
    ReachableInv(s);
    QuietLatch(s);
  }

  lemma QuietLatch(s: State)
    requires Inv(s) && Quiet(s) && s.promises != {}
    ensures s.ready && s.count == 0
  {
    assert FlagsCarried(s) && Sets(s);
    forall p | p in s.done ensures p in s.lowered {
      assert !Under(s, Lowering(p));
    }
    assert s.lowered == s.promises;
    assert s.promises - s.lowered == {};
    assert LatchOk(s) && !Under(s, Resuming);
  }

  /** The signal is sure to leave nobody asleep if and only if at most one waiter is asleep when it is sent. */
  lemma SignalReachesAll(s: State, c: Tid)
    requires Inv(s) && c in s.completers && s.completers[c] == Resuming
    ensures (forall woken :: Can(s, Resume(c, woken)) ==> Sleepers(Do(s, Resume(c, woken)).waiters) == {})
      <==> |Sleepers(s.waiters)| <= 1
  {
    assert Site(s, Resuming);
    SignalWakes(s, c);
    SignalChoices(Sleepers(s.waiters));
    if |Sleepers(s.waiters)| > 1 {
      var w :| {w} <= Sleepers(s.waiters) && Sleepers(s.waiters) - {w} != {};
      assert Can(s, Resume(c, {w}));
    }
  }

  lemma SignalWakes(s: State, c: Tid)
    requires c in s.completers && s.completers[c] == Resuming && !s.ready
    ensures forall woken :: Can(s, Resume(c, woken)) ==>
      Sleepers(Do(s, Resume(c, woken)).waiters) == Sleepers(s.waiters) - woken
  {
  }

  lemma SignalChoices(asleep: set<Tid>)
    ensures |asleep| <= 1 ==> forall woken :: woken <= asleep && (woken == {} ==> asleep == {}) ==> asleep - woken == {}
    ensures |asleep| > 1 ==> exists w :: {w} <= asleep && asleep - {w} != {}
  {
    if |asleep| <= 1 {
      forall woken | woken <= asleep && (woken == {} ==> asleep == {}) ensures asleep - woken == {} {
        if asleep - woken != {} {
          var w :| w in asleep - woken;
          var v :| v in woken;
          SubsetSize({v, w}, asleep);
        }
      }
    } else {
      var w :| w in asleep;
      assert asleep == (asleep - {w}) + {w};
      assert {w} <= asleep && asleep - {w} != {};
    }
  }

  // ---------------------------------------------------------------------------------------------
  // The two conditions are needed

  lemma {:induction false} Extend(s0: State, steps: seq<Step>, s: State, step: Step)
    requires Runs(s0, steps, s) && Can(s, step) && !Overlap(Do(s, step))
    ensures Runs(s0, steps + [step], Do(s, step))
    decreases |steps|
  {
    var all := steps + [step];
    if steps == [] {
      assert all[0] == step && all[1..] == [];
      assert Runs(Do(s, step), [], Do(s, step));
    } else {
      assert all[0] == steps[0] && all[1..] == steps[1..] + [step];
      Extend(Do(s0, steps[0]), steps[1..], s, step);
    }
  }

  lemma Reach(s: State, step: Step)
    requires Reachable(s) && Can(s, step) && !Overlap(Do(s, step))
    ensures Reachable(Do(s, step))
  {
    var s0, steps :| IsInit(s0) && Runs(s0, steps, s);
    Extend(s0, steps, s, step);
  }

  /** One thread completes the only promise while waiters 0 and 1 sleep; the signal wakes waiter 0 alone. */
  lemma TwoWaitersBlock() returns (s: State)
    ensures Reachable(s) && Quiet(s) && s.promises == {0} && s.waiters == map[0 := Returned, 1 := Sleeping]
  {
    s := TwoAsleep();
    s := ReachOne(s, SetValue(0, 0, 7));
    s := ReachOne(s, Check(0));
    s := ReachOne(s, Mark(0));
    s := ReachOne(s, Lower(0));
    s := LastSignal(s);
  }

  lemma TwoAsleep() returns (s: State)
    ensures Reachable(s)
    ensures s == State({0}, map[], map[], {}, {}, 1, false, map[0 := Idle], map[0 := Sleeping, 1 := Sleeping], {})
  {
    s := Begun(map[0 := Idle], map[0 := Out, 1 := Out]);
    s := FallAsleep(s, 0);
    s := FallAsleep(s, 1);
  }

  lemma Begun(completers: map<Tid, Completer>, waiters: map<Tid, Waiter>) returns (s: State)
    requires completers == map[0 := Idle] && forall w :: w in waiters ==> waiters[w] == Out
    ensures Reachable(s) && s == State({0}, map[], map[], {}, {}, 1, false, completers, waiters, {})
  {
    s := State({}, map[], map[], {}, {}, 0, false, completers, waiters, {});
    assert Runs(s, [], s);
    assert Reachable(s);
    s := ReachOne(s, Create(0));
  }

  lemma FallAsleep(s: State, w: Tid) returns (s': State)
    requires Reachable(s) && s.completers.Keys == {0} && s.count == 1 && !s.ready
    requires w in s.waiters && s.waiters[w] == Out
    ensures Reachable(s') && s' == s.(waiters := s.waiters[w := Sleeping])
  {
    s' := ReachOne(s, Enter(w));
    s' := ReachOne(s', Yield(w));
    assert s.waiters[w := Yielding][w := Sleeping] == s.waiters[w := Sleeping];
  }

  lemma LastSignal(s0: State) returns (s: State)
    requires Reachable(s0) && s0.completers == map[0 := Resuming] && s0.waiters == map[0 := Sleeping, 1 := Sleeping]
    requires s0.promises == s0.done == {0} && !s0.ready
    ensures Reachable(s) && Quiet(s) && s.promises == {0} && s.waiters == map[0 := Returned, 1 := Sleeping]
  {
    s := WakeFirst(s0);
    s := ReachOne(s, Recheck(0));
  }

  lemma WakeFirst(s0: State) returns (s: State)
    requires Reachable(s0) && s0.completers == map[0 := Resuming] && s0.waiters == map[0 := Sleeping, 1 := Sleeping]
    requires !s0.ready
    ensures Reachable(s) && s.completers == map[0 := Idle] && s.ready
    ensures s.waiters == map[0 := Woken, 1 := Sleeping] && s.promises == s0.promises && s.done == s0.done
  {
    assert Sleepers(s0.waiters) == {0, 1};
    s := ReachOne(s0, Resume(0, {0}));
  }

  lemma ReachOne(s: State, step: Step) returns (s': State)
    requires Reachable(s) && s.completers.Keys == {0} && Can(s, step)
    ensures s' == Do(s, step) && Reachable(s') && s'.completers.Keys == {0}
  {
    s' := Do(s, step);
    assert s'.completers.Keys == {0};
    Reach(s, step);
  }

  /** Two threads that both found the flag of `p` clear lower the count twice for it: the count no longer tells the
      outstanding promises, and with one other promise outstanding `get` returns too early. */
  lemma OverlapLowersTwice(s: State, c: Tid, d: Tid, p: Promise, w: Tid) returns (s': State)
    requires Sets(s) && CountOk(s) && Sites(s) && c != d && c in s.completers && d in s.completers
    requires s.completers[c] == s.completers[d] == Marking(p) && w in s.waiters && s.waiters[w] == Out
    ensures s' == Do(Do(Do(Do(s, Mark(c)), Mark(d)), Lower(c)), Lower(d))
    ensures s'.count == s.count - 2 && s'.lowered == s.lowered + {p} && !CountOk(s')
    ensures s.count == 2 ==> Do(s', Enter(w)).waiters[w] == Returned && s'.lowered != s'.promises
  {
    assert Site(s, Marking(p));
    var t := MarkTwice(s, c, d, p);
    s' := LowerTwice(t, c, d, p);
    OneLess(s.promises, s.lowered, p);
  }

  lemma OneLess(promises: set<Promise>, lowered: set<Promise>, p: Promise)
    requires p in promises && p !in lowered
    ensures |promises - (lowered + {p})| == |promises - lowered| - 1
    ensures |promises - lowered| == 2 ==> lowered + {p} != promises
  {
    assert promises - (lowered + {p}) == (promises - lowered) - {p};
  }

  lemma MarkTwice(s: State, c: Tid, d: Tid, p: Promise) returns (t: State)
    requires c != d && c in s.completers && d in s.completers && s.completers[c] == s.completers[d] == Marking(p)
    ensures t == Do(Do(s, Mark(c)), Mark(d))
    ensures c in t.completers && d in t.completers && t.completers[c] == t.completers[d] == Lowering(p)
    ensures t.count == s.count && t.lowered == s.lowered && t.promises == s.promises && t.waiters == s.waiters
  {
    t := Do(Do(s, Mark(c)), Mark(d));
  }

  lemma LowerTwice(t: State, c: Tid, d: Tid, p: Promise) returns (s': State)
    requires c != d && c in t.completers && d in t.completers && t.completers[c] == t.completers[d] == Lowering(p)
    ensures s' == Do(Do(t, Lower(c)), Lower(d))
    ensures s'.count == t.count - 2 && s'.lowered == t.lowered + {p} && s'.promises == t.promises
    ensures s'.waiters == t.waiters
  {
    s' := Do(Do(t, Lower(c)), Lower(d));
  }

  /** A run without that restriction. */
  ghost predicate FreeRuns(s: State, steps: seq<Step>, s': State)
    decreases |steps|
  {
    if steps == [] then s == s' else Can(s, steps[0]) && FreeRuns(Do(s, steps[0]), steps[1..], s')
  }

  ghost predicate FreelyReachable(s: State) {
    exists s0, steps :: IsInit(s0) && FreeRuns(s0, steps, s)
  }

  lemma {:induction false} FreeExtend(s0: State, steps: seq<Step>, s: State, step: Step)
    requires FreeRuns(s0, steps, s) && Can(s, step)
    ensures FreeRuns(s0, steps + [step], Do(s, step))
    decreases |steps|
  {
    var all := steps + [step];
    if steps == [] {
      assert all[0] == step && all[1..] == [];
      assert FreeRuns(Do(s, step), [], Do(s, step));
    } else {
      assert all[0] == steps[0] && all[1..] == steps[1..] + [step];
      FreeExtend(Do(s0, steps[0]), steps[1..], s, step);
    }
  }

  lemma FreeReach(s: State, step: Step) returns (s': State)
    requires FreelyReachable(s) && Can(s, step)
    ensures s' == Do(s, step) && FreelyReachable(s')
  {
    var s0, steps :| IsInit(s0) && FreeRuns(s0, steps, s);
    FreeExtend(s0, steps, s, step);
    s' := Do(s, step);
  }

  /** Two promises, and two threads that complete the first at the same time: `get` returns while the second promise is
      outstanding. */
  lemma OverlapReturnsEarly() returns (s: State)
    ensures FreelyReachable(s) && s.waiters == map[0 := Returned]
    ensures s.promises == {0, 1} && s.done == s.lowered == {0} && 1 !in s.values && 1 !in s.errors
  {
    s := BothClear();
    s := FreeReach(s, Mark(0));
    s := FreeReach(s, Mark(1));
    s := BothLower(s);
    s := FreeReach(s, Enter(0));
  }

  /** The run up to the point where both threads have found the flag clear. */
  lemma BothClear() returns (s: State)
    ensures FreelyReachable(s) && s.promises == {0, 1} && s.done == s.lowered == {} && s.count == 2
    ensures s.values == map[0 := 8] && s.errors == map[] && !s.ready
    ensures s.completers == map[0 := Marking(0), 1 := Marking(0)] && s.waiters == map[0 := Out]
  {
    s := BothSet();
    s := FreeReach(s, Check(0));
    s := FreeReach(s, Check(1));
  }

  lemma BothSet() returns (s: State)
    ensures FreelyReachable(s) && s.promises == {0, 1} && s.done == s.lowered == {} && s.count == 2
    ensures s.values == map[0 := 8] && s.errors == map[] && !s.ready
    ensures s.completers == map[0 := Checking(0), 1 := Checking(0)] && s.waiters == map[0 := Out]
  {
    s := BothCreated();
    s := FreeReach(s, SetValue(0, 0, 7));
    s := FreeReach(s, SetValue(1, 0, 8));
  }

  lemma BothCreated() returns (s: State)
    ensures FreelyReachable(s)
    ensures s == State({0, 1}, map[], map[], {}, {}, 2, false, map[0 := Idle, 1 := Idle], map[0 := Out], {})
  {
    s := State({}, map[], map[], {}, {}, 0, false, map[0 := Idle, 1 := Idle], map[0 := Out], {});
    assert FreeRuns(s, [], s);
    assert FreelyReachable(s);
    s := FreeReach(s, Create(0));
    s := FreeReach(s, Create(1));
    assert s.promises == {0, 1};
  }

  lemma BothLower(s: State) returns (s': State)
    requires FreelyReachable(s) && s.count == 2 && s.lowered == {} && 0 in s.completers && 1 in s.completers
    requires s.completers[0] == s.completers[1] == Lowering(0)
    ensures FreelyReachable(s') && s'.count == 0 && s'.lowered == {0}
    ensures s'.promises == s.promises && s'.done == s.done && s'.waiters == s.waiters
    ensures s'.values == s.values && s'.errors == s.errors
  {
    s' := FreeReach(s, Lower(0));
    s' := FreeReach(s', Lower(1));
  }
}
