/** The event loop's side of the timers: `Selector::timout_run` and the dispatch of expired handlers
    (core/selector.h, core/selector.cpp), on top of the wheel. */
module SelectorTimers {
  import opened TimerWheel

  /** What can happen to the timers of one selector.  `Destroy` is a handler's destructor, `Stop` the call that ends the
      loop. */
  datatype Event = Tick(ms: nat) | Set(h: Handler, ms: nat) | Cancel(h: Handler) | Destroy(h: Handler) | Stop

  /** Remaining time per handler, and the milliseconds not yet clicked (`_elapsed`). */
  datatype Timers = Timers(m: map<Handler, int>, acc: int)

  ghost predicate Clicks(acc: int, e: Event) {
    e.Tick? && TIME_CLICK <= acc + e.ms
  }

  ghost function AccAfter(acc: int, e: Event): int {
    if !e.Tick? then acc else if Clicks(acc, e) then 0 else acc + e.ms
  }

  ghost function Next(s: Timers, e: Event): Timers {
    match e
    case Tick(ms) => Timers(if Clicks(s.acc, e) then Elapse(s.m, s.acc + ms) else s.m, AccAfter(s.acc, e))
    case Set(h, ms) => s.(m := s.m[h := ms])
    case Cancel(h) => s.(m := s.m - {h})
    case Destroy(h) => s.(m := s.m - {h})
    case Stop => s
  }

  ghost predicate Fires(s: Timers, e: Event, h: Handler) {
    Clicks(s.acc, e) && h in s.m && s.m[h] <= s.acc + e.ms
  }

  ghost predicate Touches(e: Event, h: Handler) {
    (e.Set? || e.Cancel? || e.Destroy?) && e.h == h
  }

  // ---------------------------------------------------------------------------------------------
  // Runs

  ghost function Run(s: Timers, es: seq<Event>): Timers {
    if es == [] then s else Next(Run(s, es[..|es| - 1]), es[|es| - 1])
  }

  /** Milliseconds ticked in a run. */
  ghost function Ticks(es: seq<Event>): nat {
    if es == [] then 0 else Ticks(es[..|es| - 1]) + if es[|es| - 1].Tick? then es[|es| - 1].ms else 0
  }

  ghost function AccRun(acc: int, es: seq<Event>): int {
    if es == [] then acc else AccAfter(AccRun(acc, es[..|es| - 1]), es[|es| - 1])
  }

  /** Event `k` is a click, and the time accumulated by then (starting with `acc` unclicked) reaches `ms`. */
  ghost predicate Reaches(acc: int, es: seq<Event>, k: nat, ms: int)
    requires k < |es|
  {
    Clicks(AccRun(acc, es[..k]), es[k]) && ms <= acc + Ticks(es[..k + 1])
  }

  ghost predicate FiresAt(s: Timers, es: seq<Event>, k: nat, h: Handler)
    requires k < |es|
  {
    Fires(Run(s, es[..k]), es[k], h)
  }

  ghost predicate Untouched(es: seq<Event>, h: Handler) {
    forall k :: 0 <= k < |es| ==> !Touches(es[k], h)
  }

  /** No event of the run is a click that reaches `ms`. */
  ghost predicate NotReached(acc: int, es: seq<Event>, ms: int) {
    forall k :: 0 <= k < |es| ==> !Reaches(acc, es, k, ms)
  }

  lemma {:induction false} Accumulated(acc: int, es: seq<Event>)
    requires 0 <= acc < TIME_CLICK
    ensures 0 <= AccRun(acc, es) < TIME_CLICK
  {
    if es != [] {
      Accumulated(acc, es[..|es| - 1]);
    }
  }

  /** A run's last event decided, the question is about the run before it. */
  lemma ReachedBefore(acc: int, es: seq<Event>, ms: int)
    requires es != []
    ensures NotReached(acc, es, ms) <==>
            NotReached(acc, es[..|es| - 1], ms) && !Reaches(acc, es, |es| - 1, ms)
  {
    var init := es[..|es| - 1];
    forall k | 0 <= k < |init| ensures Reaches(acc, es, k, ms) <==> Reaches(acc, init, k, ms) {
      assert init[..k] == es[..k] && init[..k + 1] == es[..k + 1];
    }
  }

  /** Where an untouched timer stands after any run: gone once a click reached it, and otherwise down by exactly the
      time clicked so far. */
  lemma {:induction false} TimerInRun(s: Timers, es: seq<Event>, h: Handler)
    requires 0 <= s.acc < TIME_CLICK && h in s.m && Untouched(es, h)
    ensures Run(s, es).acc == AccRun(s.acc, es)
    ensures h in Run(s, es).m <==> NotReached(s.acc, es, s.m[h])
    ensures h in Run(s, es).m ==> Run(s, es).m[h] == s.m[h] - (s.acc + Ticks(es) - AccRun(s.acc, es))
  {
    if es != [] {
      var init := es[..|es| - 1];
      TimerInRun(s, init, h);
      ReachedBefore(s.acc, es, s.m[h]);
      assert es[..|es| - 1 + 1] == es;
      assert !Touches(es[|es| - 1], h);
    }
  }

  /** A timer that is neither reset nor cancelled fires in exactly one click: the first whose accumulated time
      reaches its timeout. */
  lemma FiresAtFirstReachingClick(s: Timers, es: seq<Event>, k: nat, h: Handler)
    requires 0 <= s.acc < TIME_CLICK && h in s.m && Untouched(es, h) && k < |es|
    ensures FiresAt(s, es, k, h) <==>
            Reaches(s.acc, es, k, s.m[h]) && forall j :: 0 <= j < k ==> !Reaches(s.acc, es, j, s.m[h])
  {
    TimerInRun(s, es[..k], h);
    assert es[..k + 1][..k] == es[..k];
    forall j | 0 <= j < k ensures Reaches(s.acc, es[..k], j, s.m[h]) <==> Reaches(s.acc, es, j, s.m[h]) {
      assert es[..k][..j] == es[..j] && es[..k][..j + 1] == es[..j + 1];
    }
  }

  lemma FiresOnce(s: Timers, es: seq<Event>, j: nat, k: nat, h: Handler)
    requires 0 <= s.acc < TIME_CLICK && h in s.m && Untouched(es, h) && j < |es| && k < |es|
    requires FiresAt(s, es, j, h) && FiresAt(s, es, k, h)
    ensures j == k
  {
    FiresAtFirstReachingClick(s, es, j, h);
    FiresAtFirstReachingClick(s, es, k, h);
  }

  /** Never more than TIME_CLICK - 1 milliseconds early: time unclicked when the timer was set counts towards it. */
  lemma FiresNotEarly(s: Timers, es: seq<Event>, k: nat, h: Handler)
    requires 0 <= s.acc < TIME_CLICK && h in s.m && Untouched(es, h) && k < |es|
    requires FiresAt(s, es, k, h)
    ensures s.m[h] - (TIME_CLICK - 1) <= Ticks(es[..k + 1])
  {
    FiresAtFirstReachingClick(s, es, k, h);
  }

  /** ... and it has fired once TIME_CLICK - 1 milliseconds more than its timeout have been ticked; a timeout of zero
      takes as long as one of one. */
  lemma FiresInTime(s: Timers, es: seq<Event>, h: Handler)
    requires 0 <= s.acc < TIME_CLICK && h in s.m && 0 <= s.m[h] && Untouched(es, h)
    requires (if s.m[h] == 0 then 1 else s.m[h]) + TIME_CLICK - 1 <= Ticks(es)
    ensures exists k :: 0 <= k < |es| && FiresAt(s, es, k, h)
  {
    Accumulated(s.acc, es);
    var k := FirstReach(s.acc, es, if s.m[h] == 0 then 1 else s.m[h]);
    k := LeastReach(s.acc, es, s.m[h], k);
    FiresAtFirstReachingClick(s, es, k, h);
  }

  lemma {:induction false} LeastReach(acc: int, es: seq<Event>, ms: int, k: nat) returns (least: nat)
    requires k < |es| && Reaches(acc, es, k, ms)
    ensures least < |es| && Reaches(acc, es, least, ms) && forall j :: 0 <= j < least ==> !Reaches(acc, es, j, ms)
    decreases k
  {
    if j: nat :| j < k && Reaches(acc, es, j, ms) {
      least := LeastReach(acc, es, ms, j);
    } else {
      least := k;
    }
  }

  /** When the time clicked reaches `ms`, some click was the first to. */
  lemma {:induction false} FirstReach(acc: int, es: seq<Event>, ms: int) returns (k: nat)
    requires 0 <= acc < TIME_CLICK && 0 < ms
    requires ms <= acc + Ticks(es) - AccRun(acc, es)
    ensures k < |es| && Reaches(acc, es, k, ms) && forall j :: 0 <= j < k ==> !Reaches(acc, es, j, ms)
  {
    var init := es[..|es| - 1];
    Accumulated(acc, init);
    if ms <= acc + Ticks(init) - AccRun(acc, init) {
      k := FirstReach(acc, init, ms);
      assert init[..k] == es[..k] && init[..k + 1] == es[..k + 1];
      forall j | 0 <= j < k ensures !Reaches(acc, es, j, ms) {
        assert !Reaches(acc, init, j, ms);
        assert init[..j] == es[..j] && init[..j + 1] == es[..j + 1];
      }
    } else {
      k := |es| - 1;
      assert es[..k + 1] == es;
      forall j | 0 <= j < k ensures !Reaches(acc, es, j, ms) {
        ClickedGrows(acc, es, j + 1, |init|);
        var upto := es[..j + 1];
        assert upto[..|upto| - 1] == es[..j] && upto[|upto| - 1] == es[j];
        assert es[..|init|] == init;
        if Clicks(AccRun(acc, es[..j]), es[j]) {
          assert AccRun(acc, upto) == 0;
          assert Ticks(upto) <= Ticks(init) - AccRun(acc, init);
        }
      }
    }
  }

  /** Clicked time never shrinks along a run. */
  lemma {:induction false} ClickedGrows(acc: int, es: seq<Event>, i: nat, j: nat)
    requires 0 <= acc < TIME_CLICK && i <= j <= |es|
    ensures Ticks(es[..i]) - AccRun(acc, es[..i]) <= Ticks(es[..j]) - AccRun(acc, es[..j])
  {
    if i < j {
      ClickedGrows(acc, es, i, j - 1);
      assert es[..j][..j - 1] == es[..j - 1];
      Accumulated(acc, es[..j - 1]);
    }
  }

  // ---------------------------------------------------------------------------------------------
  // Dispatch

  /** What the callback of one expired handler does to the timers of its thread. */
  type Callback = cb: seq<Event> | forall k :: 0 <= k < |cb| ==> !cb[k].Tick? && (cb[k].Set? ==> cb[k].ms <= MAX_MS)

  /** The handlers a callback adds to the removed set: those it destroys while the loop is running. */
  function RemovedBy(cb: seq<Event>, running: bool): (r: set<Handler>) {
    set k | 0 <= k < |cb| && running && cb[k].Destroy? && Stop !in cb[..k] :: cb[k].h
  }

  function StillRunning(cb: seq<Event>, running: bool): (r: bool) {
    running && Stop !in cb
  }

  /** The handlers that `notify_event` really calls when the batch `fired` is dispatched from position `i` on and the
      callback of the handler at position `k` does `cbs(k)`. */
  function Called(fired: seq<Handler>, i: nat, cbs: nat -> Callback, removed: set<Handler>, running: bool)
    : (r: seq<Handler>)
    requires i <= |fired|
    decreases |fired| - i
  {
    if i == |fired| then []
    else if fired[i] in removed then Called(fired, i + 1, cbs, removed, running)
    else
      var cb := cbs(i);
      [fired[i]] + Called(fired, i + 1, cbs, removed + RemovedBy(cb, running), StillRunning(cb, running))
  }

  /** The timer events of that dispatch, in order. */
  function Effects(fired: seq<Handler>, i: nat, cbs: nat -> Callback, removed: set<Handler>, running: bool)
    : (r: seq<Event>)
    requires i <= |fired|
    decreases |fired| - i
  {
    if i == |fired| then []
    else if fired[i] in removed then Effects(fired, i + 1, cbs, removed, running)
    else
      var cb := cbs(i);
      cb + Effects(fired, i + 1, cbs, removed + RemovedBy(cb, running), StillRunning(cb, running))
  }

  /** The removed set and the running flag after it. */
  function Ending(fired: seq<Handler>, i: nat, cbs: nat -> Callback, removed: set<Handler>, running: bool)
    : (r: (set<Handler>, bool))
    requires i <= |fired|
    decreases |fired| - i
  {
    if i == |fired| then (removed, running)
    else if fired[i] in removed then Ending(fired, i + 1, cbs, removed, running)
    else
      var cb := cbs(i);
      Ending(fired, i + 1, cbs, removed + RemovedBy(cb, running), StillRunning(cb, running))
  }

  /** A batch dispatched with this removed set and running flag at its start. */
  datatype Batch = Batch(fired: seq<Handler>, cbs: nat -> Callback, removed: set<Handler>, running: bool)

  /** `c` and `d` are what was called and done up to position `i`, where the set and the flag now are as given. */
  ghost predicate Dispatched(b: Batch, i: nat, removed: set<Handler>, running: bool, c: seq<Handler>, d: seq<Event>) {
    && i <= |b.fired|
    && Called(b.fired, 0, b.cbs, b.removed, b.running) == c + Called(b.fired, i, b.cbs, removed, running)
    && Effects(b.fired, 0, b.cbs, b.removed, b.running) == d + Effects(b.fired, i, b.cbs, removed, running)
    && Ending(b.fired, 0, b.cbs, b.removed, b.running) == Ending(b.fired, i, b.cbs, removed, running)
  }

  lemma DispatchOne(b: Batch, i: nat, removed: set<Handler>, running: bool, c: seq<Handler>, d: seq<Event>)
    requires Dispatched(b, i, removed, running, c, d) && i < |b.fired|
    ensures var h, cb := b.fired[i], b.cbs(i);
      if h in removed then Dispatched(b, i + 1, removed, running, c, d)
      else Dispatched(b, i + 1, removed + RemovedBy(cb, running), StillRunning(cb, running), c + [h], d + cb)
  {
    var h, cb := b.fired[i], b.cbs(i);
    if h !in removed {
      var removed', running' := removed + RemovedBy(cb, running), StillRunning(cb, running);
      assert c + ([h] + Called(b.fired, i + 1, b.cbs, removed', running')) ==
             c + [h] + Called(b.fired, i + 1, b.cbs, removed', running');
      assert d + (cb + Effects(b.fired, i + 1, b.cbs, removed', running')) ==
             d + cb + Effects(b.fired, i + 1, b.cbs, removed', running');
    }
  }

  lemma DispatchAll(b: Batch, removed: set<Handler>, running: bool, c: seq<Handler>, d: seq<Event>)
    requires Dispatched(b, |b.fired|, removed, running, c, d)
    ensures c == Called(b.fired, 0, b.cbs, b.removed, b.running)
    ensures d == Effects(b.fired, 0, b.cbs, b.removed, b.running)
    ensures (removed, running) == Ending(b.fired, 0, b.cbs, b.removed, b.running)
  {
    assert c + [] == c && d + [] == d;
  }

  /** While the loop runs, a handler recorded as destroyed is not called for the rest of the batch. */
  lemma {:induction false} NotCalledOnceRemoved(fired: seq<Handler>, i: nat, cbs: nat -> Callback,
                                                removed: set<Handler>, running: bool, h: Handler)
    requires i <= |fired| && h in removed
    ensures h !in Called(fired, i, cbs, removed, running)
    decreases |fired| - i
  {
    if i < |fired| {
      var cb := cbs(i);
      NotCalledOnceRemoved(fired, i + 1, cbs, removed, running, h);
      NotCalledOnceRemoved(fired, i + 1, cbs, removed + RemovedBy(cb, running), StillRunning(cb, running), h);
    }
  }

  /** Once the loop was stopped nothing is recorded: everything not recorded before is called. */
  lemma {:induction false} StoppedCallsRest(fired: seq<Handler>, i: nat, cbs: nat -> Callback, removed: set<Handler>,
                                            h: Handler)
    requires i <= |fired|
    ensures h in Called(fired, i, cbs, removed, false) <==> h in fired[i..] && h !in removed
    decreases |fired| - i
  {
    if i < |fired| {
      StoppedCallsRest(fired, i + 1, cbs, removed, h);
      assert removed + RemovedBy(cbs(i), false) == removed;
      assert fired[i..] == [fired[i]] + fired[i + 1..];
    }
  }

  /** The loop was stopped, before this callback or in it, by the time it destroys `h`. */
  ghost predicate StoppedBy(cb: seq<Event>, running: bool, h: Handler) {
    forall k :: 0 <= k < |cb| && cb[k] == Destroy(h) ==> !running || Stop in cb[..k]
  }

  /** Over any batch: a handler that the callback at position `i` destroys is called later in the batch if and only if
      the loop was stopped by then, it is still to come, and it was not recorded before. */
  lemma CalledAfterDestroy(b: Batch, i: nat, removed: set<Handler>, running: bool, c: seq<Handler>, d: seq<Event>,
                           h: Handler)
    requires Dispatched(b, i, removed, running, c, d)
    requires i < |b.fired| && b.fired[i] !in removed && Destroy(h) in b.cbs(i)
    ensures var later := Called(b.fired, i + 1, b.cbs, removed + RemovedBy(b.cbs(i), running),
                                StillRunning(b.cbs(i), running));
      && Called(b.fired, 0, b.cbs, b.removed, b.running) == c + [b.fired[i]] + later
      && (h in later <==> StoppedBy(b.cbs(i), running, h) && h in b.fired[i + 1..] && h !in removed)
  {
    var cb := b.cbs(i);
    var removed', running' := removed + RemovedBy(cb, running), StillRunning(cb, running);
    DispatchOne(b, i, removed, running, c, d);
    Recorded(cb, running, h);
    if h in removed' {
      NotCalledOnceRemoved(b.fired, i + 1, b.cbs, removed', running', h);
    } else {
      assert !running' by {
        var k :| 0 <= k < |cb| && cb[k] == Destroy(h);
        assert running ==> Stop in cb[..k];
      }
      StoppedCallsRest(b.fired, i + 1, b.cbs, removed', h);
    }
  }

  lemma Recorded(cb: seq<Event>, running: bool, h: Handler)
    requires Destroy(h) in cb
    ensures h in RemovedBy(cb, running) <==> !StoppedBy(cb, running, h)
  {
    if !StoppedBy(cb, running, h) {
      var k :| 0 <= k < |cb| && cb[k] == Destroy(h) && running && Stop !in cb[..k];
      assert cb[k].h in RemovedBy(cb, running);
    }
  }

  /** Over any batch: a handler that none of the callbacks destroys is called if and only if it was in the batch and not
      recorded before. */
  lemma {:induction false} CalledUnlessDestroyed(fired: seq<Handler>, i: nat, cbs: nat -> Callback,
                                                 removed: set<Handler>, running: bool, h: Handler)
    requires i <= |fired| && forall k :: i <= k < |fired| ==> Destroy(h) !in cbs(k)
    ensures h in Called(fired, i, cbs, removed, running) <==> h in fired[i..] && h !in removed
    decreases |fired| - i
  {
    if i < |fired| {
      assert fired[i..] == [fired[i]] + fired[i + 1..];
      var cb := cbs(i);
      CalledUnlessDestroyed(fired, i + 1, cbs, removed, running, h);
      CalledUnlessDestroyed(fired, i + 1, cbs, removed + RemovedBy(cb, running), StillRunning(cb, running), h);
      RecordedDestroyed(cb, running, h);
    }
  }

  lemma RecordedDestroyed(cb: seq<Event>, running: bool, h: Handler)
    ensures h in RemovedBy(cb, running) ==> Destroy(h) in cb
  {
    if h in RemovedBy(cb, running) {
      var k :| 0 <= k < |cb| && cb[k].Destroy? && cb[k].h == h;
      assert cb[k] == Destroy(h);
    }
  }

  /** `a` is `b` with some elements left out. */
  ghost predicate Within(a: seq<Handler>, b: seq<Handler>)
    decreases |b|
  {
    if a == [] then true
    else b != [] && if a[0] == b[0] then Within(a[1..], b[1..]) else Within(a, b[1..])
  }

  /** The handlers are called in the order of the batch, each at most as often as it is in it. */
  lemma {:induction false} CalledInOrder(fired: seq<Handler>, i: nat, cbs: nat -> Callback, removed: set<Handler>,
                                         running: bool)
    requires i <= |fired|
    ensures Within(Called(fired, i, cbs, removed, running), fired[i..])
    decreases |fired| - i
  {
    if i < |fired| {
      var cb := cbs(i);
      assert fired[i..][1..] == fired[i + 1..];
      if fired[i] in removed {
        CalledInOrder(fired, i + 1, cbs, removed, running);
        WithinMore(Called(fired, i + 1, cbs, removed, running), fired[i..]);
      } else {
        CalledInOrder(fired, i + 1, cbs, removed + RemovedBy(cb, running), StillRunning(cb, running));
      }
    }
  }

  lemma {:induction false} WithinMore(a: seq<Handler>, b: seq<Handler>)
    requires b != [] && Within(a, b[1..])
    ensures Within(a, b)
    decreases |b|, 0
  {
    if a != [] && a[0] == b[0] {
      WithinTail(a, b[1..]);
    }
  }

  lemma {:induction false} WithinTail(a: seq<Handler>, b: seq<Handler>)
    requires a != [] && Within(a, b)
    ensures Within(a[1..], b)
    decreases |b|, 1
  {
    if a[0] == b[0] {
      WithinMore(a[1..], b);
    } else {
      WithinTail(a, b[1..]);
      WithinMore(a[1..], b);
    }
  }

  function StopThenDestroy(k: nat): (cb: Callback) {
    if k == 0 then [Stop] else if k == 1 then [Destroy(3)] else []
  }

  function DestroyOnly(k: nat): (cb: Callback) {
    if k == 1 then [Destroy(3)] else []
  }

  /** The first callback stops the loop, the second destroys handler 3: it is called nevertheless. Without the stop it
      is not. */
  lemma DestroyedButCalled()
    ensures Called([1, 2, 3], 0, StopThenDestroy, {}, true) == [1, 2, 3]
    ensures Called([1, 2, 3], 0, DestroyOnly, {}, true) == [1, 2]
  {
    var f := [1, 2, 3];
    assert RemovedBy([Stop], true) == {} && RemovedBy([Destroy(3)], false) == {};
    assert Called(f, 2, StopThenDestroy, {}, false) == [3];
    assert Called(f, 1, StopThenDestroy, {}, false) == [2, 3];
    assert [Destroy(3)][0].h in RemovedBy([Destroy(3)], true);
    assert RemovedBy([], true) == {} && RemovedBy([Destroy(3)], true) == {3};
    assert Called(f, 2, DestroyOnly, {3}, true) == Called(f, 3, DestroyOnly, {3}, true) == [];
    assert Called(f, 1, DestroyOnly, {}, true) == [2];
  }

  lemma {:induction false} RunConcat(s: Timers, a: seq<Event>, b: seq<Event>)
    ensures Run(s, a + b) == Run(Run(s, a), b)
  {
    if b == [] {
      assert a + b == a;
    } else {
      RunConcat(s, a, b[..|b| - 1]);
      assert (a + b)[..|a + b| - 1] == a + b[..|b| - 1];
    }
  }

  lemma NextClick(s: Timers, ms: nat, due: int)
    requires due == s.acc + ms && TIME_CLICK <= due
    ensures Next(s, Tick(ms)) == Timers(Elapse(s.m, due), 0)
    ensures forall h :: Fires(s, Tick(ms), h) <==> h in s.m && s.m[h] <= due
  {
  }

  class Selector {
    const countdown: Countdown
    var elapsed: int
    var removed: set<Handler>
    var running: bool

    ghost predicate Valid()
      reads this, countdown
    {
      countdown.Valid() && 0 <= elapsed < TIME_CLICK
    }

    ghost function State(): Timers
      reads this, countdown
    {
      Timers(countdown.remaining, elapsed)
    }

    constructor ()
      ensures Valid() && State() == Timers(map[], 0) && fresh(countdown) && removed == {} && !running
    {
      countdown := new Countdown();
      elapsed, removed, running := 0, {}, false;
    }

    /** The start of `mainloop`. */
    method Start()
      requires Valid()
      modifies this`running
      ensures Valid() && running
    {
      running := true;
    }

    /** `loop_once`: expired timers, then the sockets that epoll reported, then the interrupt handler, all through
        `notify_event`; the removed set lives for one round. */
    method LoopOnce(ms: nat, cbs: nat -> Callback, sockets: seq<Handler>, socketCbs: nat -> Callback)
      returns (fired: seq<Handler>, called: seq<Handler>, notified: seq<Handler>)
      requires Valid() && ms <= MAX_MS - TIME_CLICK
      modifies this, countdown
      ensures Valid() && removed == {}
      ensures Distinct(fired) && forall h :: h in fired <==> Fires(old(State()), Tick(ms), h)
      ensures called == Called(fired, 0, cbs, old(removed), old(running))
      ensures var mid := Ending(fired, 0, cbs, old(removed), old(running));
        && notified == Called(sockets, 0, socketCbs, mid.0, mid.1)
        && running == Ending(sockets, 0, socketCbs, mid.0, mid.1).1
        && State() == Run(Run(Next(old(State()), Tick(ms)), Effects(fired, 0, cbs, old(removed), old(running))),
                          Effects(sockets, 0, socketCbs, mid.0, mid.1))
    {
      fired, called := TimeoutRun(ms, cbs);
      notified := Dispatch(sockets, socketCbs);
      removed := {};
    }

    /** `timout_run`: accumulate, click when due, and call what expired. */
    method TimeoutRun(ms: nat, cbs: nat -> Callback) returns (fired: seq<Handler>, called: seq<Handler>)
      requires Valid() && ms <= MAX_MS - TIME_CLICK
      modifies this, countdown
      ensures Valid()
      ensures Distinct(fired) && forall h :: h in fired <==> Fires(old(State()), Tick(ms), h)
      ensures called == Called(fired, 0, cbs, old(removed), old(running))
      ensures (removed, running) == Ending(fired, 0, cbs, old(removed), old(running))
      ensures State() == Run(Next(old(State()), Tick(ms)), Effects(fired, 0, cbs, old(removed), old(running)))
    {
      fired, called := [], [];
      var due := elapsed + ms;
      if due < TIME_CLICK {
        elapsed := due;
        assert State() == Next(old(State()), Tick(ms));
        return;
      }
      ghost var s := State();
      elapsed := 0;
      fired := countdown.ClickElapse(due);
      NextClick(s, ms, due);
      called := Dispatch(fired, cbs);
    }

    /** The loop over a batch of handlers: `notify_event` on each. */
    method Dispatch(fired: seq<Handler>, cbs: nat -> Callback) returns (called: seq<Handler>)
      requires Valid()
      modifies this, countdown
      ensures Valid()
      ensures called == Called(fired, 0, cbs, old(removed), old(running))
      ensures (removed, running) == Ending(fired, 0, cbs, old(removed), old(running))
      ensures State() == Run(old(State()), Effects(fired, 0, cbs, old(removed), old(running)))
    {
      called := [];
      var i := 0;
      ghost var done: seq<Event> := [];
      ghost var b := Batch(fired, cbs, removed, running);
      while i < |fired|
        invariant Dispatched(b, i, removed, running, called, done)
        invariant Valid()
        invariant State() == Run(old(State()), done)
      {
        DispatchOne(b, i, removed, running, called, done);
        if fired[i] !in removed {
          called := called + [fired[i]];
          RunConcat(old(State()), done, cbs(i));
          done := done + cbs(i);
          Perform(cbs(i));
        }
        i := i + 1;
      }
      DispatchAll(b, removed, running, called, done);
    }

    /** A callback's operations on timers and loop. */
    method Perform(cb: Callback)
      requires Valid()
      modifies this, countdown
      ensures Valid() && elapsed == old(elapsed)
      ensures removed == old(removed) + RemovedBy(cb, old(running)) && running == StillRunning(cb, old(running))
      ensures State() == Run(old(State()), cb)
    {
      ghost var s, r, up := State(), removed, running;
      var i := 0;
      while i < |cb|
        invariant 0 <= i <= |cb| && Valid() && elapsed == old(elapsed)
        invariant Performed(cb, i, s, r, up)
      {
        PerformTurn(cb, i, s, r, up);
        i := i + 1;
      }
      assert cb[..i] == cb;
    }

    /** The first `i` operations are done, from timers `s`, removed set `r` and running flag `up`. */
    ghost predicate Performed(cb: Callback, i: nat, s: Timers, r: set<Handler>, up: bool)
      requires i <= |cb| && Valid()
      reads this, countdown
    {
      && removed == r + RemovedBy(cb[..i], up) && running == StillRunning(cb[..i], up)
      && State() == Run(s, cb[..i])
    }

    /** One turn of the loop. */
    method PerformTurn(cb: Callback, i: nat, ghost s: Timers, ghost r: set<Handler>, ghost up: bool)
      requires i < |cb| && Valid() && Performed(cb, i, s, r, up)
      modifies this, countdown
      ensures Valid() && elapsed == old(elapsed) && Performed(cb, i + 1, s, r, up)
    {
      RunNext(s, cb, i);
      RemovedNext(cb, i, up);
      PerformOne(cb[i]);
    }

    /** One operation. Only while the loop is running is a destroyed handler recorded. */
    method PerformOne(e: Event)
      requires Valid() && !e.Tick? && (e.Set? ==> e.ms <= MAX_MS)
      modifies this, countdown
      ensures Valid() && elapsed == old(elapsed) && State() == Next(old(State()), e)
      ensures removed == old(removed) + if old(running) && e.Destroy? then {e.h} else {}
      ensures running == (old(running) && e != Stop)
    {
      match e
      case Set(h, ms) => countdown.SelectTimeout(h, ms);
      case Cancel(h) => countdown.SelectTimeout(h, -1);
      case Destroy(h) =>
        countdown.SelectTimeout(h, -1);
        if running {
          removed := removed + {h};
        }
      case Stop => running := false;
    }
  }

  lemma RunNext(s: Timers, cb: seq<Event>, i: nat)
    requires i < |cb|
    ensures Run(s, cb[..i + 1]) == Next(Run(s, cb[..i]), cb[i])
  {
    assert cb[..i + 1][..i] == cb[..i];
  }

  lemma RemovedNext(cb: seq<Event>, i: nat, running: bool)
    requires i < |cb|
    ensures StillRunning(cb[..i + 1], running) == (StillRunning(cb[..i], running) && cb[i] != Stop)
    ensures RemovedBy(cb[..i + 1], running) ==
            RemovedBy(cb[..i], running) + if StillRunning(cb[..i], running) && cb[i].Destroy? then {cb[i].h} else {}
  {
    var next := cb[..i + 1];
    var one := if StillRunning(cb[..i], running) && cb[i].Destroy? then {cb[i].h} else {};
    assert next[i] == cb[i] && next == cb[..i] + [cb[i]];
    assert forall k :: 0 <= k <= i ==> next[..k] == cb[..k];
    assert forall k :: 0 <= k < i ==> cb[..i][..k] == cb[..k];
    forall h | h in RemovedBy(next, running) ensures h in RemovedBy(cb[..i], running) + one {
      var k :| 0 <= k < |next| && running && next[k].Destroy? && Stop !in next[..k] && next[k].h == h;
      assert k < i ==> cb[..i][k] == next[k];
    }
    forall h | h in RemovedBy(cb[..i], running) + one ensures h in RemovedBy(next, running) {
      if h in RemovedBy(cb[..i], running) {
        var k :| 0 <= k < i && running && cb[..i][k].Destroy? && Stop !in cb[..i][..k] && cb[..i][k].h == h;
        assert next[k] == cb[..i][k];
      } else {
        assert next[i].h == h;
      }
    }
  }
}
