/** The hierarchical timer wheel behind every `select_timeout` call (core/countdown.h, core/countdown.cpp).

    Thirteen "fall" lists hold the registered timers.  A list does not touch its nodes on every click: it
    only adds the elapsed time to a per-list counter, and settles the nodes (expire, keep, or cascade to a
    lower list) once the counter reaches the list's threshold.  The wheel is nevertheless an exact flat map
    from handler to remaining milliseconds, which is what `Remaining` and the contracts below say.

    A node is reached in two ways, through the list it sits in and through its handler's back pointer
    `m_iter`.  Here a node is named by its handler: lists hold names, `iter` maps a name to the node's
    fields, and a handler outside `iter` has a null back pointer. */
module TimerWheel {
  const TIME_CLICK: int := 5
  const LAST: nat := 12
  const INT_MAX: int := 0x7fff_ffff
  /** The largest value for which adding any list's elapsed counter stays within a C++ `int`. */
  const MAX_MS: int := INT_MAX - 10240

  type Handler = nat
  datatype Timeout = Timeout(fallidx: nat, count: int)
  datatype Fall = Fall(elapsed: int, fall: int, list: seq<Handler>)

  ghost predicate Distinct<T>(s: seq<T>) {
    forall i, j :: 0 <= i < j < |s| ==> s[i] != s[j]
  }

  /** Removing a node from a list, as std::list erase and splice do through its iterator. */
  function Unlink(s: seq<Handler>, t: Handler): (r: seq<Handler>)
    requires Distinct(s)
    ensures Distinct(r)
    ensures forall x :: x in r <==> x in s && x != t
  {
    if s == [] then []
    else if s[0] == t then
      assert s == [t] + s[1..];
      s[1..]
    else
      assert s == [s[0]] + s[1..];
      var r := [s[0]] + Unlink(s[1..], t);
      assert s[0] !in s[1..];
      assert forall i :: 0 < i < |r| ==> r[i] == Unlink(s[1..], t)[i - 1];
      r
  }

  /** The thresholds: 0 for the bottom list, then 5 ms doubling up to 10240 ms. */
  ghost predicate Thresholds(falls: seq<Fall>) {
    && |falls| == LAST + 1
    && falls[0].fall == 0 && falls[1].fall == TIME_CLICK
    && (forall i, j :: 1 <= i < LAST && j == i + 1 ==> falls[j].fall == 2 * falls[i].fall)
    && (forall i :: 0 <= i <= LAST ==> 0 <= falls[i].fall <= 10240)
  }

  /** The bottom list never accumulates; any other list's counter stays below its threshold. */
  ghost predicate Shape(falls: seq<Fall>) {
    && Thresholds(falls)
    && (forall i :: 0 <= i <= LAST ==>
          if i == 0 then falls[i].elapsed == 0 else 0 <= falls[i].elapsed < falls[i].fall)
  }

  /** The counts a list with threshold `fall` may hold. */
  ghost predicate InRange(fall: int, count: int) {
    0 <= count <= INT_MAX && (if fall == 0 then count < TIME_CLICK else fall <= count)
  }

  /** A node is in the one list it names, once, and its handler's back pointer is set exactly then. */
  ghost predicate Linked(falls: seq<Fall>, iter: map<Handler, Timeout>)
    requires |falls| == LAST + 1
  {
    && (forall i :: 0 <= i <= LAST ==> Distinct(falls[i].list))
    && (forall i, h :: 0 <= i <= LAST && h in falls[i].list ==> h in iter && iter[h].fallidx == i)
    && (forall h :: h in iter ==> iter[h].fallidx <= LAST && h in falls[iter[h].fallidx].list)
  }

  /** The wheel is well formed and stands for the flat map `m` of remaining milliseconds. */
  ghost predicate Stands(falls: seq<Fall>, iter: map<Handler, Timeout>, m: map<Handler, int>) {
    && Shape(falls)
    && Linked(falls, iter)
    && (forall h :: h in iter ==> InRange(falls[iter[h].fallidx].fall, iter[h].count))
    && (forall h :: h in m <==> h in iter)
    && (forall h :: h in m ==> m[h] == iter[h].count - falls[iter[h].fallidx].elapsed)
  }

  lemma ThresholdsGrow(falls: seq<Fall>, i: nat, j: nat)
    requires Thresholds(falls) && i <= j <= LAST
    ensures falls[i].fall <= falls[j].fall
    ensures 0 < i ==> TIME_CLICK <= falls[i].fall
    decreases j, i
  {
    if i < j {
      ThresholdsGrow(falls, i, j - 1);
    } else if i > 1 {
      ThresholdsGrow(falls, i - 1, i - 1);
    }
  }

  /** Fall::erase and Fall::insert on one of the lists; a splice is one of each. */
  function Erase(falls: seq<Fall>, i: nat, h: Handler): (r: seq<Fall>)
    requires i < |falls| && Distinct(falls[i].list)
  {
    falls[i := falls[i].(list := Unlink(falls[i].list, h))]
  }

  function Insert(falls: seq<Fall>, i: nat, h: Handler): (r: seq<Fall>)
    requires i < |falls|
  {
    falls[i := falls[i].(list := falls[i].list + [h])]
  }

  lemma EraseLinked(falls: seq<Fall>, iter: map<Handler, Timeout>, h: Handler)
    requires |falls| == LAST + 1 && Linked(falls, iter) && h in iter
    ensures Linked(Erase(falls, iter[h].fallidx, h), iter - {h})
  {
  }

  lemma InsertLinked(falls: seq<Fall>, iter: map<Handler, Timeout>, i: nat, h: Handler, count: int)
    requires |falls| == LAST + 1 && Linked(falls, iter) && h !in iter && i <= LAST
    ensures Linked(Insert(falls, i, h), iter[h := Timeout(i, count)])
  {
    assert h !in falls[i].list;
  }

  lemma SpliceLinked(falls: seq<Fall>, iter: map<Handler, Timeout>, i: nat, h: Handler, count: int)
    requires |falls| == LAST + 1 && Linked(falls, iter) && h in iter && i <= LAST
    ensures Linked(Insert(Erase(falls, iter[h].fallidx, h), i, h), iter[h := Timeout(i, count)])
  {
    EraseLinked(falls, iter, h);
    InsertLinked(Erase(falls, iter[h].fallidx, h), iter - {h}, i, h, count);
    assert (iter - {h})[h := Timeout(i, count)] == iter[h := Timeout(i, count)];
  }

  /** The same thresholds and counters, whatever the lists hold. */
  ghost predicate SameCounters(falls: seq<Fall>, falls': seq<Fall>) {
    |falls| == |falls'| &&
    forall i :: 0 <= i < |falls| ==> falls[i].fall == falls'[i].fall && falls[i].elapsed == falls'[i].elapsed
  }

  /** One node placed in list `i` with `ms` to go, all others as they were: one entry of the flat map changes. */
  lemma PlaceOne(falls: seq<Fall>, iter: map<Handler, Timeout>, m: map<Handler, int>,
                 falls': seq<Fall>, i: nat, h: Handler, count: int, ms: int)
    requires Stands(falls, iter, m) && SameCounters(falls, falls') && i <= LAST
    requires Linked(falls', iter[h := Timeout(i, count)])
    requires InRange(falls[i].fall, count) && count == ms + falls[i].elapsed
    ensures Stands(falls', iter[h := Timeout(i, count)], m[h := ms])
  {
  }

  lemma RemoveOne(falls: seq<Fall>, iter: map<Handler, Timeout>, m: map<Handler, int>, falls': seq<Fall>, h: Handler)
    requires Stands(falls, iter, m) && SameCounters(falls, falls')
    requires Linked(falls', iter - {h})
    ensures Stands(falls', iter - {h}, m - {h})
  {
    FewerStand(falls, iter, m, falls', iter - {h}, m - {h});
  }

  /** Fewer nodes, each as before. */
  lemma FewerStand(falls: seq<Fall>, iter: map<Handler, Timeout>, m: map<Handler, int>, falls': seq<Fall>,
                   iter': map<Handler, Timeout>, m': map<Handler, int>)
    requires Stands(falls, iter, m) && SameCounters(falls, falls') && Linked(falls', iter')
    requires forall h :: h in iter' ==> h in iter && iter'[h] == iter[h]
    requires forall h :: h in m' <==> h in iter'
    requires forall h :: h in m' ==> h in m && m'[h] == m[h]
    ensures Stands(falls', iter', m')
  {
    ShapeSame(falls, falls');
    forall h | h in iter'
      ensures InRange(falls'[iter'[h].fallidx].fall, iter'[h].count)
      ensures m'[h] == iter'[h].count - falls'[iter'[h].fallidx].elapsed
    {
      var i := iter[h].fallidx;
      assert falls'[i].fall == falls[i].fall && falls'[i].elapsed == falls[i].elapsed;
    }
  }

  lemma ShapeSame(falls: seq<Fall>, falls': seq<Fall>)
    requires Shape(falls) && SameCounters(falls, falls')
    ensures Shape(falls')
  {
  }

  lemma CancelOne(falls: seq<Fall>, iter: map<Handler, Timeout>, m: map<Handler, int>, h: Handler)
    requires Stands(falls, iter, m) && h in iter
    ensures Stands(Erase(falls, iter[h].fallidx, h), iter - {h}, m - {h})
  {
    EraseLinked(falls, iter, h);
    RemoveOne(falls, iter, m, Erase(falls, iter[h].fallidx, h), h);
  }

  /** The list `find_fall_idx` picks for `timeout`. */
  ghost predicate Fits(falls: seq<Fall>, i: nat, timeout: int) {
    && |falls| == LAST + 1 && i <= LAST
    && (i == 0 || falls[i].fall <= timeout)
    && (i == 0 ==> timeout < falls[1].fall)
  }

  /** The lists after handler `h` got a node in list `i`: inserted, spliced over, or there already. */
  function Relist(falls: seq<Fall>, iter: map<Handler, Timeout>, i: nat, h: Handler): (r: seq<Fall>)
    requires i < |falls| == LAST + 1 && Linked(falls, iter)
  {
    if h !in iter then Insert(falls, i, h)
    else if iter[h].fallidx != i then Insert(Erase(falls, iter[h].fallidx, h), i, h)
    else falls
  }

  lemma RelistLinked(falls: seq<Fall>, iter: map<Handler, Timeout>, i: nat, h: Handler, count: int)
    requires i < |falls| == LAST + 1 && Linked(falls, iter)
    ensures Linked(Relist(falls, iter, i, h), iter[h := Timeout(i, count)])
    ensures SameCounters(falls, Relist(falls, iter, i, h))
  {
    if h !in iter {
      InsertLinked(falls, iter, i, h, count);
    } else if iter[h].fallidx != i {
      SpliceLinked(falls, iter, i, h, count);
    }
  }

  lemma RegisterOne(falls: seq<Fall>, iter: map<Handler, Timeout>, m: map<Handler, int>,
                    i: nat, h: Handler, count: int, ms: int)
    requires Stands(falls, iter, m) && Fits(falls, i, ms) && 0 <= ms && count == ms + falls[i].elapsed <= INT_MAX
    ensures Stands(Relist(falls, iter, i, h), iter[h := Timeout(i, count)], m[h := ms])
  {
    assert InRange(falls[i].fall, count) by {
      ThresholdsGrow(falls, i, LAST);
    }
    RelistLinked(falls, iter, i, h, count);
    PlaceOne(falls, iter, m, Relist(falls, iter, i, h), i, h, count, ms);
  }

  /** The wheel and map with every node of list `idx` taken out and that list's counter reset. */
  function Without(iter: map<Handler, Timeout>, idx: nat): (r: map<Handler, Timeout>) {
    map h | h in iter && iter[h].fallidx != idx :: iter[h]
  }

  lemma TakeOutLinked(falls: seq<Fall>, iter: map<Handler, Timeout>, idx: nat, falls': seq<Fall>)
    requires |falls| == LAST + 1 && Linked(falls, iter) && idx <= LAST
    requires falls' == falls[idx := Fall(0, falls[idx].fall, [])]
    ensures Linked(falls', Without(iter, idx))
  {
  }

  /** Resetting or advancing one counter, within its bound. */
  lemma ShapeKept(falls: seq<Fall>, idx: nat, elapsed: int, list: seq<Handler>, falls': seq<Fall>)
    requires Shape(falls) && idx <= LAST && 0 <= elapsed && (elapsed == 0 || (0 < idx && elapsed < falls[idx].fall))
    requires falls' == falls[idx := Fall(elapsed, falls[idx].fall, list)]
    ensures Shape(falls') && forall i :: 0 <= i <= LAST ==> falls'[i].fall == falls[i].fall
  {
    assert 0 < idx ==> 0 < falls[idx].fall;
    assert forall i :: 0 <= i <= LAST ==> falls'[i].fall == falls[i].fall;
  }

  lemma TakeOut(falls: seq<Fall>, iter: map<Handler, Timeout>, m: map<Handler, int>, idx: nat, falls': seq<Fall>)
    returns (m': map<Handler, int>)
    requires Stands(falls, iter, m) && idx <= LAST
    requires falls' == falls[idx := Fall(0, falls[idx].fall, [])]
    ensures Stands(falls', Without(iter, idx), m')
    ensures forall h :: h in m' ==> h in m && m'[h] == m[h]
  {
    m' := map h | h in m && iter[h].fallidx != idx :: m[h];
    TakeOutLinked(falls, iter, idx, falls');
    ShapeKept(falls, idx, 0, [], falls');
    TakeOutStands(falls, iter, m, idx, falls', Without(iter, idx), m');
  }

  lemma TakeOutStands(falls: seq<Fall>, iter: map<Handler, Timeout>, m: map<Handler, int>, idx: nat, falls': seq<Fall>,
                      iter': map<Handler, Timeout>, m': map<Handler, int>)
    requires Stands(falls, iter, m) && idx <= LAST && Shape(falls') && Linked(falls', iter')
    requires falls' == falls[idx := Fall(0, falls[idx].fall, [])]
    requires forall h :: h in iter' <==> h in iter && iter[h].fallidx != idx
    requires forall h :: h in iter' ==> iter'[h] == iter[h]
    requires forall h :: h in m' <==> h in iter'
    requires forall h :: h in m' ==> m'[h] == m[h]
    ensures Stands(falls', iter', m')
  {
  }

  /** A list's counter is the only thing that changed. */
  lemma CounterLinked(falls: seq<Fall>, iter: map<Handler, Timeout>, idx: nat, sum: int, falls': seq<Fall>)
    requires |falls| == LAST + 1 && Linked(falls, iter) && idx <= LAST
    requires falls' == falls[idx := Fall(sum, falls[idx].fall, falls[idx].list)]
    ensures Linked(falls', iter)
  {
    assert forall i :: 0 <= i <= LAST ==> falls'[i].list == falls[i].list;
  }

  /** Adding `ms` to the counter of list `idx` lowers exactly the nodes of that list. */
  lemma Accumulate(falls: seq<Fall>, iter: map<Handler, Timeout>, m: map<Handler, int>, m': map<Handler, int>,
                   idx: nat, ms: int, sum: int, falls': seq<Fall>)
    requires Stands(falls, iter, m) && 1 <= idx <= LAST && 0 <= ms
    requires sum == falls[idx].elapsed + ms && sum < falls[idx].fall
    requires falls' == falls[idx := Fall(sum, falls[idx].fall, falls[idx].list)]
    requires m'.Keys == m.Keys
    requires forall h :: h in m ==> m'[h] == if iter[h].fallidx == idx then m[h] - ms else m[h]
    ensures Stands(falls', iter, m')
  {
    ShapeKept(falls, idx, sum, falls[idx].list, falls');
    CounterLinked(falls, iter, idx, sum, falls');
    forall h | h in m
      ensures m'[h] == iter[h].count - falls'[iter[h].fallidx].elapsed
      ensures InRange(falls'[iter[h].fallidx].fall, iter[h].count)
    {
      var i := iter[h].fallidx;
      assert falls'[i].elapsed == if i == idx then sum else falls[i].elapsed;
    }
  }

  lemma Lower(falls: seq<Fall>, iter: map<Handler, Timeout>, m: map<Handler, int>, idx: nat, ms: int, sum: int,
              falls': seq<Fall>)
    returns (m': map<Handler, int>)
    requires Stands(falls, iter, m) && 1 <= idx <= LAST && 0 <= ms
    requires sum == falls[idx].elapsed + ms && sum < falls[idx].fall
    requires falls' == falls[idx := Fall(sum, falls[idx].fall, falls[idx].list)]
    ensures Stands(falls', iter, m')
    ensures Settled(iter, m, iter, m', idx, ms, [])
  {
    m' := map h | h in m :: if iter[h].fallidx == idx then m[h] - ms else m[h];
    forall h | h in iter && iter[h].fallidx == idx ensures m[h] > ms {
      assert m[h] == iter[h].count - falls[idx].elapsed;
      assert InRange(falls[idx].fall, iter[h].count);
    }
    assert Settled(iter, m, iter, m', idx, ms, []);
    Accumulate(falls, iter, m, m', idx, ms, sum, falls');
  }

  /** What a click does to list `idx`: `fired` are its nodes with at most `ms` to go, the others lose `ms` and stay
      at or below that list, and nodes of other lists are untouched. */
  ghost predicate Settled(iter: map<Handler, Timeout>, m: map<Handler, int>,
                          iter': map<Handler, Timeout>, m': map<Handler, int>,
                          idx: nat, ms: int, fired: seq<Handler>)
  {
    && m.Keys == iter.Keys && m'.Keys == iter'.Keys
    && Distinct(fired)
    && (forall h :: h in fired <==> h in iter && iter[h].fallidx == idx && m[h] <= ms)
    && (forall h :: h in iter' <==> h in iter && h !in fired)
    && (forall h :: h in iter' && iter[h].fallidx != idx ==> iter'[h] == iter[h] && m'[h] == m[h])
    && (forall h :: h in iter' && iter[h].fallidx == idx ==> iter'[h].fallidx <= idx && m'[h] == m[h] - ms)
  }

  /** List `idx` without its element `k`. */
  function Cut(falls: seq<Fall>, idx: nat, k: nat): (r: seq<Fall>)
    requires idx < |falls| && k < |falls[idx].list|
  {
    falls[idx := Fall(falls[idx].elapsed, falls[idx].fall, falls[idx].list[..k] + falls[idx].list[k + 1..])]
  }

  /** The settling of list `idx` in a click of `ms`: the wheel's back pointers and flat map at its start, the nodes to
      settle, and the counter value `sum` their counts are relative to. */
  datatype Job = Job(iter: map<Handler, Timeout>, m: map<Handler, int>, list: seq<Handler>, idx: nat, ms: int, sum: int)

  /** A wheel with its flat map. */
  datatype View = View(falls: seq<Fall>, iter: map<Handler, Timeout>, m: map<Handler, int>)

  ghost predicate Due(job: Job) {
    && 1 <= job.idx <= LAST && job.m.Keys == job.iter.Keys
    && Distinct(job.list) && (forall h :: h in job.list <==> h in job.iter && job.iter[h].fallidx == job.idx)
    && (forall h :: h in job.list ==> job.iter[h].count - job.sum == job.m[h] - job.ms && job.iter[h].count <= INT_MAX)
  }

  /** What the nodes settled so far became: `v` is the wheel without the nodes `list[i..]` still to come. */
  ghost predicate Partway(job: Job, v: View, i: nat, fired: seq<Handler>)
  {
    && Due(job) && v.m.Keys == v.iter.Keys && i <= |job.list|
    && Distinct(fired)
    && (forall h :: h in fired <==> h in job.list[..i] && job.m[h] <= job.ms)
    && (forall h :: h in v.iter <==> h in job.iter && h !in fired && h !in job.list[i..])
    && (forall h :: h in v.iter && h !in job.list ==> v.iter[h] == job.iter[h] && v.m[h] == job.m[h])
    && (forall h :: h in v.iter && h in job.list ==> v.iter[h].fallidx <= job.idx && v.m[h] == job.m[h] - job.ms)
  }

  /** The real wheel is `v` plus the nodes `rest`, untouched yet and counting from the old counter value. */
  ghost predicate Overlay(job: Job, falls: seq<Fall>, iter: map<Handler, Timeout>, v: View, rest: seq<Handler>)
    requires job.idx < |v.falls|
  {
    && v.falls[job.idx].elapsed == 0
    && falls == v.falls[job.idx := Fall(job.sum, v.falls[job.idx].fall, v.falls[job.idx].list + rest)]
    && (forall h :: h in iter <==> h in v.iter || h in rest)
    && (forall h :: h in v.iter ==> iter[h] == v.iter[h] && h !in rest)
    && (forall h :: h in rest ==> h in job.iter && iter[h] == job.iter[h])
  }

  /** The loop invariant of the settling loop. */
  ghost predicate Settling(job: Job, falls: seq<Fall>, iter: map<Handler, Timeout>, v: View, i: nat, k: nat,
                           fired: seq<Handler>)
  {
    && Due(job)
    && Stands(v.falls, v.iter, v.m)
    && i <= |job.list| && k == |v.falls[job.idx].list| && v.falls[job.idx].fall <= job.sum
    && Overlay(job, falls, iter, v, job.list[i..])
    && Partway(job, v, i, fired)
  }

  lemma DueAtStart(falls: seq<Fall>, job: Job)
    requires Stands(falls, job.iter, job.m) && 1 <= job.idx <= LAST
    requires job.list == falls[job.idx].list && job.sum == falls[job.idx].elapsed + job.ms
    ensures Due(job)
  {
    forall h | h in job.list
      ensures job.iter[h].count - job.sum == job.m[h] - job.ms && job.iter[h].count <= INT_MAX
    {
      assert InRange(falls[job.idx].fall, job.iter[h].count);
    }
  }

  lemma BeginSettling(falls: seq<Fall>, job: Job, falls': seq<Fall>) returns (v: View)
    requires Stands(falls, job.iter, job.m) && 1 <= job.idx <= LAST
    requires job.list == falls[job.idx].list && falls[job.idx].fall <= job.sum == falls[job.idx].elapsed + job.ms
    requires falls' == falls[job.idx := Fall(job.sum, falls[job.idx].fall, falls[job.idx].list)]
    ensures Settling(job, falls', job.iter, v, 0, 0, [])
  {
    var taken := falls[job.idx := Fall(0, falls[job.idx].fall, [])];
    var m := TakeOut(falls, job.iter, job.m, job.idx, taken);
    v := View(taken, Without(job.iter, job.idx), m);
    DueAtStart(falls, job);
    NothingSettled(job, falls, falls', v);
  }

  lemma NothingSettled(job: Job, falls: seq<Fall>, falls': seq<Fall>, v: View)
    requires Due(job) && job.idx < |falls| && job.list == falls[job.idx].list
    requires falls' == falls[job.idx := Fall(job.sum, falls[job.idx].fall, falls[job.idx].list)]
    requires v.falls == falls[job.idx := Fall(0, falls[job.idx].fall, [])] && v.iter == Without(job.iter, job.idx)
    requires v.m.Keys == v.iter.Keys && forall h :: h in v.m ==> h in job.m && v.m[h] == job.m[h]
    ensures Overlay(job, falls', job.iter, v, job.list[0..])
    ensures Partway(job, v, 0, [])
  {
    assert [] + job.list == job.list;
    assert job.list[..0] == [] && job.list[0..] == job.list;
  }

  lemma NextInList(list: seq<Handler>, i: nat)
    requires i < |list| && Distinct(list)
    ensures list[i..] == [list[i]] + list[i + 1..] && list[..i + 1] == list[..i] + [list[i]]
    ensures list[i] !in list[..i] && list[i] !in list[i + 1..]
  {
  }

  lemma LookAt(job: Job, falls: seq<Fall>, iter: map<Handler, Timeout>, v: View, i: nat, k: nat, fired: seq<Handler>)
    requires Settling(job, falls, iter, v, i, k, fired) && k < |falls[job.idx].list|
    ensures i < |job.list| && falls[job.idx].list[k] == job.list[i] && job.list[i] in iter
    ensures iter[job.list[i]].count - job.sum == job.m[job.list[i]] - job.ms
    ensures Thresholds(falls) && falls[job.idx].fall == v.falls[job.idx].fall
  {
    OverlayThresholds(job, falls, iter, v, job.list[i..]);
    OverlayFirst(job, falls, iter, v, i);
    DueCount(job, i);
  }

  lemma OverlayThresholds(job: Job, falls: seq<Fall>, iter: map<Handler, Timeout>, v: View, rest: seq<Handler>)
    requires Thresholds(v.falls) && job.idx <= LAST && Overlay(job, falls, iter, v, rest)
    ensures Thresholds(falls) && falls[job.idx].fall == v.falls[job.idx].fall
  {
    assert forall i :: 0 <= i <= LAST ==> falls[i].fall == v.falls[i].fall;
  }

  /** Behind the nodes that are settled comes the next one. */
  lemma OverlayFirst(job: Job, falls: seq<Fall>, iter: map<Handler, Timeout>, v: View, i: nat)
    requires |v.falls| == LAST + 1 && job.idx <= LAST && i <= |job.list| && Overlay(job, falls, iter, v, job.list[i..])
    requires |v.falls[job.idx].list| < |falls[job.idx].list|
    ensures i < |job.list| && falls[job.idx].list[|v.falls[job.idx].list|] == job.list[i]
    ensures job.list[i] in iter && job.list[i] in job.iter && iter[job.list[i]] == job.iter[job.list[i]]
  {
    assert i < |job.list| ==> job.list[i] in job.list[i..];
  }

  lemma DueCount(job: Job, i: nat)
    requires Due(job) && i < |job.list|
    ensures job.list[i] in job.iter && job.list[i] in job.m
    ensures job.iter[job.list[i]].count - job.sum == job.m[job.list[i]] - job.ms
  {
    assert job.list[i] in job.list;
  }

  lemma OverlayDrop(job: Job, falls: seq<Fall>, iter: map<Handler, Timeout>, v: View, h: Handler, rest: seq<Handler>)
    requires job.idx < |v.falls| && Overlay(job, falls, iter, v, [h] + rest) && h !in rest
    ensures Overlay(job, Cut(falls, job.idx, |v.falls[job.idx].list|), iter - {h}, v, rest)
  {
    var k := |v.falls[job.idx].list|;
    assert falls[job.idx].list[..k] == v.falls[job.idx].list && falls[job.idx].list[k + 1..] == rest;
  }

  lemma PartwayFire(job: Job, v: View, i: nat, fired: seq<Handler>)
    requires Due(job) && v.m.Keys == v.iter.Keys && i < |job.list| && Partway(job, v, i, fired)
    requires job.m[job.list[i]] <= job.ms
    ensures Partway(job, v, i + 1, fired + [job.list[i]])
  {
    NextInList(job.list, i);
  }

  lemma SettleFired(job: Job, falls: seq<Fall>, iter: map<Handler, Timeout>, v: View, i: nat, k: nat,
                    fired: seq<Handler>)
    requires Settling(job, falls, iter, v, i, k, fired) && k < |falls[job.idx].list|
    requires i < |job.list| && job.m[job.list[i]] <= job.ms
    ensures Settling(job, Cut(falls, job.idx, k), iter - {job.list[i]}, v, i + 1, k, fired + [job.list[i]])
  {
    NextInList(job.list, i);
    PartwayFire(job, v, i, fired);
    OverlayDrop(job, falls, iter, v, job.list[i], job.list[i + 1..]);
  }

  lemma OverlayStay(job: Job, falls: seq<Fall>, iter: map<Handler, Timeout>, v: View, h: Handler, rest: seq<Handler>,
                    t: Timeout, m: map<Handler, int>)
    requires job.idx < |v.falls| && Overlay(job, falls, iter, v, [h] + rest) && h !in rest
    ensures Overlay(job, falls, iter[h := t], View(Insert(v.falls, job.idx, h), v.iter[h := t], m), rest)
  {
    var list := v.falls[job.idx].list;
    assert list + ([h] + rest) == (list + [h]) + rest;
  }

  lemma OverlayMove(job: Job, falls: seq<Fall>, iter: map<Handler, Timeout>, v: View, h: Handler, rest: seq<Handler>,
                    newidx: nat, t: Timeout, m: map<Handler, int>)
    requires job.idx < |v.falls| && Overlay(job, falls, iter, v, [h] + rest) && h !in rest
    requires newidx < |v.falls| && newidx != job.idx
    ensures Overlay(job, Insert(Cut(falls, job.idx, |v.falls[job.idx].list|), newidx, h), iter[h := t],
                    View(Insert(v.falls, newidx, h), v.iter[h := t], m), rest)
  {
    var k, list := |v.falls[job.idx].list|, falls[job.idx].list;
    assert list[..k] + list[k + 1..] == v.falls[job.idx].list + rest;
  }

  lemma PartwayKeep(job: Job, v: View, i: nat, fired: seq<Handler>, falls': seq<Fall>, t: Timeout, left: int)
    requires Due(job) && v.m.Keys == v.iter.Keys && i < |job.list| && Partway(job, v, i, fired)
    requires left == job.m[job.list[i]] - job.ms > 0 && t.fallidx <= job.idx
    ensures Partway(job, View(falls', v.iter[job.list[i] := t], v.m[job.list[i] := left]), i + 1, fired)
  {
    NextInList(job.list, i);
  }

  /** What node `i` has to go after the click. */
  ghost function Remaining(job: Job, i: nat): int {
    if i < |job.list| && job.list[i] in job.m then job.m[job.list[i]] - job.ms else 0
  }

  lemma KeptFits(job: Job, falls: seq<Fall>, iter: map<Handler, Timeout>, v: View, i: nat, k: nat, fired: seq<Handler>,
                 newidx: nat, left: int, count: int)
    requires Settling(job, falls, iter, v, i, k, fired) && i < |job.list|
    requires left == Remaining(job, i) > 0 && newidx <= job.idx && Fits(falls, newidx, left)
    requires count == if newidx == job.idx then left else left + falls[newidx].elapsed
    ensures Fits(v.falls, newidx, left) && count == left + v.falls[newidx].elapsed <= INT_MAX
  {
    ThresholdsGrow(v.falls, newidx, job.idx);
  }

  /** Re-registering the node in the wheel without it; `v'` is that wheel with the node back in list `newidx`. */
  lemma KeptView(job: Job, falls: seq<Fall>, iter: map<Handler, Timeout>, v: View, i: nat, k: nat, fired: seq<Handler>,
                 newidx: nat, left: int, count: int)
    returns (v': View)
    requires Settling(job, falls, iter, v, i, k, fired) && k < |falls[job.idx].list| && i < |job.list|
    requires left == Remaining(job, i) > 0
    requires newidx <= job.idx && Fits(falls, newidx, left)
    requires count == if newidx == job.idx then left else left + falls[newidx].elapsed
    ensures Stands(v'.falls, v'.iter, v'.m) && Partway(job, v', i + 1, fired)
    ensures v'.falls == Insert(v.falls, newidx, job.list[i])
    ensures v'.iter == v.iter[job.list[i] := Timeout(newidx, count)]
  {
    var h, t := job.list[i], Timeout(newidx, count);
    NotThere(job, v, i, fired);
    KeptFits(job, falls, iter, v, i, k, fired, newidx, left, count);
    RegisterOne(v.falls, v.iter, v.m, newidx, h, count, left);
    v' := View(Insert(v.falls, newidx, h), v.iter[h := t], v.m[h := left]);
    PartwayKeep(job, v, i, fired, v'.falls, t, left);
  }

  lemma NotThere(job: Job, v: View, i: nat, fired: seq<Handler>)
    requires Partway(job, v, i, fired) && i < |job.list|
    ensures job.list[i] !in v.iter
  {
    assert job.list[i] in job.list[i..];
  }

  /** The node stays in its list, or moves to the end of a lower one. */
  lemma SettleKept(job: Job, falls: seq<Fall>, iter: map<Handler, Timeout>, v: View, i: nat, k: nat,
                   fired: seq<Handler>,
                   newidx: nat, left: int, count: int)
    returns (v': View)
    requires Settling(job, falls, iter, v, i, k, fired) && k < |falls[job.idx].list| && i < |job.list|
    requires left == Remaining(job, i) > 0
    requires newidx <= job.idx && Fits(falls, newidx, left)
    requires count == if newidx == job.idx then left else left + falls[newidx].elapsed
    ensures newidx == job.idx ==>
              Settling(job, falls, iter[job.list[i] := Timeout(newidx, count)], v', i + 1, k + 1, fired)
    ensures newidx != job.idx ==>
              Settling(job, Insert(Cut(falls, job.idx, k), newidx, job.list[i]),
                       iter[job.list[i] := Timeout(newidx, count)], v', i + 1, k, fired)
  {
    v' := KeptView(job, falls, iter, v, i, k, fired, newidx, left, count);
    NextInList(job.list, i);
    if newidx == job.idx {
      OverlayStay(job, falls, iter, v, job.list[i], job.list[i + 1..], Timeout(newidx, count), v'.m);
    } else {
      OverlayMove(job, falls, iter, v, job.list[i], job.list[i + 1..], newidx, Timeout(newidx, count), v'.m);
    }
  }

  lemma AllSettled(job: Job, v: View, fired: seq<Handler>)
    requires Due(job) && v.m.Keys == v.iter.Keys && Partway(job, v, |job.list|, fired)
    ensures Settled(job.iter, job.m, v.iter, v.m, job.idx, job.ms, fired)
  {
    assert job.list[|job.list|..] == [] && job.list[..|job.list|] == job.list;
  }

  lemma NothingLeft(job: Job, falls: seq<Fall>, iter: map<Handler, Timeout>, v: View, falls': seq<Fall>)
    requires job.idx < |v.falls| && Overlay(job, falls, iter, v, [])
    requires falls' == falls[job.idx := Fall(0, falls[job.idx].fall, falls[job.idx].list)]
    ensures iter == v.iter && falls' == v.falls
  {
    assert v.falls[job.idx].list + [] == v.falls[job.idx].list;
    assert v.falls[job.idx] == falls'[job.idx];
  }

  lemma EndSettling(job: Job, falls: seq<Fall>, iter: map<Handler, Timeout>, v: View, i: nat, k: nat,
                    fired: seq<Handler>,
                    falls': seq<Fall>)
    requires Settling(job, falls, iter, v, i, k, fired) && |falls[job.idx].list| <= k
    requires falls' == falls[job.idx := Fall(0, falls[job.idx].fall, falls[job.idx].list)]
    ensures Stands(falls', iter, v.m)
    ensures Settled(job.iter, job.m, iter, v.m, job.idx, job.ms, fired)
  {
    assert i == |job.list| && job.list[i..] == [];
    NothingLeft(job, falls, iter, v, falls');
    AllSettled(job, v, fired);
  }

  /** The flat map after `ms` milliseconds, and the handlers that expire meanwhile. */
  ghost function Elapse(m: map<Handler, int>, ms: int): (r: map<Handler, int>) {
    map h | h in m && m[h] > ms :: m[h] - ms
  }

  ghost predicate Expired(m: map<Handler, int>, ms: int, fired: seq<Handler>) {
    Distinct(fired) && forall h :: h in fired <==> h in m && m[h] <= ms
  }

  /** A click of `ms` on a wheel that stood for `m0`, with the lists below `idx` done. */
  ghost predicate MidClick(m0: map<Handler, int>, ms: int, idx: nat, iter: map<Handler, Timeout>, m: map<Handler, int>,
                           fired: seq<Handler>)
  {
    && m.Keys == iter.Keys
    && Distinct(fired)
    && (forall h :: h in fired ==> h in m0 && m0[h] <= ms && h !in iter)
    && (forall h :: h in m0 ==> h in iter || h in fired)
    && (forall h :: h in iter ==> h in m0)
    && (forall h :: h in iter && iter[h].fallidx < idx ==> m[h] == m0[h] - ms > 0)
    && (forall h :: h in iter && iter[h].fallidx >= idx ==> m[h] == m0[h])
  }

  /** The bottom list expires whole: all its timers have less than one click to go. */
  lemma ClickBottom(falls: seq<Fall>, iter: map<Handler, Timeout>, m: map<Handler, int>, ms: int, falls': seq<Fall>)
    returns (m': map<Handler, int>)
    requires Stands(falls, iter, m) && TIME_CLICK <= ms
    requires falls' == falls[0 := Fall(0, falls[0].fall, [])]
    ensures Stands(falls', Without(iter, 0), m')
    ensures MidClick(m, ms, 1, Without(iter, 0), m', falls[0].list)
  {
    m' := TakeOut(falls, iter, m, 0, falls');
    var iter' := Without(iter, 0);
    assert m'.Keys == iter'.Keys;
    BottomExpires(falls, iter, m, ms, iter', m');
  }

  lemma BottomDue(falls: seq<Fall>, iter: map<Handler, Timeout>, m: map<Handler, int>, ms: int, h: Handler)
    requires Stands(falls, iter, m) && TIME_CLICK <= ms && h in falls[0].list
    ensures h in m && h in iter && iter[h].fallidx == 0 && m[h] <= ms
  {
    assert InRange(falls[0].fall, iter[h].count);
  }

  lemma BottomExpires(falls: seq<Fall>, iter: map<Handler, Timeout>, m: map<Handler, int>, ms: int,
                      iter': map<Handler, Timeout>, m': map<Handler, int>)
    requires Stands(falls, iter, m) && TIME_CLICK <= ms && m'.Keys == iter'.Keys
    requires forall h :: h in iter' <==> h in iter && iter[h].fallidx != 0
    requires forall h :: h in iter' ==> iter'[h] == iter[h]
    requires forall h :: h in m' ==> h in m && m'[h] == m[h]
    ensures MidClick(m, ms, 1, iter', m', falls[0].list)
  {
    forall h | h in falls[0].list ensures h in m && h in iter && iter[h].fallidx == 0 && m[h] <= ms {
      BottomDue(falls, iter, m, ms, h);
    }
  }

  lemma DistinctConcat<T>(a: seq<T>, b: seq<T>)
    requires Distinct(a) && Distinct(b) && (forall x :: x in a ==> x !in b)
    ensures Distinct(a + b)
  {
    forall i, j | 0 <= i < j < |a + b| ensures (a + b)[i] != (a + b)[j] {
      assert i < |a| ==> (a + b)[i] in a;
      assert |a| <= j ==> (a + b)[j] in b;
    }
  }

  lemma ClickStep(m0: map<Handler, int>, ms: int, idx: nat, iter: map<Handler, Timeout>, m: map<Handler, int>,
                  fired: seq<Handler>, iter': map<Handler, Timeout>, m': map<Handler, int>, fired': seq<Handler>)
    requires m.Keys == iter.Keys && m'.Keys == iter'.Keys
    requires MidClick(m0, ms, idx, iter, m, fired) && Settled(iter, m, iter', m', idx, ms, fired')
    ensures MidClick(m0, ms, idx + 1, iter', m', fired + fired')
  {
    DistinctConcat(fired, fired');
  }

  lemma InSomeList(falls: seq<Fall>, iter: map<Handler, Timeout>, m: map<Handler, int>)
    requires Stands(falls, iter, m)
    ensures m.Keys == iter.Keys && forall h :: h in iter ==> iter[h].fallidx <= LAST
  {
  }

  lemma ClickDone(m0: map<Handler, int>, ms: int, iter: map<Handler, Timeout>, m: map<Handler, int>,
                  fired: seq<Handler>)
    requires m.Keys == iter.Keys && (forall h :: h in iter ==> iter[h].fallidx <= LAST)
    requires MidClick(m0, ms, LAST + 1, iter, m, fired)
    ensures m == Elapse(m0, ms) && Expired(m0, ms, fired)
  {
  }

  /** A wheel with no node in any list. */
  lemma EmptyWheel(falls: seq<Fall>)
    requires Thresholds(falls)
    requires forall i :: 0 <= i <= LAST ==> falls[i].elapsed == 0 && falls[i].list == []
    ensures Stands(falls, map[], map[])
  {
    forall i | 0 < i <= LAST ensures falls[i].elapsed < falls[i].fall {
      ThresholdsGrow(falls, i, i);
    }
  }

  class Countdown {
    var falls: seq<Fall>
    var iter: map<Handler, Timeout>
    /** The abstract value: remaining milliseconds of every registered handler. */
    ghost var remaining: map<Handler, int>

    ghost predicate Valid()
      reads this
    {
      Stands(falls, iter, remaining)
    }

    constructor ()
      ensures Valid() && remaining == map[]
    {
      falls := [Fall(0, 0, []), Fall(0, TIME_CLICK, []), Fall(0, TIME_CLICK * 2, []), Fall(0, TIME_CLICK * 4, []),
                Fall(0, TIME_CLICK * 8, []), Fall(0, TIME_CLICK * 16, []), Fall(0, TIME_CLICK * 32, []),
                Fall(0, TIME_CLICK * 64, []), Fall(0, TIME_CLICK * 128, []), Fall(0, TIME_CLICK * 256, []),
                Fall(0, TIME_CLICK * 512, []), Fall(0, TIME_CLICK * 1024, []), Fall(0, TIME_CLICK * 2048, [])];
      iter, remaining := map[], map[];
      new;
      EmptyWheel(falls);
    }

    /** The highest list, at most `rbegin`, whose threshold the timeout reaches; the bottom takes the rest. */
    static method FindFallIdx(falls: seq<Fall>, timeout: int, rbegin: nat) returns (i: nat)
      requires Thresholds(falls)
      ensures i <= rbegin && i <= LAST
      ensures i == 0 || falls[i].fall <= timeout
      ensures forall j :: i < j <= LAST && j <= rbegin ==> timeout < falls[j].fall
    {
      i := rbegin;
      if LAST < i {
        i := LAST;
      }
      while i > 0
        invariant i <= rbegin && i <= LAST
        invariant forall j :: i < j <= LAST && j <= rbegin ==> timeout < falls[j].fall
      {
        if timeout >= falls[i].fall {
          break;
        }
        i := i - 1;
      }
    }

    /** Sets (`timeout >= 0`) or removes (`timeout < 0`) the timer of `s`; no other timer moves. */
    method SelectTimeout(s: Handler, timeout: int)
      requires Valid()
      requires timeout <= MAX_MS
      modifies this
      ensures Valid()
      ensures remaining == if timeout < 0 then old(remaining) - {s} else old(remaining)[s := timeout]
    {
      if timeout < 0 {
        if s in iter {
          CancelOne(falls, iter, remaining, s);
          falls := Erase(falls, iter[s].fallidx, s);
          iter := iter - {s};
          remaining := remaining - {s};
        } else {
          assert remaining - {s} == remaining;
        }
      } else {
        Register(s, timeout);
      }
    }

    /** The registering half of `select_timeout`. */
    method Register(s: Handler, timeout: int)
      requires Valid()
      requires 0 <= timeout <= MAX_MS
      modifies this
      ensures Valid() && remaining == old(remaining)[s := timeout]
    {
      var newidx := FindFallIdx(falls, timeout, LAST);
      var count := timeout + falls[newidx].elapsed;
      RegisterOne(falls, iter, remaining, newidx, s, count, timeout);
      falls := Relist(falls, iter, newidx, s);
      iter, remaining := iter[s := Timeout(newidx, count)], remaining[s := timeout];
    }

    /** One list's share of `click_elapse`: accumulate, and settle every node once the threshold is reached. */
    static method SettleFall(falls: seq<Fall>, iter: map<Handler, Timeout>, ghost m: map<Handler, int>,
                             idx: nat, elapsed: int)
      returns (lists: seq<Fall>, back: map<Handler, Timeout>, ghost m': map<Handler, int>, fired: seq<Handler>)
      requires Stands(falls, iter, m) && 1 <= idx <= LAST && 0 <= elapsed <= MAX_MS
      ensures Stands(lists, back, m')
      ensures Settled(iter, m, back, m', idx, elapsed, fired)
    {
      var sum := falls[idx].elapsed + elapsed;
      if sum < falls[idx].fall {
        lists, back, fired := falls[idx := Fall(sum, falls[idx].fall, falls[idx].list)], iter, [];
        m' := Lower(falls, iter, m, idx, elapsed, sum, lists);
      } else {
        lists, back, m', fired := SettleNodes(falls, iter, m, idx, elapsed, sum);
      }
    }

    method Store(lists: seq<Fall>, back: map<Handler, Timeout>, ghost m: map<Handler, int>)
      modifies this
      ensures falls == lists && iter == back && remaining == m
    {
      falls, iter, remaining := lists, back, m;
    }

    /** The inner loop of `click_elapse` over the nodes of list `idx`, whose counter has reached `sum`. */
    static method SettleNodes(falls: seq<Fall>, iter: map<Handler, Timeout>, ghost m: map<Handler, int>,
                              idx: nat, ghost elapsed: int, sum: int)
      returns (lists: seq<Fall>, back: map<Handler, Timeout>, ghost m': map<Handler, int>, fired: seq<Handler>)
      requires Stands(falls, iter, m) && 1 <= idx <= LAST
      requires falls[idx].elapsed + elapsed == sum && falls[idx].fall <= sum
      ensures Stands(lists, back, m')
      ensures Settled(iter, m, back, m', idx, elapsed, fired)
    {
      ghost var job := Job(iter, m, falls[idx].list, idx, elapsed, sum);
      lists, back := falls[idx := Fall(sum, falls[idx].fall, falls[idx].list)], iter;
      ghost var v := BeginSettling(falls, job, lists);
      ghost var i := 0;
      var k: nat := 0;
      fired := [];
      while k < |lists[idx].list|
        invariant Settling(job, lists, back, v, i, k, fired)
        decreases |job.list| - i
      {
        v, lists, back, k, fired := SettleNode(job, lists, back, v, i, k, fired, idx, sum);
        i := i + 1;
      }
      var settled := lists[idx := Fall(0, lists[idx].fall, lists[idx].list)];
      EndSettling(job, lists, back, v, i, k, fired, settled);
      lists, m' := settled, v.m;
    }

    /** One turn of that loop: the node at position `k` expires, stays, or cascades to a lower list. */
    static method SettleNode(ghost job: Job, lists: seq<Fall>, back: map<Handler, Timeout>, ghost v: View, ghost i: nat,
                             k: nat, fired: seq<Handler>, idx: nat, sum: int)
      returns (ghost v': View, lists': seq<Fall>, back': map<Handler, Timeout>, k': nat, fired': seq<Handler>)
      requires Settling(job, lists, back, v, i, k, fired) && k < |lists[job.idx].list|
      requires idx == job.idx && sum == job.sum
      ensures i < |job.list| && Settling(job, lists', back', v', i + 1, k', fired')
    {
      LookAt(job, lists, back, v, i, k, fired);
      var h := lists[idx].list[k];
      var left := back[h].count - sum;
      if left <= 0 {
        SettleFired(job, lists, back, v, i, k, fired);
        return v, Cut(lists, idx, k), back - {h}, k, fired + [h];
      }
      var newidx := FindFallIdx(lists, left, idx);
      var count := if newidx == idx then left else left + lists[newidx].elapsed;
      v' := SettleKept(job, lists, back, v, i, k, fired, newidx, left, count);
      back', fired' := back[h := Timeout(newidx, count)], fired;
      if newidx == idx {
        lists', k' := lists, k + 1;
      } else {
        lists', k' := Insert(Cut(lists, idx, k), newidx, h), k;
      }
    }

    /** A click: exactly the handlers with at most `elapsed` to go expire, each once, and every other timer loses
        exactly `elapsed`. */
    method ClickElapse(elapsed: int) returns (result: seq<Handler>)
      requires Valid() && TIME_CLICK <= elapsed <= MAX_MS
      modifies this
      ensures Valid()
      ensures remaining == Elapse(old(remaining), elapsed)
      ensures Expired(old(remaining), elapsed, result)
    {
      var lists, back;
      ghost var m;
      lists, back, m, result := ClickFalls(falls, iter, remaining, elapsed);
      Store(lists, back, m);
    }

    /** The outer loop of `click_elapse`: the bottom list expires, then the others settle in turn. */
    static method ClickFalls(falls: seq<Fall>, iter: map<Handler, Timeout>, ghost m0: map<Handler, int>, elapsed: int)
      returns (lists: seq<Fall>, back: map<Handler, Timeout>, ghost m: map<Handler, int>, result: seq<Handler>)
      requires Stands(falls, iter, m0) && TIME_CLICK <= elapsed <= MAX_MS
      ensures Stands(lists, back, m)
      ensures m == Elapse(m0, elapsed) && Expired(m0, elapsed, result)
    {
      result := falls[0].list;
      lists, back := falls[0 := Fall(0, falls[0].fall, [])], Without(iter, 0);
      m := ClickBottom(falls, iter, m0, elapsed, lists);
      var idx := 1;
      while idx <= LAST
        invariant 1 <= idx <= LAST + 1
        invariant Stands(lists, back, m)
        invariant MidClick(m0, elapsed, idx, back, m, result)
      {
        lists, back, m, result := ClickFall(lists, back, m, m0, idx, elapsed, result);
        idx := idx + 1;
      }
      InSomeList(lists, back, m);
      ClickDone(m0, elapsed, back, m, result);
    }

    /** One turn of that loop. */
    static method ClickFall(falls: seq<Fall>, iter: map<Handler, Timeout>, ghost m: map<Handler, int>,
                            ghost m0: map<Handler, int>, idx: nat, elapsed: int, sofar: seq<Handler>)
      returns (lists: seq<Fall>, back: map<Handler, Timeout>, ghost m': map<Handler, int>, result: seq<Handler>)
      requires Stands(falls, iter, m) && 1 <= idx <= LAST && 0 <= elapsed <= MAX_MS
      requires MidClick(m0, elapsed, idx, iter, m, sofar)
      ensures Stands(lists, back, m') && MidClick(m0, elapsed, idx + 1, back, m', result)
    {
      var fired;
      lists, back, m', fired := SettleFall(falls, iter, m, idx, elapsed);
      ClickStep(m0, elapsed, idx, iter, m, sofar, back, m', fired);
      result := sofar + fired;
    }

    /** What `Selector_epoll::loop_once` may sleep for: the remaining time of some registered timer. */
    method NextTimeout() returns (ms: int)
      requires Valid()
      ensures remaining == map[] ==> ms == 1000 * 1000
      ensures remaining != map[] ==> exists h :: h in remaining && ms == remaining[h]
    {
      var idx := 0;
      while idx <= LAST
        invariant idx <= LAST + 1
        invariant forall i :: 0 <= i < idx ==> falls[i].list == []
      {
        if falls[idx].list != [] {
          var first := falls[idx].list[0];
          var to := iter[first].count - falls[idx].elapsed;
          assert first in remaining && remaining[first] == to;
          return if to < 0 then 0 else to;
        }
        idx := idx + 1;
      }
      return 1000 * 1000;
    }
  }
}
