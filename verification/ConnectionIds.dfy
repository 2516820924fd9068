/** Connection ids: how each worker's `Manager` hands them out from a wrapping 32-bit seed (core/manager.h,
    core/manager.cpp), and how `Scheduler::schedule` routes an id back to a worker (core/scheduler.cpp).

    `Framework::async_start` starts 1 to 16 workers and makes their number the step; worker `w` (from 1) has the
    manager with number w - 1. */
module ConnectionIds {
  const WORD: nat := 0x1_0000_0000
  const MAX_WORKERS: nat := 16

  ghost predicate StepOk(n: nat) { 1 <= n <= MAX_WORKERS }

  /** One turn of the search loop: add the step, skipping zero. */
  function Advance(seed: nat, n: nat): (r: nat)
  {
    var s := (seed + n) % WORD;
    if s == 0 then (s + n) % WORD else s
  }

  /** The candidates in the order they are tried. */
  function Candidate(seed: nat, n: nat, k: nat): (r: nat)
  {
    if k == 0 then seed else Advance(Candidate(seed, n, k - 1), n)
  }

  /** The seed after `k` additions of the step, without wrapping. */
  function Plain(seed: nat, n: nat, k: nat): (r: nat)
  {
    if k == 0 then seed else Plain(seed, n, k - 1) + n
  }

  /** The worker that `schedule(connid, ..)` picks among `n`. */
  function Route(connid: nat, n: nat): (w: nat)
    requires 0 < n
  {
    connid % n + 1
  }

  // ---------------------------------------------------------------------------------------------
  // One turn of the loop

  lemma AdvanceInRange(seed: nat, n: nat)
    requires StepOk(n)
    ensures 0 < Advance(seed, n) < WORD
  {
  }

  lemma MulAtLeast(e: int, n: nat)
    requires 1 <= e
    ensures n <= e * n
  {
    assert e * n == (e - 1) * n + n;
    assert 0 <= (e - 1) * n;
  }

  lemma ModUnique(x: nat, n: nat, q: int, r: nat)
    requires 0 < n && x == q * n + r && r < n
    ensures x % n == r
  {
    var d, s := x / n, x % n;
    assert x == d * n + s;
    if q != d {
      assert (q - d) * n == q * n - d * n == s - r;
      assert (d - q) * n == r - s;
      if q > d {
        MulAtLeast(q - d, n);
      } else {
        MulAtLeast(d - q, n);
      }
      assert false;
    }
  }

  lemma ModShift(x: nat, n: nat)
    requires 0 < n
    ensures (x + n) % n == x % n
  {
    ModUnique(x + n, n, x / n + 1, x % n);
  }

  /** After a wrap the residue has lost that of 2^32. */
  lemma ModAfterWrap(s: nat, n: nat)
    requires 0 < n && s < n
    ensures (s + WORD) % n == s <==> WORD % n == 0
  {
    var q, r := WORD / n, WORD % n;
    if s + r < n {
      ModUnique(s + WORD, n, q, s + r);
    } else {
      ModUnique(s + WORD, n, q + 1, s + r - n);
    }
  }

  lemma AdvancePlain(seed: nat, n: nat)
    requires StepOk(n) && seed + n < WORD
    ensures Advance(seed, n) == seed + n
  {
  }

  lemma AdvanceWrapped(seed: nat, n: nat, s: nat)
    requires StepOk(n) && seed < WORD && seed + n == s + WORD
    ensures s < n && Advance(seed, n) == if s == 0 then n else s
  {
  }

  lemma WrappedResidue(seed: nat, n: nat, s: nat)
    requires 0 < n && s < n && seed + n == s + WORD
    ensures seed % n == s <==> WORD % n == 0
  {
    ModShift(seed, n);
    ModAfterWrap(s, n);
  }

  /** A turn keeps the residue class exactly when it does not wrap or the number of workers divides 2^32. */
  lemma AdvanceKeepsRoute(seed: nat, n: nat)
    requires StepOk(n) && seed < WORD
    ensures Route(Advance(seed, n), n) == Route(seed, n) <==> seed + n < WORD || WORD % n == 0
  {
    if seed + n < WORD {
      AdvancePlain(seed, n);
      ModShift(seed, n);
    } else {
      var s := seed + n - WORD;
      AdvanceWrapped(seed, n, s);
      WrappedResidue(seed, n, s);
      ModUnique(s, n, 0, s);
      ModUnique(n, n, 1, 0);
    }
  }

  /** 2^32 is divisible by exactly the powers of two among the possible worker counts. */
  lemma DividesWord(n: nat)
    requires StepOk(n)
    ensures WORD % n == 0 <==> n in {1, 2, 4, 8, 16}
  {
  }

  lemma {:induction false} CandidateInRange(seed: nat, n: nat, k: nat)
    requires StepOk(n) && seed < WORD
    ensures Candidate(seed, n, k) < WORD && (0 < k ==> 0 < Candidate(seed, n, k))
  {
    if k > 0 {
      CandidateInRange(seed, n, k - 1);
      AdvanceInRange(Candidate(seed, n, k - 1), n);
    }
  }

  lemma {:induction false} CandidateKeepsRoute(seed: nat, n: nat, k: nat)
    requires StepOk(n) && seed < WORD
    requires WORD % n == 0 || Plain(seed, n, k) < WORD
    ensures Candidate(seed, n, k) % n == seed % n
    ensures Plain(seed, n, k) < WORD ==> Candidate(seed, n, k) == Plain(seed, n, k)
  {
    if k > 0 {
      CandidateKeepsRoute(seed, n, k - 1);
      CandidateInRange(seed, n, k - 1);
      AdvanceKeepsRoute(Candidate(seed, n, k - 1), n);
      if Plain(seed, n, k) < WORD {
        AdvancePlain(Plain(seed, n, k - 1), n);
      }
    }
  }

  // ---------------------------------------------------------------------------------------------
  // The search loop finds a free id whenever its cycle holds one

  /** The largest power of two dividing the step, the odd rest, and that rest's inverse modulo 2^32. */
  function TwoPart(n: nat): (g: nat) {
    if n % 16 == 0 then 16 else if n % 8 == 0 then 8 else if n % 4 == 0 then 4 else if n % 2 == 0 then 2 else 1
  }

  function Inverse(m: nat): (i: nat) {
    if m == 3 then 2863311531 else if m == 5 then 3435973837 else if m == 7 then 3067833783
    else if m == 9 then 954437177 else if m == 11 then 3123612579 else if m == 13 then 3303820997
    else if m == 15 then 4008636143 else 1
  }

  lemma InverseHolds(n: nat)
    requires StepOk(n)
    ensures WORD % TwoPart(n) == 0 && n % TwoPart(n) == 0
    ensures (n / TwoPart(n) * Inverse(n / TwoPart(n))) % WORD == 1
  {
  }

  lemma SameResidue(a: nat, b: nat, g: nat)
    requires 0 < g && a <= b && a % g == b % g
    ensures (b - a) % g == 0
  {
    var q := b / g - a / g;
    assert b - a == q * g by {
      assert b == b / g * g + b % g && a == a / g * g + a % g;
      assert q * g == b / g * g - a / g * g;
    }
    ModUnique(b - a, g, q, 0);
  }

  /** The distance from the seed up to `x`, around the end of the range if need be. */
  function Gap(seed: nat, x: nat): (d: nat)
    requires seed < WORD
  {
    if seed <= x then x - seed else x + WORD - seed
  }

  lemma GapInClass(seed: nat, x: nat, g: nat)
    requires 0 < g && WORD % g == 0 && seed < WORD && x % g == seed % g
    ensures Gap(seed, x) % g == 0
  {
    if seed <= x {
      SameResidue(seed, x, g);
    } else {
      assert x + WORD == (x / g + WORD / g) * g + x % g by {
        assert x == x / g * g + x % g && WORD == WORD / g * g;
        assert (x / g + WORD / g) * g == x / g * g + WORD / g * g;
      }
      ModUnique(x + WORD, g, x / g + WORD / g, x % g);
      SameResidue(seed, x + WORD, g);
    }
  }

  lemma InverseTimes(e: nat, i: nat, g: nat, m: nat, c: nat, d: nat)
    requires m * i == c * WORD + 1 && d == e * g
    ensures (e * i) * (g * m) == d + (d * c) * WORD
  {
    Rearrange(e, i, g, m);
    assert e * i * (g * m) == d * (c * WORD + 1);
    Spread(d, c);
  }

  lemma AroundTo(seed: nat, x: nat, turns: int, total: nat)
    requires seed < WORD && x < WORD && total == seed + Gap(seed, x) + turns * WORD
    ensures total % WORD == x
  {
    if seed <= x {
      ModUnique(total, WORD, turns, x);
    } else {
      assert total == (turns + 1) * WORD + x;
      ModUnique(total, WORD, turns + 1, x);
    }
  }

  lemma {:induction false} PlainTimes(seed: nat, n: nat, k: nat)
    ensures Plain(seed, n, k) == seed + k * n
  {
    if k > 0 {
      PlainTimes(seed, n, k - 1);
      assert k * n == (k - 1) * n + n;
    }
  }

  lemma MulNat(a: nat, b: nat)
    ensures 0 <= a * b
  {
  }

  lemma Regroup(k: nat, n: nat, d: nat, c: nat, product: int)
    requires k == product + WORD && product * n == d + (d * c) * WORD
    ensures k * n == d + (d * c + n) * WORD
  {
    assert k * n == product * n + WORD * n;
  }

  /** Adding the step often enough, modulo 2^32, reaches every value of the seed's class. */
  lemma StepsTo(seed: nat, n: nat, x: nat) returns (k: nat)
    requires StepOk(n) && seed < WORD && x < WORD && x % TwoPart(n) == seed % TwoPart(n)
    ensures 1 <= k && Plain(seed, n, k) % WORD == x
  {
    InverseHolds(n);
    var g := TwoPart(n);
    var m, d := n / g, Gap(seed, x);
    GapInClass(seed, x, g);
    var e, i := d / g, Inverse(m);
    var c := m * i / WORD;
    InverseTimes(e, i, g, m, c, d);
    assert g * m == n;
    MulNat(e, i);
    k := e * i + WORD;
    Regroup(k, n, d, c, e * i);
    PlainTimes(seed, n, k);
    AroundTo(seed, x, d * c + n, Plain(seed, n, k));
  }

  lemma Rearrange(e: nat, i: nat, g: nat, m: nat)
    ensures e * i * (g * m) == e * g * (m * i)
  {
    calc {
      e * i * (g * m);
      (e * i) * g * m;
      e * (i * g) * m;
      (e * g) * i * m;
      e * g * (m * i);
    }
  }

  lemma Spread(d: nat, c: nat)
    ensures d * (c * WORD + 1) == d + (d * c) * WORD
  {
  }

  lemma WrapAdd(y: nat, n: nat, z: nat)
    requires y == z % WORD
    ensures (y + n) % WORD == (z + n) % WORD
  {
  }

  /** A turn of the loop from `z`, and the turn that skips zero. */
  lemma AdvanceWraps(z: nat, n: nat)
    requires StepOk(n)
    ensures (z + n) % WORD != 0 ==> Advance(z % WORD, n) == (z + n) % WORD
    ensures (z + n) % WORD == 0 ==> Advance(z % WORD, n) == (z + n + n) % WORD && z % WORD != 0
  {
    WrapAdd(z % WORD, n, z);
    WrapAdd((z + n) % WORD, n, z + n);
  }

  /** Skipping zero leaves no other value out. */
  lemma {:induction false} Visits(seed: nat, n: nat, k: nat) returns (j: nat)
    requires StepOk(n) && seed < WORD && 1 <= k && Plain(seed, n, k) % WORD != 0
    ensures 1 <= j && Candidate(seed, n, j) == Plain(seed, n, k) % WORD
    decreases k
  {
    var z := Plain(seed, n, k - 1);
    AdvanceWraps(z, n);
    if k == 1 {
      j := 0;
    } else if z % WORD != 0 {
      j := Visits(seed, n, k - 1);
    } else {
      AdvanceWraps(Plain(seed, n, k - 2), n);
      if k == 2 {
        j := 0;
      } else {
        j := Visits(seed, n, k - 2);
      }
    }
    assert Candidate(seed, n, j + 1) == Advance(Candidate(seed, n, j), n);
    j := j + 1;
  }

  /** A non-zero id in the seed's class modulo the power-of-two part of the step comes up as a candidate. */
  lemma ComesUp(seed: nat, n: nat, x: nat) returns (j: nat)
    requires StepOk(n) && seed < WORD && 0 < x < WORD && x % TwoPart(n) == seed % TwoPart(n)
    ensures 1 <= j && Candidate(seed, n, j) == x
  {
    var k := StepsTo(seed, n, x);
    j := Visits(seed, n, k);
  }

  // ---------------------------------------------------------------------------------------------
  // One worker's manager

  type Connection = nat

  /** `x` is an id the search from `seed` can reach and that is not in use. */
  ghost predicate Free(seed: nat, n: nat, used: set<nat>, x: nat) {
    StepOk(n) && 0 < x < WORD && x % TwoPart(n) == seed % TwoPart(n) && x !in used
  }

  /** `k` turns lead to the first free candidate. */
  ghost predicate FirstFree(seed: nat, n: nat, used: set<nat>, k: nat) {
    && 1 <= k && Candidate(seed, n, k) !in used
    && forall j :: 1 <= j < k ==> Candidate(seed, n, j) in used
  }

  class Manager {
    var connections: map<nat, Connection>
    var seed: nat
    const step: nat

    ghost predicate Valid()
      reads this
    {
      StepOk(step) && seed < WORD
    }

    constructor (id: nat, step: nat)
      requires StepOk(step)
      ensures Valid() && this.step == step && seed == id % step && connections == map[]
    {
      this.step := step;
      seed, connections := id % step, map[];
    }

    /** The do-while search: ends while a free id remains, with the first free candidate. */
    method GetConnectionId() returns (connid: nat)
      requires Valid() && exists x :: Free(seed, step, connections.Keys, x)
      modifies this`seed
      ensures Valid() && connid == seed && 0 < connid < WORD && connid !in connections
      ensures exists k :: FirstFree(old(seed), step, connections.Keys, k) && connid == Candidate(old(seed), step, k)
    {
      ghost var x :| Free(seed, step, connections.Keys, x);
      ghost var last := ComesUp(seed, step, x);
      ghost var start, k := seed, 0;
      var again := true;
      while again
        invariant k <= last && Valid() && seed == Candidate(start, step, k)
        invariant forall j :: 1 <= j < k ==> Candidate(start, step, j) in connections
        invariant again ==> k < last && (k == 0 || seed in connections)
        invariant !again ==> 1 <= k && seed !in connections && 0 < seed
        decreases again, last - k
      {
        CandidateInRange(start, step, k + 1);
        seed := Turn(seed, step);
        k := k + 1;
        again := seed in connections;
      }
      connid := seed;
      assert FirstFree(start, step, connections.Keys, k);
    }

    static method Turn(seed: nat, step: nat) returns (r: nat)
      ensures r == Advance(seed, step)
    {
      r := (seed + step) % WORD;
      if r == 0 {
        r := (r + step) % WORD;
      }
    }

    /** Refuses an id that another connection already has. */
    method AddConnection(connid: nat, conn: Connection) returns (ok: bool)
      modifies this`connections
      ensures ok <==> connid !in old(connections) || old(connections)[connid] == conn
      ensures connections == if ok then old(connections)[connid := conn] else old(connections)
    {
      if connid in connections {
        ok := conn == connections[connid];
        assert ok ==> connections == connections[connid := conn];
        return;
      }
      connections := connections[connid := conn];
      return true;
    }

    method RemoveConnection(connid: nat)
      modifies this`connections
      ensures connections == old(connections) - {connid}
    {
      if connid in connections {
        connections := connections - {connid};
      } else {
        assert connections == connections - {connid};
      }
    }
  }

  // ---------------------------------------------------------------------------------------------
  // All workers

  /** The seed and the ids in use of each manager, worker w at index w - 1. */
  datatype Managers = Managers(seeds: seq<nat>, used: seq<set<nat>>)

  /** A connection opened (the id is kept only if that worked) after `k` turns of the search, or closed. */
  datatype Event = Open(w: nat, k: nat, kept: bool) | Close(w: nat, id: nat)

  ghost predicate Can(m: Managers, e: Event) {
    && |m.used| == |m.seeds| && e.w < |m.seeds|
    && (e.Open? ==> FirstFree(m.seeds[e.w], |m.seeds|, m.used[e.w], e.k))
  }

  ghost function Next(m: Managers, e: Event): Managers
    requires Can(m, e)
  {
    match e
    case Open(w, k, kept) =>
      var id := Candidate(m.seeds[w], |m.seeds|, k);
      Managers(m.seeds[w := id], if kept then m.used[w := m.used[w] + {id}] else m.used)
    case Close(w, id) => m.(used := m.used[w := m.used[w] - {id}])
  }

  /** The id an event hands out does not come from beyond the end of the 32-bit range. */
  ghost predicate NoWrap(m: Managers, e: Event)
    requires Can(m, e)
  {
    e.Open? ==> Plain(m.seeds[e.w], |m.seeds|, e.k) < WORD
  }

  /** Seeds and ids of worker w are in residue class w - 1, so they route to w. */
  ghost predicate RoutedHome(m: Managers) {
    var n := |m.seeds|;
    && StepOk(n) && |m.used| == n
    && (forall w :: 0 <= w < n ==> m.seeds[w] < WORD && m.seeds[w] % n == w)
    && (forall w, id :: 0 <= w < n && id in m.used[w] ==> 0 < id < WORD && id % n == w)
  }

  lemma EventKeepsRoutes(m: Managers, e: Event)
    requires RoutedHome(m) && Can(m, e)
    requires WORD % |m.seeds| == 0 || NoWrap(m, e)
    ensures RoutedHome(Next(m, e))
  {
    if e.Open? {
      CandidateKeepsRoute(m.seeds[e.w], |m.seeds|, e.k);
      CandidateInRange(m.seeds[e.w], |m.seeds|, e.k);
    }
  }

  ghost predicate Runs(m: Managers, es: seq<Event>, m': Managers)
    decreases |es|
  {
    if es == [] then m == m' else Can(m, es[0]) && Runs(Next(m, es[0]), es[1..], m')
  }

  ghost predicate NeverWraps(m: Managers, es: seq<Event>, m': Managers)
    requires Runs(m, es, m')
    decreases |es|
  {
    es != [] ==> NoWrap(m, es[0]) && NeverWraps(Next(m, es[0]), es[1..], m')
  }

  ghost function Started(n: nat): Managers
    requires StepOk(n)
  {
    Managers(seq(n, w requires 0 <= w < n => w % n), seq(n, w requires 0 <= w < n => {}))
  }

  lemma {:induction false} RunKeepsRoutes(m: Managers, es: seq<Event>, m': Managers)
    requires RoutedHome(m) && Runs(m, es, m')
    requires WORD % |m.seeds| == 0 || NeverWraps(m, es, m')
    ensures RoutedHome(m') && |m'.seeds| == |m.seeds|
    decreases |es|
  {
    if es != [] {
      EventKeepsRoutes(m, es[0]);
      RunKeepsRoutes(Next(m, es[0]), es[1..], m');
    }
  }

  lemma StartedRouted(n: nat)
    requires StepOk(n)
    ensures RoutedHome(Started(n))
  {
    forall w | 0 <= w < n ensures (w % n) % n == w {
      ModUnique(w, n, 0, w);
    }
  }

  /** On all runs when the number of workers is a power of two, and otherwise until a seed first wraps: every id in use
      is non-zero, is routed back to its worker, and is in use at one worker only. */
  lemma IdsRouteHome(n: nat, es: seq<Event>, m: Managers, w: nat, id: nat)
    requires StepOk(n) && Runs(Started(n), es, m)
    requires n in {1, 2, 4, 8, 16} || NeverWraps(Started(n), es, m)
    requires w < |m.used| && id in m.used[w]
    ensures 0 < id < WORD && Route(id, n) == w + 1
    ensures forall v :: 0 <= v < |m.used| && v != w ==> id !in m.used[v]
  {
    DividesWord(n);
    StartedRouted(n);
    RunKeepsRoutes(Started(n), es, m);
  }

  /** How often the seed passes the end of the 32-bit range in `k` turns. */
  function Wraps(seed: nat, n: nat, k: nat): (w: nat) {
    if k == 0 then 0 else Wraps(seed, n, k - 1) + if Candidate(seed, n, k - 1) + n < WORD then 0 else 1
  }

  /** Without the wraps, the candidate would have moved by whole steps. */
  lemma {:induction false} WholeSteps(seed: nat, n: nat, k: nat) returns (m: nat)
    requires StepOk(n) && seed < WORD
    ensures Candidate(seed, n, k) + Wraps(seed, n, k) * WORD == seed + m * n
    decreases k
  {
    m := 0;
    if k > 0 {
      m := WholeSteps(seed, n, k - 1);
      var before := Candidate(seed, n, k - 1);
      CandidateInRange(seed, n, k - 1);
      if before + n < WORD {
        AdvancePlain(before, n);
        OneMore(m, n);
        m := m + 1;
      } else {
        AdvanceWrapped(before, n, before + n - WORD);
        OneMore(m, n);
        OneMore(m + 1, n);
        m := if before + n == WORD then m + 2 else m + 1;
      }
    }
  }

  lemma OneMore(m: nat, n: nat)
    ensures (m + 1) * n == m * n + n
  {
  }

  /** Two numbers that differ by whole steps and `w` have the same residue exactly if `w` has none. */
  lemma SameResidueIff(c: nat, w: nat, s: nat, m: nat, n: nat)
    requires 0 < n && c + w == s + m * n
    ensures c % n == s % n <==> w % n == 0
  {
    var p := AddUp(c, w, n);
    var q := AddSteps(s, m, n);
    Divided(c, n);
    Divided(w, n);
    Divided(s, n);
    Residues(c + w, p, c % n, w % n, q, s % n, n);
  }

  lemma AddUp(c: nat, w: nat, n: nat) returns (p: nat)
    requires 0 < n
    ensures c + w == p * n + (c % n + w % n)
  {
    Divided(c, n);
    Divided(w, n);
    Distribute(c / n, w / n, n);
    p := c / n + w / n;
  }

  lemma AddSteps(s: nat, m: nat, n: nat) returns (q: nat)
    requires 0 < n
    ensures s + m * n == q * n + s % n
  {
    Divided(s, n);
    Distribute(s / n, m, n);
    q := s / n + m;
  }

  lemma Residues(x: nat, p: nat, rc: nat, rw: nat, q: nat, rs: nat, n: nat)
    requires rc < n && rw < n && rs < n && x == p * n + (rc + rw) && x == q * n + rs
    ensures rc == rs <==> rw == 0
  {
    TwoForms(x, n, p, rc + rw, q, rs);
  }

  lemma Divided(x: nat, n: nat)
    requires 0 < n
    ensures x == x / n * n + x % n && x % n < n
  {
  }

  lemma Distribute(a: nat, b: nat, n: nat)
    ensures (a + b) * n == a * n + b * n
  {
  }

  lemma TwoForms(x: nat, n: nat, a: nat, r: nat, b: nat, q: nat)
    requires 0 < n && x == a * n + r && r < 2 * n && x == b * n + q && q < n
    ensures q == if r < n then r else r - n
  {
    if r < n {
      ModUnique(x, n, a, r);
    } else {
      OneMore(a, n);
      ModUnique(x, n, a + 1, r - n);
    }
    ModUnique(x, n, b, q);
  }

  /** In general, for any number of workers and turns: the id handed out is routed home if and only if the number of
      wraps times 2^32 is divisible by the number of workers. */
  lemma RoutedHomeIff(m: Managers, w: nat, k: nat, kept: bool)
    requires RoutedHome(m) && w < |m.seeds| && Can(m, Open(w, k, kept))
    ensures Route(Next(m, Open(w, k, kept)).seeds[w], |m.seeds|) == w + 1
      <==> Wraps(m.seeds[w], |m.seeds|, k) * WORD % |m.seeds| == 0
  {
    var n, seed := |m.seeds|, m.seeds[w];
    var steps := WholeSteps(seed, n, k);
    SameResidueIff(Candidate(seed, n, k), Wraps(seed, n, k) * WORD, seed, steps, n);
  }

  /** So the first wrap breaks it for every number of workers that is not a power of two. */
  lemma WrapRoutesAstray(m: Managers, w: nat, k: nat, kept: bool)
    requires RoutedHome(m) && w < |m.seeds| && |m.seeds| !in {1, 2, 4, 8, 16} && Can(m, Open(w, k, kept))
    requires Wraps(m.seeds[w], |m.seeds|, k) == 1
    ensures Route(Next(m, Open(w, k, kept)).seeds[w], |m.seeds|) != w + 1
  {
    DividesWord(|m.seeds|);
    RoutedHomeIff(m, w, k, kept);
  }

  lemma {:induction false} RunsAppend(m: Managers, es: seq<Event>, m': Managers, e: Event)
    requires Runs(m, es, m') && Can(m', e)
    ensures Runs(m, es + [e], Next(m', e))
    decreases |es|
  {
    var all := es + [e];
    if es == [] {
      assert all[0] == e && all[1..] == [];
      assert Runs(Next(m', e), [], Next(m', e));
    } else {
      assert all[0] == es[0] && all[1..] == es[1..] + [e];
      RunsAppend(Next(m, es[0]), es[1..], m', e);
    }
  }

  /** Connections that come and go at worker index `w` move its seed on and leave no id in use. */
  lemma {:induction false} ComeAndGo(m: Managers, w: nat, times: nat) returns (es: seq<Event>, m': Managers)
    requires |m.used| == |m.seeds| == 3 && w < 3 && m.used[w] == {} && m.seeds[w] + 3 * times < WORD
    ensures Runs(m, es, m') && m' == Managers(m.seeds[w := m.seeds[w] + 3 * times], m.used)
    decreases times
  {
    if times == 0 {
      es, m' := [], m;
    } else {
      es, m' := ComeAndGo(m, w, times - 1);
      m' := OpenOnce(m, es, m', w, false);
      es := es + [Open(w, 1, false)];
    }
  }

  /** One more connection with the next id. */
  lemma OpenOnce(m: Managers, es: seq<Event>, m': Managers, w: nat, kept: bool) returns (next: Managers)
    requires Runs(m, es, m') && |m'.used| == |m'.seeds| == 3 && w < 3 && m'.seeds[w] < WORD
    requires Advance(m'.seeds[w], 3) !in m'.used[w]
    ensures Runs(m, es + [Open(w, 1, kept)], next)
    ensures var id := Advance(m'.seeds[w], 3);
      next == Managers(m'.seeds[w := id], if kept then m'.used[w := m'.used[w] + {id}] else m'.used)
  {
    assert Candidate(m'.seeds[w], 3, 1) == Advance(Candidate(m'.seeds[w], 3, 0), 3);
    assert FirstFree(m'.seeds[w], 3, m'.used[w], 1);
    RunsAppend(m, es, m', Open(w, 1, kept));
    next := Next(m', Open(w, 1, kept));
  }

  /** With three workers there is a run from the start after which two workers use the same id: connections come and go
      at the third worker until its seed wraps and reaches the id that the second worker holds. */
  lemma WrapCollides() returns (es: seq<Event>, m: Managers)
    ensures Runs(Started(3), es, m) && |m.used| == 3 && 4 in m.used[1] && 4 in m.used[2]
  {
    var s := Started(3);
    assert s == Managers([0, 1, 2], [{}, {}, {}]);
    es, m := ComeAndGo(s, 2, 1431655764);
    assert m == Managers([0, 1, WORD - 2], [{}, {}, {}]);
    m := OpenOnce(s, es, m, 1, true);
    es := es + [Open(1, 1, true)];
    assert m.seeds == [0, 4, WORD - 2] && m.used[1] == {4} && m.used[2] == {};
    m := OpenOnce(s, es, m, 2, false);
    es := es + [Open(2, 1, false)];
    assert m.seeds == [0, 4, 1] && m.used[1] == {4} && m.used[2] == {};
    m := OpenOnce(s, es, m, 2, true);
    es := es + [Open(2, 1, true)];
  }
}
