/** The ring of `BlockingBuffer` (log/src/logging.cpp:429-528) seen as atomic steps of any number of producers and one
    consumer: the reservation counter `_queueSize`, the ticket counter `_producePos`, the slots, and `_consumePos`.

    The 32-bit positions wrap; `issued` and `done` count tickets without wrapping and are what the steps are
    explained by, never what they test. */
module LogRing {
  import opened Util
  import opened LogChunks

  const SLOTS: nat := 0x4000
  const WORD: nat := 0x1_0000_0000

  type Pid = nat

  /** Where a producer is inside `finish`; `Idle` is anywhere else. */
  datatype Phase = Idle | Backing | Reserved | Ticketed(pos: nat, t: nat)

  /** Where the consumer is inside `consume`. */
  datatype Sink = Out | Check | Load | Chunks | Cleared | Advanced

  datatype Ring = Ring(
    queueSize: int, producePos: nat, consumePos: nat, slots: map<nat, ChunkId>,
    phase: map<Pid, Phase>, sink: Sink,
    issued: nat, done: nat, full: set<nat>)

  ghost function InPhase(phase: map<Pid, Phase>, x: Phase): set<Pid> {
    set p | p in phase && phase[p] == x
  }

  /** Outstanding tickets, outstanding reservations, and the consumer's decrement still to come. */
  ghost function Claimed(r: Ring): int {
    r.issued - r.done + |InPhase(r.phase, Reserved)| + if r.sink == Advanced then 1 else 0
  }

  ghost predicate Counted(r: Ring) {
    && r.done <= r.issued
    && r.producePos == r.issued % WORD
    && r.consumePos == (r.done + 1) % WORD
    && r.queueSize == Claimed(r) + |InPhase(r.phase, Backing)|
    && Claimed(r) <= SLOTS - 1
  }

  /** A ticket is in one place only: with one producer, or published. */
  ghost predicate HoldersOk(r: Ring) {
    && (forall p :: p in r.phase && r.phase[p].Ticketed? ==>
          && r.done < r.phase[p].t <= r.issued && r.phase[p].t !in r.full && r.phase[p].pos == r.phase[p].t % SLOTS)
    && (forall p, q :: p in r.phase && q in r.phase && r.phase[p].Ticketed? && r.phase[q].Ticketed? && p != q ==>
          r.phase[p].t != r.phase[q].t)
    && (forall t :: t in r.full ==> r.done < t <= r.issued)
  }

  /** Each outstanding ticket is somewhere: held, published, or the one the consumer has just cleared. */
  ghost predicate Covered(r: Ring) {
    forall t :: r.done < t <= r.issued ==> t in r.full || Held(r, t) || (t == r.done + 1 && r.sink == Cleared)
  }

  ghost predicate SinkOk(r: Ring) {
    && (r.sink == Chunks ==> r.done + 1 in r.full)
    && (r.sink == Cleared ==> r.done < r.issued && r.done + 1 !in r.full && !Held(r, r.done + 1))
  }

  ghost predicate Held(r: Ring, t: nat) {
    exists p :: p in r.phase && r.phase[p].Ticketed? && r.phase[p].t == t
  }

  ghost predicate SlotsOk(r: Ring) {
    && (forall t :: t in r.full ==> t % SLOTS in r.slots)
    && (forall i :: i in r.slots ==> exists t :: t in r.full && t % SLOTS == i)
  }

  ghost predicate RingOk(r: Ring) {
    Counted(r) && HoldersOk(r) && Covered(r) && SinkOk(r) && SlotsOk(r)
  }

  // ---------------------------------------------------------------------------------------------
  // Arithmetic of the wrapping positions

  /** A wrapped position selects the slot of the unwrapped ticket. */
  lemma WrapKeepsSlot(t: nat)
    ensures (t % WORD) % SLOTS == t % SLOTS
  {
    var q := t / WORD;
    assert t == q * WORD + t % WORD;
    assert t == (q * 0x4_0000) * SLOTS + t % WORD;
    ModAdd(q * 0x4_0000, t % WORD);
  }

  lemma ModAdd(k: nat, x: nat)
    ensures (k * SLOTS + x) % SLOTS == x % SLOTS
  {
    if k > 0 {
      ModAdd(k - 1, x);
      assert k * SLOTS + x == (k - 1) * SLOTS + x + SLOTS;
    }
  }

  lemma NextWraps(t: nat)
    ensures (t % WORD + 1) % WORD == (t + 1) % WORD
  {
  }

  /** Fewer than SLOTS consecutive tickets never share a slot. */
  lemma SlotsDiffer(t: nat, u: nat)
    requires t < u < t + SLOTS
    ensures t % SLOTS != u % SLOTS
  {
  }

  // ---------------------------------------------------------------------------------------------
  // The steps

  datatype Action =
    | Reserve(p: Pid) | Back(p: Pid) | Ticket(p: Pid) | Publish(p: Pid, head: ChunkId)
    | Call | Look | Fetch | Stop(data: ChunkId) | Clear | Advance | Decrement

  function SlotOf(pos: nat): nat { pos % SLOTS }

  ghost predicate Enabled(r: Ring, a: Action) {
    match a
    case Reserve(p) => p in r.phase && r.phase[p] == Idle
    case Back(p) => p in r.phase && r.phase[p] == Backing
    case Ticket(p) => p in r.phase && r.phase[p] == Reserved
    case Publish(p, _) => p in r.phase && r.phase[p].Ticketed?
    case Call => r.sink == Out
    case Look => r.sink == Check
    case Fetch => r.sink == Load
    case Stop(_) => r.sink == Chunks
    case Clear => r.sink == Chunks
    case Advance => r.sink == Cleared
    case Decrement => r.sink == Advanced
  }

  ghost function Apply(r: Ring, a: Action): Ring
    requires Enabled(r, a)
  {
    match a
    case Reserve(p) =>
      r.(queueSize := r.queueSize + 1,
         phase := r.phase[p := if r.queueSize + 1 >= SLOTS then Backing else Reserved])
    case Back(p) => r.(queueSize := r.queueSize - 1, phase := r.phase[p := Idle])
    case Ticket(p) =>
      var pos := (r.producePos + 1) % WORD;
      r.(producePos := pos, phase := r.phase[p := Ticketed(SlotOf(pos), r.issued + 1)], issued := r.issued + 1)
    case Publish(p, head) =>
      // the failing branch of the CAS drops the line and gives the reservation back
      if r.phase[p].pos in r.slots then r.(phase := r.phase[p := Idle], queueSize := r.queueSize - 1)
      else r.(phase := r.phase[p := Idle], slots := r.slots[r.phase[p].pos := head], full := r.full + {r.phase[p].t})
    case Call => r.(sink := Check)
    case Look => r.(sink := if r.queueSize > 0 then Load else Out)
    case Fetch => r.(sink := if SlotOf(r.consumePos) in r.slots then Chunks else Out)
    case Stop(data) => r.(sink := Out, slots := r.slots[SlotOf(r.consumePos) := data])
    case Clear => r.(sink := Cleared, slots := r.slots - {SlotOf(r.consumePos)}, full := r.full - {r.done + 1})
    case Advance => r.(sink := Advanced, consumePos := (r.consumePos + 1) % WORD, done := r.done + 1)
    case Decrement => r.(sink := Check, queueSize := r.queueSize - 1)
  }

  /** `finish` never finds its slot occupied. */
  lemma PublishFindsSlotEmpty(r: Ring, p: Pid)
    requires RingOk(r) && p in r.phase && r.phase[p].Ticketed?
    ensures r.phase[p].pos !in r.slots
  {
    var t := r.phase[p].t;
    if t % SLOTS in r.slots {
      var u :| u in r.full && u % SLOTS == t % SLOTS;
      if t < u {
        SlotsDiffer(t, u);
      } else {
        SlotsDiffer(u, t);
      }
    }
  }

  // ---------------------------------------------------------------------------------------------
  // Every step keeps the ring's invariant

  lemma InPhaseUpdate(phase: map<Pid, Phase>, p: Pid, n: Phase, x: Phase)
    requires p in phase
    ensures |InPhase(phase[p := n], x)| ==
            |InPhase(phase, x)| - (if phase[p] == x then 1 else 0) + (if n == x then 1 else 0)
  {
    var a, b := InPhase(phase, x), InPhase(phase[p := n], x);
    var rest := a - {p};
    assert b == if n == x then rest + {p} else rest;
    assert a == if phase[p] == x then rest + {p} else rest;
  }

  ghost predicate ByProducer(a: Action) {
    a.Reserve? || a.Back? || a.Ticket? || a.Publish?
  }

  lemma CountedProducer(r: Ring, a: Action)
    requires Counted(r) && Enabled(r, a) && ByProducer(a) && (a.Publish? ==> r.phase[a.p].pos !in r.slots)
    ensures Counted(Apply(r, a))
  {
    var x := Apply(r, a).phase[a.p];
    InPhaseUpdate(r.phase, a.p, x, Reserved);
    InPhaseUpdate(r.phase, a.p, x, Backing);
    assert Apply(r, a).phase == r.phase[a.p := x];
    if a.Ticket? {
      NextWraps(r.issued);
    }
  }

  lemma CountedConsumer(r: Ring, a: Action)
    requires Counted(r) && SinkOk(r) && Enabled(r, a) && !ByProducer(a)
    ensures Counted(Apply(r, a))
  {
    if a.Advance? {
      NextWraps(r.done + 1);
    }
  }

  /** The counter bound is what the reservation test establishes, and every other step preserves. */
  lemma CountedStep(r: Ring, a: Action)
    requires RingOk(r) && Enabled(r, a)
    ensures Counted(Apply(r, a))
  {
    if ByProducer(a) {
      if a.Publish? {
        PublishFindsSlotEmpty(r, a.p);
      }
      CountedProducer(r, a);
    } else {
      CountedConsumer(r, a);
    }
  }

  /** A producer that does not hold ticket `t` can move without changing who holds it. */
  lemma HeldUpdate(r: Ring, r': Ring, p: Pid, x: Phase, t: nat)
    requires p in r.phase && r'.phase == r.phase[p := x]
    requires !(r.phase[p].Ticketed? && r.phase[p].t == t) && !(x.Ticketed? && x.t == t)
    ensures Held(r, t) <==> Held(r', t)
  {
    if Held(r, t) {
      var q :| q in r.phase && r.phase[q].Ticketed? && r.phase[q].t == t;
      assert q in r'.phase && r'.phase[q] == r.phase[q];
    }
  }

  lemma HoldersTicket(r: Ring, p: Pid)
    requires Counted(r) && HoldersOk(r) && Enabled(r, Ticket(p))
    ensures HoldersOk(Apply(r, Ticket(p)))
  {
    NextWraps(r.issued);
    WrapKeepsSlot(r.issued + 1);
    var r' := Apply(r, Ticket(p));
    assert r'.phase[p].t == r.issued + 1 && r'.phase[p].pos == (r.issued + 1) % SLOTS;
  }

  lemma HoldersPublish(r: Ring, p: Pid, head: ChunkId)
    requires HoldersOk(r) && Enabled(r, Publish(p, head)) && r.phase[p].pos !in r.slots
    ensures HoldersOk(Apply(r, Publish(p, head)))
  {
  }

  lemma HoldersAdvance(r: Ring)
    requires HoldersOk(r) && SinkOk(r) && Enabled(r, Advance)
    ensures HoldersOk(Apply(r, Advance))
  {
    forall p | p in r.phase && r.phase[p].Ticketed? ensures r.phase[p].t != r.done + 1 {
      assert !Held(r, r.done + 1);
    }
  }

  /** The steps that neither give out nor take back a ticket. */
  lemma HoldersSame(r: Ring, a: Action)
    requires HoldersOk(r) && Enabled(r, a) && !a.Ticket? && !a.Publish? && !a.Advance?
    ensures HoldersOk(Apply(r, a))
  {
  }

  lemma HoldersStep(r: Ring, a: Action)
    requires RingOk(r) && Enabled(r, a)
    ensures HoldersOk(Apply(r, a))
  {
    match a
    case Ticket(p) => HoldersTicket(r, p);
    case Publish(p, head) =>
      PublishFindsSlotEmpty(r, p);
      HoldersPublish(r, p, head);
    case Advance => HoldersAdvance(r);
    case _ => HoldersSame(r, a);
  }

  lemma CoveredStep(r: Ring, a: Action)
    requires RingOk(r) && Enabled(r, a) && ByProducer(a)
    ensures Covered(Apply(r, a)) && SinkOk(Apply(r, a))
  {
    var r', p := Apply(r, a), a.p;
    var x := r'.phase[p];
    assert r'.phase == r.phase[p := x];
    if a.Publish? {
      PublishFindsSlotEmpty(r, p);
    }
    forall t | r'.done < t <= r'.issued
      ensures t in r'.full || Held(r', t) || (t == r'.done + 1 && r'.sink == Cleared)
    {
      if a.Ticket? && t == r.issued + 1 {
        assert r'.phase[p].t == t;
      } else if !(a.Publish? && t == r.phase[p].t) {
        HeldUpdate(r, r', p, x, t);
      }
    }
    if r.sink == Cleared {
      assert r.phase[p].Ticketed? ==> r.phase[p].t != r.done + 1;
      HeldUpdate(r, r', p, x, r.done + 1);
    }
  }

  lemma SamePhases(r: Ring, r': Ring)
    requires r'.phase == r.phase
    ensures forall t: nat :: Held(r', t) <==> Held(r, t)
  {
  }

  lemma CoveredClear(r: Ring)
    requires HoldersOk(r) && Covered(r) && SinkOk(r) && Enabled(r, Clear)
    ensures Covered(Apply(r, Clear)) && SinkOk(Apply(r, Clear))
  {
    var r' := Apply(r, Clear);
    SamePhases(r, r');
    if Held(r, r.done + 1) {
      var p :| p in r.phase && r.phase[p].Ticketed? && r.phase[p].t == r.done + 1;
    }
  }

  lemma CoveredAdvance(r: Ring)
    requires Covered(r) && SinkOk(r) && Enabled(r, Advance)
    ensures Covered(Apply(r, Advance)) && SinkOk(Apply(r, Advance))
  {
    SamePhases(r, Apply(r, Advance));
  }

  /** The steps that take no ticket away. */
  lemma CoveredSame(r: Ring, a: Action)
    requires Covered(r) && SinkOk(r) && Enabled(r, a) && !ByProducer(a) && !a.Clear? && !a.Advance?
    requires a.Fetch? && SlotOf(r.consumePos) in r.slots ==> r.done + 1 in r.full
    ensures Covered(Apply(r, a)) && SinkOk(Apply(r, a))
  {
    SamePhases(r, Apply(r, a));
  }

  lemma CoveredStepConsumer(r: Ring, a: Action)
    requires RingOk(r) && Enabled(r, a) && !ByProducer(a)
    ensures Covered(Apply(r, a)) && SinkOk(Apply(r, a))
  {
    match a
    case Clear => CoveredClear(r);
    case Advance => CoveredAdvance(r);
    case _ =>
      if a.Fetch? && SlotOf(r.consumePos) in r.slots {
        FetchFindsNext(r);
      }
      CoveredSame(r, a);
  }

  /** A filled slot at the consumer's position holds the next ticket in order. */
  lemma FetchFindsNext(r: Ring)
    requires RingOk(r) && SlotOf(r.consumePos) in r.slots
    ensures r.done + 1 in r.full
  {
    WrapKeepsSlot(r.done + 1);
    var t :| t in r.full && t % SLOTS == (r.done + 1) % SLOTS;
    if t != r.done + 1 {
      SlotsDiffer(r.done + 1, t);
    }
  }

  lemma SlotsStep(r: Ring, a: Action)
    requires RingOk(r) && Enabled(r, a)
    ensures SlotsOk(Apply(r, a))
  {
    var r' := Apply(r, a);
    match a
    case Publish(p, _) =>
      PublishFindsSlotEmpty(r, p);
      assert r.phase[p].t in r'.full;
      assert forall t :: t in r.full ==> t in r'.full;
    case Stop(_) =>
      WrapKeepsSlot(r.done + 1);
    case Clear =>
      WrapKeepsSlot(r.done + 1);
      forall t | t in r'.full ensures t % SLOTS in r'.slots {
        SlotsDiffer(r.done + 1, t);
      }
      forall i | i in r'.slots ensures exists t :: t in r'.full && t % SLOTS == i {
        var t :| t in r.full && t % SLOTS == i;
        assert t in r'.full;
      }
    case _ =>
  }

  lemma RingStep(r: Ring, a: Action)
    requires RingOk(r) && Enabled(r, a)
    ensures RingOk(Apply(r, a))
  {
    CountedStep(r, a);
    SlotsStep(r, a);
    HoldersStep(r, a);
    if ByProducer(a) {
      CoveredStep(r, a);
    } else {
      CoveredStepConsumer(r, a);
    }
  }

  /** `finish` is let in exactly while tickets not yet consumed, other threads inside or trying, and the ticket whose
      count the consumer is about to give back leave one of the 16384 slots free. */
  lemma ReservesIff(r: Ring, p: Pid)
    requires RingOk(r) && Enabled(r, Reserve(p))
    ensures Apply(r, Reserve(p)).phase[p] == Reserved
       <==> r.issued - r.done + |InPhase(r.phase, Reserved)| + |InPhase(r.phase, Backing)|
              + (if r.sink == Advanced then 1 else 0) < 0x4000 - 1
    ensures Apply(r, Reserve(p)).phase[p] in {Reserved, Backing}
  {
  }

  /** The counter stays within a C++ `int` for any realistic number of threads. */
  lemma CounterBounded(r: Ring)
    requires RingOk(r)
    ensures 0 <= r.queueSize < SLOTS + |r.phase|
  {
    var b := InPhase(r.phase, Backing);
    assert b <= r.phase.Keys;
    SubsetSize(b, r.phase.Keys);
  }
}
