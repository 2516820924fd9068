/** The whole logging pipeline: producers building lines in chunks, publishing them through the ring, and the sink
    thread's `consume` calls (log/src/logging.cpp:429-528).

    One step is one access to shared memory together with the accesses to memory only its thread can reach.
    Assumptions: the atomic operations are sequentially consistent, `LogData::recycle` is one step, and `finish`
    follows at least one `produce` of the same thread. */
module LogSystem {
  import opened Util
  import opened LogChunks
  import opened LogRing

  /** A producer's thread-local `LogDataNode`, and the line its chain is. */
  datatype Local = Local(head: Option<ChunkId>, tail: Option<ChunkId>, line: Line)

  /** Besides ring, memory and thread-local pointers: the consumer's pointer, the limit and the bytes of its present
      call, and as history what earlier calls returned, the line behind each ticket and what it read as then. */
  datatype State = State(
    ring: Ring, mem: Memory, local: map<Pid, Local>,
    data: Option<ChunkId>, limit: nat, read: string,
    returned: string, lines: seq<Line>, logged: seq<string>, nextLine: Line)

  ghost function Flatten(parts: seq<string>): string {
    if parts == [] then "" else parts[0] + Flatten(parts[1..])
  }

  /** What the lines in `ls` read as, in order. */
  ghost function Texts(text: map<Line, string>, ls: seq<Line>): string
    requires forall i :: 0 <= i < |ls| ==> ls[i] in text
  {
    if ls == [] then "" else text[ls[0]] + Texts(text, ls[1..])
  }

  // ---------------------------------------------------------------------------------------------
  // Invariant

  ghost predicate HeadIs(m: Memory, l: Line, id: ChunkId) {
    l in m.chains && m.chains[l] != [] && m.chains[l][0] == id
  }

  ghost predicate TailIs(m: Memory, l: Line, id: ChunkId) {
    l in m.chains && m.chains[l] != [] && m.chains[l][|m.chains[l]| - 1] == id
  }

  /** A producer's pointers are the ends of its line's chain, and the line has a ticket exactly in phase Ticketed. */
  ghost predicate ProducerOk(s: State, p: Pid)
    requires p in s.local && p in s.ring.phase
  {
    var x, ph := s.local[p], s.ring.phase[p];
    if x.head.None? then ph == Idle
    else
      && x.tail.Some? && x.line < s.nextLine
      && HeadIs(s.mem, x.line, x.head.value) && TailIs(s.mem, x.line, x.tail.value)
      && (if ph.Ticketed? then 1 <= ph.t <= |s.lines| && s.lines[ph.t - 1] == x.line else x.line !in s.lines)
  }

  ghost predicate ProducersOk(s: State) {
    && s.local.Keys == s.ring.phase.Keys
    && (forall p :: p in s.local ==> ProducerOk(s, p))
    && (forall p, q :: p in s.local && q in s.local && p != q && s.local[p].head.Some? && s.local[q].head.Some? ==>
          s.local[p].line != s.local[q].line)
  }

  ghost predicate LinesOk(s: State) {
    && |s.lines| == |s.logged| == s.ring.issued
    && (forall i, j :: 0 <= i < j < |s.lines| ==> s.lines[i] != s.lines[j])
    && (forall i :: 0 <= i < |s.lines| ==> s.lines[i] in s.mem.chains && s.lines[i] in s.mem.text)
    && (forall l :: l in s.mem.chains ==> l < s.nextLine)
  }

  /** A slot points at the head of its ticket's chain, unless the consumer is inside that chain. */
  ghost predicate SlotPointers(s: State) {
    forall t :: t in s.ring.full && !(t == s.ring.done + 1 && s.ring.sink == Chunks) ==>
      1 <= t <= |s.lines| && t % SLOTS in s.ring.slots && HeadIs(s.mem, s.lines[t - 1], s.ring.slots[t % SLOTS])
  }

  ghost predicate ConsumerOk(s: State) {
    && (s.ring.sink == Out ==> s.read == "")
    && (s.ring.sink in {Chunks, Cleared} ==> s.ring.done < |s.lines| && s.lines[s.ring.done] in s.mem.chains)
    && (s.ring.sink == Chunks ==>
          if s.data.None? then s.mem.chains[s.lines[s.ring.done]] == []
          else HeadIs(s.mem, s.lines[s.ring.done], s.data.value))
    && (s.ring.sink == Cleared ==> s.mem.chains[s.lines[s.ring.done]] == [])
  }

  /** What came out, followed by what is queued, is everything that was given a ticket. */
  ghost predicate Conserved(s: State) {
    && s.ring.done <= |s.lines|
    && (forall i :: 0 <= i < |s.lines| ==> s.lines[i] in s.mem.text)
    && s.returned + s.read + Texts(s.mem.text, s.lines[s.ring.done..]) == Flatten(s.logged)
  }

  ghost predicate Inv(s: State) {
    && RingOk(s.ring) && Wf(s.mem)
    && ProducersOk(s) && LinesOk(s) && SlotPointers(s) && ConsumerOk(s) && Conserved(s)
  }

  // ---------------------------------------------------------------------------------------------
  // Steps

  datatype Step =
    | Produce(p: Pid, from: string, id: ChunkId)
    | DoReserve(p: Pid) | DoBack(p: Pid) | DoTicket(p: Pid) | DoPublish(p: Pid)
    | DoCall(n: nat) | DoLook | DoFetch | DoTake | DoStop | DoClear | DoAdvance | DoDecrement

  function Clip(from: string): (s: string)
    ensures |s| <= MAX_DATA
  {
    if |from| > MAX_DATA then from[..MAX_DATA] else from
  }

  /** The chunk that `produce` may be given; irrelevant if it needs none. */
  ghost predicate CanProduce(s: State, p: Pid, from: string, id: ChunkId)
    requires p in s.local
  {
    var x, m := s.local[p], s.mem;
    if x.head.None? then CanTake(m, id, LevelFor(|Clip(from)|))
    else
      && x.tail.Some? && x.tail.value in m.chunks && x.line in m.chains && x.line in m.text
      && var tail := m.chunks[x.tail.value];
      |tail.data| <= tail.cap &&
      (Overflows(m, x.tail.value, Clip(from)) ==> CanTake(m, id, LevelFor(|Clip(from)| - (tail.cap - |tail.data|))))
  }

  /** The next chunk does not fit into what is left of the caller's buffer. */
  ghost predicate Full(s: State)
    requires s.data.Some? && s.data.value in s.mem.chunks
  {
    |s.read| + |s.mem.chunks[s.data.value].data| > s.limit
  }

  ghost predicate InChunks(s: State) {
    s.ring.sink == Chunks && s.ring.done < |s.lines|
  }

  ghost predicate CanTakeChunk(s: State) {
    && InChunks(s) && s.data.Some? && s.data.value in s.mem.chunks
    && var l := s.lines[s.ring.done];
    && l in s.mem.chains && l in s.mem.text && s.mem.chains[l] != []
    && |s.mem.chunks[s.data.value].data| <= |s.mem.text[l]|
    && !Full(s)
  }

  ghost predicate Can(s: State, step: Step) {
    match step
    case Produce(p, from, id) =>
      p in s.local && p in s.ring.phase && s.ring.phase[p] == Idle && CanProduce(s, p, from, id)
    case DoReserve(p) => p in s.local && s.local[p].head.Some? && Enabled(s.ring, Reserve(p))
    case DoBack(p) => Enabled(s.ring, Back(p))
    case DoTicket(p) => p in s.local && s.local[p].line in s.mem.text && Enabled(s.ring, Ticket(p))
    case DoPublish(p) => p in s.local && s.local[p].head.Some? && Enabled(s.ring, Publish(p, s.local[p].head.value))
    case DoCall(n) => s.ring.sink == Out
    case DoLook => s.ring.sink == Check
    case DoFetch => s.ring.sink == Load
    case DoTake => CanTakeChunk(s)
    case DoStop => s.ring.sink == Chunks && s.data.Some? && s.data.value in s.mem.chunks && Full(s)
    case DoClear => s.ring.sink == Chunks && s.data.None?
    case DoAdvance => s.ring.sink == Cleared
    case DoDecrement => s.ring.sink == Advanced
  }

  ghost function Produced(s: State, p: Pid, from: string, id: ChunkId): State
    requires p in s.local && CanProduce(s, p, from, id)
  {
    var x := s.local[p];
    if x.head.None? then
      s.(mem := Begin(s.mem, s.nextLine, id, Clip(from)), local := s.local[p := Local(Some(id), Some(id), s.nextLine)],
         nextLine := s.nextLine + 1)
    else
      var tail := if Overflows(s.mem, x.tail.value, Clip(from)) then Some(id) else x.tail;
      s.(mem := Append(s.mem, x.line, x.tail.value, id, Clip(from)), local := s.local[p := Local(x.head, tail, x.line)])
  }

  /** A call ends: its bytes are handed over. */
  function Return(s: State): State {
    s.(returned := s.returned + s.read, read := "")
  }

  ghost function Do(s: State, step: Step): State
    requires Can(s, step)
  {
    match step
    case Produce(p, from, id) => Produced(s, p, from, id)
    case DoReserve(p) => s.(ring := Apply(s.ring, Reserve(p)))
    case DoBack(p) => s.(ring := Apply(s.ring, Back(p)))
    case DoTicket(p) =>
      var l := s.local[p].line;
      s.(ring := Apply(s.ring, Ticket(p)), lines := s.lines + [l], logged := s.logged + [s.mem.text[l]])
    case DoPublish(p) =>
      s.(ring := Apply(s.ring, Publish(p, s.local[p].head.value)), local := s.local[p := Local(None, None, 0)])
    case DoCall(n) => s.(ring := Apply(s.ring, Call), limit := n)
    case DoLook =>
      var s' := s.(ring := Apply(s.ring, Look));
      if s'.ring.sink == Out then Return(s') else s'
    case DoFetch =>
      var s' := s.(ring := Apply(s.ring, Fetch));
      var pos := SlotOf(s.ring.consumePos);
      if pos in s.ring.slots then s'.(data := Some(s.ring.slots[pos])) else Return(s')
    case DoTake =>
      var l, id := s.lines[s.ring.done], s.data.value;
      s.(mem := Drop(s.mem, l, id), data := s.mem.chunks[id].next, read := s.read + s.mem.chunks[id].data)
    case DoStop => Return(s.(ring := Apply(s.ring, Stop(s.data.value))))
    case DoClear => s.(ring := Apply(s.ring, Clear))
    case DoAdvance => s.(ring := Apply(s.ring, Advance))
    case DoDecrement => s.(ring := Apply(s.ring, Decrement))
  }

  // ---------------------------------------------------------------------------------------------
  // Every step keeps the invariant

  lemma {:induction false} TextsSame(text: map<Line, string>, text': map<Line, string>, ls: seq<Line>)
    requires forall i :: 0 <= i < |ls| ==> ls[i] in text && ls[i] in text' && text[ls[i]] == text'[ls[i]]
    ensures Texts(text, ls) == Texts(text', ls)
  {
    if ls != [] {
      TextsSame(text, text', ls[1..]);
    }
  }

  lemma {:induction false} TextsAppend(text: map<Line, string>, ls: seq<Line>, l: Line)
    requires l in text && forall i :: 0 <= i < |ls| ==> ls[i] in text
    ensures Texts(text, ls + [l]) == Texts(text, ls) + text[l]
  {
    if ls == [] {
      assert [] + [l] == [l] && [l][1..] == [];
      assert Texts(text, [l]) == text[l] + Texts(text, []);
    } else {
      assert (ls + [l])[1..] == ls[1..] + [l];
      TextsAppend(text, ls[1..], l);
    }
  }

  lemma {:induction false} FlattenAppend(parts: seq<string>, x: string)
    ensures Flatten(parts + [x]) == Flatten(parts) + x
  {
    if parts == [] {
      assert [] + [x] == [x] && [x][1..] == [];
      assert Flatten([x]) == x + Flatten([]);
    } else {
      assert (parts + [x])[1..] == parts[1..] + [x];
      FlattenAppend(parts[1..], x);
    }
  }

  // `produce`: a line without a ticket grows, and nothing else can tell

  /** Memory changed on line `l` only, which has no ticket. */
  ghost predicate GrewOnly(s: State, m': Memory, l: Line) {
    && l !in s.lines
    && m'.chains.Keys == s.mem.chains.Keys + {l} && m'.text.Keys == s.mem.text.Keys + {l}
    && (forall k :: k in s.mem.chains && k != l ==> m'.chains[k] == s.mem.chains[k])
    && (forall k :: k in s.mem.text && k != l ==> m'.text[k] == s.mem.text[k])
  }

  lemma GrowKeepsTickets(s: State, s': State, l: Line)
    requires LinesOk(s) && SlotPointers(s) && ConsumerOk(s) && Conserved(s) && GrewOnly(s, s'.mem, l)
    requires s' == s.(mem := s'.mem, local := s'.local, nextLine := s'.nextLine)
    requires s.nextLine <= s'.nextLine && l < s'.nextLine
    ensures LinesOk(s') && SlotPointers(s') && ConsumerOk(s') && Conserved(s')
  {
    TextsSame(s.mem.text, s'.mem.text, s.lines[s.ring.done..]);
  }

  lemma GrowKeepsProducers(s: State, s': State, p: Pid, x: Local)
    requires ProducersOk(s) && p in s.local && s.ring.phase[p] == Idle && GrewOnly(s, s'.mem, x.line)
    requires s' == s.(mem := s'.mem, local := s.local[p := x], nextLine := s'.nextLine) && s.nextLine <= s'.nextLine
    requires x.head.Some? && x.tail.Some? && x.line < s'.nextLine
    requires HeadIs(s'.mem, x.line, x.head.value) && TailIs(s'.mem, x.line, x.tail.value)
    requires forall q :: q in s.local && q != p && s.local[q].head.Some? ==> s.local[q].line != x.line
    ensures ProducersOk(s')
  {
    forall q | q in s'.local ensures ProducerOk(s', q) {
      if q != p {
        assert ProducerOk(s, q);
      }
    }
  }

  /** The first `produce` of a line uses a line number nobody knows. */
  lemma NewLine(s: State)
    requires ProducersOk(s) && LinesOk(s)
    ensures s.nextLine !in s.mem.chains && s.nextLine !in s.lines
    ensures forall q :: q in s.local && s.local[q].head.Some? ==> s.local[q].line != s.nextLine
  {
    forall q | q in s.local && s.local[q].head.Some? ensures s.local[q].line != s.nextLine {
      assert ProducerOk(s, q);
    }
  }

  lemma BeginGrew(s: State, id: ChunkId, from: string)
    requires s.nextLine !in s.lines
    ensures GrewOnly(s, Begin(s.mem, s.nextLine, id, from), s.nextLine)
  {
  }

  lemma ProduceFirst(s: State, p: Pid, from: string, id: ChunkId)
    requires Inv(s) && Can(s, Produce(p, from, id)) && s.local[p].head.None?
    ensures Inv(Do(s, Produce(p, from, id)))
  {
    var s', x := Do(s, Produce(p, from, id)), Local(Some(id), Some(id), s.nextLine);
    NewLine(s);
    BeginWf(s.mem, s.nextLine, id, Clip(from));
    BeginGrew(s, id, Clip(from));
    GrowKeepsTickets(s, s', x.line);
    GrowKeepsProducers(s, s', p, x);
  }

  lemma AppendGrew(s: State, l: Line, head: ChunkId, tail: ChunkId, id: ChunkId, from: string)
    requires tail in s.mem.chunks && l in s.mem.text && |s.mem.chunks[tail].data| <= s.mem.chunks[tail].cap
    requires l !in s.lines && HeadIs(s.mem, l, head) && TailIs(s.mem, l, tail)
    ensures var m' := Append(s.mem, l, tail, id, from);
            && GrewOnly(s, m', l) && HeadIs(m', l, head)
            && TailIs(m', l, if Overflows(s.mem, tail, from) then id else tail)
  {
    AppendText(s.mem, l, tail, id, from);
  }

  lemma AppendKeepsWf(m: Memory, l: Line, tail: ChunkId, id: ChunkId, from: string)
    requires Wf(m) && TailIs(m, l, tail) && tail in m.chunks && |from| <= MAX_DATA
    requires |m.chunks[tail].data| <= m.chunks[tail].cap && l in m.text
    requires Overflows(m, tail, from) ==>
               CanTake(m, id, LevelFor(|from| - (m.chunks[tail].cap - |m.chunks[tail].data|)))
    ensures Wf(Append(m, l, tail, id, from))
  {
    assert LineOk(m, l);
    AppendWf(m, l, tail, id, from);
  }

  /** What a later `produce` changes. */
  lemma ProducedMore(s: State, p: Pid, from: string, id: ChunkId, s': State)
    requires ProducersOk(s) && Can(s, Produce(p, from, id)) && s.local[p].head.Some?
    requires s' == Do(s, Produce(p, from, id))
    ensures ProducerOk(s, p)
    ensures var x := s.local[p];
            && s'.mem == Append(s.mem, x.line, x.tail.value, id, Clip(from))
            && s' == s.(mem := s'.mem, local := s.local[p := s'.local[p]], nextLine := s'.nextLine)
            && s'.local[p]
               == Local(x.head, if Overflows(s.mem, x.tail.value, Clip(from)) then Some(id) else x.tail, x.line)
            && s'.nextLine == s.nextLine
  {
  }

  lemma ProduceMore(s: State, p: Pid, from: string, id: ChunkId)
    requires Inv(s) && Can(s, Produce(p, from, id)) && s.local[p].head.Some?
    ensures Inv(Do(s, Produce(p, from, id)))
  {
    var s', x := Do(s, Produce(p, from, id)), s.local[p];
    ProducedMore(s, p, from, id, s');
    assert Wf(s'.mem) by {
      AppendKeepsWf(s.mem, x.line, x.tail.value, id, Clip(from));
    }
    AppendGrew(s, x.line, x.head.value, x.tail.value, id, Clip(from));
    GrowKeepsTickets(s, s', x.line);
    GrowKeepsProducers(s, s', p, s'.local[p]);
  }

  // `finish`

  lemma PhaseOnly(s: State, s': State, p: Pid, x: Phase)
    requires ProducersOk(s) && p in s.ring.phase && !s.ring.phase[p].Ticketed? && !x.Ticketed?
    requires s' == s.(ring := s'.ring) && s'.ring.phase == s.ring.phase[p := x]
    requires p in s.local && (x == Idle || s.local[p].head.Some?)
    ensures ProducersOk(s')
  {
    forall q | q in s'.local ensures ProducerOk(s', q) {
      assert ProducerOk(s, q);
    }
  }

  /** A step of a producer that moves only its phase and the counter. */
  lemma PhaseStep(s: State, s': State, p: Pid, x: Phase)
    requires Inv(s) && RingOk(s'.ring) && p in s.local && p in s.ring.phase
    requires s' == s.(ring := s'.ring)
    requires s'.ring == s.ring.(queueSize := s'.ring.queueSize, phase := s.ring.phase[p := x])
    requires !s.ring.phase[p].Ticketed? && !x.Ticketed? && (x == Idle || s.local[p].head.Some?)
    ensures Inv(s')
  {
    PhaseOnly(s, s', p, x);
    assert LinesOk(s') && SlotPointers(s') && ConsumerOk(s') && Conserved(s');
  }

  lemma ReserveOrBack(s: State, step: Step)
    requires Inv(s) && Can(s, step) && (step.DoReserve? || step.DoBack?)
    ensures Inv(Do(s, step))
  {
    var s', p := Do(s, step), step.p;
    RingStep(s.ring, if step.DoReserve? then Reserve(p) else Back(p));
    assert p in s.local;
    PhaseStep(s, s', p, s'.ring.phase[p]);
  }

  lemma TicketKeepsProducers(s: State, p: Pid)
    requires ProducersOk(s) && LinesOk(s) && Can(s, DoTicket(p))
    ensures ProducersOk(Do(s, DoTicket(p)))
  {
    var s' := Do(s, DoTicket(p));
    assert s'.ring.phase[p].t == s.ring.issued + 1;
    forall q | q in s'.local ensures ProducerOk(s', q) {
      assert ProducerOk(s, q) && ProducerOk(s, p);
    }
  }

  /** The ticketed line joins the end of what was logged and of what is queued. */
  lemma TicketConserves(s: State, p: Pid)
    requires Conserved(s) && LinesOk(s) && Can(s, DoTicket(p))
    ensures Conserved(Do(s, DoTicket(p)))
  {
    var s', l := Do(s, DoTicket(p)), s.local[p].line;
    var queue := s.lines[s.ring.done..];
    assert s'.lines[s'.ring.done..] == queue + [l];
    TextsAppend(s.mem.text, queue, l);
    FlattenAppend(s.logged, s.mem.text[l]);
  }

  lemma TicketKeepsLines(s: State, p: Pid)
    requires ProducersOk(s) && LinesOk(s) && Can(s, DoTicket(p))
    requires forall l :: l in s.mem.text ==> l in s.mem.chains
    ensures LinesOk(Do(s, DoTicket(p)))
  {
    assert ProducerOk(s, p);
  }

  lemma TicketKeepsPointers(s: State, p: Pid)
    requires LinesOk(s) && SlotPointers(s) && ConsumerOk(s) && Can(s, DoTicket(p))
    ensures SlotPointers(Do(s, DoTicket(p))) && ConsumerOk(Do(s, DoTicket(p)))
  {
  }

  lemma TicketStep(s: State, p: Pid)
    requires Inv(s) && Can(s, DoTicket(p))
    ensures Inv(Do(s, DoTicket(p)))
  {
    RingStep(s.ring, Ticket(p));
    TicketKeepsProducers(s, p);
    TicketConserves(s, p);
    TicketKeepsLines(s, p);
    TicketKeepsPointers(s, p);
  }

  /** The published ticket's slot points at its line. */
  lemma PublishOwn(s: State, p: Pid)
    requires p in s.local && p in s.ring.phase && ProducerOk(s, p) && HoldersOk(s.ring) && Can(s, DoPublish(p))
    requires s.ring.phase[p].pos !in s.ring.slots
    ensures var s', t := Do(s, DoPublish(p)), s.ring.phase[p].t;
      && 1 <= t <= |s'.lines| && t % SLOTS in s'.ring.slots
      && HeadIs(s'.mem, s'.lines[t - 1], s'.ring.slots[t % SLOTS])
  {
  }

  /** The others are where they were. */
  lemma PublishOther(s: State, p: Pid, u: nat)
    requires SlotPointers(s) && Can(s, DoPublish(p)) && s.ring.phase[p].pos !in s.ring.slots
    requires u in s.ring.full && !(u == s.ring.done + 1 && s.ring.sink == Chunks)
    ensures var s' := Do(s, DoPublish(p));
      && 1 <= u <= |s'.lines| && u % SLOTS in s'.ring.slots
      && HeadIs(s'.mem, s'.lines[u - 1], s'.ring.slots[u % SLOTS])
  {
    assert u % SLOTS in s.ring.slots && u % SLOTS != s.ring.phase[p].pos;
  }

  lemma PublishPointers(s: State, p: Pid)
    requires p in s.local && p in s.ring.phase && ProducerOk(s, p) && HoldersOk(s.ring) && SlotPointers(s)
    requires Can(s, DoPublish(p)) && s.ring.phase[p].pos !in s.ring.slots
    ensures SlotPointers(Do(s, DoPublish(p)))
  {
    var s', t := Do(s, DoPublish(p)), s.ring.phase[p].t;
    forall u | u in s'.ring.full && !(u == s'.ring.done + 1 && s'.ring.sink == Chunks)
      ensures 1 <= u <= |s'.lines| && u % SLOTS in s'.ring.slots
      ensures HeadIs(s'.mem, s'.lines[u - 1], s'.ring.slots[u % SLOTS])
    {
      if u == t {
        PublishOwn(s, p);
      } else {
        PublishOther(s, p, u);
      }
    }
  }

  lemma PublishKeepsProducers(s: State, p: Pid)
    requires ProducersOk(s) && Can(s, DoPublish(p)) && s.ring.phase[p].pos !in s.ring.slots
    ensures ProducersOk(Do(s, DoPublish(p)))
  {
    var s' := Do(s, DoPublish(p));
    forall q | q in s'.local ensures ProducerOk(s', q) {
      assert ProducerOk(s, q);
    }
  }

  lemma PublishKeepsRest(s: State, p: Pid)
    requires LinesOk(s) && ConsumerOk(s) && Conserved(s) && Can(s, DoPublish(p))
    requires s.ring.phase[p].pos !in s.ring.slots
    ensures var s' := Do(s, DoPublish(p)); LinesOk(s') && ConsumerOk(s') && Conserved(s')
  {
  }

  lemma PublishStep(s: State, p: Pid)
    requires Inv(s) && Can(s, DoPublish(p))
    ensures Inv(Do(s, DoPublish(p)))
  {
    var s' := Do(s, DoPublish(p));
    PublishFindsSlotEmpty(s.ring, p);
    RingStep(s.ring, Publish(p, s.local[p].head.value));
    assert ProducerOk(s, p);
    PublishPointers(s, p);
    PublishKeepsProducers(s, p);
    PublishKeepsRest(s, p);
  }

  // `consume`

  lemma ProducersSame(s: State, s': State)
    requires ProducersOk(s) && s'.local == s.local && s'.ring.phase == s.ring.phase
    requires s'.mem == s.mem && s'.lines == s.lines && s'.nextLine == s.nextLine
    ensures ProducersOk(s')
  {
    forall q | q in s'.local ensures ProducerOk(s', q) {
      assert ProducerOk(s, q);
    }
  }

  /** Steps that move the consumer without touching memory, slots or the done count. */
  lemma SinkMoves(s: State, s': State)
    requires Inv(s) && RingOk(s'.ring)
    requires s' == s.(ring := s'.ring, limit := s'.limit, data := s'.data, read := s'.read, returned := s'.returned)
    requires s'.ring == s.ring.(sink := s'.ring.sink, queueSize := s'.ring.queueSize)
    requires s'.returned + s'.read == s.returned + s.read
    requires ConsumerOk(s') && s.ring.sink != Chunks
    ensures Inv(s')
  {
    ProducersSame(s, s');
    SinkKeepsRest(s, s');
  }

  lemma SinkKeepsRest(s: State, s': State)
    requires LinesOk(s) && SlotPointers(s) && Conserved(s) && s.ring.sink != Chunks
    requires s' == s.(ring := s'.ring, limit := s'.limit, data := s'.data, read := s'.read, returned := s'.returned)
    requires s'.ring == s.ring.(sink := s'.ring.sink, queueSize := s'.ring.queueSize)
    requires s'.returned + s'.read == s.returned + s.read
    ensures LinesOk(s') && SlotPointers(s') && Conserved(s')
  {
  }

  lemma CallStep(s: State, n: nat)
    requires Inv(s) && Can(s, DoCall(n))
    ensures Inv(Do(s, DoCall(n)))
  {
    RingStep(s.ring, Call);
    SinkMoves(s, Do(s, DoCall(n)));
  }

  lemma LookStep(s: State)
    requires Inv(s) && Can(s, DoLook)
    ensures Inv(Do(s, DoLook))
  {
    RingStep(s.ring, Look);
    LookShape(s, Do(s, DoLook));
    SinkMoves(s, Do(s, DoLook));
  }

  lemma LookShape(s: State, s': State)
    requires Can(s, DoLook) && s' == Do(s, DoLook) && ConsumerOk(s)
    ensures ConsumerOk(s') && s'.returned + s'.read == s.returned + s.read
    ensures s' == s.(ring := s'.ring, limit := s'.limit, data := s'.data, read := s'.read, returned := s'.returned)
    ensures s'.ring == s.ring.(sink := s'.ring.sink, queueSize := s'.ring.queueSize)
  {
    assert s.returned + s.read + "" == s.returned + s.read;
  }

  lemma DecrementStep(s: State)
    requires Inv(s) && Can(s, DoDecrement)
    ensures Inv(Do(s, DoDecrement))
  {
    RingStep(s.ring, Decrement);
    SinkMoves(s, Do(s, DoDecrement));
  }

  lemma FetchPointer(s: State)
    requires RingOk(s.ring) && LinesOk(s) && SlotPointers(s) && s.ring.sink == Load
    requires SlotOf(s.ring.consumePos) in s.ring.slots
    ensures s.ring.done < |s.lines| && HeadIs(s.mem, s.lines[s.ring.done], s.ring.slots[SlotOf(s.ring.consumePos)])
  {
    WrapKeepsSlot(s.ring.done + 1);
    FetchFindsNext(s.ring);
  }

  lemma FetchConsumer(s: State)
    requires RingOk(s.ring) && LinesOk(s) && SlotPointers(s) && ConsumerOk(s) && Can(s, DoFetch)
    ensures ConsumerOk(Do(s, DoFetch))
  {
    if SlotOf(s.ring.consumePos) in s.ring.slots {
      FetchPointer(s);
    }
  }

  lemma FetchKeepsQueue(s: State)
    requires LinesOk(s) && SlotPointers(s) && Can(s, DoFetch)
    ensures LinesOk(Do(s, DoFetch)) && SlotPointers(Do(s, DoFetch))
  {
  }

  lemma FetchConserves(s: State)
    requires Conserved(s) && Can(s, DoFetch)
    ensures Conserved(Do(s, DoFetch))
  {
    assert s.returned + s.read + "" == s.returned + s.read;
  }

  lemma FetchStep(s: State)
    requires Inv(s) && Can(s, DoFetch)
    ensures Inv(Do(s, DoFetch))
  {
    var s' := Do(s, DoFetch);
    FetchShape(s);
    RingStep(s.ring, Fetch);
    FetchConsumer(s);
    FetchKeepsQueue(s);
    FetchConserves(s);
    ProducersSame(s, s');
  }

  lemma FetchShape(s: State)
    requires Can(s, DoFetch)
    ensures var s' := Do(s, DoFetch);
      && s'.ring == Apply(s.ring, Fetch) && s'.mem == s.mem && s'.local == s.local && s'.lines == s.lines
      && s'.nextLine == s.nextLine && s'.ring.phase == s.ring.phase
  {
  }

  /** A producer's line is never the one being consumed. */
  lemma NobodyWritesIt(s: State, p: Pid)
    requires RingOk(s.ring) && ProducersOk(s) && LinesOk(s) && s.ring.sink == Chunks
    requires p in s.local && s.local[p].head.Some?
    ensures s.ring.done < |s.lines| && s.local[p].line != s.lines[s.ring.done]
  {
    assert ProducerOk(s, p);
    assert s.ring.done + 1 in s.ring.full;
  }

  lemma TakeProducer(s: State, q: Pid)
    requires ProducersOk(s) && Can(s, DoTake) && q in s.local && q in s.ring.phase
    requires s.local[q].head.Some? ==> s.local[q].line != s.lines[s.ring.done]
    ensures ProducerOk(Do(s, DoTake), q)
  {
    assert ProducerOk(s, q);
  }

  lemma TakeKeepsProducers(s: State)
    requires RingOk(s.ring) && ProducersOk(s) && LinesOk(s) && Can(s, DoTake)
    ensures ProducersOk(Do(s, DoTake))
  {
    var s' := Do(s, DoTake);
    forall q | q in s'.local ensures ProducerOk(s', q) {
      if s.local[q].head.Some? {
        NobodyWritesIt(s, q);
      }
      TakeProducer(s, q);
    }
  }

  lemma TakeKeepsLines(s: State)
    requires LinesOk(s) && Can(s, DoTake)
    ensures LinesOk(Do(s, DoTake))
  {
  }

  lemma TakeKeepsPointers(s: State)
    requires LinesOk(s) && SlotPointers(s) && Can(s, DoTake)
    ensures SlotPointers(Do(s, DoTake))
  {
  }

  lemma TakeConserves(s: State)
    requires Conserved(s) && LinesOk(s) && Can(s, DoTake)
    requires s.mem.text[s.lines[s.ring.done]] ==
             s.mem.chunks[s.data.value].data + Do(s, DoTake).mem.text[s.lines[s.ring.done]]
    ensures Conserved(Do(s, DoTake))
  {
    var s', queue := Do(s, DoTake), s.lines[s.ring.done..];
    var l, bytes := queue[0], s.mem.chunks[s.data.value].data;
    TextsSame(s.mem.text, s'.mem.text, queue[1..]);
    var rest := Texts(s.mem.text, queue[1..]);
    assert s.returned + s.read + (bytes + s'.mem.text[l] + rest)
        == s.returned + (s.read + bytes) + (s'.mem.text[l] + rest);
  }

  lemma TakeStep(s: State)
    requires Inv(s) && Can(s, DoTake)
    ensures Inv(Do(s, DoTake))
  {
    var l, id := s.lines[s.ring.done], s.data.value;
    assert IsHead(s.mem, l, id);
    DropWf(s.mem, l, id);
    DropLine(s.mem, l, id);
    TakeKeepsProducers(s);
    TakeKeepsLines(s);
    TakeKeepsPointers(s);
    TakeConserves(s);
  }

  /** The slot under consumption is nobody else's. */
  lemma OwnSlot(r: Ring)
    requires RingOk(r)
    ensures SlotOf(r.consumePos) == (r.done + 1) % SLOTS
    ensures forall t :: t in r.full && t != r.done + 1 ==> t % SLOTS != (r.done + 1) % SLOTS
  {
    WrapKeepsSlot(r.done + 1);
    forall t | t in r.full && t != r.done + 1 ensures t % SLOTS != (r.done + 1) % SLOTS {
      SlotsDiffer(r.done + 1, t);
    }
  }

  lemma StopPointers(s: State)
    requires LinesOk(s) && SlotPointers(s) && ConsumerOk(s) && Can(s, DoStop)
    requires var pos := SlotOf(s.ring.consumePos);
             && pos == (s.ring.done + 1) % SLOTS
             && forall t :: t in s.ring.full && t != s.ring.done + 1 ==> t % SLOTS != pos
    ensures SlotPointers(Do(s, DoStop))
  {
  }

  lemma StopKeepsRest(s: State)
    requires ProducersOk(s) && LinesOk(s) && Conserved(s) && Can(s, DoStop)
    ensures ProducersOk(Do(s, DoStop)) && LinesOk(Do(s, DoStop)) && Conserved(Do(s, DoStop))
  {
    ProducersSame(s, Do(s, DoStop));
    assert s.returned + s.read + "" == s.returned + s.read;
  }

  lemma StopStep(s: State)
    requires Inv(s) && Can(s, DoStop)
    ensures Inv(Do(s, DoStop))
  {
    RingStep(s.ring, Stop(s.data.value));
    OwnSlot(s.ring);
    StopPointers(s);
    StopKeepsRest(s);
  }

  lemma ClearStep(s: State)
    requires Inv(s) && Can(s, DoClear)
    ensures Inv(Do(s, DoClear))
  {
    var s' := Do(s, DoClear);
    RingStep(s.ring, Clear);
    ProducersSame(s, s');
  }

  lemma AdvanceConserves(s: State)
    requires Conserved(s) && s.ring.done < |s.lines| && s.mem.text[s.lines[s.ring.done]] == "" && Can(s, DoAdvance)
    ensures Conserved(Do(s, DoAdvance))
  {
    var s', queue := Do(s, DoAdvance), s.lines[s.ring.done..];
    assert queue[1..] == s'.lines[s'.ring.done..];
    assert Texts(s.mem.text, queue) == "" + Texts(s.mem.text, queue[1..]);
  }

  lemma AdvanceKeepsRest(s: State)
    requires LinesOk(s) && SlotPointers(s) && SinkOk(s.ring) && Can(s, DoAdvance)
    ensures var s' := Do(s, DoAdvance); LinesOk(s') && SlotPointers(s') && ConsumerOk(s')
  {
  }

  lemma AdvanceStep(s: State)
    requires Inv(s) && Can(s, DoAdvance)
    ensures Inv(Do(s, DoAdvance))
  {
    var s' := Do(s, DoAdvance);
    RingStep(s.ring, Advance);
    assert LineOk(s.mem, s.lines[s.ring.done]);
    AdvanceConserves(s);
    ProducersSame(s, s');
    AdvanceKeepsRest(s);
  }

  /** Every step of every thread keeps the invariant. */
  lemma StepKeepsInv(s: State, step: Step)
    requires Inv(s) && Can(s, step)
    ensures Inv(Do(s, step))
  {
    match step
    case Produce(p, from, id) =>
      if s.local[p].head.None? {
        ProduceFirst(s, p, from, id);
      } else {
        ProduceMore(s, p, from, id);
      }
    case DoReserve(_) => ReserveOrBack(s, step);
    case DoBack(_) => ReserveOrBack(s, step);
    case DoTicket(p) => TicketStep(s, p);
    case DoPublish(p) => PublishStep(s, p);
    case DoCall(n) => CallStep(s, n);
    case DoLook => LookStep(s);
    case DoFetch => FetchStep(s);
    case DoTake => TakeStep(s);
    case DoStop => StopStep(s);
    case DoClear => ClearStep(s);
    case DoAdvance => AdvanceStep(s);
    case DoDecrement => DecrementStep(s);
  }

  // ---------------------------------------------------------------------------------------------
  // Runs

  /** The constructed buffer: any set of threads, any pools of unused chunks. */
  ghost predicate IsInit(s: State) {
    && s.ring == Ring(0, 0, 1, map[], s.ring.phase, Out, 0, 0, {})
    && (forall p :: p in s.ring.phase ==> s.ring.phase[p] == Idle)
    && s.local.Keys == s.ring.phase.Keys
    && (forall p :: p in s.local ==> s.local[p] == Local(None, None, 0))
    && s.mem == Memory(s.mem.chunks, map[], map[], map[])
    && (forall id :: id in s.mem.chunks ==>
          id.Pooled? && s.mem.chunks[id] == Chunk(false, "", s.mem.chunks[id].cap, None))
    && (forall id :: id in s.mem.chunks ==> s.mem.chunks[id].cap <= MAX_DATA)
    && s.read == s.returned == "" && s.lines == [] && s.logged == []
  }

  /** `steps` lead from `s` to `s'`: any interleaving of the threads' steps. */
  ghost predicate Runs(s: State, steps: seq<Step>, s': State)
    decreases |steps|
  {
    if steps == [] then s == s'
    else Can(s, steps[0]) && Runs(Do(s, steps[0]), steps[1..], s')
  }

  lemma InitRing(r: Ring)
    requires r == Ring(0, 0, 1, map[], r.phase, Out, 0, 0, {}) && forall p :: p in r.phase ==> r.phase[p] == Idle
    ensures RingOk(r)
  {
    assert InPhase(r.phase, Reserved) == {} && InPhase(r.phase, Backing) == {};
  }

  lemma InitMemory(m: Memory)
    requires m == Memory(m.chunks, map[], map[], map[])
    requires forall id :: id in m.chunks ==>
      id.Pooled? && m.chunks[id] == Chunk(false, "", m.chunks[id].cap, None) && m.chunks[id].cap <= MAX_DATA
    ensures Wf(m)
  {
  }

  lemma InitHolds(s: State)
    requires IsInit(s)
    ensures Inv(s)
  {
    InitRing(s.ring);
    InitMemory(s.mem);
    assert s.lines[0..] == [] && "" + "" + "" == "";
  }

  lemma {:induction false} RunKeepsInv(s: State, steps: seq<Step>, s': State)
    requires Inv(s) && Runs(s, steps, s')
    ensures Inv(s')
    decreases |steps|
  {
    if steps != [] {
      StepKeepsInv(s, steps[0]);
      RunKeepsInv(Do(s, steps[0]), steps[1..], s');
    }
  }

  ghost predicate Reachable(s: State) {
    exists s0, steps :: IsInit(s0) && Runs(s0, steps, s)
  }

  lemma ReachableInv(s: State)
    requires Reachable(s)
    ensures Inv(s)
  {
    var s0, steps :| IsInit(s0) && Runs(s0, steps, s);
    InitHolds(s0);
    RunKeepsInv(s0, steps, s);
  }

  /** In every run, the CAS of `finish` finds its slot empty, and the ticket is published there. */
  lemma FinishAlwaysPublishes(s: State, p: Pid)
    requires Reachable(s) && Can(s, DoPublish(p))
    ensures s.ring.phase[p].pos !in s.ring.slots
    ensures s.ring.phase[p].t in Do(s, DoPublish(p)).ring.full
  {
    assert RingOk(s.ring) by {
      ReachableInv(s);
    }
    PublishFindsSlotEmpty(s.ring, p);
  }

  /** The bytes in memory of the lines in `ls`, read through their chunks. */
  ghost function StoredBytes(m: Memory, ls: seq<Line>): string
    requires Wf(m) && forall i :: 0 <= i < |ls| ==> ls[i] in m.chains
  {
    if ls == [] then ""
    else
      assert LineOk(m, ls[0]);
      Bytes(m.chunks, m.chains[ls[0]]) + StoredBytes(m, ls[1..])
  }

  lemma {:induction false} StoredTexts(m: Memory, ls: seq<Line>)
    requires Wf(m) && forall i :: 0 <= i < |ls| ==> ls[i] in m.chains && ls[i] in m.text
    ensures StoredBytes(m, ls) == Texts(m.text, ls)
  {
    if ls != [] {
      assert LineOk(m, ls[0]);
      StoredTexts(m, ls[1..]);
    }
  }

  /** In every run, the bytes that `consume` calls returned, then those of the present call, then the bytes stored for
      the tickets still queued, are exactly the ticketed lines in ticket order. */
  lemma StreamConserved(s: State)
    requires Reachable(s)
    ensures Wf(s.mem) && s.ring.done <= |s.lines| && forall i :: 0 <= i < |s.lines| ==> s.lines[i] in s.mem.chains
    ensures s.returned + s.read + StoredBytes(s.mem, s.lines[s.ring.done..]) == Flatten(s.logged)
  {
    ReachableInv(s);
    StoredTexts(s.mem, s.lines[s.ring.done..]);
  }

  /** Once every ticket is consumed and the call has returned, the output is the log. */
  lemma DrainedOutput(s: State)
    requires Reachable(s) && s.ring.done == s.ring.issued && s.ring.sink == Out
    ensures s.returned == Flatten(s.logged)
  {
    ReachableInv(s);
    assert s.lines[s.ring.done..] == [];
    assert s.returned + "" + "" == s.returned;
  }

  /** In every run, a chunk in use is in one chain only. */
  lemma ChunkInOneChain(s: State, l: Line, l': Line, id: ChunkId)
    requires Reachable(s) && l in s.mem.chains && l' in s.mem.chains
    requires id in s.mem.chains[l] && id in s.mem.chains[l']
    ensures l == l'
  {
    ReachableInv(s);
    OneChainPerChunk(s.mem, l, l', id);
  }

  lemma NextChunkThere(s: State)
    requires Wf(s.mem) && LinesOk(s) && ConsumerOk(s) && s.ring.sink == Chunks && s.data.Some?
    ensures s.ring.done < |s.lines| && s.data.value in s.mem.chunks
    ensures var l := s.lines[s.ring.done];
            && l in s.mem.chains && l in s.mem.text && s.mem.chains[l] != []
            && |s.mem.chunks[s.data.value].data| <= |s.mem.text[l]|
    ensures |s.mem.chunks[s.data.value].data| <= MAX_DATA
  {
    var l, id := s.lines[s.ring.done], s.data.value;
    assert LineOk(s.mem, l) && IsHead(s.mem, l, id);
    FirstChunk(s.mem, l, id);
    assert ChunkOk(id, s.mem.chunks[id], id in s.mem.owner);
  }

  lemma TakeOrStop(s: State)
    requires s.ring.sink == Chunks && s.data.Some? && s.ring.done < |s.lines| && s.data.value in s.mem.chunks
    requires var l := s.lines[s.ring.done];
             && l in s.mem.chains && l in s.mem.text && s.mem.chains[l] != []
             && |s.mem.chunks[s.data.value].data| <= |s.mem.text[l]|
    requires |s.mem.chunks[s.data.value].data| <= MAX_DATA
    ensures Can(s, DoTake) || Can(s, DoStop)
    ensures s.read == "" && MAX_DATA <= s.limit ==> Can(s, DoTake)
  {
  }

  /** Inside a chain the consumer always has a next step, and a call with an empty buffer of the sink thread's size
      takes the chunk it finds: such a call removes at least one chunk. */
  lemma ConsumerMovesOn(s: State)
    requires Reachable(s) && s.ring.sink == Chunks
    ensures Can(s, DoTake) || Can(s, DoStop) || Can(s, DoClear)
    ensures s.data.Some? && s.read == "" && MAX_DATA <= s.limit ==> Can(s, DoTake)
  {
    if s.data.Some? {
      assert Wf(s.mem) && LinesOk(s) && ConsumerOk(s) by {
        ReachableInv(s);
      }
      NextChunkThere(s);
      TakeOrStop(s);
    }
  }

  lemma HeapBound(ids: set<ChunkId>) returns (n: nat)
    ensures forall id :: id in ids && id.Heap? ==> id.n < n
  {
    if ids == {} {
      n := 0;
    } else {
      var id :| id in ids;
      n := HeapBound(ids - {id});
      if id.Heap? && n <= id.n {
        n := id.n + 1;
      }
    }
  }

  ghost predicate PointersOk(s: State, p: Pid)
    requires p in s.local
  {
    var x := s.local[p];
    && x.tail.Some? && x.tail.value in s.mem.chunks && x.line in s.mem.chains && x.line in s.mem.text
    && |s.mem.chunks[x.tail.value].data| <= s.mem.chunks[x.tail.value].cap
  }

  lemma PointersThere(s: State, p: Pid)
    requires Wf(s.mem) && ProducersOk(s) && p in s.local && s.local[p].head.Some?
    ensures PointersOk(s, p)
  {
    var x := s.local[p];
    assert ProducerOk(s, p);
    assert LineOk(s.mem, x.line);
    assert ChunkOk(x.tail.value, s.mem.chunks[x.tail.value], x.tail.value in s.mem.owner);
  }

  /** A producer is never stuck: outside `finish` it can log any bytes, and inside each phase has its step. */
  lemma ProducerMovesOn(s: State, p: Pid, from: string)
    requires Reachable(s) && p in s.local
    ensures p in s.ring.phase
    ensures s.ring.phase[p] == Idle ==> exists id :: Can(s, Produce(p, from, id))
    ensures s.ring.phase[p] != Idle ==> Can(s, DoBack(p)) || Can(s, DoTicket(p)) || Can(s, DoPublish(p))
  {
    assert ProducersOk(s) && (s.local[p].head.Some? ==> PointersOk(s, p)) by {
      ReachableInv(s);
      if s.local[p].head.Some? {
        PointersThere(s, p);
      }
    }
    assert ProducerOk(s, p);
    if s.ring.phase[p] == Idle {
      var n := HeapBound(s.mem.chunks.Keys);
      assert Can(s, Produce(p, from, Heap(n)));
    }
  }

  /** `_queueSize` stays within a C++ `int` while fewer than 2^31 - 2^14 threads log. */
  lemma QueueSizeIsInt(s: State)
    requires Reachable(s) && |s.local| <= 0x7fff_ffff - SLOTS
    ensures 0 <= s.ring.queueSize <= 0x7fff_ffff
  {
    ReachableInv(s);
    CounterBounded(s.ring);
    assert |s.local.Keys| == |s.local| && |s.ring.phase.Keys| == |s.ring.phase|;
  }
}
