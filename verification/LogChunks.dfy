/** The chunk buffers of the log ring (log/src/logging.cpp: `LogData`, `BufferBucket`, `BlockingBuffer::alloc`,
    `release` and `produce`), as one memory of chunks linked through their `next` pointers.

    A line is the chain of chunks one thread fills between two `finish` calls.  Besides the memory itself the
    state records, per line, which chunks it is made of (`chains`) and what it should read as (`text`); `Wf` ties
    these to the memory. */
module LogChunks {
  import opened Util

  const MAX_DATA: nat := 0x100_0000

  /** A chunk of one of the five pools, or one allocated on the heap. */
  datatype ChunkId = Pooled(bucket: nat, index: nat) | Heap(n: nat)

  datatype Chunk = Chunk(used: bool, data: string, cap: nat, next: Option<ChunkId>)

  type Line = nat

  datatype Memory = Memory(
    chunks: map<ChunkId, Chunk>,
    owner: map<ChunkId, Line>,
    chains: map<Line, seq<ChunkId>>,
    text: map<Line, string>)

  /** The capacity of a chunk able to take `n` bytes: the smallest pool level, or exactly `n` from the heap. */
  function LevelFor(n: nat): (cap: nat)
    ensures n <= cap && (n <= MAX_DATA ==> cap <= MAX_DATA)
    ensures if n <= 16384 then cap in {1024, 2048, 4096, 8192, 16384} && (cap == 1024 || cap < 2 * n) else cap == n
  {
    if n <= 1024 then 1024
    else if n <= 2048 then 2048
    else if n <= 4096 then 4096
    else if n <= 8192 then 8192
    else if n <= 16384 then 16384
    else n
  }

  function Bytes(chunks: map<ChunkId, Chunk>, chain: seq<ChunkId>): (s: string)
    requires forall i :: 0 <= i < |chain| ==> chain[i] in chunks
  {
    if chain == [] then "" else chunks[chain[0]].data + Bytes(chunks, chain[1..])
  }

  /** Reading a chain needs only the contents of its chunks. */
  lemma {:induction false} BytesSame(chunks: map<ChunkId, Chunk>, chunks': map<ChunkId, Chunk>, chain: seq<ChunkId>)
    requires forall i :: 0 <= i < |chain| ==>
               chain[i] in chunks && chain[i] in chunks' && chunks[chain[i]].data == chunks'[chain[i]].data
    ensures Bytes(chunks, chain) == Bytes(chunks', chain)
  {
    if chain != [] {
      BytesSame(chunks, chunks', chain[1..]);
    }
  }

  lemma {:induction false} BytesConcat(chunks: map<ChunkId, Chunk>, a: seq<ChunkId>, b: seq<ChunkId>)
    requires forall i :: 0 <= i < |a + b| ==> (a + b)[i] in chunks
    requires forall i :: 0 <= i < |a| ==> a[i] in chunks
    requires forall i :: 0 <= i < |b| ==> b[i] in chunks
    ensures Bytes(chunks, a + b) == Bytes(chunks, a) + Bytes(chunks, b)
  {
    if a == [] {
      assert a + b == b;
    } else {
      assert (a + b)[1..] == a[1..] + b;
      BytesConcat(chunks, a[1..], b);
    }
  }

  lemma BytesLast(chunks: map<ChunkId, Chunk>, chain: seq<ChunkId>)
    requires chain != [] && forall i :: 0 <= i < |chain| ==> chain[i] in chunks
    ensures Bytes(chunks, chain) == Bytes(chunks, chain[..|chain| - 1]) + chunks[chain[|chain| - 1]].data
  {
    var init, tail := chain[..|chain| - 1], chain[|chain| - 1];
    assert chain == init + [tail];
    BytesConcat(chunks, init, [tail]);
    assert Bytes(chunks, [tail]) == chunks[tail].data + Bytes(chunks, []);
  }

  /** The chunks of `chain` are owned by line `l`, once each, and linked in this order by their `next` pointers. */
  ghost predicate Linked(m: Memory, l: Line, chain: seq<ChunkId>) {
    && (forall i :: 0 <= i < |chain| ==> chain[i] in m.chunks && chain[i] in m.owner && m.owner[chain[i]] == l)
    && (forall i, j :: 0 <= i < j < |chain| ==> chain[i] != chain[j])
    && (forall i, j :: 0 <= i && j == i + 1 && j < |chain| ==> m.chunks[chain[i]].next == Some(chain[j]))
    && (chain != [] ==> m.chunks[chain[|chain| - 1]].next == None)
  }

  ghost predicate ChunkOk(id: ChunkId, c: Chunk, owned: bool) {
    && |c.data| <= c.cap <= MAX_DATA
    && (id.Heap? ==> owned)
    && (c.used <==> owned)
    && (!owned ==> c.data == "" && c.next == None)
  }

  /** Line `l` is linked up and reads as it should. */
  ghost predicate LineOk(m: Memory, l: Line) {
    && l in m.chains && l in m.text
    && Linked(m, l, m.chains[l])
    && Bytes(m.chunks, m.chains[l]) == m.text[l]
  }

  ghost predicate ChunksOk(m: Memory) {
    && (forall id :: id in m.chunks ==> ChunkOk(id, m.chunks[id], id in m.owner))
    && (forall id :: id in m.owner ==> id in m.chunks && m.owner[id] in m.chains && id in m.chains[m.owner[id]])
  }

  ghost predicate Wf(m: Memory) {
    && ChunksOk(m)
    && (forall l :: l in m.chains ==> LineOk(m, l))
    && m.chains.Keys == m.text.Keys
  }

  /** A step that leaves the chunks of a line alone leaves the line alone. */
  lemma KeepLine(m: Memory, m': Memory, l: Line)
    requires LineOk(m, l) && l in m'.chains && l in m'.text
    requires m'.chains[l] == m.chains[l] && m'.text[l] == m.text[l]
    requires forall id :: id in m.chains[l] ==>
               id in m'.chunks && id in m'.owner && m'.owner[id] == l &&
               m'.chunks[id].data == m.chunks[id].data && m'.chunks[id].next == m.chunks[id].next
    ensures LineOk(m', l)
  {
    var chain := m.chains[l];
    assert forall i :: 0 <= i < |chain| ==> chain[i] in m.chains[l];
    BytesSame(m.chunks, m'.chunks, chain);
  }

  /** Nothing but line `l` and its chunks changed. */
  ghost predicate Elsewhere(m: Memory, m': Memory, l: Line) {
    && m'.chains.Keys == m.chains.Keys + {l} && m'.text.Keys == m.text.Keys + {l}
    && (forall k :: k in m.chains && k in m.text && k != l ==> m'.chains[k] == m.chains[k] && m'.text[k] == m.text[k])
    && (forall id :: id in m.owner && id in m.chunks && m.owner[id] != l ==>
          id in m'.chunks && id in m'.owner && m'.owner[id] == m.owner[id] && m'.chunks[id] == m.chunks[id])
  }

  /** A step on line `l` alone keeps the memory well formed if it does so for that line and for the chunks. */
  lemma OnlyLine(m: Memory, m': Memory, l: Line)
    requires Wf(m) && ChunksOk(m') && LineOk(m', l) && Elsewhere(m, m', l)
    ensures Wf(m')
  {
    forall k | k in m'.chains && k != l ensures LineOk(m', k) {
      KeepLine(m, m', k);
    }
  }

  /** No chunk is ever in two chains. */
  lemma OneChainPerChunk(m: Memory, l: Line, l': Line, id: ChunkId)
    requires Wf(m) && l in m.chains && l' in m.chains && id in m.chains[l] && id in m.chains[l']
    ensures l == l' && m.owner[id] == l
  {
  }

  // ---------------------------------------------------------------------------------------------
  // Allocation: `BufferBucket::alloc` takes the pooled chunk it lands on if that is unused, and a new one otherwise

  ghost predicate CanTake(m: Memory, id: ChunkId, cap: nat) {
    if id in m.chunks then id.Pooled? && !m.chunks[id].used && m.chunks[id].cap == cap else id.Heap?
  }

  /** The memory after chunk `id` was obtained and given to line `l`, not yet linked anywhere. */
  function Obtained(m: Memory, id: ChunkId, cap: nat): (c: Chunk) {
    if id in m.chunks then m.chunks[id].(used := true) else Chunk(true, "", cap, None)
  }

  /** The first `produce` of a line: a chunk large enough for all of it. */
  function Begin(m: Memory, l: Line, id: ChunkId, s: string): (m': Memory) {
    var c := Obtained(m, id, LevelFor(|s|));
    Memory(m.chunks[id := c.(data := c.data + s)], m.owner[id := l], m.chains[l := [id]], m.text[l := s])
  }

  lemma BeginChunks(m: Memory, l: Line, id: ChunkId, s: string)
    requires ChunksOk(m) && l !in m.chains && CanTake(m, id, LevelFor(|s|)) && |s| <= MAX_DATA
    ensures ChunksOk(Begin(m, l, id, s)) && id !in m.owner
  {
  }

  lemma BeginLine(m: Memory, l: Line, id: ChunkId, s: string)
    requires ChunksOk(m) && CanTake(m, id, LevelFor(|s|))
    ensures LineOk(Begin(m, l, id, s), l)
  {
    var m' := Begin(m, l, id, s);
    assert Bytes(m'.chunks, [id]) == m'.chunks[id].data + Bytes(m'.chunks, []);
  }

  lemma BeginElsewhere(m: Memory, l: Line, id: ChunkId, s: string)
    requires l !in m.chains && l !in m.text && id !in m.owner
    ensures Elsewhere(m, Begin(m, l, id, s), l)
  {
  }

  lemma BeginWf(m: Memory, l: Line, id: ChunkId, s: string)
    requires Wf(m) && l !in m.chains && CanTake(m, id, LevelFor(|s|)) && |s| <= MAX_DATA
    ensures Wf(Begin(m, l, id, s))
  {
    BeginChunks(m, l, id, s);
    BeginLine(m, l, id, s);
    BeginElsewhere(m, l, id, s);
    OnlyLine(m, Begin(m, l, id, s), l);
  }

  // ---------------------------------------------------------------------------------------------
  // Appending: fill the tail chunk, and link one more chunk for what did not fit

  /** The end of a line's chain, which its writer keeps as `tail`. */
  ghost predicate IsTail(m: Memory, l: Line, tail: ChunkId) {
    LineOk(m, l) && m.chains[l] != [] && tail == m.chains[l][|m.chains[l]| - 1]
  }

  function Fill(m: Memory, l: Line, tail: ChunkId, s: string): (m': Memory)
    requires tail in m.chunks && l in m.text
  {
    m.(chunks := m.chunks[tail := m.chunks[tail].(data := m.chunks[tail].data + s)], text := m.text[l := m.text[l] + s])
  }

  lemma FillLine(m: Memory, l: Line, tail: ChunkId, s: string)
    requires IsTail(m, l, tail)
    ensures IsTail(Fill(m, l, tail, s), l, tail)
  {
    var m', chain := Fill(m, l, tail, s), m.chains[l];
    BytesLast(m.chunks, chain);
    BytesLast(m'.chunks, chain);
    BytesSame(m.chunks, m'.chunks, chain[..|chain| - 1]);
  }

  lemma FillChunks(m: Memory, l: Line, tail: ChunkId, s: string)
    requires ChunksOk(m) && IsTail(m, l, tail)
    requires |m.chunks[tail].data| + |s| <= m.chunks[tail].cap
    ensures ChunksOk(Fill(m, l, tail, s)) && Elsewhere(m, Fill(m, l, tail, s), l)
  {
    assert tail in m.owner;
  }

  lemma FillWf(m: Memory, l: Line, tail: ChunkId, s: string)
    requires Wf(m) && IsTail(m, l, tail)
    requires |m.chunks[tail].data| + |s| <= m.chunks[tail].cap
    ensures Wf(Fill(m, l, tail, s))
  {
    FillLine(m, l, tail, s);
    FillChunks(m, l, tail, s);
    OnlyLine(m, Fill(m, l, tail, s), l);
  }

  /** One more chunk at the end of the chain, holding `s`. */
  function Extend(m: Memory, l: Line, tail: ChunkId, id: ChunkId, s: string): (m': Memory)
    requires tail in m.chunks && l in m.chains && l in m.text
  {
    var c := Obtained(m, id, LevelFor(|s|));
    Memory(m.chunks[tail := m.chunks[tail].(next := Some(id))][id := c.(data := c.data + s)], m.owner[id := l],
           m.chains[l := m.chains[l] + [id]], m.text[l := m.text[l] + s])
  }

  lemma ExtendLine(m: Memory, l: Line, tail: ChunkId, id: ChunkId, s: string)
    requires IsTail(m, l, tail) && id !in m.chains[l]
    requires Obtained(m, id, LevelFor(|s|)).data == "" && Obtained(m, id, LevelFor(|s|)).next == None
    ensures IsTail(Extend(m, l, tail, id, s), l, id)
  {
    var m', chain := Extend(m, l, tail, id, s), m.chains[l];
    assert (chain + [id])[..|chain|] == chain;
    BytesLast(m'.chunks, chain + [id]);
    BytesSame(m.chunks, m'.chunks, chain);
  }

  lemma ExtendChunks(m: Memory, l: Line, tail: ChunkId, id: ChunkId, s: string)
    requires ChunksOk(m) && IsTail(m, l, tail)
    requires CanTake(m, id, LevelFor(|s|)) && |s| <= MAX_DATA
    ensures ChunksOk(Extend(m, l, tail, id, s)) && Elsewhere(m, Extend(m, l, tail, id, s), l)
  {
    assert tail in m.owner;
  }

  lemma ExtendWf(m: Memory, l: Line, tail: ChunkId, id: ChunkId, s: string)
    requires Wf(m) && IsTail(m, l, tail) && CanTake(m, id, LevelFor(|s|)) && |s| <= MAX_DATA
    ensures Wf(Extend(m, l, tail, id, s)) && IsTail(Extend(m, l, tail, id, s), l, id)
  {
    ExtendChunks(m, l, tail, id, s);
    ExtendLine(m, l, tail, id, s);
    OnlyLine(m, Extend(m, l, tail, id, s), l);
  }

  /** Whether a write to the tail chunk leaves something over, so that `produce` links another chunk. */
  predicate Overflows(m: Memory, tail: ChunkId, s: string)
    requires tail in m.chunks
  {
    |s| > m.chunks[tail].cap - |m.chunks[tail].data|
  }

  /** A later `produce` of a line: what fits into the tail chunk, and the rest into one more chunk. */
  function Append(m: Memory, l: Line, tail: ChunkId, id: ChunkId, s: string): (m': Memory)
    requires tail in m.chunks && l in m.chains && l in m.text && |m.chunks[tail].data| <= m.chunks[tail].cap
  {
    if Overflows(m, tail, s) then
      var n := m.chunks[tail].cap - |m.chunks[tail].data|;
      Extend(Fill(m, l, tail, s[..n]), l, tail, id, s[n..])
    else Fill(m, l, tail, s)
  }

  /** What a line reads as, and which chunks it is made of, after an append. */
  lemma AppendText(m: Memory, l: Line, tail: ChunkId, id: ChunkId, s: string)
    requires tail in m.chunks && l in m.chains && l in m.text && |m.chunks[tail].data| <= m.chunks[tail].cap
    ensures var m' := Append(m, l, tail, id, s);
            && m'.chains == m.chains[l := if Overflows(m, tail, s) then m.chains[l] + [id] else m.chains[l]]
            && m'.text == m.text[l := m.text[l] + s]
  {
    if Overflows(m, tail, s) {
      var n := m.chunks[tail].cap - |m.chunks[tail].data|;
      var a, b := s[..n], s[n..];
      assert m.text[l] + a + b == m.text[l] + s;
    } else {
      assert m.chains[l := m.chains[l]] == m.chains;
    }
  }

  lemma FillTakes(m: Memory, l: Line, tail: ChunkId, a: string, id: ChunkId, cap: nat)
    requires ChunksOk(m) && IsTail(m, l, tail) && CanTake(m, id, cap)
    ensures CanTake(Fill(m, l, tail, a), id, cap)
  {
    assert tail in m.owner && m.chunks[tail].used;
  }

  /** The overflowing case: `a` fills the tail chunk, `b` goes into chunk `id`. */
  lemma AppendBoth(m: Memory, l: Line, tail: ChunkId, id: ChunkId, a: string, b: string)
    requires Wf(m) && IsTail(m, l, tail) && |b| <= MAX_DATA && CanTake(m, id, LevelFor(|b|))
    requires |m.chunks[tail].data| + |a| <= m.chunks[tail].cap
    ensures Wf(Extend(Fill(m, l, tail, a), l, tail, id, b))
  {
    FillWf(m, l, tail, a);
    FillLine(m, l, tail, a);
    FillTakes(m, l, tail, a, id, LevelFor(|b|));
    ExtendWf(Fill(m, l, tail, a), l, tail, id, b);
  }

  lemma TailFits(m: Memory, l: Line, tail: ChunkId)
    requires ChunksOk(m) && IsTail(m, l, tail)
    ensures tail in m.chunks && |m.chunks[tail].data| <= m.chunks[tail].cap
  {
    assert ChunkOk(tail, m.chunks[tail], tail in m.owner);
  }

  lemma AppendWf(m: Memory, l: Line, tail: ChunkId, id: ChunkId, s: string)
    requires Wf(m) && IsTail(m, l, tail) && |s| <= MAX_DATA
    requires Overflows(m, tail, s) ==> CanTake(m, id, LevelFor(|s| - (m.chunks[tail].cap - |m.chunks[tail].data|)))
    ensures |m.chunks[tail].data| <= m.chunks[tail].cap
    ensures Wf(Append(m, l, tail, id, s))
  {
    TailFits(m, l, tail);
    if Overflows(m, tail, s) {
      var n := m.chunks[tail].cap - |m.chunks[tail].data|;
      var a, b := s[..n], s[n..];
      assert |b| == |s| - n;
      AppendBoth(m, l, tail, id, a, b);
    } else {
      FillWf(m, l, tail, s);
    }
  }

  // ---------------------------------------------------------------------------------------------
  // Release: `recycle` resets a pooled chunk, a heap chunk is deleted

  function Released(m: Memory, id: ChunkId): (chunks: map<ChunkId, Chunk>)
    requires id in m.chunks
  {
    if id.Pooled? then m.chunks[id := Chunk(false, "", m.chunks[id].cap, None)] else m.chunks - {id}
  }

  /** The consumer is done with chunk `id` of line `l`. */
  function Drop(m: Memory, l: Line, id: ChunkId): (m': Memory)
    requires l in m.chains && l in m.text && m.chains[l] != [] && id in m.chunks
    requires |m.chunks[id].data| <= |m.text[l]|
  {
    Memory(Released(m, id), m.owner - {id}, m.chains[l := m.chains[l][1..]],
           m.text[l := m.text[l][|m.chunks[id].data|..]])
  }

  ghost predicate IsHead(m: Memory, l: Line, id: ChunkId) {
    LineOk(m, l) && m.chains[l] != [] && id == m.chains[l][0]
  }

  /** The first chunk of a line holds a prefix of what the line reads as. */
  lemma FirstChunk(m: Memory, l: Line, id: ChunkId)
    requires IsHead(m, l, id)
    ensures id in m.chunks && m.text[l] == m.chunks[id].data + Bytes(m.chunks, m.chains[l][1..])
  {
  }

  /** ... and its `next` pointer is the new head. */
  lemma DropLine(m: Memory, l: Line, id: ChunkId)
    requires IsHead(m, l, id) && |m.chunks[id].data| <= |m.text[l]|
    ensures LineOk(Drop(m, l, id), l)
    ensures m.chunks[id].next == if |m.chains[l]| == 1 then None else Some(m.chains[l][1])
  {
    var m', chain := Drop(m, l, id), m.chains[l];
    BytesSame(m.chunks, m'.chunks, chain[1..]);
  }

  lemma DropChunks(m: Memory, l: Line, id: ChunkId)
    requires ChunksOk(m) && IsHead(m, l, id) && |m.chunks[id].data| <= |m.text[l]|
    ensures ChunksOk(Drop(m, l, id)) && Elsewhere(m, Drop(m, l, id), l)
  {
    var chain := m.chains[l];
    assert chain == [chain[0]] + chain[1..];
  }

  lemma DropWf(m: Memory, l: Line, id: ChunkId)
    requires Wf(m) && IsHead(m, l, id)
    ensures id in m.chunks && |m.chunks[id].data| <= |m.text[l]|
    ensures Wf(Drop(m, l, id))
    ensures m.text[l] == m.chunks[id].data + Drop(m, l, id).text[l]
  {
    FirstChunk(m, l, id);
    DropLine(m, l, id);
    DropChunks(m, l, id);
    OnlyLine(m, Drop(m, l, id), l);
  }
}
