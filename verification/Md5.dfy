/** Incremental MD5 (utils/md5.h:38-171). Everything holds for any block function in the place of `transform`. */
module Md5 {
  import opened Wire

  /** The chaining state: four 32-bit words. */
  type Word = w: nat | w < WORD
  type Words = s: seq<Word> | |s| == 4 witness [0, 0, 0, 0]
  type BlockFunction = (Words, seq<Byte>) -> Words

  const INIT: Words := [0x67452301, 0xefcdab89, 0x98badcfe, 0x10325476]

  // ----- The digest of a whole message (sections 3.1 to 3.5 of RFC 1321)

  /** The block function over the whole 64-byte blocks of `m`. */
  ghost function Fold(block: BlockFunction, state: Words, m: seq<Byte>): (r: Words)
    decreases |m|
  {
    if |m| < 64 then state else Fold(block, block(state, m[..64]), m[64..])
  }

  function Zeros(n: nat): (r: seq<Byte>)
    ensures |r| == n && forall i :: 0 <= i < n ==> r[i] == 0
  {
    seq(n, i => 0)
  }

  /** A one bit and zeros, at least one byte, up to 8 bytes before the end of a block. */
  function Padding(n: nat): (r: seq<Byte>)
    ensures 1 <= |r| <= 64 && (n + |r|) % 64 == 56
  {
    [0x80] + Zeros((55 - n) % 64)
  }

  /** The length in bits, modulo 2^64. */
  function Bits(n: nat): (r: seq<Byte>)
    ensures |r| == 8
  {
    LittleEndian(8 * n % LONG, 8)
  }

  function EncodeWords(words: seq<nat>): (r: seq<Byte>)
    ensures |r| == 4 * |words|
  {
    if words == [] then [] else LittleEndian(words[0], 4) + EncodeWords(words[1..])
  }

  ghost function Digest(block: BlockFunction, m: seq<Byte>): (r: seq<Byte>) {
    EncodeWords(Fold(block, INIT, m + Padding(|m|) + Bits(|m|)))
  }

  lemma {:induction false} FoldAppend(block: BlockFunction, state: Words, a: seq<Byte>, b: seq<Byte>)
    requires |a| % 64 == 0
    ensures Fold(block, state, a + b) == Fold(block, Fold(block, state, a), b)
    decreases |a|
  {
    if a == [] {
      assert a + b == b;
    } else {
      assert (a + b)[..64] == a[..64] && (a + b)[64..] == a[64..] + b;
      FoldAppend(block, block(state, a[..64]), a[64..], b);
    }
  }

  // ----- The 64-bit count in two words

  const LONG: nat := 0x1_0000_0000_0000_0000

  /** The two words of `m_count` for a message of `n` bytes. */
  predicate Counts(low: nat, high: nat, n: nat) {
    low < WORD && high < WORD && low + WORD * high == 8 * n % LONG
  }

  ghost predicate CountsAll(low: nat, high: nat, done: seq<Byte>, tail: seq<Byte>) {
    Counts(low, high, |done| + |tail|)
  }

  lemma CountIndex(low: nat, high: nat, n: nat)
    requires Counts(low, high, n)
    ensures low / 8 % 64 == n % 64
  {
    var k := 8 * n / LONG;
    assert 8 * n == low + WORD * high + LONG * k;
    var blocks := 0x80_0000 * high + 0x80_0000_0000_0000 * k;
    WholeBlocks(low, n, blocks);
  }

  lemma WholeBlocks(low: nat, n: nat, blocks: nat)
    requires low == 8 * n - 512 * blocks
    ensures low / 8 % 64 == n % 64
  {
    var x := n - 64 * blocks;
    assert low / 8 == x;
    SameIndex(x, n, blocks);
  }

  lemma SameIndex(x: nat, n: nat, blocks: nat)
    requires n == x + 64 * blocks
    ensures x % 64 == n % 64
  {
  }

  lemma TailIndex(low: nat, high: nat, done: seq<Byte>, tail: seq<Byte>)
    requires CountsAll(low, high, done, tail) && |done| % 64 == 0 && |tail| < 64
    ensures low / 8 % 64 == |tail|
  {
    CountIndex(low, high, |done| + |tail|);
    BlockRemainder(|done|, |tail|);
  }

  lemma BlockRemainder(d: nat, t: nat)
    requires d % 64 == 0 && t < 64
    ensures (d + t) % 64 == t
  {
  }

  /** One addition of `length` bytes: `bits` and `over` are the two shifts, `carry` the overflow of the low word. */
  lemma CountStep(low: nat, high: nat, n: nat, length: nat, low': nat, carry: nat, high': nat)
    requires Counts(low, high, n) && length < WORD
    requires low' == (low + 8 * length % WORD) % WORD
    requires carry == if low' < 8 * length % WORD then 1 else 0
    requires high' == ((high + carry) % WORD + length / 0x2000_0000) % WORD
    ensures Counts(low', high', n + length)
  {
    var bits, over, h := 8 * length % WORD, length / 0x2000_0000, (high + carry) % WORD;
    TwoShifts(length, bits, over);
    Carried(low, bits, low', carry);
    var k, w1, w2 := 8 * n / LONG, (high + carry) / WORD, (h + over) / WORD;
    assert high + carry == h + WORD * w1;
    assert h + over == high' + WORD * w2;
    RemainderIs(8 * (n + length), low' + WORD * high', k + w1 + w2);
  }

  lemma TwoShifts(length: nat, bits: nat, over: nat)
    requires length < WORD && bits == 8 * length % WORD && over == length / 0x2000_0000
    ensures 8 * length == bits + WORD * over
  {
  }

  lemma Carried(low: nat, bits: nat, low': nat, carry: nat)
    requires low < WORD && bits < WORD && low' == (low + bits) % WORD && carry == if low' < bits then 1 else 0
    ensures low + bits == low' + WORD * carry
  {
  }

  lemma RemainderIs(x: nat, r: nat, k: nat)
    requires x == r + LONG * k && r < LONG
    ensures r == x % LONG
  {
  }

  lemma CountWords(low: nat, high: nat, n: nat)
    requires Counts(low, high, n)
    ensures EncodeWords([low, high]) == Bits(n)
  {
    assert EncodeWords([low, high]) == LittleEndian(low, 4) + LittleEndian(high, 4);
    BoundValues();
    LittleEndianConcat(low, high, 4, 4);
  }

  // ----- The object

  class MD5 {
    const block: BlockFunction
    var state: Words
    var low: nat
    var high: nat
    const buffer: array<Byte>
    var digest: seq<Byte>
    var finished: bool
    /** The message so far: the whole blocks, and the rest that waits in the buffer. */
    ghost var done: seq<Byte>
    ghost var tail: seq<Byte>

    /** The chaining state and the buffer stand for the message `done + tail`. */
    ghost predicate Holds()
      reads this, buffer
    {
      && buffer.Length == 64 && |done| % 64 == 0 && |tail| < 64
      && state == Fold(block, INIT, done) && buffer[..|tail|] == tail
    }

    ghost predicate Valid()
      reads this, buffer
    {
      Holds() && CountsAll(low, high, done, tail)
    }

    ghost function Message(): (m: seq<Byte>)
      reads this
    {
      done + tail
    }

    constructor (block: BlockFunction)
      ensures Valid() && Message() == [] && !finished && fresh(buffer) && this.block == block
    {
      this.block := block;
      buffer := new Byte[64](i => 0);
      state, low, high, digest, finished := INIT, 0, 0, [], false;
      done, tail := [], [];
    }

    /** `memcpy` into the buffer. */
    method Copy(at: nat, data: seq<Byte>)
      requires buffer.Length == 64 && at + |data| <= 64
      modifies buffer
      ensures buffer[..] == old(buffer[..at]) + data + old(buffer[at + |data|..])
    {
      forall i | 0 <= i < |data| {
        buffer[at + i] := data[i];
      }
    }

    method Count(length: nat)
      requires Counts(low, high, |done| + |tail|) && length < WORD
      modifies this`low, this`high
      ensures Counts(low, high, |done| + |tail| + length)
    {
      var bits := 8 * length % WORD;
      var l := (low + bits) % WORD;
      var carry := if l < bits then 1 else 0;
      var h := ((high + carry) % WORD + length / 0x2000_0000) % WORD;
      CountStep(low, high, |done| + |tail|, length, l, carry, h);
      low, high := l, h;
    }

    /** The private `update`. The buffer beyond the tail keeps the bytes of the last block that went through it. */
    method Update(input: seq<Byte>)
      requires Valid() && |input| <= WORD - 64
      modifies this, buffer
      ensures Valid() && Message() == old(Message()) + input && !finished && digest == old(digest)
      ensures |old(tail)| + |input| >= 64 ==> buffer[..] == tail + (old(tail) + input)[|tail|..64]
      ensures |old(tail)| + |input| < 64 ==> done == old(done)
    {
      finished := false;
      var index := Index();
      Count(|input|);
      Absorb(input, index);
      assert |done| + |tail| == |Message()| == |old(Message())| + |input|;
    }

    method Index() returns (index: nat)
      requires Valid()
      ensures index == |tail|
    {
      TailIndex(low, high, done, tail);
      index := low / 8 % 64;
    }

    method Absorb(input: seq<Byte>, index: nat)
      requires Holds() && index == |tail|
      modifies this`state, this`done, this`tail, buffer
      ensures Holds() && Message() == old(Message()) + input
      ensures |old(tail)| + |input| >= 64 ==> buffer[..] == tail + (old(tail) + input)[|tail|..64]
      ensures |old(tail)| + |input| < 64 ==> done == old(done)
    {
      var partLen, i, at := 64 - index, 0, index;
      if |input| >= partLen {
        Copy(index, input[..partLen]);
        assert buffer[..] == tail + input[..partLen];
        i := Blocks(input, partLen);
        tail := [];
        at := 0;
        assert (old(tail) + input)[..64] == old(tail) + input[..partLen];
      }
      Keep(at, input[i..]);
    }

    /** Buffers the remaining input. */
    method Keep(at: nat, data: seq<Byte>)
      requires Holds() && at == |tail| && |tail| + |data| < 64
      modifies this`tail, buffer
      ensures Holds() && tail == old(tail) + data
      ensures buffer[..] == tail + old(buffer[..])[|tail|..]
    {
      Copy(at, data);
      tail := tail + data;
    }

    /** The block that the buffer now holds and the whole blocks after it. */
    method Blocks(input: seq<Byte>, partLen: nat) returns (i: nat)
      requires buffer.Length == 64 && |done| % 64 == 0 && |tail| + partLen == 64 && partLen <= |input|
      requires state == Fold(block, INIT, done) && buffer[..] == tail + input[..partLen]
      modifies this`state, this`done
      ensures partLen <= i <= |input| < i + 64 && done == old(done) + tail + input[..i] && |done| % 64 == 0
      ensures state == Fold(block, INIT, done)
    {
      i := partLen;
      Transform(buffer[..]);
      while i + 63 < |input|
        invariant partLen <= i <= |input| && done == old(done) + tail + input[..i] && |done| % 64 == 0
        invariant state == Fold(block, INIT, done)
      {
        Transform(input[i..i + 64]);
        i := i + 64;
      }
    }

    method Transform(b: seq<Byte>)
      requires |b| == 64 && |done| % 64 == 0 && state == Fold(block, INIT, done)
      modifies this`state, this`done
      ensures done == old(done) + b && |done| % 64 == 0 && state == Fold(block, INIT, done)
    {
      FoldAppend(block, INIT, done, b);
      assert b[..64] == b;
      state := block(state, b);
      done := done + b;
    }

    /** `encode`: words to bytes, least significant first. */
    static method Encode(words: seq<nat>) returns (r: seq<Byte>)
      ensures r == EncodeWords(words)
    {
      r := [];
      var i := 0;
      while i < |words|
        invariant i <= |words| && r + EncodeWords(words[i..]) == EncodeWords(words)
      {
        EncodeStep(words, i, r);
        r := r + WordBytes(words[i]);
        i := i + 1;
      }
    }

    /** `final`: the digest, with state and count put back. The buffer is not, so that the object now stands for a
        message of the same length whose tail is what the padding left there. */
    method Final()
      requires Valid()
      modifies this, buffer
      ensures Valid() && !finished && digest == Digest(block, old(Message()))
      ensures done == old(done) && tail == Left(old(tail), |old(Message())|)
    {
      var oldState, oldLow, oldHigh := state, low, high;
      ghost var oldDone, newTail := done, Left(tail, |Message()|);
      Complete();
      state, low, high := oldState, oldLow, oldHigh;
      done, tail := oldDone, newTail;
      assert buffer[..][..|tail|] == buffer[..|tail|];
    }

    method Complete()
      requires Valid()
      modifies this, buffer
      ensures !finished && digest == Digest(block, old(Message()))
      ensures buffer[..] == Leftover(old(tail), |old(Message())|)
    {
      CountWords(low, high, |Message()|);
      var bits := Encode([low, high]);
      var index := Index();
      var padLen := if index < 56 then 56 - index else 120 - index;
      PaddingCut(done, index, padLen);
      Pad(([0x80] + Zeros(63))[..padLen], bits);
      digest := Encode(state);
    }

    /** `digest`. The flag that should keep it from computing again is set before `final`, whose updates clear it. */
    method GetDigest() returns (r: seq<Byte>)
      requires Valid()
      modifies this, buffer
      ensures Valid() && r == digest
      ensures !old(finished) ==> r == Digest(block, old(Message())) && !finished
      ensures !old(finished) ==> done == old(done) && tail == Left(old(tail), |old(Message())|)
      ensures old(finished) ==> digest == old(digest) && done == old(done) && tail == old(tail) && finished
    {
      if !finished {
        finished := true;
        Final();
      }
      r := digest;
    }

    /** The padding and the length complete the last block, which stays in the buffer. */
    method Pad(padding: seq<Byte>, bits: seq<Byte>)
      requires Valid() && padding == Padding(|Message()|) && |bits| == 8
      requires |tail| + |padding| == if |tail| < 56 then 56 else 120
      modifies this, buffer
      ensures !finished && state == Fold(block, INIT, old(Message()) + padding + bits)
      ensures buffer[..] == (if |old(tail)| < 56 then old(tail) + padding else Zeros(56)) + bits
    {
      ghost var m, t := Message(), tail;
      Update(padding);
      ghost var last := tail;
      LastBlock(m, old(done), t, done, tail);
      Update(bits);
      NoTail(m, bits, done, tail);
      assert (last + bits)[0..64] == last + bits;
    }
  }

  /** The bytes that `final` leaves at the start of the buffer are still the tail of a message of `n` bytes. */
  predicate Resumable(tail: seq<Byte>, n: nat)
    requires |tail| < 64
  {
    |tail| < 56 || tail == (Zeros(56) + Bits(n))[..|tail|]
  }

  /** The last block of a message of `n` bytes that ends in `tail`. */
  function Leftover(tail: seq<Byte>, n: nat): (b: seq<Byte>) {
    (if |tail| < 56 then tail + Padding(n) else Zeros(56)) + Bits(n)
  }

  /** The tail that the object stands for after the digest of a message of `n` bytes that ends in `tail`. */
  function Left(tail: seq<Byte>, n: nat): (r: seq<Byte>)
    requires |tail| < 64
    ensures |r| == |tail|
  {
    Leftover(tail, n)[..|tail|]
  }

  lemma LeftIsTail(tail: seq<Byte>, n: nat)
    requires |tail| < 64
    ensures Left(tail, n) == tail <==> Resumable(tail, n)
  {
    if |tail| < 56 {
      FrontIs(tail, Padding(n), Bits(n));
    }
  }

  lemma FrontIs(a: seq<Byte>, b: seq<Byte>, c: seq<Byte>)
    ensures (a + b + c)[..|a|] == a
  {
  }

  // ----- A second digest

  /** A block function that shows byte `j` of the last two blocks. */
  function Spy(j: nat): BlockFunction {
    (s: Words, b: seq<Byte>) => var w: Word := if j < |b| then b[j] else 0; [w, s[0], s[1], s[2]]
  }

  lemma SpySees(j: nat, state: Words, a: seq<Byte>, b: seq<Byte>, c: seq<Byte>)
    requires j < 64 && |a| % 64 == 0 && |b| == 64 && |c| == 64
    ensures |EncodeWords(Fold(Spy(j), state, a + b + c))| == 16
    ensures EncodeWords(Fold(Spy(j), state, a + b + c))[4] == b[j]
  {
    var spy := Spy(j);
    assert a + b + c == a + (b + c);
    FoldAppend(spy, state, a, b + c);
    var s := Fold(spy, state, a);
    assert (b + c)[..64] == b && (b + c)[64..] == c;
    assert c[..64] == c && c[64..] == [];
    var t := spy(spy(s, b), c);
    assert Fold(spy, spy(s, b), c) == Fold(spy, t, []) == t;
    assert Fold(spy, s, b + c) == t;
    assert t == [c[j], b[j], s[0], s[1]];
    SecondWord(t);
  }

  lemma SecondWord(t: Words)
    ensures |EncodeWords(t)| == 16 && (t[1] < 256 ==> EncodeWords(t)[4] == t[1])
  {
    var a, b, c := LittleEndian(t[0], 4), LittleEndian(t[1], 4), EncodeWords(t[1..][1..]);
    assert EncodeWords(t) == a + (b + c) by {
      HeadWord(t);
      HeadWord(t[1..]);
    }
    LowByte(t[1]);
    Fifth(a, b, c);
  }

  lemma LowByte(w: nat)
    ensures w < 256 ==> LittleEndian(w, 4)[0] == w
  {
  }

  lemma Fifth(a: seq<Byte>, b: seq<Byte>, c: seq<Byte>)
    requires |a| == 4 && |b| == 4
    ensures (a + (b + c))[4] == b[0]
  {
  }

  lemma HeadWord(words: seq<nat>)
    requires words != []
    ensures EncodeWords(words) == LittleEndian(words[0], 4) + EncodeWords(words[1..])
  {
  }

  /** The padded message, cut at the block that the tail begins. */
  lemma PaddedBlocks(done: seq<Byte>, tail: seq<Byte>)
    requires |done| % 64 == 0 && 56 <= |tail| < 64
    ensures var n := |done| + |tail|; var p, k := Padding(n), 64 - |tail|;
      && |p| == 56 + k
      && done + tail + p + Bits(n) == done + (tail + p[..k]) + (p[k..] + Bits(n))
  {
    var n := |done| + |tail|;
    var p, k := Padding(n), 64 - |tail|;
    BlockRemainder(|done|, |tail|);
    assert |p| == 56 + k;
    assert p == p[..k] + p[k..];
  }

  lemma SpyTells(done: seq<Byte>, tail: seq<Byte>, tail': seq<Byte>, j: nat)
    requires |done| % 64 == 0 && 56 <= |tail| < 64 && |tail'| == |tail| && j < |tail| && tail[j] != tail'[j]
    ensures Digest(Spy(j), done + tail) != Digest(Spy(j), done + tail')
  {
    DigestShows(done, tail, j);
    DigestShows(done, tail', j);
  }

  lemma DigestShows(done: seq<Byte>, tail: seq<Byte>, j: nat)
    requires |done| % 64 == 0 && 56 <= |tail| < 64 && j < |tail|
    ensures |Digest(Spy(j), done + tail)| == 16 && Digest(Spy(j), done + tail)[4] == tail[j]
  {
    PaddedBlocks(done, tail);
    BlocksShow(done, tail, Padding(|done + tail|), |done + tail|, j);
  }

  lemma BlocksShow(done: seq<Byte>, tail: seq<Byte>, p: seq<Byte>, n: nat, j: nat)
    requires |done| % 64 == 0 && 56 <= |tail| < 64 && j < |tail| && |p| == 120 - |tail| && p == Padding(n)
    requires n == |done + tail|
    requires var k := 64 - |tail|; done + tail + p + Bits(n) == done + (tail + p[..k]) + (p[k..] + Bits(n))
    ensures |Digest(Spy(j), done + tail)| == 16 && Digest(Spy(j), done + tail)[4] == tail[j]
  {
    var k := 64 - |tail|;
    SpySees(j, INIT, done, tail + p[..k], p[k..] + Bits(n));
  }

  /** A second call of `digest` returns the first digest, whatever the block function, if and only if fewer than 56
      bytes wait or what the padding left there equals them. */
  lemma SecondDigest(done: seq<Byte>, tail: seq<Byte>)
    requires |done| % 64 == 0 && |tail| < 64
    ensures var n := |done + tail|;
      (forall block: BlockFunction :: Digest(block, done + tail) == Digest(block, done + Left(tail, n)))
      <==> Resumable(tail, n)
  {
    var n := |done + tail|;
    var left := Left(tail, n);
    LeftIsTail(tail, n);
    if !Resumable(tail, n) {
      assert exists j :: 0 <= j < |tail| && tail[j] != left[j];
      var j: nat :| j < |tail| && tail[j] != left[j];
      SpyTells(done, tail, left, j);
    }
  }

  /** 56 ones digested twice in a row give two different results. */
  method DigestTwice() returns (first: seq<Byte>, second: seq<Byte>)
    ensures first != second
  {
    var md5 := new MD5(Spy(0));
    var ones: seq<Byte> := seq(56, i => 1);
    md5.Update(ones);
    assert md5.done + md5.tail == ones && |md5.done| + |md5.tail| == 56;
    assert md5.done == [] && md5.tail == ones;
    first := md5.GetDigest();
    second := md5.GetDigest();
    var left := Left(ones, 56);
    assert left[0] == Zeros(56)[0];
    SpyTells([], ones, left, 0);
    assert [] + ones == ones && [] + left == left;
  }

  /** State, count and buffered tail depend only on the concatenation of the updates, not on how it was split. */
  lemma SplitDoesNotMatter(x: MD5, y: MD5)
    requires x.Valid() && y.Valid() && x.block == y.block && x.Message() == y.Message()
    ensures x.state == y.state && x.low == y.low && x.high == y.high && x.tail == y.tail
    ensures x.state == Fold(x.block, INIT, x.Message()) && |x.tail| == |x.Message()| % 64
    ensures x.buffer[..|x.tail|] == y.buffer[..|y.tail|] == x.Message()[|x.Message()| - |x.tail|..]
  {
    SameCut(x.done, x.tail, y.done, y.tail);
    CountsOnce(x.low, x.high, y.low, y.high, |x.done| + |x.tail|);
    FoldAppend(x.block, INIT, x.done, x.tail);
    assert (x.done + x.tail)[|x.done|..] == x.tail;
  }

  lemma SameCut(a: seq<Byte>, t: seq<Byte>, b: seq<Byte>, u: seq<Byte>)
    requires a + t == b + u && |a| % 64 == |b| % 64 == 0 && |t| < 64 && |u| < 64
    ensures a == b && t == u && |t| == |a + t| % 64
  {
    assert |a| + |t| == |b| + |u|;
    assert (a + t)[..|a|] == a && (b + u)[..|b|] == b;
    assert (a + t)[|a|..] == t && (b + u)[|b|..] == u;
  }

  lemma CountsOnce(low: nat, high: nat, low': nat, high': nat, n: nat)
    requires Counts(low, high, n) && Counts(low', high', n)
    ensures low == low' && high == high'
  {
  }

  /** After the padding, 56 bytes wait: the old tail with the padding, or zeros if the padding ran into a new block. */
  lemma LastBlock(m: seq<Byte>, done: seq<Byte>, tail: seq<Byte>, done': seq<Byte>, tail': seq<Byte>)
    requires m == done + tail && |done| % 64 == 0 && |tail| < 64
    requires done' + tail' == m + Padding(|m|) && |done'| % 64 == 0 && |tail'| < 64
    requires |tail| < 56 ==> done' == done
    ensures |tail'| == 56 && tail' == if |tail| < 56 then tail + Padding(|m|) else Zeros(56)
  {
    var s := m + Padding(|m|);
    assert |s| == |done'| + |tail'|;
    assert |tail'| == 56 by {
      BlockRemainder(|done'|, |tail'|);
    }
    assert tail' == s[|done'|..] by {
      assert (done' + tail')[|done'|..] == tail';
    }
    if |tail| < 56 {
      assert s == done + (tail + Padding(|m|));
      assert s[|done|..] == tail + Padding(|m|);
    } else {
      PadsNewBlock(m, |tail|);
    }
  }

  lemma PadsNewBlock(m: seq<Byte>, t: nat)
    requires 56 <= t < 64 && t <= |m| && (|m| - t) % 64 == 0
    ensures var s := m + Padding(|m|); |s| >= 56 && s[|s| - 56..] == Zeros(56)
  {
    var p := Padding(|m|);
    assert |p| == 120 - t;
    var s := m + p;
    assert s[|s| - 56..] == p[|p| - 56..];
  }

  lemma NoTail(m: seq<Byte>, bits: seq<Byte>, done: seq<Byte>, tail: seq<Byte>)
    requires |bits| == 8 && done + tail == m + Padding(|m|) + bits && |done| % 64 == 0 && |tail| < 64
    ensures tail == [] && done == m + Padding(|m|) + bits
  {
    assert |done| + |tail| == |m| + |Padding(|m|)| + 8;
    assert tail == [];
    assert done + [] == done;
  }

  /** One word as `encode` stores it. */
  function WordBytes(w: nat): (r: seq<Byte>) {
    [w % 256, w / 0x100 % 256, w / 0x1_0000 % 256, w / 0x100_0000 % 256]
  }

  lemma FourBytes(w: nat)
    ensures LittleEndian(w, 4) == WordBytes(w)
  {
    var a, b, c := w / 0x100, w / 0x1_0000, w / 0x100_0000;
    assert LittleEndian(c, 1) == [c % 256];
    assert b / 256 == c;
    assert LittleEndian(b, 2) == [b % 256] + LittleEndian(c, 1);
    assert a / 256 == b;
    assert LittleEndian(a, 3) == [a % 256] + LittleEndian(b, 2);
  }

  lemma EncodeStep(words: seq<nat>, i: nat, r: seq<Byte>)
    requires i < |words|
    ensures r + EncodeWords(words[i..]) == r + WordBytes(words[i]) + EncodeWords(words[i + 1..])
  {
    FourBytes(words[i]);
    assert words[i..][1..] == words[i + 1..];
  }

  /** The cut of the static padding that `final` takes is the padding of the standard. */
  lemma PaddingCut(done: seq<Byte>, index: nat, padLen: nat)
    requires |done| % 64 == 0 && index < 64 && padLen == if index < 56 then 56 - index else 120 - index
    ensures ([0x80] + Zeros(63))[..padLen] == Padding(|done| + index)
  {
    assert (55 - (|done| + index)) % 64 == padLen - 1;
  }
}
