/** The growable buffer under every connection and serializer (utils/bytebuffer.h): a plain FIFO of bytes kept in one
    array, with a hole before the data and space behind it. */
module ByteBuffers {
  import Wire

  type Byte = Wire.Byte

  const STACK: nat := 1024
  const BLOCK: nat := 4096
  /** The default limit, 64 MB. */
  const LIMIT: nat := 64 * 1024 * 1024
  const LIMIT_MAX: nat := 0x4000_0000

  function Max(a: nat, b: nat): (r: nat) { if a < b then b else a }

  /** Sizes are rounded up to whole blocks. */
  function Blocked(sz: nat): (r: nat)
    ensures sz <= r < sz + BLOCK && r % BLOCK == 0
    ensures sz % BLOCK == 0 ==> r == sz
  {
    (sz + BLOCK - 1) / BLOCK * BLOCK
  }

  /** A whole number of blocks that exceeds `sz` leaves room for `sz` rounded up. */
  lemma BlockedFits(sz: nat, cap: nat)
    requires sz <= cap && cap % BLOCK == 0
    ensures Blocked(sz) <= cap
  {
  }

  /** A power of two: what a capacity that is only ever doubled stays. */
  predicate PowerOfTwo(n: nat) {
    n == 1 || (n > 0 && n % 2 == 0 && PowerOfTwo(n / 2))
  }

  lemma {:induction false} NextPower(a: nat, b: nat)
    requires PowerOfTwo(a) && PowerOfTwo(b) && a < 2 * b
    ensures a <= b
  {
    if a > 1 && b > 1 {
      NextPower(a / 2, b / 2);
    }
  }

  function Power(k: nat): (n: nat) {
    if k == 0 then 1 else 2 * Power(k - 1)
  }

  lemma {:induction false} PowerIsPower(k: nat)
    ensures PowerOfTwo(Power(k))
  {
    if k > 0 {
      PowerIsPower(k - 1);
      Half(Power(k - 1));
    }
  }

  lemma Half(n: nat)
    requires PowerOfTwo(n)
    ensures PowerOfTwo(2 * n)
  {
    assert 2 * n / 2 == n;
  }

  lemma TwiceBlocks(n: nat)
    requires n in {STACK, 2 * STACK} || n % BLOCK == 0
    ensures 2 * n == 2 * STACK || 2 * n % BLOCK == 0
  {
    if n % BLOCK == 0 {
      var k := n / BLOCK;
      assert n == BLOCK * k;
      assert 2 * n == BLOCK * (2 * k);
    }
  }

  lemma Powers()
    ensures PowerOfTwo(STACK) && PowerOfTwo(BLOCK) && PowerOfTwo(LIMIT)
  {
    PowerIsPower(10);
    PowerIsPower(12);
    PowerIsPower(26);
    assert Power(5) == 32;
    assert Power(10) == STACK;
    assert Power(12) == BLOCK;
    assert Power(16) == 0x1_0000;
    assert Power(21) == 0x20_0000;
    assert Power(26) == LIMIT;
  }

  /** Rounding a doubled capacity to whole blocks leaves it a power of two under the limit. */
  lemma RoundedPower(n: nat, sz: nat, limit: nat)
    requires PowerOfTwo(n) && n < 2 * sz && sz <= limit && PowerOfTwo(limit) && BLOCK <= limit
    requires n in {STACK, 2 * STACK} || n % BLOCK == 0
    ensures PowerOfTwo(Blocked(n)) && Blocked(n) <= limit
  {
    if n % BLOCK == 0 {
      NextPower(n, limit);
    } else {
      Powers();
      assert Blocked(n) == BLOCK;
    }
  }

  datatype Outcome = Ok | LimitExceeded

  class ByteBuffer {
    var data: array<Byte>
    var head: nat
    var tail: nat
    var limit: nat
    var highWater: nat
    const x2: bool

    ghost predicate Valid()
      reads this, data
    {
      && head <= tail <= data.Length
      && (data.Length == STACK || (0 < data.Length && data.Length % BLOCK == 0))
      && highWater <= data.Length
    }

    /** Sizes and limit are within an `int`: true with the default limit and kept by every operation under it. */
    ghost predicate Fits32()
      reads this, data
    {
      limit < LIMIT_MAX && data.Length < 2 * LIMIT_MAX
    }

    /** The capacity has only ever been doubled, up to the limit. */
    ghost predicate Doubling()
      reads this, data
    {
      x2 && PowerOfTwo(data.Length) && PowerOfTwo(limit) && BLOCK <= limit && data.Length <= limit
    }

    /** There is no room for `n` more bytes, neither in the array nor under the limit. */
    ghost predicate TooMuch(n: nat)
      requires head <= tail
      reads this, data
    {
      data.Length - (tail - head) < n && limit < tail - head + n
    }

    /** The bytes held, oldest first. */
    ghost function Contents(): seq<Byte>
      requires head <= tail <= data.Length
      reads this, data
    {
      data[head..tail]
    }

    constructor (grow2x: bool)
      ensures Valid() && Fits32() && fresh(data) && Contents() == [] && limit == LIMIT && data.Length == STACK
      ensures (grow2x ==> Doubling()) && x2 == grow2x
    {
      data := new Byte[STACK](i => 0);
      head, tail, limit, highWater, x2 := 0, 0, LIMIT, 0, grow2x;
      Powers();
    }

    method SetLimit(n: nat)
      requires Valid() && n < LIMIT_MAX
      modifies this`limit
      ensures Valid() && limit == Max(n, tail - head)
    {
      limit := Max(n, tail - head);
    }

    function Size(): (n: nat)
      requires head <= tail
      reads this
    {
      tail - head
    }

    function Space(): (n: nat)
      requires tail <= data.Length
      reads this
    {
      data.Length - tail
    }

    /** Removes up to `sz` bytes from the front. */
    method Erase(sz: nat) returns (n: nat)
      requires Valid()
      modifies this
      ensures Valid() && data == old(data) && limit == old(limit)
      ensures n == if sz < old(|Contents()|) then sz else old(|Contents()|)
      ensures Contents() == old(Contents())[n..]
    {
      n := if Size() < sz then Size() else sz;
      head := head + n;
      if head >= tail {
        head, tail := 0, 0;
      }
    }

    method EraseAll()
      requires Valid()
      modifies this
      ensures Valid() && data == old(data) && limit == old(limit) && Contents() == []
    {
      head, tail := 0, 0;
    }

    /** The capacity for `sz` bytes: doubled from the present one, or just enough, in whole blocks. */
    method AllocSize(sz: nat) returns (cap: nat, o: Outcome)
      requires Valid() && data.Length < sz
      ensures o == LimitExceeded <==> limit < sz
      ensures o == Ok ==> sz <= cap && cap % BLOCK == 0 && (sz < LIMIT_MAX ==> cap < 2 * LIMIT_MAX)
      ensures o == Ok && Doubling() ==> PowerOfTwo(cap) && cap <= limit
    {
      if sz > limit {
        return 0, LimitExceeded;
      }
      if x2 {
        var n := Doubled(data.Length, sz);
        cap := Blocked(n);
        if Doubling() {
          RoundedPower(n, sz, limit);
        }
      } else {
        cap := Blocked(sz);
        if sz < LIMIT_MAX {
          BlockedFits(sz, LIMIT_MAX);
        }
      }
      o := Ok;
    }

    /** The doubling loop. */
    static method Doubled(cap: nat, sz: nat) returns (n: nat)
      requires 0 < cap < sz && (cap == STACK || cap % BLOCK == 0)
      ensures sz <= n < 2 * sz && (n in {STACK, 2 * STACK} || n % BLOCK == 0)
      ensures PowerOfTwo(cap) ==> PowerOfTwo(n)
    {
      n := cap;
      while n < sz
        invariant 0 < n < 2 * sz && (n in {STACK, 2 * STACK} || n % BLOCK == 0)
        invariant PowerOfTwo(cap) ==> PowerOfTwo(n)
        decreases sz - n
      {
        TwiceBlocks(n);
        if PowerOfTwo(cap) {
          Half(n);
        }
        n := 2 * n;
      }
    }

    /** Moves the data to the front of the array. */
    method Recycle()
      requires Valid()
      modifies this, data
      ensures Valid() && data == old(data) && limit == old(limit) && head == 0 && highWater == old(highWater)
      ensures Contents() == old(Contents())
    {
      ghost var before := Contents();
      var n := tail - head;
      forall i | 0 <= i < n {
        data[i] := data[head + i];
      }
      head, tail := 0, n;
      assert forall i :: 0 <= i < n ==> data[i] == before[i];
    }

    /** Moves the data to a new array; without any capacity the buffer is unusable. */
    method Move(newCap: nat)
      requires Valid() && tail - head <= newCap && newCap % BLOCK == 0 && highWater <= newCap
      modifies this
      ensures fresh(data) && data.Length == newCap && limit == old(limit) && head == 0
      ensures tail <= data.Length && highWater == old(highWater) && Contents() == old(Contents())
      ensures Valid() <==> newCap != 0
    {
      ghost var before := Contents();
      var ptr := new Byte[newCap](i => 0);
      var n := tail - head;
      forall i | 0 <= i < n {
        ptr[i] := data[head + i];
      }
      data, head, tail := ptr, 0, n;
      assert forall i :: 0 <= i < n ==> data[i] == before[i];
    }

    /** At least `n` bytes of contiguous space behind the data, or an exception that changes nothing. */
    method Reserve(n: nat) returns (o: Outcome)
      requires Valid()
      modifies this, data
      ensures Valid() && (data == old(data) || fresh(data)) && limit == old(limit)
      ensures (old(Fits32()) ==> Fits32()) && (old(Doubling()) ==> Doubling())
      ensures Contents() == old(Contents())
      ensures o == LimitExceeded <==> old(TooMuch(n))
      ensures o == Ok ==> n <= Space()
    {
      if Space() >= n {
        return Ok;
      }
      o := Alloc(n);
    }

    /** Closes the hole if that is enough, and grows otherwise. */
    method Alloc(n: nat) returns (o: Outcome)
      requires Valid()
      modifies this, data
      ensures Valid() && (data == old(data) || fresh(data)) && limit == old(limit)
      ensures (old(Fits32()) ==> Fits32()) && (old(Doubling()) ==> Doubling())
      ensures Contents() == old(Contents())
      ensures o == LimitExceeded <==> old(TooMuch(n))
      ensures o == Ok ==> n <= Space()
    {
      if head + data.Length - tail >= n {
        Recycle();
        return Ok;
      }
      var cap;
      cap, o := AllocSize(Size() + n);
      if o == Ok {
        Move(cap);
      }
    }

    /** The memcpy behind the data. */
    method CopyIn(dat: seq<Byte>)
      requires Valid() && |dat| <= Space()
      modifies data
      ensures data[head..tail + |dat|] == old(Contents()) + dat
    {
      ghost var before := Contents();
      forall i | 0 <= i < |dat| {
        data[tail + i] := dat[i];
      }
      assert data[head..tail] == before;
      assert data[tail..tail + |dat|] == dat;
      assert data[head..tail + |dat|] == data[head..tail] + data[tail..tail + |dat|];
    }

    /** Appends `dat`, or throws and changes nothing. */
    method Write(dat: seq<Byte>) returns (o: Outcome)
      requires Valid()
      modifies this, data
      ensures Valid() && (data == old(data) || fresh(data)) && limit == old(limit)
      ensures (old(Fits32()) ==> Fits32()) && (old(Doubling()) ==> Doubling())
      ensures o == LimitExceeded <==> old(TooMuch(|dat|))
      ensures Contents() == if o == Ok then old(Contents()) + dat else old(Contents())
    {
      o := Reserve(|dat|);
      if o == Ok {
        CopyIn(dat);
        tail := tail + |dat|;
        highWater := Max(highWater, Size());
      }
    }

    /** Makes the next `n` bytes of space part of the data, as after a read into it. */
    method Advance(n: nat)
      requires Valid()
      modifies this
      ensures Valid() && data == old(data) && limit == old(limit)
      ensures old(Contents()) <= Contents()
      ensures |Contents()| == old(|Contents()|) + if n < old(Space()) then n else old(Space())
    {
      tail := if tail + n < data.Length then tail + n else data.Length;
      highWater := Max(highWater, Size());
    }

    /** Cuts the data to `n` bytes, or extends it by unspecified bytes; throws exactly if the extension has no room. */
    method Resize(n: nat) returns (o: Outcome)
      requires Valid()
      modifies this, data
      ensures Valid() && (data == old(data) || fresh(data)) && limit == old(limit)
      ensures (old(Fits32()) ==> Fits32()) && (old(Doubling()) ==> Doubling())
      ensures o == LimitExceeded <==> old(|Contents()|) < n && old(TooMuch(n - |Contents()|))
      ensures o == LimitExceeded ==> Contents() == old(Contents())
      ensures o == Ok ==> |Contents()| == n
      ensures o == Ok && n <= old(|Contents()|) ==> Contents() == old(Contents())[..n]
      ensures o == Ok && n > old(|Contents()|) ==> old(Contents()) <= Contents()
    {
      o := Ok;
      if n > Size() {
        o := Reserve(n - Size());
      }
      if o == Ok {
        SetSize(n);
      }
    }

    method SetSize(n: nat)
      requires Valid() && head + n <= data.Length
      modifies this`tail, this`highWater
      ensures Valid() && |Contents()| == n
      ensures n <= old(|Contents()|) ==> Contents() == old(Contents())[..n]
      ensures n > old(|Contents()|) ==> old(Contents()) <= Contents()
    {
      tail := head + n;
      highWater := Max(highWater, Size());
    }

    /** The capacity after `compact`: the data or the minimum in whole blocks, unless there is too little to gain. */
    static function CompactedTo(cap: nat, size: nat, minCapacity: nat): (r: nat)
      requires size <= cap
    {
      if cap <= minCapacity || cap - size <= 1024 then cap else Blocked(Max(size, minCapacity))
    }

    /** Gives memory back; the data does not change. An empty buffer that has grown loses all its capacity if no
        minimum is asked for, and cannot be used any more: doubling zero never ends. */
    method Compact(minCapacity: nat) returns (freed: int)
      requires Valid()
      modifies this
      ensures head <= tail <= data.Length && (data == old(data) || fresh(data)) && limit == old(limit)
      ensures Contents() == old(Contents())
      ensures freed == old(data.Length) - data.Length && 0 <= freed
      ensures data.Length == CompactedTo(old(data.Length), old(|Contents()|), minCapacity)
      ensures data.Length == 0 <==> old(|Contents()|) == 0 && minCapacity == 0 && STACK < old(data.Length)
      ensures Valid() <==> data.Length != 0
    {
      if data.Length <= minCapacity || data.Length - Size() <= 1024 {
        return 0;
      }
      var newCap := Blocked(Max(Size(), minCapacity));
      BlockedFits(Max(Size(), minCapacity), data.Length);
      freed := data.Length - newCap;
      highWater := Size();
      Move(newCap);
    }

    /** Gives half of the space back that was idle since the last collection, in whole blocks; less than two kilobytes
        of idle space are not worth it. */
    method Gc() returns (freed: int)
      requires Valid()
      modifies this
      ensures Valid() && (data == old(data) || fresh(data)) && limit == old(limit)
      ensures Contents() == old(Contents())
      ensures freed == old(data.Length) - data.Length && 0 <= freed
      ensures var idle := old(data.Length - highWater);
        data.Length == if idle < 2048 then old(data.Length)
                       else CompactedTo(old(data.Length), old(|Contents()|), old(|Contents()|) + idle / 2)
    {
      var gcsize := (data.Length - highWater) / 2;
      if gcsize < 1024 {
        return 0;
      }
      freed := Compact(Size() + gcsize);
    }
  }

  /** A buffer that grew and was emptied loses its capacity to `compact(0)`. */
  method CompactedAway() returns (b: ByteBuffer)
    ensures !b.Valid() && b.data.Length == 0
  {
    b := new ByteBuffer(true);
    var o := b.Write(seq(2000, i => 0));
    assert |b.Contents()| == 2000 <= b.data.Length;
    var n := b.Erase(2000);
    var freed := b.Compact(0);
  }

  /** A fresh one does not. */
  method CompactedFresh() returns (b: ByteBuffer)
    ensures b.Valid() && b.data.Length == STACK
  {
    b := new ByteBuffer(true);
    var freed := b.Compact(0);
  }
}
