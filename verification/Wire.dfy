/** Fixed-width integers on the wire, in either byte order (utils/serializer.h:75-155 and 268-359, utils/byteorder.h),
    and the read cursor of `Deserializer`. */
module Wire {
  import opened Util

  type Byte = x: int | 0 <= x < 256
  const WORD: nat := 0x1_0000_0000

  /** 256 to the power `width`: one more than the largest integer of that many bytes. */
  function Bound(width: nat): (r: nat)
    ensures 0 < r
  {
    if width == 0 then 1 else 256 * Bound(width - 1)
  }

  lemma BoundValues()
    ensures Bound(1) == 0x100 && Bound(2) == 0x1_0000 && Bound(4) == WORD && Bound(8) == 0x1_0000_0000_0000_0000
  {
    assert Bound(3) == 0x100_0000;
    assert Bound(6) == 0x1_0000_0000_0000;
  }

  /** Least significant byte first. */
  function LittleEndian(v: nat, width: nat): (s: seq<Byte>)
    ensures |s| == width
    decreases width
  {
    if width == 0 then [] else [v % 256] + LittleEndian(v / 256, width - 1)
  }

  function FromLittleEndian(s: seq<Byte>): (v: nat)
    ensures v < Bound(|s|)
  {
    if s == [] then 0 else s[0] + 256 * FromLittleEndian(s[1..])
  }

  function Reverse(s: seq<Byte>): (r: seq<Byte>)
    ensures |r| == |s| && forall i :: 0 <= i < |s| ==> r[i] == s[|s| - 1 - i]
  {
    if s == [] then [] else Reverse(s[1..]) + [s[0]]
  }

  /** `write_uint..` and `read_uint..` in the given byte order. */
  function Put(v: nat, width: nat, big: bool): (s: seq<Byte>)
    ensures |s| == width
  {
    if big then Reverse(LittleEndian(v, width)) else LittleEndian(v, width)
  }

  function Get(s: seq<Byte>, big: bool): (v: nat)
    ensures v < Bound(|s|)
  {
    FromLittleEndian(if big then Reverse(s) else s)
  }

  lemma {:induction false} LittleEndianRoundTrip(v: nat, width: nat)
    requires v < Bound(width)
    ensures FromLittleEndian(LittleEndian(v, width)) == v
    decreases width
  {
    if width > 0 {
      LittleEndianRoundTrip(v / 256, width - 1);
      assert LittleEndian(v, width)[1..] == LittleEndian(v / 256, width - 1);
    }
  }

  lemma ShiftByte(low: nat, high: nat, a: nat)
    requires a > 0 && low < Bound(a)
    ensures var v := low + Bound(a) * high;
      v % 256 == low % 256 && v / 256 == low / 256 + Bound(a - 1) * high && low / 256 < Bound(a - 1)
  {
    var p := Bound(a - 1) * high;
    assert Bound(a) * high == 256 * p;
  }

  /** The low bytes come first. */
  lemma {:induction false} LittleEndianConcat(low: nat, high: nat, a: nat, b: nat)
    requires low < Bound(a)
    ensures LittleEndian(low + Bound(a) * high, a + b) == LittleEndian(low, a) + LittleEndian(high, b)
    decreases a
  {
    if a > 0 {
      ShiftByte(low, high, a);
      LittleEndianConcat(low / 256, high, a - 1, b);
    }
  }

  /** Writing and reading back in the same byte order is the identity. */
  lemma RoundTrip(v: nat, width: nat, big: bool)
    requires v < Bound(width)
    ensures Get(Put(v, width, big), big) == v
  {
    var s := LittleEndian(v, width);
    LittleEndianRoundTrip(v, width);
    if big {
      assert Reverse(Reverse(s)) == s;
    }
  }

  /** Reading and writing back in the same byte order is the identity, too. */
  lemma GetPut(s: seq<Byte>, big: bool)
    ensures Put(Get(s, big), |s|, big) == s
  {
    var r := if big then Reverse(s) else s;
    LittleEndianOf(r);
    if big {
      assert Reverse(r) == s;
    }
  }

  lemma {:induction false} LittleEndianOf(s: seq<Byte>)
    ensures LittleEndian(FromLittleEndian(s), |s|) == s
  {
    if s != [] {
      LittleEndianOf(s[1..]);
      var v := FromLittleEndian(s[1..]);
      assert (s[0] + 256 * v) / 256 == v && (s[0] + 256 * v) % 256 == s[0];
    }
  }

  // ----- Which bytes these are

  /** `s` is the integer `n` in `width` bytes: the byte of weight 256^i is `n / 256^i % 256`, which for a negative `n`
      is the byte of its two's complement. */
  ghost predicate IsNumber(s: seq<Byte>, n: int, width: nat, big: bool) {
    && |s| == width
    && forall i :: 0 <= i < width ==> s[if big then width - 1 - i else i] == n / Bound(i) % 256
  }

  lemma QuotientIs(x: int, d: nat, q: int, r: nat)
    requires d > 0 && x == d * q + r && r < d
    ensures x / d == q
  {
    var e := x / d - q;
    assert x == d * (x / d) + x % d;
    assert d * e == r - x % d;
  }

  /** Dividing by 256 and then by `b` is dividing by both. */
  lemma DivideTwice(n: int, b: nat)
    requires b > 0
    ensures n / (256 * b) == n / 256 / b
  {
    var q := n / 256 / b;
    assert n / 256 == b * q + n / 256 % b;
    assert 256 * (b * q) == (256 * b) * q;
    QuotientIs(n, 256 * b, q, 256 * (n / 256 % b) + n % 256);
  }

  lemma {:induction false} LittleEndianBytes(v: nat, width: nat)
    ensures forall i :: 0 <= i < width ==> LittleEndian(v, width)[i] == v / Bound(i) % 256
    decreases width
  {
    if width > 0 {
      LittleEndianBytes(v / 256, width - 1);
      forall i | 0 < i < width ensures LittleEndian(v, width)[i] == v / Bound(i) % 256 {
        assert LittleEndian(v, width)[i] == LittleEndian(v / 256, width - 1)[i - 1];
        DivideTwice(v, Bound(i - 1));
      }
    }
  }

  /** The bytes that are written, in either order. */
  lemma PutBytes(v: nat, width: nat, big: bool)
    ensures IsNumber(Put(v, width, big), v, width, big)
  {
    LittleEndianBytes(v, width);
    var s := LittleEndian(v, width);
    if big {
      forall i | 0 <= i < width ensures Put(v, width, big)[width - 1 - i] == v / Bound(i) % 256 {
        assert Reverse(s)[width - 1 - i] == s[i];
      }
    }
  }

  /** Adding 256^width does not show in `width` bytes. */
  lemma ComplementBytes(n: int, width: nat, i: nat)
    requires i < width
    ensures (n + Bound(width)) / Bound(i) % 256 == n / Bound(i) % 256
  {
    var k := BoundSplit(width, i);
    var q := n / Bound(i);
    AddMultiple(n, Bound(i), 256 * k);
    Multiples(q, k);
  }

  lemma AddMultiple(n: int, b: nat, m: nat)
    requires b > 0
    ensures (n + b * m) / b == n / b + m
  {
    var q := n / b;
    assert n == b * q + n % b;
    assert b * m + b * q == b * (q + m);
    QuotientIs(n + b * m, b, q + m, n % b);
  }

  lemma Multiples(x: int, k: nat)
    ensures (x + 256 * k) % 256 == x % 256
  {
  }

  lemma {:induction false} BoundSplit(width: nat, i: nat) returns (k: nat)
    requires i < width
    ensures Bound(width) == Bound(i) * (256 * k)
  {
    if i == width - 1 {
      k := 1;
    } else {
      var j := BoundSplit(width - 1, i);
      k := 256 * j;
      assert 256 * (Bound(i) * (256 * j)) == Bound(i) * (256 * (256 * j));
    }
  }

  /** Only these bytes are that number. */
  lemma NumberBytes(s: seq<Byte>, v: nat, width: nat, big: bool)
    requires IsNumber(s, v, width, big)
    ensures s == Put(v, width, big)
  {
    PutBytes(v, width, big);
    var r := Put(v, width, big);
    forall j | 0 <= j < width ensures s[j] == r[j] {
      var i := if big then width - 1 - j else j;
      assert s[if big then width - 1 - i else i] == v / Bound(i) % 256;
    }
  }

  /** The conversion of a size to `int`. */
  function AsInt(n: nat): (i: int)
    ensures (i == 0 <==> n % WORD == 0) && (n < 0x8000_0000 ==> i == n)
  {
    var m := n % WORD;
    if m < 0x8000_0000 then m else m - WORD
  }

  /** The read cursor: what is left of the data. */
  class Deserializer {
    var rest: seq<Byte>
    const big: bool

    constructor (data: seq<Byte>, big: bool)
      ensures rest == data && this.big == big
    {
      rest, this.big := data, big;
    }

    /** The next `k` bytes, or an exception that moves nothing. */
    method Read(k: nat) returns (r: Option<seq<Byte>>)
      modifies this
      ensures r == if |old(rest)| < k then None else Some(old(rest)[..k])
      ensures rest == if |old(rest)| < k then old(rest) else old(rest)[k..]
    {
      if |rest| < k {
        return None;
      }
      r, rest := Some(rest[..k]), rest[k..];
    }

    method ReadByte() returns (r: Option<Byte>)
      modifies this
      ensures r == if old(rest) == [] then None else Some(old(rest)[0])
      ensures rest == if old(rest) == [] then [] else old(rest)[1..]
    {
      var s := Read(1);
      r := if s.None? then None else Some(s.value[0]);
    }

    /** A fixed-width integer of `width` bytes. */
    method ReadUint(width: nat) returns (r: Option<nat>)
      modifies this
      ensures r == if |old(rest)| < width then None else Some(Get(old(rest)[..width], big))
      ensures rest == if |old(rest)| < width then old(rest) else old(rest)[width..]
    {
      var s := Read(width);
      r := if s.None? then None else Some(Get(s.value, big));
    }
  }
}
