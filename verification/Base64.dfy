/** Base64 (utils/base64.cpp:30-134), against section 4 of RFC 4648. */
module Base64 {
  import opened Util
  import opened Wire

  const PAD: Byte := '=' as int

  type Sextet = x: int | 0 <= x < 64

  /** The alphabet: capital letters, small letters, digits, `+` and `/`. */
  function Char(i: Sextet): (c: Byte) {
    if i < 26 then 65 + i else if i < 52 then 71 + i else if i < 62 then i - 4 else if i == 62 then 43 else 47
  }

  predicate IsBase64(c: Byte) {
    97 <= c <= 122 || 65 <= c <= 90 || 48 <= c <= 57 || c == 43 || c == 47
  }

  /** `base64_chars.find(c)` in an unsigned char: 255 where there is no such character. */
  function Find(c: Byte): (i: Byte)
    ensures IsBase64(c) ==> i < 64 && Char(i) == c
    ensures !IsBase64(c) ==> i == 255
  {
    if 65 <= c <= 90 then c - 65
    else if 97 <= c <= 122 then c - 71
    else if 48 <= c <= 57 then c + 4
    else if c == 43 then 62 else if c == 47 then 63 else 255
  }

  lemma FindChar(i: Sextet)
    ensures IsBase64(Char(i)) && Find(Char(i)) == i
  {
  }

  const CAPITALS := "ABCDEFGHIJKLMNOPQRSTUVWXYZ"
  const SMALLS := "abcdefghijklmnopqrstuvwxyz"
  const OTHERS := "0123456789+/"

  /** The characters of Table 1 in RFC 4648, in their order. */
  lemma AlphabetIs(i: Sextet)
    ensures |CAPITALS| == 26 && |SMALLS| == 26 && |OTHERS| == 12
    ensures Char(i) == (if i < 26 then CAPITALS[i] else if i < 52 then SMALLS[i - 26] else OTHERS[i - 52]) as int
  {
  }

  // ----- The encoding

  /** Three bytes are one 24-bit number, most significant byte first, cut into four sextets. */
  function Sextets(a: Byte, b: Byte, c: Byte): (r: (Sextet, Sextet, Sextet, Sextet)) {
    var n := 0x1_0000 * a + 0x100 * b + c;
    (n / 0x4_0000, n / 0x1000 % 64, n / 64 % 64, n % 64)
  }

  function Chars(t: (Sextet, Sextet, Sextet, Sextet)): (r: seq<Byte>) {
    [Char(t.0), Char(t.1), Char(t.2), Char(t.3)]
  }

  function Encoded(x: seq<Byte>): (r: seq<Byte>) {
    if x == [] then []
    else if |x| == 1 then Chars(Sextets(x[0], 0, 0))[..2] + [PAD, PAD]
    else if |x| == 2 then Chars(Sextets(x[0], x[1], 0))[..3] + [PAD]
    else Chars(Sextets(x[0], x[1], x[2])) + Encoded(x[3..])
  }

  // ----- The decoder's view

  /** The three bytes that the decoder computes from four sextet values, used or not. */
  function Bytes(p: Byte, q: Byte, u: Byte, v: Byte): (r: (Byte, Byte, Byte)) {
    (Byte0(p, q), Byte1(q, u), Byte2(u, v))
  }

  function Byte0(p: Byte, q: Byte): (r: Byte) { (p * 4 + q / 16 % 4) % 256 }

  function Byte1(q: Byte, u: Byte): (r: Byte) { (q % 16 * 16 + u / 4 % 16) % 256 }

  function Byte2(u: Byte, v: Byte): (r: Byte) { (u % 4 * 64 + v) % 256 }

  /** Decoding stops at the first character outside the alphabet. */
  function Prefix(s: seq<Byte>): (r: seq<Byte>)
    ensures r <= s && forall c <- r :: IsBase64(c)
  {
    if s == [] || !IsBase64(s[0]) then [] else [s[0]] + Prefix(s[1..])
  }

  function DecodedTail(s: seq<Byte>): (r: seq<Byte>)
    requires |s| < 4
  {
    if |s| <= 1 then []
    else if |s| == 2 then [Bytes(Find(s[0]), Find(s[1]), 255, 255).0]
    else
      var (a, b, _) := Bytes(Find(s[0]), Find(s[1]), Find(s[2]), 255);
      [a, b]
  }

  function DecodedBody(s: seq<Byte>): (r: seq<Byte>) {
    if |s| < 4 then DecodedTail(s) else
    var (a, b, c) := Bytes(Find(s[0]), Find(s[1]), Find(s[2]), Find(s[3]));
    [a, b, c] + DecodedBody(s[4..])
  }

  function Decoded(s: seq<Byte>): (r: seq<Byte>) {
    DecodedBody(Prefix(s))
  }

  // ----- Round trip

  /** The decoder's arithmetic undoes the cut; what stands in unused positions does not reach the bytes in use. */
  lemma BytesOfSextets(a: Byte, b: Byte, c: Byte, u': Byte, v': Byte)
    ensures var (p, q, u, v) := Sextets(a, b, c);
      && Bytes(p, q, u, v) == (a, b, c) && Bytes(p, q, u', v').0 == a && Bytes(p, q, u, v').1 == b
  {
    SextetsAre(a, b, c);
    BytesOfCut(a, b, c, Sextets(a, b, c), u', v');
  }

  lemma BytesOfCut(a: Byte, b: Byte, c: Byte, t: (Sextet, Sextet, Sextet, Sextet), u': Byte, v': Byte)
    requires t == Cut(a, b, c)
    ensures Bytes(t.0, t.1, t.2, t.3) == (a, b, c) && Bytes(t.0, t.1, u', v').0 == a && Bytes(t.0, t.1, t.2, v').1 == b
  {
    First(a, b, t.0, t.1);
    Second(a, b, c, t.1, t.2);
    Third(b, c, t.2, t.3);
  }

  lemma First(a: Byte, b: Byte, p: Byte, q: Byte)
    requires p == a / 4 && q == a % 4 * 16 + b / 16
    ensures Byte0(p, q) == a
  {
    assert q / 16 == a % 4;
  }

  lemma Second(a: Byte, b: Byte, c: Byte, q: Byte, u: Byte)
    requires q == a % 4 * 16 + b / 16 && u == b % 16 * 4 + c / 64
    ensures Byte1(q, u) == b
  {
    assert q % 16 == b / 16;
    assert u / 4 == b % 16;
  }

  lemma Third(b: Byte, c: Byte, u: Byte, v: Byte)
    requires u == b % 16 * 4 + c / 64 && v == c % 64
    ensures Byte2(u, v) == c
  {
    assert u % 4 == c / 64;
  }

  /** The sextets as the encoder's masks and shifts compute them. */
  function Cut(a: Byte, b: Byte, c: Byte): (r: (Sextet, Sextet, Sextet, Sextet)) {
    (a / 4, a % 4 * 16 + b / 16, b % 16 * 4 + c / 64, c % 64)
  }

  lemma SextetsAre(a: Byte, b: Byte, c: Byte)
    ensures Sextets(a, b, c) == Cut(a, b, c)
  {
    var n := 0x1_0000 * a + 0x100 * b + c;
    Parts(a, b, c, n);
    SextetsOf(a, b, c, n, a / 4, a % 4 * 16 + b / 16, b % 16 * 4 + c / 64, c % 64);
  }

  lemma SextetsOf(a: Byte, b: Byte, c: Byte, n: nat, p: Sextet, q: Sextet, u: Sextet, v: Sextet)
    requires n == 0x1_0000 * a + 0x100 * b + c
    requires n / 0x4_0000 == p && n / 0x1000 % 64 == q && n / 64 % 64 == u && n % 64 == v
    ensures Sextets(a, b, c) == (p, q, u, v)
  {
  }

  lemma Parts(a: Byte, b: Byte, c: Byte, n: nat)
    requires n == 0x1_0000 * a + 0x100 * b + c
    ensures n / 0x4_0000 == a / 4 && n / 0x1000 % 64 == a % 4 * 16 + b / 16
    ensures n / 64 % 64 == b % 16 * 4 + c / 64 && n % 64 == c % 64
  {
    Shifts(a, b, c, n);
    Masks(a, b, c);
    LowSextet(a, b, c, n);
  }

  lemma LowSextet(a: Byte, b: Byte, c: Byte, n: nat)
    requires n == 0x1_0000 * a + 0x100 * b + c
    ensures n % 64 == c % 64
  {
    var q, r := c / 64, c % 64;
    assert c == 64 * q + r;
    Below(n, 1024 * a + 4 * b + q, r);
  }

  lemma Shifts(a: Byte, b: Byte, c: Byte, n: nat)
    requires n == 0x1_0000 * a + 0x100 * b + c
    ensures n / 64 == 1024 * a + 4 * b + c / 64 && n / 0x1000 == 16 * a + b / 16 && n / 0x4_0000 == a / 4
  {
    Shifted(n, 64, 1024 * a + 4 * b + c / 64, c % 64);
    Shifted(n, 0x1000, 16 * a + b / 16, b % 16 * 0x100 + c);
    Shifted(n, 0x4_0000, a / 4, a % 4 * 0x1_0000 + b * 0x100 + c);
  }

  lemma Shifted(n: nat, d: nat, q: nat, r: nat)
    requires d in {64, 0x1000, 0x4_0000} && n == d * q + r && r < d
    ensures n / d == q
  {
  }

  lemma Masks(a: Byte, b: Byte, c: Byte)
    ensures (1024 * a + 4 * b + c / 64) % 64 == b % 16 * 4 + c / 64
    ensures (16 * a + b / 16) % 64 == a % 4 * 16 + b / 16
  {
    var p, q := b / 16, b % 16;
    assert b == 16 * p + q;
    Below(1024 * a + 4 * b + c / 64, 16 * a + p, q * 4 + c / 64);
    var u, v := a / 4, a % 4;
    assert a == 4 * u + v;
    Below(16 * a + p, u, v * 16 + p);
  }

  lemma Below(x: nat, q: nat, r: nat)
    requires x == 64 * q + r && r < 64
    ensures x % 64 == r
  {
  }

  lemma {:induction false} PrefixOf(a: seq<Byte>, b: seq<Byte>)
    requires forall c <- a :: IsBase64(c)
    ensures Prefix(a + b) == a + Prefix(b)
  {
    if a == [] {
      assert a + b == b;
    } else {
      assert (a + b)[1..] == a[1..] + b;
      PrefixOf(a[1..], b);
    }
  }

  lemma OneByte(a: Byte)
    ensures Decoded(Encoded([a])) == [a]
  {
    var (p, q, _, _) := Sextets(a, 0, 0);
    FindChar(p);
    FindChar(q);
    PrefixOf([Char(p), Char(q)], [PAD, PAD]);
    assert Chars(Sextets(a, 0, 0))[..2] == [Char(p), Char(q)];
    BytesOfSextets(a, 0, 0, 255, 255);
  }

  lemma TwoBytes(a: Byte, b: Byte)
    ensures Decoded(Encoded([a, b])) == [a, b]
  {
    var (p, q, u, _) := Sextets(a, b, 0);
    FindChar(p);
    FindChar(q);
    FindChar(u);
    PrefixOf([Char(p), Char(q), Char(u)], [PAD]);
    assert Chars(Sextets(a, b, 0))[..3] == [Char(p), Char(q), Char(u)];
    BytesOfSextets(a, b, 0, u, 255);
  }

  lemma ThreeBytes(a: Byte, b: Byte, c: Byte, rest: seq<Byte>)
    ensures Decoded(Chars(Sextets(a, b, c)) + rest) == [a, b, c] + Decoded(rest)
  {
    var (p, q, u, v) := Sextets(a, b, c);
    FindChar(p);
    FindChar(q);
    FindChar(u);
    FindChar(v);
    var group := [Char(p), Char(q), Char(u), Char(v)];
    PrefixOf(group, rest);
    assert (group + Prefix(rest))[4..] == Prefix(rest);
    BytesOfSextets(a, b, c, u, v);
  }

  /** Decoding undoes encoding, for every byte sequence. */
  lemma {:induction false} DecodeEncode(x: seq<Byte>)
    ensures Decoded(Encoded(x)) == x
    decreases |x|
  {
    if |x| == 1 {
      OneByte(x[0]);
      assert x == [x[0]];
    } else if |x| == 2 {
      TwoBytes(x[0], x[1]);
      assert x == [x[0], x[1]];
    } else if |x| > 2 {
      ThreeBytes(x[0], x[1], x[2], Encoded(x[3..]));
      DecodeEncode(x[3..]);
      assert x == [x[0], x[1], x[2]] + x[3..];
    }
  }

  /** Four characters for every three bytes begun; the alphabet everywhere but in the padding, of which there are as
      many characters as bytes are missing from the last three. */
  ghost predicate Shaped(r: seq<Byte>, n: nat) {
    var pad := (3 - n % 3) % 3;
    && |r| == (n + 2) / 3 * 4 && pad <= |r|
    && (forall i :: 0 <= i < |r| - pad ==> IsBase64(r[i]))
    && (forall i :: |r| - pad <= i < |r| ==> r[i] == PAD)
  }

  lemma ShapedStep(group: seq<Byte>, r: seq<Byte>, n: nat)
    requires |group| == 4 && (forall c <- group :: IsBase64(c)) && Shaped(r, n)
    ensures Shaped(group + r, n + 3)
  {
  }

  lemma {:induction false} EncodedShape(x: seq<Byte>)
    ensures Shaped(Encoded(x), |x|)
    decreases |x|
  {
    if |x| > 2 {
      EncodedShape(x[3..]);
      ShapedStep(Chars(Sextets(x[0], x[1], x[2])), Encoded(x[3..]), |x[3..]|);
    } else if |x| > 0 {
      ShapedLast(Chars(Sextets(x[0], if |x| == 1 then 0 else x[1], 0)), |x|, Encoded(x));
    }
  }

  lemma ShapedLast(group: seq<Byte>, n: nat, r: seq<Byte>)
    requires |group| == 4 && (forall c <- group :: IsBase64(c)) && 1 <= n <= 2
    requires r == if n == 1 then group[..2] + [PAD, PAD] else group[..3] + [PAD]
    ensures Shaped(r, n)
  {
  }

  // ----- The two functions

  /** `base64_encode`: the length is passed on as an `unsigned int`. */
  method Encode(data: seq<Byte>) returns (ret: seq<Byte>)
    ensures ret == Encoded(data[..|data| % WORD])
  {
    var n := |data| % WORD;
    ghost var x := data[..n];
    ghost var whole := Encoded(x);
    ret := [];
    var group: seq<Byte> := [];
    assert [] + x[0..] == x && [] + whole == whole;
    for k := 0 to n
      invariant |group| < 3 && ret + Encoded(group + x[k..]) == whole
    {
      assert group + x[k..] == group + [x[k]] + x[k + 1..];
      ret, group := EncodeByte(ret, group, data[k], x[k + 1..]);
    }
    assert group + x[n..] == group;
    var last := EncodeLast(group);
    ret := ret + last;
  }

  /** One more byte, before `rest`. */
  method EncodeByte(ret: seq<Byte>, group: seq<Byte>, b: Byte, ghost rest: seq<Byte>)
    returns (ret': seq<Byte>, group': seq<Byte>)
    requires |group| < 3
    ensures |group'| < 3 && ret' + Encoded(group' + rest) == ret + Encoded(group + [b] + rest)
  {
    ret', group' := ret, group + [b];
    if |group'| == 3 {
      FullGroup(ret, group', rest);
      ret' := ret + Chars(Cut(group'[0], group'[1], group'[2]));
      group' := [];
      assert [] + rest == rest;
    }
  }

  /** The incomplete last group, if any, filled up with padding. */
  method EncodeLast(group: seq<Byte>) returns (r: seq<Byte>)
    requires |group| < 3
    ensures r == Encoded(group)
  {
    if group == [] {
      return [];
    }
    var i := |group|;
    LastGroup(group);
    r := Chars(Cut(group[0], if i > 1 then group[1] else 0, 0))[..i + 1];
    while i < 3
      invariant |group| <= i <= 3 && r + Pads(3 - i) == Encoded(group)
    {
      assert Pads(3 - i) == [PAD] + Pads(3 - (i + 1));
      r, i := r + [PAD], i + 1;
    }
    assert r + [] == r;
  }

  function Pads(n: nat): (r: seq<Byte>) {
    seq(n, i => PAD)
  }

  lemma FullGroup(done: seq<Byte>, group: seq<Byte>, rest: seq<Byte>)
    requires |group| == 3
    ensures done + Encoded(group + rest) == done + Chars(Cut(group[0], group[1], group[2])) + Encoded(rest)
  {
    SextetsAre(group[0], group[1], group[2]);
    assert (group + rest)[3..] == rest;
  }

  lemma LastGroup(group: seq<Byte>)
    requires 1 <= |group| < 3
    ensures Encoded(group)
         == Chars(Cut(group[0], if |group| > 1 then group[1] else 0, 0))[..|group| + 1] + Pads(3 - |group|)
  {
    SextetsAre(group[0], if |group| > 1 then group[1] else 0, 0);
    assert Pads(2) == [PAD, PAD] && Pads(1) == [PAD];
  }

  /** What `base64_decode` returns: its position in the input is an `int`, which overflows with the 2^31st character of
      the alphabet; that is undefined. */
  function DecodeResult(s: seq<Byte>): (r: Option<seq<Byte>>) {
    if |Prefix(s)| < 0x8000_0000 then Some(Decoded(s)) else None
  }

  /** The number of characters before the padding. */
  lemma PrefixLength(x: seq<Byte>)
    ensures |Prefix(Encoded(x))| == (|x| + 2) / 3 * 4 - (3 - |x| % 3) % 3
  {
    EncodedShape(x);
    var r, pad := Encoded(x), (3 - |x| % 3) % 3;
    var k := |r| - pad;
    assert r == r[..k] + r[k..];
    PrefixOf(r[..k], r[k..]);
    assert Prefix(r[k..]) == [];
  }

  lemma BelowIntMax(n: nat)
    ensures (n + 2) / 3 * 4 - (3 - n % 3) % 3 < 0x8000_0000 <==> n < LONGEST
  {
  }

  /** The first length whose encoding is too long to decode: three bytes for every four of 2^31 characters. */
  const LONGEST: nat := 0x6000_0000

  /** Hence what comes back is the data if and only if there are fewer than 3 * 2^29 bytes of it: the encoder cuts the
      length to an `unsigned int` and the decoder's position is an `int`. */
  lemma EncodeKeepsData(data: seq<Byte>, n: nat)
    requires n == |data| % WORD
    ensures DecodeResult(Encoded(data[..n])) == Some(data) <==> |data| < LONGEST
  {
    var x := data[..n];
    DecodeEncode(x);
    PrefixLength(x);
    BelowIntMax(n);
    SameLength(data, n);
  }

  lemma SameLength(data: seq<Byte>, n: nat)
    requires n == |data| % WORD
    ensures data[..n] == data <==> |data| < WORD
  {
    assert data[..|data|] == data;
  }

  /** 3 * 2^29 bytes, although fewer than 2^32, do not come back. */
  lemma TooLongToDecode(data: seq<Byte>)
    requires |data| == LONGEST
    ensures DecodeResult(Encoded(data[..|data| % WORD])) == None
  {
    var x := data[..LONGEST];
    PrefixLength(x);
    BelowIntMax(LONGEST);
  }

  /** `base64_decode`; None if its position overflows. */
  method Decode(s: seq<Byte>) returns (r: Option<seq<Byte>>)
    ensures r == DecodeResult(s)
  {
    var ret: seq<Byte> := [];
    var group: seq<Byte> := [];
    var k := 0;
    ghost var whole, ahead := Decoded(s), Prefix(s);
    assert s[0..] == s && [] + ahead == ahead;
    while k < |s| && s[k] != PAD && IsBase64(s[k])
      invariant k <= |s| && |group| < 4 && ahead == Prefix(s[k..]) && ret + DecodedBody(group + ahead) == whole
      invariant k < 0x8000_0000 && k + |ahead| == |Prefix(s)|
    {
      PrefixStep(group, s, k);
      ahead := Prefix(s[k + 1..]);
      if k == 0x7fff_ffff {
        return None;
      }
      ret, group := DecodeChar(ret, group, s[k], ahead);
      k := k + 1;
    }
    assert group + ahead == group;
    var last := DecodeTail(group);
    r := Some(ret + last);
  }

  /** One more character, before `rest`. */
  method DecodeChar(ret: seq<Byte>, group: seq<Byte>, c: Byte, ghost rest: seq<Byte>)
    returns (ret': seq<Byte>, group': seq<Byte>)
    requires |group| < 4
    ensures |group'| < 4 && ret' + DecodedBody(group' + rest) == ret + DecodedBody(group + [c] + rest)
  {
    ret', group' := ret, group + [c];
    if |group'| == 4 {
      FourTaken(ret, group', rest);
      var (x, y, z) := Bytes(Find(group'[0]), Find(group'[1]), Find(group'[2]), Find(group'[3]));
      ret' := ret + [x, y, z];
      group' := [];
      assert [] + rest == rest;
    }
  }

  lemma PrefixStep(group: seq<Byte>, s: seq<Byte>, k: nat)
    requires k < |s| && IsBase64(s[k])
    ensures group + Prefix(s[k..]) == group + [s[k]] + Prefix(s[k + 1..])
    ensures |Prefix(s[k..])| == 1 + |Prefix(s[k + 1..])|
  {
    assert s[k..][1..] == s[k + 1..];
  }

  lemma FourTaken(done: seq<Byte>, group: seq<Byte>, rest: seq<Byte>)
    requires |group| == 4
    ensures var (a, b, c) := Bytes(Find(group[0]), Find(group[1]), Find(group[2]), Find(group[3]));
      done + DecodedBody(group + rest) == done + [a, b, c] + DecodedBody(rest)
  {
    assert (group + rest)[4..] == rest;
  }

  /** The incomplete last group: what is missing is looked up as NUL. */
  method DecodeTail(group: seq<Byte>) returns (r: seq<Byte>)
    requires |group| < 4
    ensures r == DecodedBody(group)
  {
    if group == [] {
      return [];
    }
    var full := group + seq(4 - |group|, i => 0);
    var (a, b, c) := Bytes(Find(full[0]), Find(full[1]), Find(full[2]), Find(full[3]));
    r := [a, b, c][..|group| - 1];
  }
}
