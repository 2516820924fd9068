/** The wire form of the container codec (utils/packet.h:301-595), stated byte by byte: what `<<` writes for a value and
    what `>>` makes of any bytes. */
module PacketBytes {
  import opened Util
  import opened Wire
  import opened Packet

  // ----- What is written

  /** A length in `width` bytes, then as many bytes. */
  ghost predicate IsText(s: seq<Byte>, bytes: seq<Byte>, width: nat, big: bool) {
    |bytes| < Bound(width) && |s| >= width && IsNumber(s[..width], |bytes|, width, big) && s[width..] == bytes
  }

  /** `s` is the wire form of `v`: integers in two's complement, Booleans as 1 or 0, strings behind their length, the
      first component before the second, the count in four bytes before the elements. */
  ghost predicate IsWire(s: seq<Byte>, v: Val, t: Type, big: bool)
    requires HasType(v, t)
    decreases t, 0, 0
  {
    match t
    case Unsigned(w) => IsNumber(s, v.n, w, big)
    case Signed(w) => IsNumber(s, v.n, w, big)
    case Boolean => s == if v.b then [1] else [0]
    case Str16 => IsText(s, v.bytes, 2, big)
    case Str32 => IsText(s, v.bytes, 4, big)
    case Pair(a, b) => exists k :: 0 <= k <= |s| && PairAt(s, k, v, a, b, big)
    case Many(_, elem) => |s| >= 4 && IsNumber(s[..4], |v.items|, 4, big) && AreWires(s[4..], v.items, elem, big)
  }

  /** The components of a pair, the second from position `k` on. */
  ghost predicate PairAt(s: seq<Byte>, k: nat, v: Val, a: Type, b: Type, big: bool)
    requires k <= |s| && HasType(v, Pair(a, b))
    decreases Pair(a, b), 0, -1
  {
    IsWire(s[..k], v.first, a, big) && IsWire(s[k..], v.second, b, big)
  }

  ghost predicate AreWires(s: seq<Byte>, items: seq<Val>, t: Type, big: bool)
    requires forall x <- items :: HasType(x, t)
    decreases t, 1, |items|
  {
    if items == [] then s == [] else exists k :: 0 <= k <= |s| && WiresAt(s, k, items, t, big)
  }

  /** The first element, and the others from position `k` on. */
  ghost predicate WiresAt(s: seq<Byte>, k: nat, items: seq<Val>, t: Type, big: bool)
    requires k <= |s| && items != [] && forall x <- items :: HasType(x, t)
    decreases t, 1, |items|, 0
  {
    IsWire(s[..k], items[0], t, big) && AreWires(s[k..], items[1..], t, big)
  }

  /** The unsigned number that a signed one is written as has its bytes. */
  lemma SignedBytes(s: seq<Byte>, n: int, w: nat, big: bool)
    requires HasType(Num(n), Signed(w))
    ensures IsNumber(s, n, w, big) <==> s == Put(if n < 0 then n + Bound(w) else n, w, big)
  {
    var u: nat := if n < 0 then n + Bound(w) else n;
    forall i | 0 <= i < w ensures u / Bound(i) % 256 == n / Bound(i) % 256 {
      ComplementBytes(n, w, i);
    }
    PutBytes(u, w, big);
    if IsNumber(s, n, w, big) {
      NumberBytes(s, u, w, big);
    }
  }

  lemma UnsignedBytes(s: seq<Byte>, n: nat, w: nat, big: bool)
    ensures IsNumber(s, n, w, big) <==> s == Put(n, w, big)
  {
    PutBytes(n, w, big);
    if IsNumber(s, n, w, big) {
      NumberBytes(s, n, w, big);
    }
  }

  lemma TextBytes(s: seq<Byte>, bytes: seq<Byte>, w: nat, big: bool)
    ensures PackText(bytes, w, big) == Some(s) <==> IsText(s, bytes, w, big)
  {
    var n := Put(|bytes|, w, big);
    assert (n + bytes)[..w] == n && (n + bytes)[w..] == bytes;
    UnsignedBytes(n, |bytes|, w, big);
    if IsText(s, bytes, w, big) {
      UnsignedBytes(s[..w], |bytes|, w, big);
      assert s == s[..w] + s[w..];
    }
  }

  /** `<<` writes exactly the wire form of the value, for every type and byte order, or throws because there is none. */
  lemma {:induction false} PackedBytes(s: seq<Byte>, v: Val, t: Type, big: bool)
    requires HasType(v, t)
    ensures Pack(v, t, big) == Some(s) <==> IsWire(s, v, t, big)
    decreases t, 0, 2
  {
    match t
    case Unsigned(w) => UnsignedBytes(s, v.n, w, big);
    case Signed(w) => SignedBytes(s, v.n, w, big);
    case Boolean =>
    case Str16 => TextBytes(s, v.bytes, 2, big);
    case Str32 => TextBytes(s, v.bytes, 4, big);
    case Pair(a, b) => PairBytes(s, v, a, b, big);
    case Many(kind, elem) => ManyBytes(s, v, kind, elem, big);
  }

  lemma {:induction false} PairBytes(s: seq<Byte>, v: Val, a: Type, b: Type, big: bool)
    requires HasType(v, Pair(a, b))
    ensures Pack(v, Pair(a, b), big) == Some(s) <==> IsWire(s, v, Pair(a, b), big)
    decreases Pair(a, b), 0, 1
  {
    if Pack(v, Pair(a, b), big) == Some(s) {
      PairWritten(s, v, a, b, big);
    }
    if k :| 0 <= k <= |s| && PairAt(s, k, v, a, b, big) {
      PairPacked(s, k, v, a, b, big);
    }
  }

  lemma {:induction false} PairPacked(s: seq<Byte>, k: nat, v: Val, a: Type, b: Type, big: bool)
    requires k <= |s| && HasType(v, Pair(a, b)) && PairAt(s, k, v, a, b, big)
    ensures Pack(v, Pair(a, b), big) == Some(s)
    decreases Pair(a, b), 0, 0
  {
    PackedBytes(s[..k], v.first, a, big);
    PackedBytes(s[k..], v.second, b, big);
    assert s == s[..k] + s[k..];
  }

  lemma {:induction false} ManyBytes(s: seq<Byte>, v: Val, kind: Kind, elem: Type, big: bool)
    requires HasType(v, Many(kind, elem))
    ensures Pack(v, Many(kind, elem), big) == Some(s) <==> IsWire(s, v, Many(kind, elem), big)
    decreases Many(kind, elem), 0, 1
  {
    if Pack(v, Many(kind, elem), big) == Some(s) {
      CountWritten(s, v.items, elem, big);
      PackedAllBytes(s[4..], v.items, elem, big);
    }
    if IsWire(s, v, Many(kind, elem), big) {
      UnsignedBytes(s[..4], |v.items|, 4, big);
      PackedAllBytes(s[4..], v.items, elem, big);
      assert s == s[..4] + s[4..];
    }
  }

  lemma CountWritten(s: seq<Byte>, items: seq<Val>, elem: Type, big: bool)
    requires forall x <- items :: HasType(x, elem)
    requires Join(Some(Put(|items|, 4, big)), PackAll(items, elem, big)) == Some(s)
    ensures |s| >= 4 && IsNumber(s[..4], |items|, 4, big) && PackAll(items, elem, big) == Some(s[4..])
  {
    var n, rest := Put(|items|, 4, big), PackAll(items, elem, big).value;
    assert (n + rest)[..4] == n && (n + rest)[4..] == rest;
    UnsignedBytes(n, |items|, 4, big);
  }

  lemma {:induction false} PairWritten(s: seq<Byte>, v: Val, a: Type, b: Type, big: bool)
    requires HasType(v, Pair(a, b)) && Pack(v, Pair(a, b), big) == Some(s)
    ensures exists k :: 0 <= k <= |s| && PairAt(s, k, v, a, b, big)
    decreases Pair(a, b), 0, 0
  {
    var x, y := Pack(v.first, a, big).value, Pack(v.second, b, big).value;
    assert s[..|x|] == x && s[|x|..] == y;
    PackedBytes(x, v.first, a, big);
    PackedBytes(y, v.second, b, big);
    assert PairAt(s, |x|, v, a, b, big);
  }

  lemma {:induction false} PackedAllBytes(s: seq<Byte>, items: seq<Val>, t: Type, big: bool)
    requires forall x <- items :: HasType(x, t)
    ensures PackAll(items, t, big) == Some(s) <==> AreWires(s, items, t, big)
    decreases t, 1, |items|
  {
    if items != [] {
      if PackAll(items, t, big) == Some(s) {
        ItemsWritten(s, items, t, big);
      }
      if k :| 0 <= k <= |s| && WiresAt(s, k, items, t, big) {
        ItemsPacked(s, k, items, t, big);
      }
    }
  }

  lemma {:induction false} ItemsPacked(s: seq<Byte>, k: nat, items: seq<Val>, t: Type, big: bool)
    requires k <= |s| && items != [] && (forall x <- items :: HasType(x, t)) && WiresAt(s, k, items, t, big)
    ensures PackAll(items, t, big) == Some(s)
    decreases t, 1, |items|, 0
  {
    PackedBytes(s[..k], items[0], t, big);
    PackedAllBytes(s[k..], items[1..], t, big);
    assert s == s[..k] + s[k..];
  }

  lemma {:induction false} ItemsWritten(s: seq<Byte>, items: seq<Val>, t: Type, big: bool)
    requires items != [] && (forall x <- items :: HasType(x, t)) && PackAll(items, t, big) == Some(s)
    ensures exists k :: 0 <= k <= |s| && WiresAt(s, k, items, t, big)
    decreases t, 1, |items|, 0
  {
    var x, y := Pack(items[0], t, big).value, PackAll(items[1..], t, big).value;
    assert s[..|x|] == x && s[|x|..] == y;
    PackedBytes(x, items[0], t, big);
    PackedAllBytes(y, items[1..], t, big);
    assert WiresAt(s, |x|, items, t, big);
  }

  // ----- What is read

  /** `x` is in `xs`, and no element before it has its key. */
  ghost predicate IsFirst(xs: seq<Val>, x: Val, kind: Kind) {
    exists i :: 0 <= i < |xs| && FirstAt(xs, i, x, kind)
  }

  ghost predicate FirstAt(xs: seq<Val>, i: nat, x: Val, kind: Kind)
    requires i < |xs|
  {
    xs[i] == x && NoKey(xs, i, x, kind)
  }

  /** None of the first `n` elements has the key of `x`. */
  ghost predicate NoKey(xs: seq<Val>, n: nat, x: Val, kind: Kind)
    requires n <= |xs|
  {
    forall j :: 0 <= j < n ==> Key(xs[j], kind) != Key(x, kind)
  }

  /** The container made of the elements `xs`, read in this order: a set or map is ordered and keeps the first element
      of each key. */
  ghost predicate Collected(items: seq<Val>, xs: seq<Val>, kind: Kind) {
    if kind.Sequence? then items == xs
    else Ascending(items, kind) && forall x :: x in items <==> IsFirst(xs, x, kind)
  }

  /** The bytes `s`, all of them, read as `v`. */
  ghost predicate ReadsAs(s: seq<Byte>, v: Val, t: Type, big: bool)
    decreases t, 0, 0
  {
    match t
    case Unsigned(w) => HasType(v, t) && IsNumber(s, v.n, w, big)
    case Signed(w) => HasType(v, t) && IsNumber(s, v.n, w, big)
    case Boolean => v.Flag? && |s| == 1 && (v.b <==> s[0] != 0)
    case Str16 => v.Text? && IsText(s, v.bytes, 2, big)
    case Str32 => v.Text? && IsText(s, v.bytes, 4, big)
    case Pair(a, b) => v.Both? && exists k :: 0 <= k <= |s| && PairReadAt(s, k, v, a, b, big)
    case Many(kind, elem) => v.Items? && |s| >= 4 && exists xs :: ItemsRead(s, xs, v.items, kind, elem, big)
  }

  ghost predicate PairReadAt(s: seq<Byte>, k: nat, v: Val, a: Type, b: Type, big: bool)
    requires k <= |s| && v.Both?
    decreases Pair(a, b), 0, -1
  {
    ReadsAs(s[..k], v.first, a, big) && ReadsAs(s[k..], v.second, b, big)
  }

  /** A count, as many elements, and the container made of them. */
  ghost predicate ItemsRead(s: seq<Byte>, xs: seq<Val>, items: seq<Val>, kind: Kind, elem: Type, big: bool)
    requires |s| >= 4
    decreases Many(kind, elem), 0, -1
  {
    |xs| < WORD && IsNumber(s[..4], |xs|, 4, big) && ReadsAll(s[4..], xs, elem, big) && Collected(items, xs, kind)
  }

  ghost predicate ReadsAll(s: seq<Byte>, xs: seq<Val>, t: Type, big: bool)
    decreases t, 1, |xs|
  {
    if xs == [] then s == [] else exists k :: 0 <= k <= |s| && ReadsAt(s, k, xs, t, big)
  }

  ghost predicate ReadsAt(s: seq<Byte>, k: nat, xs: seq<Val>, t: Type, big: bool)
    requires k <= |s| && xs != []
    decreases t, 1, |xs|, 0
  {
    ReadsAs(s[..k], xs[0], t, big) && ReadsAll(s[k..], xs[1..], t, big)
  }

  /** An element whose key is there has a first element with that key. */
  lemma FirstWithKey(xs: seq<Val>, x: Val, kind: Kind, j: nat) returns (y: Val)
    requires j < |xs| && Key(xs[j], kind) == Key(x, kind)
    ensures IsFirst(xs, y, kind) && Key(y, kind) == Key(x, kind)
  {
    if i :| 0 <= i < j && Key(xs[i], kind) == Key(x, kind) {
      y := FirstWithKey(xs, x, kind, i);
    } else {
      y := xs[j];
      assert FirstAt(xs, j, y, kind);
    }
  }

  lemma FirstOfMore(xs: seq<Val>, x: Val, y: Val, kind: Kind)
    ensures IsFirst(xs + [x], y, kind) <==> IsFirst(xs, y, kind) || (y == x && NoKey(xs, |xs|, x, kind))
  {
    var more := xs + [x];
    if i :| 0 <= i < |xs| && FirstAt(xs, i, y, kind) {
      assert FirstAt(more, i, y, kind);
    }
    if y == x && NoKey(xs, |xs|, x, kind) {
      assert FirstAt(more, |xs|, y, kind);
    }
    if i :| 0 <= i < |more| && FirstAt(more, i, y, kind) {
      assert forall j :: 0 <= j < i ==> more[j] == xs[j];
      if i < |xs| {
        assert FirstAt(xs, i, y, kind);
      }
    }
  }

  /** One more element read is one more inserted. */
  lemma CollectedMore(items: seq<Val>, xs: seq<Val>, x: Val, kind: Kind)
    requires Collected(items, xs, kind)
    ensures Collected(Insert(items, x, kind), xs + [x], kind)
  {
    if !kind.Sequence? {
      InsertAdds(items, x, kind);
      InsertKeepsOrder(items, x, kind);
      NewKey(items, xs, x, kind);
      forall y ensures y in Insert(items, x, kind) <==> IsFirst(xs + [x], y, kind) {
        FirstOfMore(xs, x, y, kind);
      }
    }
  }

  /** `xs` inserted one after the other. */
  ghost function Inserted(done: seq<Val>, xs: seq<Val>, kind: Kind): (items: seq<Val>)
    decreases |xs|
  {
    if xs == [] then done else Inserted(Insert(done, xs[0], kind), xs[1..], kind)
  }

  lemma {:induction false} InsertedCollects(done: seq<Val>, before: seq<Val>, xs: seq<Val>, kind: Kind)
    requires Collected(done, before, kind)
    ensures Collected(Inserted(done, xs, kind), before + xs, kind)
    decreases |xs|
  {
    if xs == [] {
      assert before + [] == before;
    } else {
      CollectedMore(done, before, xs[0], kind);
      MoveOver(before, xs);
      InsertedCollects(Insert(done, xs[0], kind), before + [xs[0]], xs[1..], kind);
    }
  }

  lemma CollectedAll(xs: seq<Val>, kind: Kind)
    ensures Collected(Inserted([], xs, kind), xs, kind)
  {
    CollectedNone(kind);
    InsertedCollects([], [], xs, kind);
    assert [] + xs == xs;
  }

  lemma NewKey(items: seq<Val>, xs: seq<Val>, x: Val, kind: Kind)
    requires !kind.Sequence? && Collected(items, xs, kind)
    ensures (forall y <- items :: Key(y, kind) != Key(x, kind))
       <==> NoKey(xs, |xs|, x, kind)
  {
    if j: nat :| j < |xs| && Key(xs[j], kind) == Key(x, kind) {
      var y := FirstWithKey(xs, x, kind, j);
      assert y in items;
    } else {
      forall y <- items ensures Key(y, kind) != Key(x, kind) {
        assert IsFirst(xs, y, kind);
      }
    }
  }

  /** Ordered containers with the same elements are the same. */
  lemma {:induction false} AscendingUnique(a: seq<Val>, b: seq<Val>, kind: Kind)
    requires Ascending(a, kind) && Ascending(b, kind) && forall x :: x in a <==> x in b
    ensures a == b
    decreases |a|
  {
    if a != [] {
      assert a[0] in b;
    }
    if b != [] {
      assert b[0] in a;
      SameHead(a, b, kind);
      forall x ensures x in a[1..] <==> x in b[1..] {
        InTail(a, x, kind);
        InTail(b, x, kind);
      }
      AscendingUnique(a[1..], b[1..], kind);
      assert a == [a[0]] + a[1..] && b == [b[0]] + b[1..];
    }
  }

  lemma SameHead(a: seq<Val>, b: seq<Val>, kind: Kind)
    requires a != [] && b != [] && Ascending(a, kind) && Ascending(b, kind) && a[0] in b && b[0] in a
    ensures a[0] == b[0]
  {
    CompareEq(Key(a[0], kind), Key(b[0], kind));
    var i :| 0 <= i < |b| && b[i] == a[0];
    var j :| 0 <= j < |a| && a[j] == b[0];
    assert i > 0 ==> Before(b[0], b[i], kind);
    assert j > 0 ==> Before(a[0], a[j], kind);
  }

  lemma InTail(a: seq<Val>, x: Val, kind: Kind)
    requires a != [] && Ascending(a, kind)
    ensures x in a[1..] <==> x in a && x != a[0]
  {
    assert a == [a[0]] + a[1..];
    if x in a[1..] {
      var i :| 0 <= i < |a[1..]| && a[1..][i] == x;
      assert Before(a[0], a[i + 1], kind);
      CompareEq(Key(x, kind), Key(x, kind));
    }
  }

  lemma CollectedUnique(a: seq<Val>, b: seq<Val>, xs: seq<Val>, kind: Kind)
    requires Collected(a, xs, kind) && Collected(b, xs, kind)
    ensures a == b
  {
    if !kind.Sequence? {
      AscendingUnique(a, b, kind);
    }
  }

  lemma CollectedNone(kind: Kind)
    ensures Collected([], [], kind)
  {
  }

  // ----- Reading is exactly that

  /** What `>>` takes of any input reads as the value it returns. */
  lemma {:induction false} UnpackReads(s: seq<Byte>, t: Type, big: bool, v: Val, rest: seq<Byte>)
    returns (taken: seq<Byte>)
    requires Unpack(s, t, big) == Got(v, rest)
    ensures s == taken + rest && ReadsAs(taken, v, t, big)
    decreases t, 0, 0
  {
    match t
    case Pair(a, b) => taken := PairRead(s, a, b, big, v, rest);
    case Many(kind, elem) => taken := ManyRead(s, kind, elem, big, v, rest);
    case _ => taken := LeafRead(s, t, big, v, rest);
  }

  lemma LeafRead(s: seq<Byte>, t: Type, big: bool, v: Val, rest: seq<Byte>) returns (taken: seq<Byte>)
    requires Unpack(s, t, big) == Got(v, rest) && !t.Pair? && !t.Many?
    ensures s == taken + rest && ReadsAs(taken, v, t, big)
  {
    match t
    case Unsigned(w) => taken := UnsignedLeaf(s, w, big, v, rest);
    case Signed(w) => taken := SignedLeaf(s, w, big, v, rest);
    case Boolean => taken := s[..1];
    case Str16 => taken := TextRead(s, 2, big, v, rest);
    case Str32 => taken := TextRead(s, 4, big, v, rest);
  }

  lemma UnsignedLeaf(s: seq<Byte>, w: nat, big: bool, v: Val, rest: seq<Byte>) returns (taken: seq<Byte>)
    requires Unpack(s, Unsigned(w), big) == Got(v, rest)
    ensures s == taken + rest && HasType(v, Unsigned(w)) && IsNumber(taken, v.n, w, big)
  {
    taken := s[..w];
    PutBack(s, w, big);
  }

  lemma SignedLeaf(s: seq<Byte>, w: nat, big: bool, v: Val, rest: seq<Byte>) returns (taken: seq<Byte>)
    requires Unpack(s, Signed(w), big) == Got(v, rest)
    ensures s == taken + rest && HasType(v, Signed(w)) && IsNumber(taken, v.n, w, big)
  {
    taken := s[..w];
    GetPut(taken, big);
    SignedOf(taken, Get(taken, big), Bound(w), w, big);
  }

  /** The bytes of the number that is read. */
  lemma PutBack(s: seq<Byte>, w: nat, big: bool)
    requires |s| >= w
    ensures var n := Get(s[..w], big); n < Bound(w) && IsNumber(s[..w], n, w, big)
  {
    GetPut(s[..w], big);
    PutBytes(Get(s[..w], big), w, big);
  }

  lemma SignedOf(s: seq<Byte>, n: nat, bound: nat, w: nat, big: bool)
    requires s == Put(n, w, big) && n < bound == Bound(w)
    ensures var m := if 2 * n < bound then n else n - bound;
      HasType(Num(m), Signed(w)) && IsNumber(s, m, w, big)
  {
    var m := if 2 * n < bound then n else n - bound;
    SignedBytes(s, m, w, big);
  }

  lemma TextRead(s: seq<Byte>, w: nat, big: bool, v: Val, rest: seq<Byte>) returns (taken: seq<Byte>)
    requires UnpackText(s, w, big) == Got(v, rest)
    ensures s == taken + rest && v.Text? && IsText(taken, v.bytes, w, big)
  {
    PutBack(s, w, big);
    taken := s[..w] + v.bytes;
    assert taken[..w] == s[..w] && taken[w..] == v.bytes;
  }

  lemma {:induction false} PairRead(s: seq<Byte>, a: Type, b: Type, big: bool, v: Val, rest: seq<Byte>)
    returns (taken: seq<Byte>)
    requires Unpack(s, Pair(a, b), big) == Got(v, rest)
    ensures s == taken + rest && ReadsAs(taken, v, Pair(a, b), big)
    decreases Pair(a, b), 0, -1
  {
    var mid := PairParts(s, a, b, big, v, rest);
    var p := UnpackReads(s, a, big, v.first, mid);
    var q := UnpackReads(mid, b, big, v.second, rest);
    taken := p + q;
    Regroup(p, q, rest);
    PairOf(p, q, v, a, b, big);
  }

  lemma PairParts(s: seq<Byte>, a: Type, b: Type, big: bool, v: Val, rest: seq<Byte>) returns (mid: seq<Byte>)
    requires Unpack(s, Pair(a, b), big) == Got(v, rest)
    ensures v.Both? && Unpack(s, a, big) == Got(v.first, mid) && Unpack(mid, b, big) == Got(v.second, rest)
  {
    mid := Unpack(s, a, big).rest;
  }

  lemma PairOf(p: seq<Byte>, q: seq<Byte>, v: Val, a: Type, b: Type, big: bool)
    requires v.Both? && ReadsAs(p, v.first, a, big) && ReadsAs(q, v.second, b, big)
    ensures ReadsAs(p + q, v, Pair(a, b), big)
  {
    assert (p + q)[..|p|] == p && (p + q)[|p|..] == q;
    assert PairReadAt(p + q, |p|, v, a, b, big);
  }

  lemma {:induction false} ManyRead(s: seq<Byte>, kind: Kind, elem: Type, big: bool, v: Val, rest: seq<Byte>)
    returns (taken: seq<Byte>)
    requires Unpack(s, Many(kind, elem), big) == Got(v, rest)
    ensures s == taken + rest && ReadsAs(taken, v, Many(kind, elem), big)
    decreases Many(kind, elem), 0, -1
  {
    var count, mid := CountParts(s, kind, elem, big, v, rest);
    var xs, p := ManyMoreRead(mid, kind, elem, count, [], big, v.items, rest);
    taken := s[..4] + p;
    Regroup(s[..4], p, rest);
    CollectedAll(xs, kind);
    ManyOf(s[..4], p, xs, v, kind, elem, big);
  }

  lemma CountParts(s: seq<Byte>, kind: Kind, elem: Type, big: bool, v: Val, rest: seq<Byte>)
    returns (count: nat, mid: seq<Byte>)
    requires Unpack(s, Many(kind, elem), big) == Got(v, rest)
    ensures v.Items? && |s| >= 4 && s == s[..4] + mid && count < WORD && IsNumber(s[..4], count, 4, big)
    ensures UnpackMany(mid, kind, elem, count, [], big) == Got(v.items, rest)
  {
    count, mid := Get(s[..4], big), s[4..];
    BoundValues();
    PutBack(s, 4, big);
  }

  lemma ManyOf(n: seq<Byte>, p: seq<Byte>, xs: seq<Val>, v: Val, kind: Kind, elem: Type, big: bool)
    requires |n| == 4 && v.Items? && |xs| < WORD && IsNumber(n, |xs|, 4, big) && ReadsAll(p, xs, elem, big)
    requires Collected(v.items, xs, kind)
    ensures ReadsAs(n + p, v, Many(kind, elem), big)
  {
    assert (n + p)[..4] == n && (n + p)[4..] == p;
    assert ItemsRead(n + p, xs, v.items, kind, elem, big);
  }

  lemma {:induction false} ManyMoreRead(s: seq<Byte>, kind: Kind, elem: Type, count: nat, done: seq<Val>, big: bool,
                                        items: seq<Val>, rest: seq<Byte>)
    returns (xs: seq<Val>, taken: seq<Byte>)
    requires UnpackMany(s, kind, elem, count, done, big) == Got(items, rest)
    ensures s == taken + rest && |xs| == count && ReadsAll(taken, xs, elem, big)
    ensures items == Inserted(done, xs, kind)
    decreases elem, 1, count
  {
    if count == 0 {
      xs, taken := [], [];
      assert [] + rest == rest;
    } else {
      var x, mid := ManyParts(s, kind, elem, count, done, big, items, rest);
      var p := UnpackReads(s, elem, big, x, mid);
      var ys, q := ManyMoreRead(mid, kind, elem, count - 1, Insert(done, x, kind), big, items, rest);
      xs, taken := [x] + ys, p + q;
      Regroup(p, q, rest);
      InsertedFirst(done, x, ys, kind);
      AllOf(p, q, x, ys, elem, big);
    }
  }

  lemma InsertedFirst(done: seq<Val>, x: Val, ys: seq<Val>, kind: Kind)
    ensures Inserted(done, [x] + ys, kind) == Inserted(Insert(done, x, kind), ys, kind)
  {
    assert ([x] + ys)[1..] == ys;
  }

  lemma ManyParts(s: seq<Byte>, kind: Kind, elem: Type, count: nat, done: seq<Val>, big: bool, items: seq<Val>,
                  rest: seq<Byte>) returns (x: Val, mid: seq<Byte>)
    requires count > 0 && UnpackMany(s, kind, elem, count, done, big) == Got(items, rest)
    ensures Unpack(s, elem, big) == Got(x, mid)
    ensures UnpackMany(mid, kind, elem, count - 1, Insert(done, x, kind), big) == Got(items, rest)
  {
    var r := Unpack(s, elem, big);
    x, mid := r.value, r.rest;
  }

  lemma AllOf(p: seq<Byte>, q: seq<Byte>, x: Val, ys: seq<Val>, elem: Type, big: bool)
    requires ReadsAs(p, x, elem, big) && ReadsAll(q, ys, elem, big)
    ensures ReadsAll(p + q, [x] + ys, elem, big)
  {
    assert (p + q)[..|p|] == p && (p + q)[|p|..] == q && ([x] + ys)[1..] == ys;
    assert ReadsAt(p + q, |p|, [x] + ys, elem, big);
  }

  /** Bytes that read as `v`, followed by anything, are taken as `v`, and exactly those. */
  lemma {:induction false} ReadsUnpack(s: seq<Byte>, v: Val, t: Type, big: bool, rest: seq<Byte>)
    requires ReadsAs(s, v, t, big)
    ensures Unpack(s + rest, t, big) == Got(v, rest)
    decreases t, 0, 0
  {
    match t
    case Pair(a, b) => PairUnpack(s, v, a, b, big, rest);
    case Many(kind, elem) => ManyUnpack(s, v, kind, elem, big, rest);
    case _ => LeafUnpack(s, v, t, big, rest);
  }

  lemma LeafUnpack(s: seq<Byte>, v: Val, t: Type, big: bool, rest: seq<Byte>)
    requires ReadsAs(s, v, t, big) && !t.Pair? && !t.Many?
    ensures Unpack(s + rest, t, big) == Got(v, rest)
  {
    match t
    case Unsigned(w) => UnsignedUnpack(s, v.n, w, big, rest);
    case Signed(w) => SignedUnpack(s, v.n, w, big, rest);
    case Boolean => assert (s + rest)[1..] == rest;
    case Str16 => TextUnpack(s, v.bytes, 2, big, rest);
    case Str32 => TextUnpack(s, v.bytes, 4, big, rest);
  }

  lemma UnsignedUnpack(s: seq<Byte>, n: nat, w: nat, big: bool, rest: seq<Byte>)
    requires n < Bound(w) && IsNumber(s, n, w, big)
    ensures Unpack(s + rest, Unsigned(w), big) == Got(Num(n), rest)
  {
    NumberBytes(s, n, w, big);
    NumRoundTrip(n, w, big, rest);
  }

  lemma SignedUnpack(s: seq<Byte>, n: int, w: nat, big: bool, rest: seq<Byte>)
    requires HasType(Num(n), Signed(w)) && IsNumber(s, n, w, big)
    ensures Unpack(s + rest, Signed(w), big) == Got(Num(n), rest)
  {
    SignedBytes(s, n, w, big);
    SignedRoundTrip(n, w, big, rest);
  }

  lemma {:induction false} PairUnpack(s: seq<Byte>, v: Val, a: Type, b: Type, big: bool, rest: seq<Byte>)
    requires ReadsAs(s, v, Pair(a, b), big)
    ensures Unpack(s + rest, Pair(a, b), big) == Got(v, rest)
    decreases Pair(a, b), 0, -1
  {
    var k :| 0 <= k <= |s| && PairReadAt(s, k, v, a, b, big);
    ReadsUnpack(s[..k], v.first, a, big, s[k..] + rest);
    ReadsUnpack(s[k..], v.second, b, big, rest);
    Joined(s, k, rest);
    UnpackedPair(s + rest, v, a, b, big, s[k..] + rest, rest);
  }

  lemma UnpackedPair(s: seq<Byte>, v: Val, a: Type, b: Type, big: bool, mid: seq<Byte>, rest: seq<Byte>)
    requires v.Both? && Unpack(s, a, big) == Got(v.first, mid) && Unpack(mid, b, big) == Got(v.second, rest)
    ensures Unpack(s, Pair(a, b), big) == Got(v, rest)
  {
  }

  lemma {:induction false} ManyUnpack(s: seq<Byte>, v: Val, kind: Kind, elem: Type, big: bool, rest: seq<Byte>)
    requires ReadsAs(s, v, Many(kind, elem), big)
    ensures Unpack(s + rest, Many(kind, elem), big) == Got(v, rest)
    decreases Many(kind, elem), 0, -1
  {
    var xs :| ItemsRead(s, xs, v.items, kind, elem, big);
    CountUnpack(s, |xs|, big, rest);
    ReadsUnpackAll(s[4..], xs, kind, elem, [], big, rest);
    CollectedAll(xs, kind);
    CollectedUnique(Inserted([], xs, kind), v.items, xs, kind);
  }

  lemma CountUnpack(s: seq<Byte>, n: nat, big: bool, rest: seq<Byte>)
    requires |s| >= 4 && n < WORD && IsNumber(s[..4], n, 4, big)
    ensures UnpackNum(s + rest, 4, big) == Got(n, s[4..] + rest)
  {
    NumberBytes(s[..4], n, 4, big);
    BoundValues();
    NumRoundTrip(n, 4, big, s[4..] + rest);
    Joined(s, 4, rest);
  }

  lemma TextUnpack(s: seq<Byte>, bytes: seq<Byte>, w: nat, big: bool, rest: seq<Byte>)
    requires IsText(s, bytes, w, big)
    ensures UnpackText(s + rest, w, big) == Got(Text(bytes), rest)
  {
    NumberBytes(s[..w], |bytes|, w, big);
    assert s == s[..w] + s[w..];
    TextRoundTrip(bytes, w, big, rest);
  }

  lemma Joined(s: seq<Byte>, k: nat, rest: seq<Byte>)
    requires k <= |s|
    ensures s + rest == s[..k] + (s[k..] + rest)
  {
  }

  lemma {:induction false} ReadsUnpackAll(s: seq<Byte>, xs: seq<Val>, kind: Kind, elem: Type, done: seq<Val>, big: bool,
                                          rest: seq<Byte>)
    requires ReadsAll(s, xs, elem, big)
    ensures UnpackMany(s + rest, kind, elem, |xs|, done, big) == Got(Inserted(done, xs, kind), rest)
    decreases elem, 1, |xs|
  {
    if xs == [] {
      assert [] + rest == rest;
    } else {
      var k :| 0 <= k <= |s| && ReadsAt(s, k, xs, elem, big);
      ReadsUnpack(s[..k], xs[0], elem, big, s[k..] + rest);
      ReadsUnpackAll(s[k..], xs[1..], kind, elem, Insert(done, xs[0], kind), big, rest);
      Joined(s, k, rest);
    }
  }

  /** `>>` on any input: it returns `v` and leaves `rest` exactly if what precedes `rest` reads as `v`. */
  lemma UnpackIff(s: seq<Byte>, t: Type, big: bool, v: Val, rest: seq<Byte>)
    ensures Unpack(s, t, big) == Got(v, rest) <==> exists taken :: s == taken + rest && ReadsAs(taken, v, t, big)
  {
    if Unpack(s, t, big) == Got(v, rest) {
      var taken := UnpackReads(s, t, big, v, rest);
    }
    if taken :| s == taken + rest && ReadsAs(taken, v, t, big) {
      ReadsUnpack(taken, v, t, big, rest);
    }
  }

  // ----- The order of the elements

  /** `a` is lexicographically before `b`: a strict prefix, or smaller where they first differ. */
  ghost predicate BytesBefore(a: seq<Byte>, b: seq<Byte>) {
    exists k :: 0 <= k <= |a| && k <= |b| && SplitsBefore(a, b, k)
  }

  ghost predicate SplitsBefore(a: seq<Byte>, b: seq<Byte>, k: nat)
    requires k <= |a| && k <= |b|
  {
    a[..k] == b[..k] && k < |b| && (k == |a| || a[k] < b[k])
  }

  ghost predicate ItemsBefore(a: seq<Val>, b: seq<Val>) {
    exists k :: 0 <= k <= |a| && k <= |b| && ItemsSplit(a, b, k)
  }

  ghost predicate ItemsSplit(a: seq<Val>, b: seq<Val>, k: nat)
    requires k <= |a| && k <= |b|
  {
    a[..k] == b[..k] && k < |b| && (k == |a| || Compare(a[k], b[k]) < 0)
  }

  lemma PrefixHead<T>(a: seq<T>, b: seq<T>)
    requires a != [] && b != []
    ensures forall k :: 0 < k <= |a| && k <= |b| && a[..k] == b[..k] ==> a[0] == b[0]
  {
    forall k | 0 < k <= |a| && k <= |b| && a[..k] == b[..k] ensures a[0] == b[0] {
      assert a[..k][0] == b[..k][0];
    }
  }

  lemma {:induction false} BytesBeforeIff(a: seq<Byte>, b: seq<Byte>)
    ensures CompareBytes(a, b) < 0 <==> BytesBefore(a, b)
  {
    if a == [] || b == [] {
      if b != [] {
        assert SplitsBefore(a, b, 0);
      }
    } else if a[0] != b[0] {
      if a[0] < b[0] {
        assert SplitsBefore(a, b, 0);
      }
      PrefixHead(a, b);
    } else {
      BytesBeforeIff(a[1..], b[1..]);
      if k :| 0 <= k <= |a[1..]| && k <= |b[1..]| && SplitsBefore(a[1..], b[1..], k) {
        assert a[..k + 1] == [a[0]] + a[1..][..k] && b[..k + 1] == [b[0]] + b[1..][..k];
        assert SplitsBefore(a, b, k + 1);
      }
      if k :| 0 <= k <= |a| && k <= |b| && SplitsBefore(a, b, k) {
        assert k > 0;
        assert a[1..][..k - 1] == a[..k][1..] && b[1..][..k - 1] == b[..k][1..];
        assert SplitsBefore(a[1..], b[1..], k - 1);
      }
    }
  }

  lemma {:induction false} ItemsBeforeIff(a: seq<Val>, b: seq<Val>)
    ensures CompareItems(a, b) < 0 <==> ItemsBefore(a, b)
  {
    if a == [] || b == [] {
      if b != [] {
        assert ItemsSplit(a, b, 0);
      }
    } else {
      CompareEq(a[0], b[0]);
      if a[0] != b[0] {
        if Compare(a[0], b[0]) < 0 {
          assert ItemsSplit(a, b, 0);
        }
        PrefixHead(a, b);
      } else {
        ItemsBeforeIff(a[1..], b[1..]);
        if k :| 0 <= k <= |a[1..]| && k <= |b[1..]| && ItemsSplit(a[1..], b[1..], k) {
          assert a[..k + 1] == [a[0]] + a[1..][..k] && b[..k + 1] == [b[0]] + b[1..][..k];
          assert ItemsSplit(a, b, k + 1);
        }
        if k :| 0 <= k <= |a| && k <= |b| && ItemsSplit(a, b, k) {
          assert k > 0;
          assert a[1..][..k - 1] == a[..k][1..] && b[1..][..k - 1] == b[..k][1..];
          assert ItemsSplit(a[1..], b[1..], k - 1);
        }
      }
    }
  }

  /** `Compare` is the order of `operator<`: by value for numbers, false before true, lexicographic for strings, pairs
      and containers. */
  lemma OrderIs(a: Val, b: Val, t: Type)
    requires HasType(a, t) && HasType(b, t)
    ensures a.Num? ==> (Compare(a, b) < 0 <==> a.n < b.n)
    ensures a.Flag? ==> (Compare(a, b) < 0 <==> !a.b && b.b)
    ensures a.Text? ==> (Compare(a, b) < 0 <==> BytesBefore(a.bytes, b.bytes))
    ensures a.Both? ==>
      (Compare(a, b) < 0 <==>
         Compare(a.first, b.first) < 0 || (a.first == b.first && Compare(a.second, b.second) < 0))
    ensures a.Items? ==> (Compare(a, b) < 0 <==> ItemsBefore(a.items, b.items))
  {
    match (a, b)
    case (Text(s), Text(u)) => BytesBeforeIff(s, u);
    case (Both(m, n), Both(x, y)) => CompareEq(m, x);
    case (Items(xs), Items(ys)) => ItemsBeforeIff(xs, ys);
    case _ =>
  }
}
