/** The container codec of `Pack` and `Unpack` (utils/packet.h): integers, strings, pairs and nested standard
    containers, in either byte order. */
module Packet {
  import opened Util
  import opened Wire
  import ByteBuffers

  datatype Kind = Sequence | Set | Map

  /** The static type that selects the overload of `<<` and `>>`. The source has integers of 1, 2, 4 and 8 bytes; the
      elements of a map are pairs. */
  datatype Type =
    | Unsigned(width: nat)
    | Signed(width: nat)
    | Boolean
    | Str16
    | Str32
    | Pair(first: Type, second: Type)
    | Many(kind: Kind, elem: Type)

  /** A value. A set or a map is the list of its elements in iteration order. */
  datatype Val =
    | Num(n: int)
    | Flag(b: bool)
    | Text(bytes: seq<Byte>)
    | Both(first: Val, second: Val)
    | Items(items: seq<Val>)

  ghost predicate HasType(v: Val, t: Type)
    decreases t
  {
    match t
    case Unsigned(w) => v.Num? && 0 <= v.n < Bound(w)
    case Signed(w) => v.Num? && 0 <= 2 * v.n + Bound(w) < 2 * Bound(w)
    case Boolean => v.Flag?
    case Str16 => v.Text?
    case Str32 => v.Text?
    case Pair(a, b) => v.Both? && HasType(v.first, a) && HasType(v.second, b)
    case Many(kind, elem) =>
      && v.Items? && |v.items| < WORD && (forall x <- v.items :: HasType(x, elem))
      && (kind.Sequence? || Ascending(v.items, kind))
  }

  // ----- The order of `std::less` and ordered insertion

  function Sign(i: int): (r: int) {
    if i < 0 then -1 else if i > 0 then 1 else 0
  }

  function Tag(v: Val): (r: int) {
    match v case Num(_) => 0 case Flag(_) => 1 case Text(_) => 2 case Both(_, _) => 3 case Items(_) => 4
  }

  function CompareBytes(a: seq<Byte>, b: seq<Byte>): (r: int) {
    if a == [] || b == [] then Sign(|a| - |b|)
    else if a[0] != b[0] then if a[0] < b[0] then -1 else 1
    else CompareBytes(a[1..], b[1..])
  }

  /** Negative, zero or positive as `a` comes before, is or comes after `b`. Values of one type are ordered as
      `operator<` orders them; the order between types is never used. */
  function Compare(a: Val, b: Val): (r: int)
    decreases a
  {
    match (a, b)
    case (Num(m), Num(n)) => Sign(m - n)
    case (Flag(p), Flag(q)) => if p == q then 0 else if p then 1 else -1
    case (Text(s), Text(u)) => CompareBytes(s, u)
    case (Both(m, n), Both(x, y)) => if Compare(m, x) != 0 then Compare(m, x) else Compare(n, y)
    case (Items(xs), Items(ys)) => CompareItems(xs, ys)
    case _ => Sign(Tag(a) - Tag(b))
  }

  function CompareItems(a: seq<Val>, b: seq<Val>): (r: int)
    decreases a
  {
    if a == [] || b == [] then Sign(|a| - |b|)
    else if Compare(a[0], b[0]) != 0 then Compare(a[0], b[0])
    else CompareItems(a[1..], b[1..])
  }

  lemma {:induction false} BytesOrder(a: seq<Byte>, b: seq<Byte>, c: seq<Byte>)
    ensures CompareBytes(a, b) == 0 <==> a == b
    ensures CompareBytes(a, b) == -CompareBytes(b, a)
    ensures CompareBytes(a, b) < 0 && CompareBytes(b, c) < 0 ==> CompareBytes(a, c) < 0
  {
    if a != [] && b != [] {
      assert a == [a[0]] + a[1..] && b == [b[0]] + b[1..];
      BytesOrder(a[1..], b[1..], if c == [] then [] else c[1..]);
    }
  }

  /** `Compare` is a strict total order: equality exactly at zero, antisymmetric and transitive. */
  lemma {:induction false} CompareEq(a: Val, b: Val)
    ensures Compare(a, b) == 0 <==> a == b
    ensures Compare(a, b) == -Compare(b, a)
    decreases a
  {
    match (a, b)
    case (Text(s), Text(u)) => BytesOrder(s, u, u);
    case (Both(m, n), Both(x, y)) =>
      CompareEq(m, x);
      CompareEq(n, y);
    case (Items(xs), Items(ys)) => CompareItemsEq(xs, ys);
    case _ =>
  }

  lemma {:induction false} CompareItemsEq(a: seq<Val>, b: seq<Val>)
    ensures CompareItems(a, b) == 0 <==> a == b
    ensures CompareItems(a, b) == -CompareItems(b, a)
    decreases a
  {
    if a != [] && b != [] {
      assert a == [a[0]] + a[1..] && b == [b[0]] + b[1..];
      CompareEq(a[0], b[0]);
      CompareItemsEq(a[1..], b[1..]);
    }
  }

  lemma {:induction false} CompareTrans(a: Val, b: Val, c: Val)
    requires Compare(a, b) < 0 && Compare(b, c) < 0
    ensures Compare(a, c) < 0
    decreases a
  {
    match (a, b, c)
    case (Text(s), Text(u), Text(w)) => BytesOrder(s, u, w);
    case (Both(m, n), Both(x, y), Both(p, q)) =>
      CompareEq(m, x);
      CompareEq(x, p);
      if Compare(m, x) < 0 && Compare(x, p) < 0 {
        CompareTrans(m, x, p);
      } else if m == x && x == p {
        CompareEq(m, p);
        CompareTrans(n, y, q);
      }
    case (Items(xs), Items(ys), Items(zs)) => CompareItemsTrans(xs, ys, zs);
    case _ =>
  }

  lemma {:induction false} CompareItemsTrans(a: seq<Val>, b: seq<Val>, c: seq<Val>)
    requires CompareItems(a, b) < 0 && CompareItems(b, c) < 0
    ensures CompareItems(a, c) < 0
    decreases a
  {
    if a != [] && b != [] && c != [] {
      CompareEq(a[0], b[0]);
      CompareEq(b[0], c[0]);
      if Compare(a[0], b[0]) < 0 && Compare(b[0], c[0]) < 0 {
        CompareTrans(a[0], b[0], c[0]);
      } else if a[0] == b[0] && b[0] == c[0] {
        CompareItemsTrans(a[1..], b[1..], c[1..]);
      }
    }
  }

  function Key(x: Val, kind: Kind): (k: Val) {
    if kind.Map? && x.Both? then x.first else x
  }

  predicate Before(x: Val, y: Val, kind: Kind) {
    Compare(Key(x, kind), Key(y, kind)) < 0
  }

  ghost predicate Ascending(items: seq<Val>, kind: Kind) {
    forall i, j :: 0 <= i < j < |items| ==> Before(items[i], items[j], kind)
  }

  /** Storing through the output iterator: append to a sequence; a set or map takes the element at its place unless
      the key is there already. */
  function Insert(items: seq<Val>, x: Val, kind: Kind): (r: seq<Val>) {
    if kind.Sequence? || items == [] then items + [x]
    else if Before(items[0], x, kind) then [items[0]] + Insert(items[1..], x, kind)
    else if Before(x, items[0], kind) then [x] + items
    else items
  }

  /** An element after all others goes last. */
  lemma {:induction false} InsertLast(items: seq<Val>, x: Val, kind: Kind)
    requires kind.Sequence? || forall y <- items :: Before(y, x, kind)
    ensures Insert(items, x, kind) == items + [x]
  {
    if !kind.Sequence? && items != [] {
      InsertLast(items[1..], x, kind);
      assert items == [items[0]] + items[1..];
    }
  }

  lemma LastOf(done: seq<Val>, items: seq<Val>, kind: Kind)
    requires items != [] && (kind.Sequence? || Ascending(done + items, kind))
    ensures kind.Sequence? || forall y <- done :: Before(y, items[0], kind)
  {
    if !kind.Sequence? {
      forall y <- done ensures Before(y, items[0], kind) {
        var i :| 0 <= i < |done| && done[i] == y;
        assert (done + items)[i] == y && (done + items)[|done|] == items[0];
      }
    }
  }

  /** Insertion adds `x` exactly if its key is new, and nothing else. */
  lemma {:induction false} InsertAdds(items: seq<Val>, x: Val, kind: Kind)
    requires !kind.Sequence? && Ascending(items, kind)
    ensures var added := forall y <- items :: Key(y, kind) != Key(x, kind);
      forall y :: y in Insert(items, x, kind) <==> y in items || (added && y == x)
    ensures |Insert(items, x, kind)| <= |items| + 1
  {
    if items != [] {
      var y, ys := items[0], items[1..];
      assert items == [y] + ys;
      CompareEq(Key(y, kind), Key(x, kind));
      if Before(y, x, kind) {
        InsertAdds(ys, x, kind);
      } else if Before(x, y, kind) {
        forall z <- items ensures Key(z, kind) != Key(x, kind) {
          BeforeAll(x, items, z, kind);
          CompareEq(Key(x, kind), Key(z, kind));
        }
      }
    }
  }

  lemma BeforeAll(x: Val, items: seq<Val>, z: Val, kind: Kind)
    requires items != [] && Ascending(items, kind) && Before(x, items[0], kind) && z in items
    ensures Before(x, z, kind)
  {
    if z != items[0] {
      CompareTrans(Key(x, kind), Key(items[0], kind), Key(z, kind));
    }
  }

  /** Insertion keeps a container ordered and free of duplicate keys. */
  lemma {:induction false} InsertKeepsOrder(items: seq<Val>, x: Val, kind: Kind)
    requires !kind.Sequence? && Ascending(items, kind)
    ensures Ascending(Insert(items, x, kind), kind)
  {
    if items != [] {
      var y, ys := items[0], items[1..];
      if Before(y, x, kind) {
        InsertKeepsOrder(ys, x, kind);
        InsertAdds(ys, x, kind);
        ConsAscending(y, Insert(ys, x, kind), kind);
      } else if Before(x, y, kind) {
        forall z <- items ensures Before(x, z, kind) {
          BeforeAll(x, items, z, kind);
        }
        ConsAscending(x, items, kind);
      }
    }
  }

  lemma ConsAscending(x: Val, items: seq<Val>, kind: Kind)
    requires Ascending(items, kind) && forall z <- items :: Before(x, z, kind)
    ensures Ascending([x] + items, kind)
  {
  }

  // ----- The codec as functions

  function Join(a: Option<seq<Byte>>, b: Option<seq<Byte>>): (r: Option<seq<Byte>>) {
    if a.Some? && b.Some? then Some(a.value + b.value) else None
  }

  lemma JoinAssoc(a: Option<seq<Byte>>, b: Option<seq<Byte>>, c: Option<seq<Byte>>)
    ensures Join(Join(a, b), c) == Join(a, Join(b, c))
  {
    if a.Some? && b.Some? && c.Some? {
      assert a.value + b.value + c.value == a.value + (b.value + c.value);
    }
  }

  function PackText(bytes: seq<Byte>, width: nat, big: bool): (r: Option<seq<Byte>>) {
    if |bytes| >= Bound(width) then None else Some(Put(|bytes|, width, big) + bytes)
  }

  /** The bytes that `p << v` appends; None is a PackError. */
  function Pack(v: Val, t: Type, big: bool): (r: Option<seq<Byte>>)
    requires HasType(v, t)
    decreases t, 0, 0
  {
    match t
    case Unsigned(w) => Some(Put(v.n, w, big))
    case Signed(w) => Some(Put(if v.n < 0 then v.n + Bound(w) else v.n, w, big))
    case Boolean => Some([if v.b then 1 else 0])
    case Str16 => PackText(v.bytes, 2, big)
    case Str32 => PackText(v.bytes, 4, big)
    case Pair(a, b) => Join(Pack(v.first, a, big), Pack(v.second, b, big))
    case Many(_, elem) => Join(Some(Put(|v.items|, 4, big)), PackAll(v.items, elem, big))
  }

  function PackAll(items: seq<Val>, t: Type, big: bool): (r: Option<seq<Byte>>)
    requires forall x <- items :: HasType(x, t)
    decreases t, 1, |items|
  {
    if items == [] then Some([]) else Join(Pack(items[0], t, big), PackAll(items[1..], t, big))
  }

  /** The result of `p >> v`: the value and what is left, or an exception. */
  datatype Parsed<T> = Fail | Got(value: T, rest: seq<Byte>)

  function UnpackNum(s: seq<Byte>, width: nat, big: bool): (r: Parsed<nat>) {
    if |s| < width then Fail else Got(Get(s[..width], big), s[width..])
  }

  function UnpackText(s: seq<Byte>, width: nat, big: bool): (r: Parsed<Val>) {
    var n := UnpackNum(s, width, big);
    if n.Fail? || |n.rest| < n.value then Fail else Got(Text(n.rest[..n.value]), n.rest[n.value..])
  }

  function Unpack(s: seq<Byte>, t: Type, big: bool): (r: Parsed<Val>)
    decreases t, 0, 0
  {
    match t
    case Unsigned(w) =>
      var n := UnpackNum(s, w, big);
      if n.Fail? then Fail else Got(Num(n.value), n.rest)
    case Signed(w) =>
      var n := UnpackNum(s, w, big);
      if n.Fail? then Fail
      else Got(Num(if 2 * n.value < Bound(w) then n.value else n.value - Bound(w)), n.rest)
    case Boolean => if s == [] then Fail else Got(Flag(s[0] != 0), s[1..])
    case Str16 => UnpackText(s, 2, big)
    case Str32 => UnpackText(s, 4, big)
    case Pair(a, b) =>
      var x := Unpack(s, a, big);
      if x.Fail? then Fail else
      var y := Unpack(x.rest, b, big);
      if y.Fail? then Fail else Got(Both(x.value, y.value), y.rest)
    case Many(kind, elem) =>
      var n := UnpackNum(s, 4, big);
      if n.Fail? then Fail else
      var xs := UnpackMany(n.rest, kind, elem, n.value, [], big);
      if xs.Fail? then Fail else Got(Items(xs.value), xs.rest)
  }

  /** Unpacks `count` more elements into a container that already holds `done`. */
  function UnpackMany(s: seq<Byte>, kind: Kind, elem: Type, count: nat, done: seq<Val>, big: bool)
    : (r: Parsed<seq<Val>>)
    decreases elem, 1, count
  {
    if count == 0 then Got(done, s) else
    var x := Unpack(s, elem, big);
    if x.Fail? then Fail else UnpackMany(x.rest, kind, elem, count - 1, Insert(done, x.value, kind), big)
  }

  // ----- Packing

  /** Every string fits its length field. */
  ghost predicate StringsFit(v: Val, t: Type)
    requires HasType(v, t)
    decreases t
  {
    match t
    case Str16 => |v.bytes| <= 0xFFFF
    case Str32 => |v.bytes| <= 0xFFFF_FFFF
    case Pair(a, b) => StringsFit(v.first, a) && StringsFit(v.second, b)
    case Many(_, elem) => forall x <- v.items :: StringsFit(x, elem)
    case _ => true
  }

  /** The number of bytes of the packed form. */
  ghost function SizeOf(v: Val, t: Type): (n: nat)
    requires HasType(v, t)
    decreases t, 0, 0
  {
    match t
    case Unsigned(w) => w
    case Signed(w) => w
    case Boolean => 1
    case Str16 => 2 + |v.bytes|
    case Str32 => 4 + |v.bytes|
    case Pair(a, b) => SizeOf(v.first, a) + SizeOf(v.second, b)
    case Many(_, elem) => 4 + SizeOfAll(v.items, elem)
  }

  ghost function SizeOfAll(items: seq<Val>, t: Type): (n: nat)
    requires forall x <- items :: HasType(x, t)
    decreases t, 1, |items|
  {
    if items == [] then 0 else SizeOf(items[0], t) + SizeOfAll(items[1..], t)
  }

  lemma {:induction false} PackSize(v: Val, t: Type, big: bool)
    requires HasType(v, t) && Pack(v, t, big).Some?
    ensures |Pack(v, t, big).value| == SizeOf(v, t)
    decreases t, 0, 0
  {
    match t
    case Pair(a, b) =>
      PackSize(v.first, a, big);
      PackSize(v.second, b, big);
    case Many(_, elem) => PackAllSize(v.items, elem, big);
    case _ =>
  }

  lemma {:induction false} PackAllSize(items: seq<Val>, t: Type, big: bool)
    requires (forall x <- items :: HasType(x, t)) && PackAll(items, t, big).Some?
    ensures |PackAll(items, t, big).value| == SizeOfAll(items, t)
    decreases t, 1, |items|
  {
    if items != [] {
      PackSize(items[0], t, big);
      PackAllSize(items[1..], t, big);
    }
  }

  /** What a buffer with this limit holds in the end; None is an exception. */
  function Kept(r: Option<seq<Byte>>, limit: nat): (k: Option<seq<Byte>>) {
    if r.Some? && |r.value| <= limit then r else None
  }

  /** Packing into a buffer succeeds exactly if every string fits its length field and the whole fits the limit. */
  lemma PackSucceeds(v: Val, t: Type, big: bool, limit: nat)
    requires HasType(v, t)
    ensures Kept(Pack(v, t, big), limit).Some? <==> StringsFit(v, t) && SizeOf(v, t) <= limit
  {
    StringsPack(v, t, big);
    if StringsFit(v, t) {
      PackSize(v, t, big);
    }
  }

  /** A PackError is thrown exactly for a string that is too long for its length field. */
  lemma {:induction false} StringsPack(v: Val, t: Type, big: bool)
    requires HasType(v, t)
    ensures Pack(v, t, big).Some? <==> StringsFit(v, t)
    decreases t, 0, 0
  {
    BoundValues();
    match t
    case Pair(a, b) =>
      StringsPack(v.first, a, big);
      StringsPack(v.second, b, big);
    case Many(_, elem) => PackAllSucceeds(v.items, elem, big);
    case _ =>
  }

  lemma {:induction false} PackAllSucceeds(items: seq<Val>, t: Type, big: bool)
    requires forall x <- items :: HasType(x, t)
    ensures PackAll(items, t, big).Some? <==> forall x <- items :: StringsFit(x, t)
    decreases t, 1, |items|
  {
    if items != [] {
      assert items == [items[0]] + items[1..];
      StringsPack(items[0], t, big);
      PackAllSucceeds(items[1..], t, big);
    }
  }

  // ----- Unpacking what was packed

  lemma NumRoundTrip(n: nat, width: nat, big: bool, rest: seq<Byte>)
    requires n < Bound(width)
    ensures UnpackNum(Put(n, width, big) + rest, width, big) == Got(n, rest)
  {
    RoundTrip(n, width, big);
    var s := Put(n, width, big) + rest;
    assert s[..width] == Put(n, width, big) && s[width..] == rest;
  }

  lemma TextRoundTrip(bytes: seq<Byte>, width: nat, big: bool, rest: seq<Byte>)
    requires |bytes| < Bound(width)
    ensures UnpackText(Put(|bytes|, width, big) + bytes + rest, width, big) == Got(Text(bytes), rest)
  {
    NumRoundTrip(|bytes|, width, big, bytes + rest);
    assert Put(|bytes|, width, big) + bytes + rest == Put(|bytes|, width, big) + (bytes + rest);
    assert (bytes + rest)[..|bytes|] == bytes && (bytes + rest)[|bytes|..] == rest;
  }

  /** Unpacking a packed value followed by anything gives the value back and leaves exactly what followed. */
  lemma {:induction false} UnpackPack(v: Val, t: Type, big: bool, rest: seq<Byte>)
    requires HasType(v, t) && Pack(v, t, big).Some?
    ensures Unpack(Pack(v, t, big).value + rest, t, big) == Got(v, rest)
    decreases t, 0, 0
  {
    match t
    case Pair(a, b) =>
      var x, y := Pack(v.first, a, big).value, Pack(v.second, b, big).value;
      assert x + y + rest == x + (y + rest);
      UnpackPack(v.first, a, big, y + rest);
      UnpackPack(v.second, b, big, rest);
    case Many(kind, elem) =>
      ManyHead(v.items, kind, elem, big, rest);
      UnpackPackAll([], v.items, kind, elem, big, rest);
    case _ => UnpackPackLeaf(v, t, big, rest);
  }

  lemma UnpackPackLeaf(v: Val, t: Type, big: bool, rest: seq<Byte>)
    requires HasType(v, t) && Pack(v, t, big).Some? && !t.Pair? && !t.Many?
    ensures Unpack(Pack(v, t, big).value + rest, t, big) == Got(v, rest)
  {
    match t
    case Unsigned(w) => NumRoundTrip(v.n, w, big, rest);
    case Signed(w) => SignedRoundTrip(v.n, w, big, rest);
    case Boolean => assert ([if v.b then 1 else 0] + rest)[1..] == rest;
    case Str16 => TextRoundTrip(v.bytes, 2, big, rest);
    case Str32 => TextRoundTrip(v.bytes, 4, big, rest);
  }

  lemma SignedRoundTrip(n: int, w: nat, big: bool, rest: seq<Byte>)
    requires HasType(Num(n), Signed(w))
    ensures Unpack(Pack(Num(n), Signed(w), big).value + rest, Signed(w), big) == Got(Num(n), rest)
  {
    NumRoundTrip(if n < 0 then n + Bound(w) else n, w, big, rest);
  }

  lemma ManyHead(items: seq<Val>, kind: Kind, elem: Type, big: bool, rest: seq<Byte>)
    requires |items| < WORD && (forall x <- items :: HasType(x, elem)) && PackAll(items, elem, big).Some?
    ensures [] + items == items
    ensures var body := PackAll(items, elem, big).value;
      UnpackNum(Put(|items|, 4, big) + body + rest, 4, big) == Got(|items|, body + rest)
  {
    var n, body := Put(|items|, 4, big), PackAll(items, elem, big).value;
    assert n + body + rest == n + (body + rest);
    BoundValues();
    NumRoundTrip(|items|, 4, big, body + rest);
  }

  lemma {:induction false} UnpackPackAll(done: seq<Val>, items: seq<Val>, kind: Kind, t: Type, big: bool,
                                         rest: seq<Byte>)
    requires (forall x <- items :: HasType(x, t)) && PackAll(items, t, big).Some?
    requires kind.Sequence? || Ascending(done + items, kind)
    ensures UnpackMany(PackAll(items, t, big).value + rest, kind, t, |items|, done, big) == Got(done + items, rest)
    decreases t, 1, |items|
  {
    if items == [] {
      assert [] + rest == rest && done + items == done;
    } else {
      var x, xs := items[0], items[1..];
      var after := PackAll(xs, t, big).value + rest;
      PackAllFirst(items, t, big, rest);
      UnpackPack(x, t, big, after);
      MoveOver(done, items);
      LastOf(done, items, kind);
      InsertLast(done, x, kind);
      UnpackPackAll(done + [x], xs, kind, t, big, rest);
    }
  }

  lemma PackAllFirst(items: seq<Val>, t: Type, big: bool, rest: seq<Byte>)
    requires items != [] && (forall x <- items :: HasType(x, t)) && PackAll(items, t, big).Some?
    ensures Pack(items[0], t, big).Some? && PackAll(items[1..], t, big).Some?
    ensures PackAll(items, t, big).value + rest
         == Pack(items[0], t, big).value + (PackAll(items[1..], t, big).value + rest)
  {
    var first, after := Pack(items[0], t, big).value, PackAll(items[1..], t, big).value;
    assert first + after + rest == first + (after + rest);
  }

  lemma MoveOver(done: seq<Val>, items: seq<Val>)
    requires items != []
    ensures done + items == (done + [items[0]]) + items[1..]
  {
  }

  // ----- Unpacking anything

  lemma NumExtends(s: seq<Byte>, width: nat, big: bool, more: seq<Byte>)
    requires UnpackNum(s, width, big).Got?
    ensures var r := UnpackNum(s, width, big);
      UnpackNum(s + more, width, big) == Got(r.value, r.rest + more) && |r.rest| + width == |s|
  {
    assert (s + more)[..width] == s[..width] && (s + more)[width..] == s[width..] + more;
  }

  lemma TextExtends(s: seq<Byte>, width: nat, big: bool, more: seq<Byte>)
    requires UnpackText(s, width, big).Got?
    ensures var r := UnpackText(s, width, big);
      UnpackText(s + more, width, big) == Got(r.value, r.rest + more)
  {
    NumExtends(s, width, big, more);
    var n := UnpackNum(s, width, big);
    assert (n.rest + more)[..n.value] == n.rest[..n.value];
    assert (n.rest + more)[n.value..] == n.rest[n.value..] + more;
  }

  /** Unpacking looks at no byte beyond those it takes: more input changes only what is left. */
  lemma {:induction false} UnpackExtends(s: seq<Byte>, t: Type, big: bool, more: seq<Byte>)
    requires Unpack(s, t, big).Got?
    ensures var r := Unpack(s, t, big);
      Unpack(s + more, t, big) == Got(r.value, r.rest + more)
    decreases t, 0, 0
  {
    match t
    case Pair(a, b) =>
      UnpackExtends(s, a, big, more);
      UnpackExtends(Unpack(s, a, big).rest, b, big, more);
    case Many(kind, elem) =>
      NumExtends(s, 4, big, more);
      var n := UnpackNum(s, 4, big);
      UnpackManyExtends(n.rest, kind, elem, n.value, [], big, more);
    case _ => UnpackLeafExtends(s, t, big, more);
  }

  lemma UnpackLeafExtends(s: seq<Byte>, t: Type, big: bool, more: seq<Byte>)
    requires Unpack(s, t, big).Got? && !t.Pair? && !t.Many?
    ensures var r := Unpack(s, t, big);
      Unpack(s + more, t, big) == Got(r.value, r.rest + more)
  {
    match t
    case Unsigned(_) => UnpackNumExtends(s, t, big, more);
    case Signed(_) => UnpackNumExtends(s, t, big, more);
    case Boolean => UnpackFlagExtends(s, big, more);
    case Str16 => UnpackTextExtends(s, t, 2, big, more);
    case Str32 => UnpackTextExtends(s, t, 4, big, more);
  }

  lemma UnpackNumExtends(s: seq<Byte>, t: Type, big: bool, more: seq<Byte>)
    requires (t.Unsigned? || t.Signed?) && Unpack(s, t, big).Got?
    ensures var r := Unpack(s, t, big);
      Unpack(s + more, t, big) == Got(r.value, r.rest + more)
  {
    NumExtends(s, t.width, big, more);
  }

  lemma UnpackFlagExtends(s: seq<Byte>, big: bool, more: seq<Byte>)
    requires Unpack(s, Boolean, big).Got?
    ensures var r := Unpack(s, Boolean, big);
      Unpack(s + more, Boolean, big) == Got(r.value, r.rest + more)
  {
    assert (s + more)[1..] == s[1..] + more;
  }

  lemma UnpackTextExtends(s: seq<Byte>, t: Type, width: nat, big: bool, more: seq<Byte>)
    requires Unpack(s, t, big).Got? && ((t == Str16 && width == 2) || (t == Str32 && width == 4))
    ensures var r := Unpack(s, t, big);
      Unpack(s + more, t, big) == Got(r.value, r.rest + more)
  {
    assert Unpack(s, t, big) == UnpackText(s, width, big);
    assert Unpack(s + more, t, big) == UnpackText(s + more, width, big);
    TextExtends(s, width, big, more);
  }

  lemma {:induction false} UnpackManyExtends(s: seq<Byte>, kind: Kind, elem: Type, count: nat, done: seq<Val>,
                                             big: bool, more: seq<Byte>)
    requires UnpackMany(s, kind, elem, count, done, big).Got?
    ensures var r := UnpackMany(s, kind, elem, count, done, big);
      UnpackMany(s + more, kind, elem, count, done, big) == Got(r.value, r.rest + more)
    decreases elem, 1, count
  {
    if count > 0 {
      UnpackExtends(s, elem, big, more);
      var x := Unpack(s, elem, big);
      UnpackManyExtends(x.rest, kind, elem, count - 1, Insert(done, x.value, kind), big, more);
    }
  }

  /** Every strict prefix of a packed value is rejected. */
  lemma PrefixRejected(v: Val, t: Type, big: bool, k: nat)
    requires HasType(v, t) && Pack(v, t, big).Some? && k < |Pack(v, t, big).value|
    ensures Unpack(Pack(v, t, big).value[..k], t, big) == Fail
  {
    var s := Pack(v, t, big).value;
    UnpackPack(v, t, big, []);
    assert s + [] == s && s[..k] + s[k..] == s;
    if Unpack(s[..k], t, big).Got? {
      UnpackExtends(s[..k], t, big, s[k..]);
    }
  }

  /** Packed values of one type cannot be confused, whatever follows them. */
  lemma PackInjective(v: Val, w: Val, t: Type, big: bool, r: seq<Byte>, q: seq<Byte>)
    requires HasType(v, t) && HasType(w, t) && Pack(v, t, big).Some? && Pack(w, t, big).Some?
    requires Pack(v, t, big).value + r == Pack(w, t, big).value + q
    ensures v == w && r == q
  {
    UnpackPack(v, t, big, r);
    UnpackPack(w, t, big, q);
  }

  /** Whatever the input, a value that is accepted has its type: numbers in range, sets and maps ordered and without
      duplicates. */
  lemma {:induction false} UnpackTyped(s: seq<Byte>, t: Type, big: bool)
    requires Unpack(s, t, big).Got?
    ensures HasType(Unpack(s, t, big).value, t)
    decreases t, 0, 0
  {
    match t
    case Pair(a, b) =>
      UnpackTyped(s, a, big);
      UnpackTyped(Unpack(s, a, big).rest, b, big);
    case Many(kind, elem) =>
      BoundValues();
      var n := UnpackNum(s, 4, big);
      UnpackManyTyped(n.rest, kind, elem, n.value, [], big);
    case _ =>
  }

  lemma {:induction false} UnpackManyTyped(s: seq<Byte>, kind: Kind, elem: Type, count: nat, done: seq<Val>, big: bool)
    requires UnpackMany(s, kind, elem, count, done, big).Got?
    requires (forall x <- done :: HasType(x, elem)) && (kind.Sequence? || Ascending(done, kind))
    ensures var r := UnpackMany(s, kind, elem, count, done, big).value;
      && (forall x <- r :: HasType(x, elem)) && (kind.Sequence? || Ascending(r, kind)) && |r| <= |done| + count
    decreases elem, 1, count
  {
    if count > 0 {
      UnpackTyped(s, elem, big);
      var x := Unpack(s, elem, big);
      if !kind.Sequence? {
        InsertKeepsOrder(done, x.value, kind);
        InsertAdds(done, x.value, kind);
      }
      UnpackManyTyped(x.rest, kind, elem, count - 1, Insert(done, x.value, kind), big);
    }
  }

  // ----- The operators themselves

  /** `Pack`: a serializer over a buffer of its own, which throws beyond its limit. */
  class Serializer {
    const buffer: ByteBuffers.ByteBuffer
    const big: bool

    ghost predicate Valid()
      reads this, buffer, buffer.data
    {
      buffer.Valid() && buffer.Doubling()
    }

    constructor (big: bool)
      ensures Valid() && fresh(buffer) && fresh(buffer.data) && buffer.Contents() == [] && this.big == big
      ensures buffer.limit == ByteBuffers.LIMIT
    {
      buffer := new ByteBuffers.ByteBuffer(true);
      this.big := big;
    }

    /** What a `<<` does: appends the bytes, or throws; then part of them may be in the buffer. */
    twostate predicate Appended(r: Option<seq<Byte>>, ok: bool)
      requires old(Valid())
      reads this, buffer, buffer.data
    {
      && Valid() && buffer.limit == old(buffer.limit) && (buffer.data == old(buffer.data) || fresh(buffer.data))
      && var kept := Kept(Join(Some(old(buffer.Contents())), r), buffer.limit);
      ok == kept.Some? && (ok ==> buffer.Contents() == kept.value)
    }

    method Write(bytes: seq<Byte>) returns (ok: bool)
      requires Valid()
      modifies buffer, buffer.data
      ensures Appended(Some(bytes), ok)
    {
      var o := buffer.Write(bytes);
      ok := o == ByteBuffers.Ok;
    }

    method PushText(bytes: seq<Byte>, width: nat) returns (ok: bool)
      requires Valid()
      modifies buffer, buffer.data
      ensures Appended(PackText(bytes, width, big), ok)
    {
      if |bytes| >= Bound(width) {
        return false;
      }
      JoinAssoc(Some(buffer.Contents()), Some(Put(|bytes|, width, big)), Some(bytes));
      ok := Write(Put(|bytes|, width, big));
      if ok {
        ok := Write(bytes);
      }
    }

    method Push(v: Val, t: Type) returns (ok: bool)
      requires Valid() && HasType(v, t)
      modifies buffer, buffer.data
      ensures Appended(Pack(v, t, big), ok)
      decreases t, 1, 0
    {
      match t
      case Pair(a, b) => ok := PushPair(v, a, b);
      case Many(_, elem) => ok := PushContainer(v.items, elem);
      case _ => ok := PushLeaf(v, t);
    }

    method PushLeaf(v: Val, t: Type) returns (ok: bool)
      requires Valid() && HasType(v, t) && !t.Pair? && !t.Many?
      modifies buffer, buffer.data
      ensures Appended(Pack(v, t, big), ok)
    {
      match t
      case Unsigned(_) => ok := PushUnsigned(v, t);
      case Signed(_) => ok := PushSigned(v, t);
      case Boolean => ok := PushFlag(v, t);
      case Str16 => ok := PushText(v.bytes, 2);
      case Str32 => ok := PushText(v.bytes, 4);
    }

    method PushUnsigned(v: Val, t: Type) returns (ok: bool)
      requires Valid() && t.Unsigned? && HasType(v, t)
      modifies buffer, buffer.data
      ensures Appended(Pack(v, t, big), ok)
    {
      ok := Write(Put(v.n, t.width, big));
    }

    method PushSigned(v: Val, t: Type) returns (ok: bool)
      requires Valid() && t.Signed? && HasType(v, t)
      modifies buffer, buffer.data
      ensures Appended(Pack(v, t, big), ok)
    {
      var u: nat := if v.n < 0 then v.n + Bound(t.width) else v.n;
      assert Pack(v, t, big) == Some(Put(u, t.width, big));
      ok := Write(Put(u, t.width, big));
    }

    method PushFlag(v: Val, t: Type) returns (ok: bool)
      requires Valid() && t.Boolean? && HasType(v, t)
      modifies buffer, buffer.data
      ensures Appended(Pack(v, t, big), ok)
    {
      ok := Write([if v.b then 1 else 0]);
    }

    method PushPair(v: Val, a: Type, b: Type) returns (ok: bool)
      requires Valid() && HasType(v, Pair(a, b))
      modifies buffer, buffer.data
      ensures Appended(Join(Pack(v.first, a, big), Pack(v.second, b, big)), ok)
      decreases Pair(a, b), 0, 0
    {
      JoinAssoc(Some(buffer.Contents()), Pack(v.first, a, big), Pack(v.second, b, big));
      ok := Push(v.first, a);
      if ok {
        ok := Push(v.second, b);
      }
    }

    /** `marshal_container`, and the composite forms that nest it: the count, then the elements. */
    method PushContainer(items: seq<Val>, elem: Type) returns (ok: bool)
      requires Valid() && forall x <- items :: HasType(x, elem)
      modifies buffer, buffer.data
      ensures Appended(Join(Some(Put(|items|, 4, big)), PackAll(items, elem, big)), ok)
      decreases elem, 4, 0
    {
      JoinAssoc(Some(buffer.Contents()), Some(Put(|items|, 4, big)), PackAll(items, elem, big));
      ok := Write(Put(|items|, 4, big));
      if ok {
        ok := PushAll(items, elem);
      }
    }

    method PushAll(items: seq<Val>, elem: Type) returns (ok: bool)
      requires Valid() && (forall x <- items :: HasType(x, elem)) && |buffer.Contents()| <= buffer.limit
      modifies buffer, buffer.data
      ensures Appended(PackAll(items, elem, big), ok)
      decreases elem, 3, 0
    {
      ghost var whole := Join(Some(buffer.Contents()), PackAll(items, elem, big));
      assert items[0..] == items;
      var i := 0;
      while i < |items|
        invariant i <= |items|
        invariant Valid() && buffer.limit == old(buffer.limit)
        invariant (buffer.data == old(buffer.data) || fresh(buffer.data)) && |buffer.Contents()| <= buffer.limit
        invariant Join(Some(buffer.Contents()), PackAll(items[i..], elem, big)) == whole
      {
        ok := PushItem(items, i, elem, whole);
        if !ok {
          return;
        }
        i := i + 1;
      }
      ok := true;
      assert buffer.Contents() + [] == buffer.Contents();
    }

    /** One turn of the loop. */
    method PushItem(items: seq<Val>, i: nat, elem: Type, ghost whole: Option<seq<Byte>>) returns (ok: bool)
      requires Valid() && i < |items| && forall x <- items :: HasType(x, elem)
      requires Join(Some(buffer.Contents()), PackAll(items[i..], elem, big)) == whole
      modifies buffer, buffer.data
      ensures Valid() && buffer.limit == old(buffer.limit)
      ensures buffer.data == old(buffer.data) || fresh(buffer.data)
      ensures ok ==> |buffer.Contents()| <= buffer.limit
      ensures ok ==> Join(Some(buffer.Contents()), PackAll(items[i + 1..], elem, big)) == whole
      ensures !ok ==> Kept(whole, buffer.limit).None?
      decreases elem, 2, 0
    {
      ghost var one := Join(Some(buffer.Contents()), Pack(items[i], elem, big));
      PackAllStep(buffer.Contents(), items, i, elem, big);
      KeptOnly(one, PackAll(items[i + 1..], elem, big), buffer.limit);
      ok := Push(items[i], elem);
    }
  }

  /** What does not fit with less does not fit with more. */
  lemma KeptOnly(a: Option<seq<Byte>>, b: Option<seq<Byte>>, limit: nat)
    ensures Kept(a, limit).None? ==> Kept(Join(a, b), limit).None?
  {
  }

  lemma PackAllStep(front: seq<Byte>, items: seq<Val>, i: nat, elem: Type, big: bool)
    requires i < |items| && forall x <- items :: HasType(x, elem)
    ensures Join(Some(front), PackAll(items[i..], elem, big))
         == Join(Join(Some(front), Pack(items[i], elem, big)), PackAll(items[i + 1..], elem, big))
  {
    assert items[i..][1..] == items[i + 1..];
    JoinAssoc(Some(front), Pack(items[i], elem, big), PackAll(items[i + 1..], elem, big));
  }

  /** `PacketToString`: a fresh serializer, with its limit of 64 MB. */
  method PacketToString(v: Val, t: Type) returns (r: Option<seq<Byte>>)
    requires HasType(v, t)
    ensures r == Kept(Pack(v, t, false), ByteBuffers.LIMIT)
  {
    var pack := new Serializer(false);
    var ok := pack.Push(v, t);
    r := if ok then Some(pack.buffer.data[pack.buffer.head..pack.buffer.tail]) else None;
    if Pack(v, t, false).Some? {
      assert [] + Pack(v, t, false).value == Pack(v, t, false).value;
    }
  }

  /** A vector of 20 million integers does not fit the buffer although it holds no string. */
  lemma LimitWithoutStrings(big: bool)
    ensures var v, t := Items(seq(20_000_000, i => Num(0))), Many(Sequence, Unsigned(4));
      HasType(v, t) && StringsFit(v, t) && Kept(Pack(v, t, big), ByteBuffers.LIMIT) == None
  {
    var v, t := Items(seq(20_000_000, i => Num(0))), Many(Sequence, Unsigned(4));
    forall x <- v.items ensures x == Num(0) {
    }
    SizeOfSame(v.items, 4);
    PackSucceeds(v, t, big, ByteBuffers.LIMIT);
  }

  lemma {:induction false} SizeOfSame(items: seq<Val>, w: nat)
    requires forall x <- items :: HasType(x, Unsigned(w))
    ensures SizeOfAll(items, Unsigned(w)) == w * |items|
    decreases |items|
  {
    if items != [] {
      SizeOfSame(items[1..], w);
      assert w * |items| == w + w * (|items| - 1);
    }
  }

  ghost predicate Popped<T>(r: Parsed<T>, got: Option<T>, rest: seq<Byte>) {
    if r.Fail? then got == None else got == Some(r.value) && rest == r.rest
  }

  method PopText(up: Deserializer, width: nat) returns (got: Option<Val>)
    modifies up
    ensures Popped(UnpackText(old(up.rest), width, up.big), got, up.rest)
  {
    var n := up.ReadUint(width);
    if n.None? {
      return None;
    }
    var bytes := up.Read(n.value);
    if bytes.None? {
      return None;
    }
    got := Some(Text(bytes.value));
  }

  method Pop(up: Deserializer, t: Type) returns (got: Option<Val>)
    modifies up
    ensures Popped(Unpack(old(up.rest), t, up.big), got, up.rest)
    decreases t, 0
  {
    match t
    case Unsigned(w) =>
      var n := up.ReadUint(w);
      got := if n.None? then None else Some(Num(n.value));
    case Signed(w) =>
      var n := up.ReadUint(w);
      got := if n.None? then None
        else Some(Num(if 2 * n.value < Bound(w) then n.value else n.value - Bound(w)));
    case Boolean =>
      var b := up.ReadByte();
      got := if b.None? then None else Some(Flag(b.value != 0));
    case Str16 => got := PopText(up, 2);
    case Str32 => got := PopText(up, 4);
    case Pair(a, b) =>
      var x := Pop(up, a);
      if x.None? {
        return None;
      }
      var y := Pop(up, b);
      got := if y.None? then None else Some(Both(x.value, y.value));
    case Many(kind, elem) =>
      var xs := PopContainer(up, kind, elem);
      got := if xs.None? then None else Some(Items(xs.value));
  }

  /** `unmarshal_container` into an empty container, and the composite forms that nest it. */
  method PopContainer(up: Deserializer, kind: Kind, elem: Type) returns (items: Option<seq<Val>>)
    modifies up
    ensures var n := UnpackNum(old(up.rest), 4, up.big);
      if n.Fail? then items == None
      else Popped(UnpackMany(n.rest, kind, elem, n.value, [], up.big), items, up.rest)
    decreases elem, 1
  {
    var n := up.ReadUint(4);
    if n.None? {
      return None;
    }
    var count, c := n.value, [];
    ghost var whole := UnpackMany(up.rest, kind, elem, count, c, up.big);
    while count > 0
      invariant UnpackMany(up.rest, kind, elem, count, c, up.big) == whole
    {
      UnpackManyStep(up.rest, kind, elem, count, c, up.big);
      var x := Pop(up, elem);
      if x.None? {
        return None;
      }
      c := Insert(c, x.value, kind);
      count := count - 1;
    }
    items := Some(c);
  }

  lemma UnpackManyStep(s: seq<Byte>, kind: Kind, elem: Type, count: nat, done: seq<Val>, big: bool)
    requires count > 0
    ensures var x := Unpack(s, elem, big);
      UnpackMany(s, kind, elem, count, done, big)
      == if x.Fail? then Fail else UnpackMany(x.rest, kind, elem, count - 1, Insert(done, x.value, kind), big)
  {
  }
}
