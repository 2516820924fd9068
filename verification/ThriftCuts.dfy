/** What `thrift::skip` makes of values that are cut off (utils/serializer.h:726-816). */
module ThriftCuts {
  import opened Util
  import opened Wire
  import opened Thrift

  /** Whatever is missing at the end of `v`, `skip` does not report success. */
  ghost predicate CutsNoticed(v: Value, big: bool) {
    forall k :: 0 <= k < |Encode(v, big)| ==> !Skip(Encode(v, big)[..k], TypeOf(v), big).Done?
  }

  /** For every kind of value, exactly when no cut goes unnoticed: always for a scalar or string, for a list or map if
      it has no elements or void ones, and for a struct if no field's cut-off bytes read as the end of the struct. */
  lemma CutNoticed(v: Value, big: bool)
    requires WellFormed(v) && (v.Struct? ==> SeesAll(v, big) && LandsInside(v, big))
    ensures CutsNoticed(v, big) <==>
      match v
      case List(_, elem, items) => items == [] || elem == T_VOID
      case Map(ktype, vtype, entries) => entries == [] || ktype == T_VOID || vtype == T_VOID
      case Struct(fields) => FieldsNoticed(fields, big)
      case _ => true
  {
    match v
    case List(_, _, _) => ListCut(v, big);
    case Map(_, _, _) => MapCut(v, big);
    case Text(_, _) => TextCut(v, big);
    case Struct(fields) => StructCut(fields, big);
    case _ =>
  }

  lemma TextCut(v: Value, big: bool)
    requires v.Text? && WellFormed(v)
    ensures CutsNoticed(v, big)
  {
    var s := Encode(v, big);
    forall k | 0 <= k < |s| ensures !Skip(s[..k], v.ftype, big).Done? {
      if k >= 4 {
        TextLength(v.bytes, k, big);
      }
    }
  }

  lemma TextLength(bytes: seq<Byte>, k: nat, big: bool)
    requires |bytes| < WORD && 4 <= k <= 4 + |bytes|
    ensures Get((Put(|bytes|, 4, big) + bytes)[..k][..4], big) == |bytes|
  {
    BoundValues();
    RoundTrip(|bytes|, 4, big);
    assert (Put(|bytes|, 4, big) + bytes)[..k][..4] == Put(|bytes|, 4, big);
  }

  lemma ListCut(v: Value, big: bool)
    requires v.List? && WellFormed(v)
    ensures CutsNoticed(v, big) <==> v.items == [] || v.elem == T_VOID
  {
    if v.items != [] && v.elem != T_VOID {
      ListCutMissed(v, big);
    } else {
      VoidItems(v.items, big);
      assert |Encode(v, big)| == 5;
    }
  }

  /** Cut off right behind its header, a list with elements is accepted. */
  lemma ListCutMissed(v: Value, big: bool)
    requires v.List? && WellFormed(v) && v.items != [] && v.elem != T_VOID
    ensures 5 < |Encode(v, big)| && Skip(Encode(v, big)[..5], v.ftype, big) == Done([])
  {
    var n, body := |v.items|, EncodeItems(v.items, big);
    var head := [v.elem] + Put(n, 4, big);
    NotEmpty(v.items[0], big);
    assert |body| >= |Encode(v.items[0], big)|;
    assert (head + body)[..5] == head;
    NothingLeft(v.items[0], big);
    ListHead(v.ftype, v.elem, n, [], [], big);
    assert head + [] + [] == head;
    NoItemsLeft(v.elem, n, big);
  }

  lemma MapCut(v: Value, big: bool)
    requires v.Map? && WellFormed(v)
    ensures CutsNoticed(v, big) <==> v.entries == [] || v.ktype == T_VOID || v.vtype == T_VOID
  {
    var n, body := |v.entries|, EncodeEntries(v.entries, big);
    var head := [v.ktype, v.vtype] + Put(n, 4, big);
    assert Encode(v, big) == head + body;
    if v.entries != [] && v.ktype != T_VOID && v.vtype != T_VOID {
      var e := v.entries[0];
      assert Encode(v, big)[..6] == head;
      NotEmpty(e.key, big);
      assert |body| >= |EncodeEntry(e, big)| >= |Encode(e.key, big)|;
      NothingLeft(e.key, big);
      NothingLeft(e.value, big);
      MapHead(v.ktype, v.vtype, n, [], [], big);
      assert head + [] + [] == head;
      NoEntriesLeft(v.ktype, v.vtype, n, big);
    } else {
      forall k | 0 <= k < |head + body| ensures !Skip((head + body)[..k], T_MAP, big).Done? {
        if k >= 6 {
          VoidMapCut(v.ktype, v.vtype, n, body, k, big);
        }
      }
    }
  }

  lemma VoidMapCut(ktype: Byte, vtype: Byte, n: nat, body: seq<Byte>, k: nat, big: bool)
    requires 0 < n < WORD && (ktype == T_VOID || vtype == T_VOID) && 6 <= k <= 6 + |body|
    ensures !Skip(([ktype, vtype] + Put(n, 4, big) + body)[..k], T_MAP, big).Done?
  {
    var head, part := [ktype, vtype] + Put(n, 4, big), body[..k - 6];
    assert (head + body)[..k] == head + part + [];
    MapHead(ktype, vtype, n, part, [], big);
    VoidEntries(part + [], ktype, vtype, n, big);
  }

  lemma VoidEntries(s: seq<Byte>, ktype: Byte, vtype: Byte, n: nat, big: bool)
    requires n > 0 && (ktype == T_VOID || vtype == T_VOID)
    ensures !SkipEntries(s, ktype, vtype, n, big).Done?
  {
  }

  lemma {:induction false} NoEntriesLeft(ktype: Byte, vtype: Byte, n: nat, big: bool)
    requires Skip([], ktype, big) == Short([]) && Skip([], vtype, big) == Short([])
    ensures SkipEntries([], ktype, vtype, n, big) == Done([])
  {
    if n > 0 {
      NoEntriesLeft(ktype, vtype, n - 1, big);
    }
  }

  lemma NotEmpty(x: Value, big: bool)
    requires WellFormed(x) && x != Void
    ensures |Encode(x, big)| > 0
  {
  }

  /** Every type but the empty ones notices that nothing is left. */
  lemma NothingLeft(x: Value, big: bool)
    requires WellFormed(x) && x != Void
    ensures Skip([], TypeOf(x), big) == Short([])
  {
  }

  lemma {:induction false} NoItemsLeft(t: Byte, n: nat, big: bool)
    requires Skip([], t, big) == Short([])
    ensures SkipItems([], t, n, big) == Done([])
  {
    if n > 0 {
      NoItemsLeft(t, n - 1, big);
    }
  }

  // ----- Structs

  /** What the field loop does with the first `j` bytes of the value `x` of a field and nothing behind them: the call
      for the field stops it, or it reads what that call leaves as further fields. */
  ghost function AfterCut(x: Value, j: nat, big: bool): (o: Outcome)
    requires j <= |Encode(x, big)|
  {
    var s := Encode(x, big)[..j];
    var o := Skip(s, TypeOf(x), big);
    if Stops(s, o) then Stopped(o) else SkipFields(o.rest, big)
  }

  ghost predicate FieldsNoticed(fields: seq<Field>, big: bool) {
    forall i, j :: 0 <= i < |fields| && 0 <= j < |Encode(fields[i].value, big)| ==>
      !AfterCut(fields[i].value, j, big).Done?
  }

  ghost predicate Steady(fields: seq<Field>, big: bool) {
    forall f <- fields :: WellFormed(f.value) && Visible(f.value, big) && Lands(f.value, big)
  }

  /** Where field `i` starts in the encoding. */
  function Offset(fields: seq<Field>, i: nat, big: bool): (n: nat)
    requires i <= |fields|
    decreases i
  {
    if i == 0 then 0 else |EncodeField(fields[0], big)| + Offset(fields[1..], i - 1, big)
  }

  /** The loop gets past a whole field, whatever follows. */
  ghost predicate Passable(f: Field, big: bool) {
    && TypeOf(f.value) != T_STOP
    && forall body: seq<Byte> :: SkipFields(EncodeField(f, big) + body, big) == SkipFields(body, big)
  }

  ghost predicate AllPassable(fields: seq<Field>, big: bool) {
    forall i :: 0 <= i < |fields| ==> Passable(fields[i], big)
  }

  lemma SteadyPassable(fields: seq<Field>, big: bool)
    requires Steady(fields, big)
    ensures AllPassable(fields, big)
  {
    forall i | 0 <= i < |fields| ensures Passable(fields[i], big) {
      FieldPassable(fields[i], big);
    }
  }

  lemma FieldPassable(f: Field, big: bool)
    requires WellFormed(f.value) && Visible(f.value, big) && Lands(f.value, big)
    ensures Passable(f, big)
  {
    forall body: seq<Byte> ensures SkipFields(EncodeField(f, big) + body, big) == SkipFields(body, big) {
      PastField(f, body, big);
    }
    FieldTaken(f, big, []);
  }

  lemma PastField(f: Field, body: seq<Byte>, big: bool)
    requires WellFormed(f.value) && Visible(f.value, big) && Lands(f.value, big)
    ensures SkipFields(EncodeField(f, big) + body, big) == SkipFields(body, big)
  {
    FieldTaken(f, big, body);
    FieldStep(f, big, body);
  }

  /** A struct cut off inside a field ends as the loop does from there. */
  lemma {:induction false} CutInField(fields: seq<Field>, i: nat, j: nat, k: nat, big: bool)
    requires AllPassable(fields, big) && i < |fields| && j < |Encode(fields[i].value, big)|
    requires k == Offset(fields, i, big) + 3 + j
    ensures k < |EncodeFields(fields, big)|
    ensures SkipFields(EncodeFields(fields, big)[..k], big) == AfterCut(fields[i].value, j, big)
    decreases i
  {
    OffsetWithin(fields, i, j, big);
    if i == 0 {
      CutFirst(fields, j, k, big);
    } else {
      var k' := k - |EncodeField(fields[0], big)|;
      LaterPassable(fields, big);
      CutInField(fields[1..], i - 1, j, k', big);
      CutLater(fields, k', k, big);
    }
  }

  lemma LaterPassable(fields: seq<Field>, big: bool)
    requires AllPassable(fields, big) && fields != []
    ensures AllPassable(fields[1..], big)
  {
    forall i | 0 <= i < |fields[1..]| ensures Passable(fields[1..][i], big) {
      assert fields[1..][i] == fields[i + 1];
    }
  }

  lemma CutFirst(fields: seq<Field>, j: nat, k: nat, big: bool)
    requires AllPassable(fields, big) && fields != [] && j < |Encode(fields[0].value, big)|
    requires k == 3 + j <= |EncodeFields(fields, big)|
    ensures SkipFields(EncodeFields(fields, big)[..k], big) == AfterCut(fields[0].value, j, big)
  {
    assert Passable(fields[0], big);
    FirstCut(fields[0], j, EncodeFields(fields[1..], big), big);
  }

  lemma CutLater(fields: seq<Field>, k': nat, k: nat, big: bool)
    requires AllPassable(fields, big) && fields != [] && k' <= |EncodeFields(fields[1..], big)|
    requires k == |EncodeField(fields[0], big)| + k'
    ensures k <= |EncodeFields(fields, big)|
    ensures SkipFields(EncodeFields(fields, big)[..k], big) == SkipFields(EncodeFields(fields[1..], big)[..k'], big)
  {
    assert Passable(fields[0], big);
    var head, body := EncodeField(fields[0], big), EncodeFields(fields[1..], big);
    assert EncodeFields(fields, big) == head + body;
    LaterCut(fields[0], head, k', k, body, big);
  }

  lemma {:induction false} OffsetWithin(fields: seq<Field>, i: nat, j: nat, big: bool)
    requires i < |fields| && j < |Encode(fields[i].value, big)|
    ensures Offset(fields, i, big) + 3 + j < |EncodeFields(fields, big)|
    decreases i
  {
    if i > 0 {
      OffsetWithin(fields[1..], i - 1, j, big);
    }
  }

  lemma FirstCut(f: Field, j: nat, body: seq<Byte>, big: bool)
    requires TypeOf(f.value) != T_STOP && j <= |Encode(f.value, big)|
    ensures SkipFields((EncodeField(f, big) + body)[..3 + j], big) == AfterCut(f.value, j, big)
  {
    var s := (EncodeField(f, big) + body)[..3 + j];
    assert s[3..] == Encode(f.value, big)[..j];
    assert s[0] == TypeOf(f.value);
  }

  lemma LaterCut(f: Field, head: seq<Byte>, k': nat, k: nat, body: seq<Byte>, big: bool)
    requires Passable(f, big) && head == EncodeField(f, big) && k' <= |body| && k == |head| + k'
    ensures SkipFields((head + body)[..k], big) == SkipFields(body[..k'], big)
  {
    assert (head + body)[..k] == head + body[..k'];
  }

  /** A cut that is not inside a value is between the parts of a field header. */
  lemma {:induction false} CutAnywhere(fields: seq<Field>, k: nat, big: bool)
    requires AllPassable(fields, big) && FieldsNoticed(fields, big) && k < |EncodeFields(fields, big)|
    ensures !SkipFields(EncodeFields(fields, big)[..k], big).Done?
    decreases |fields|
  {
    if fields != [] {
      var n := |EncodeField(fields[0], big)|;
      if k < 3 {
        HeaderCut(fields, k, big);
      } else if k < n {
        CutFirst(fields, k - 3, k, big);
        NoticedFirst(fields, k - 3, big);
      } else {
        CutLater(fields, k - n, k, big);
        NoticedLater(fields, big);
        LaterPassable(fields, big);
        CutAnywhere(fields[1..], k - n, big);
      }
    }
  }

  lemma HeaderCut(fields: seq<Field>, k: nat, big: bool)
    requires AllPassable(fields, big) && fields != [] && k < 3 && k < |EncodeFields(fields, big)|
    ensures !SkipFields(EncodeFields(fields, big)[..k], big).Done?
  {
    assert Passable(fields[0], big);
    var s := EncodeFields(fields, big)[..k];
    assert k > 0 ==> s[0] == TypeOf(fields[0].value);
  }

  lemma NoticedFirst(fields: seq<Field>, j: nat, big: bool)
    requires fields != [] && FieldsNoticed(fields, big) && j < |Encode(fields[0].value, big)|
    ensures !AfterCut(fields[0].value, j, big).Done?
  {
  }

  lemma NoticedLater(fields: seq<Field>, big: bool)
    requires fields != [] && FieldsNoticed(fields, big)
    ensures FieldsNoticed(fields[1..], big)
  {
    forall i, j | 0 <= i < |fields[1..]| && 0 <= j < |Encode(fields[1..][i].value, big)|
      ensures !AfterCut(fields[1..][i].value, j, big).Done?
    {
      assert fields[1..][i] == fields[i + 1];
    }
  }

  /** No strict prefix of the fields and the stop byte reads as a whole struct. */
  ghost predicate PrefixesNoticed(fields: seq<Field>, big: bool) {
    forall k :: 0 <= k < |EncodeFields(fields, big)| ==> !SkipFields(EncodeFields(fields, big)[..k], big).Done?
  }

  lemma FieldsCut(fields: seq<Field>, big: bool)
    requires Steady(fields, big)
    ensures PrefixesNoticed(fields, big) <==> FieldsNoticed(fields, big)
  {
    SteadyPassable(fields, big);
    if FieldsNoticed(fields, big) {
      forall k | 0 <= k < |EncodeFields(fields, big)| ensures !SkipFields(EncodeFields(fields, big)[..k], big).Done? {
        CutAnywhere(fields, k, big);
      }
    } else {
      var i: nat, j: nat :| i < |fields| && j < |Encode(fields[i].value, big)|
        && AfterCut(fields[i].value, j, big).Done?;
      CutInField(fields, i, j, Offset(fields, i, big) + 3 + j, big);
    }
  }

  lemma StructCut(fields: seq<Field>, big: bool)
    requires Steady(fields, big)
    ensures CutsNoticed(Struct(fields), big) <==> FieldsNoticed(fields, big)
  {
    FieldsCut(fields, big);
    SamePrefixes(fields, big);
  }

  lemma SamePrefixes(fields: seq<Field>, big: bool)
    ensures CutsNoticed(Struct(fields), big) <==> PrefixesNoticed(fields, big)
  {
    var v := Struct(fields);
    if CutsNoticed(v, big) {
      forall k | 0 <= k < |EncodeFields(fields, big)| ensures !SkipFields(EncodeFields(fields, big)[..k], big).Done? {
        assert !Skip(Encode(v, big)[..k], TypeOf(v), big).Done?;
      }
    } else {
      var k :| 0 <= k < |Encode(v, big)| && Skip(Encode(v, big)[..k], TypeOf(v), big).Done?;
      assert SkipFields(EncodeFields(fields, big)[..k], big).Done?;
    }
  }

  /** A scalar of two or more bytes that starts with a zero byte: cut off inside it, the struct counts as complete. */
  lemma ScalarCutMissed(fields: seq<Field>, i: nat, j: nat, k: nat, big: bool)
    requires Steady(fields, big) && i < |fields| && fields[i].value.Fixed?
    requires 1 <= j < |fields[i].value.raw| && fields[i].value.raw[0] == 0 && k == Offset(fields, i, big) + 3 + j
    ensures k < |EncodeFields(fields, big)|
    ensures SkipFields(EncodeFields(fields, big)[..k], big) == Done(fields[i].value.raw[1..j])
  {
    SteadyPassable(fields, big);
    CutInField(fields, i, j, k, big);
    AfterScalar(fields[i].value, j, big);
  }

  lemma AfterScalar(x: Value, j: nat, big: bool)
    requires x.Fixed? && WellFormed(x) && 1 <= j < |x.raw| && x.raw[0] == 0
    ensures AfterCut(x, j, big) == Done(x.raw[1..j])
  {
    assert Skip(x.raw[..j], x.ftype, big) == Short(x.raw[..j]);
    assert x.raw[..j][1..] == x.raw[1..j];
  }

  /** The same for a string of less than 16 MB in network byte order, cut off inside its length. */
  lemma StringCutMissed(fields: seq<Field>, i: nat, j: nat, k: nat)
    requires Steady(fields, true) && i < |fields| && fields[i].value.Text?
    requires 1 <= j < 4 && |fields[i].value.bytes| < 0x100_0000 && k == Offset(fields, i, true) + 3 + j
    ensures k < |EncodeFields(fields, true)| && SkipFields(EncodeFields(fields, true)[..k], true).Done?
  {
    SteadyPassable(fields, true);
    CutInField(fields, i, j, k, true);
    AfterString(fields[i].value, j);
  }

  lemma AfterString(x: Value, j: nat)
    requires x.Text? && WellFormed(x) && 1 <= j < 4 && |x.bytes| < 0x100_0000
    ensures AfterCut(x, j, true).Done?
  {
    var n := |x.bytes|;
    TopByte(n);
    var p := Put(n, 4, true)[..j];
    assert Encode(x, true)[..j] == p && p[0] == 0;
    assert Skip(p, x.ftype, true) == Short(p);
  }

  lemma TopByte(n: nat)
    requires n < 0x100_0000
    ensures Put(n, 4, true)[0] == 0
  {
    var s := LittleEndian(n, 4);
    assert s[1..] == LittleEndian(n / 256, 3);
    assert s[2..] == s[1..][1..] == LittleEndian(n / 256 / 256, 2);
    assert s[3..] == s[2..][1..] == LittleEndian(n / 256 / 256 / 256, 1);
    assert s[3] == s[3..][0];
  }

  /** A struct of one-byte scalars is safe. */
  lemma BytesNoticed(fields: seq<Field>, big: bool)
    requires forall f <- fields :: WellFormed(f.value) && f.value.Fixed? && |f.value.raw| == 1
    ensures CutsNoticed(Struct(fields), big)
  {
    forall i, j | 0 <= i < |fields| && 0 <= j < |Encode(fields[i].value, big)|
      ensures !AfterCut(fields[i].value, j, big).Done?
    {
      assert fields[i] in fields;
      assert Encode(fields[i].value, big)[..j] == [];
    }
    StructCut(fields, big);
  }
}
