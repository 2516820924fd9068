/** Thrift values and messages in the binary protocol (utils/serializer.h:690-962): `skip`, which steps over one value
    of a given type without decoding it, and the message framing that relies on it. */
module Thrift {
  import opened Util
  import opened Wire

  /** A value by its wire form. `Fixed` holds the raw bytes of a scalar, `Text` a string in any of its three types. */
  datatype Value =
    | Void
    | Fixed(ftype: Byte, raw: seq<Byte>)
    | Text(ftype: Byte, bytes: seq<Byte>)
    | List(ftype: Byte, elem: Byte, items: seq<Value>)
    | Map(ktype: Byte, vtype: Byte, entries: seq<Entry>)
    | Struct(fields: seq<Field>)
  datatype Entry = Entry(key: Value, value: Value)
  datatype Field = Field(id: nat, value: Value)

  const T_STOP: Byte := 0
  const T_VOID: Byte := 1
  const T_STRUCT: Byte := 12
  const T_MAP: Byte := 13

  /** The number of bytes of a scalar type; None for the other types. */
  function FixedWidth(t: Byte): (w: Option<nat>)
    ensures w.Some? ==> w.value in {1, 2, 4, 8}
  {
    if t == 2 || t == 3 then Some(1) else
    if t == 6 then Some(2) else
    if t == 8 then Some(4) else
    if t == 10 || t == 9 || t == 4 then Some(8) else None
  }

  predicate IsText(t: Byte) { t == 11 || t == 16 || t == 17 }

  predicate IsList(t: Byte) { t == 14 || t == 15 }

  function TypeOf(v: Value): (t: Byte) {
    match v
    case Void => T_VOID
    case Fixed(t, _) => t
    case Text(t, _) => t
    case List(t, _, _) => t
    case Map(_, _, _) => T_MAP
    case Struct(_) => T_STRUCT
  }

  ghost predicate WellFormed(v: Value) {
    match v
    case Void => true
    case Fixed(t, raw) => FixedWidth(t) == Some(|raw|)
    case Text(t, bytes) => IsText(t) && |bytes| < WORD
    case List(t, elem, items) =>
      IsList(t) && |items| < WORD && forall x <- items :: TypeOf(x) == elem && WellFormed(x)
    case Map(ktype, vtype, entries) =>
      |entries| < WORD
      && forall e <- entries ::
        TypeOf(e.key) == ktype && TypeOf(e.value) == vtype && WellFormed(e.key) && WellFormed(e.value)
    case Struct(fields) => forall f <- fields :: f.id < 0x1_0000 && WellFormed(f.value)
  }

  // ----- The encoding

  function Encode(v: Value, big: bool): (s: seq<Byte>)
    decreases v
  {
    match v
    case Void => []
    case Fixed(_, raw) => raw
    case Text(_, bytes) => Put(|bytes|, 4, big) + bytes
    case List(_, elem, items) => [elem] + Put(|items|, 4, big) + EncodeItems(items, big)
    case Map(ktype, vtype, entries) => [ktype, vtype] + Put(|entries|, 4, big) + EncodeEntries(entries, big)
    case Struct(fields) => EncodeFields(fields, big)
  }

  function EncodeItems(items: seq<Value>, big: bool): (s: seq<Byte>)
    decreases items
  {
    if items == [] then [] else Encode(items[0], big) + EncodeItems(items[1..], big)
  }

  function EncodeEntries(entries: seq<Entry>, big: bool): (s: seq<Byte>)
    decreases entries
  {
    if entries == [] then [] else
    EncodeEntry(entries[0], big) + EncodeEntries(entries[1..], big)
  }

  function EncodeEntry(e: Entry, big: bool): (s: seq<Byte>)
    decreases e
  {
    Encode(e.key, big) + Encode(e.value, big)
  }

  function EncodeFields(fields: seq<Field>, big: bool): (s: seq<Byte>)
    ensures |s| > 0
    decreases fields
  {
    if fields == [] then [T_STOP] else
    EncodeField(fields[0], big) + EncodeFields(fields[1..], big)
  }

  function EncodeField(f: Field, big: bool): (s: seq<Byte>)
    decreases f
  {
    [TypeOf(f.value)] + Put(f.id, 2, big) + Encode(f.value, big)
  }

  // ----- Skipping, as a function of the remaining bytes

  /** How a call of `skip` ends, with the bytes it leaves: by returning the number of bytes it took, by returning -1,
      or by an exception. */
  datatype Outcome = Done(rest: seq<Byte>) | Short(rest: seq<Byte>) | Thrown

  /** What the caller sees of a call on `s`. */
  function Code(s: seq<Byte>, o: Outcome): (code: int)
    requires !o.Thrown? && |o.rest| <= |s|
  {
    if o.Done? then AsInt(|s| - |o.rest|) else -1
  }

  /** Nested calls are checked by `!skip(..)`: a zero counts as a failure and -1 does not. */
  predicate Stops(s: seq<Byte>, o: Outcome) {
    o.Thrown? || (|o.rest| <= |s| && Code(s, o) == 0)
  }

  function Stopped(o: Outcome): (r: Outcome) {
    if o.Thrown? then Thrown else Short(o.rest)
  }

  function Skip(s: seq<Byte>, t: Byte, big: bool): (o: Outcome)
    ensures !o.Thrown? ==> |o.rest| <= |s|
    decreases |s|, 1, 0
  {
    if t == T_STOP || t == T_VOID then Done(s)
    else if FixedWidth(t).Some? then
      if |s| < FixedWidth(t).value then Short(s) else Done(s[FixedWidth(t).value..])
    else if IsText(t) then
      if |s| < 4 then Short(s) else
      var size := Get(s[..4], big);
      if |s| - 4 < size then Short(s[4..]) else Done(s[4..][size..])
    else if t == T_MAP then
      if |s| < 4 then Short(s)
      else if |s| < 6 then Thrown
      else SkipEntries(s[6..], s[0], s[1], Get(s[2..6], big), big)
    else if IsList(t) then
      if |s| < 5 then Short(s) else SkipItems(s[5..], s[0], Get(s[1..5], big), big)
    else if t == T_STRUCT then SkipFields(s, big)
    else Thrown
  }

  function SkipItems(s: seq<Byte>, t: Byte, num: nat, big: bool): (o: Outcome)
    ensures !o.Thrown? ==> |o.rest| <= |s|
    decreases |s|, 2, num
  {
    if num == 0 then Done(s) else
    var x := Skip(s, t, big);
    if Stops(s, x) then Stopped(x) else SkipItems(x.rest, t, num - 1, big)
  }

  function SkipEntries(s: seq<Byte>, ktype: Byte, vtype: Byte, num: nat, big: bool): (o: Outcome)
    ensures !o.Thrown? ==> |o.rest| <= |s|
    decreases |s|, 2, num
  {
    if num == 0 then Done(s) else
    var k := Skip(s, ktype, big);
    if Stops(s, k) then Stopped(k) else
    var v := Skip(k.rest, vtype, big);
    if Stops(k.rest, v) then Stopped(v) else SkipEntries(v.rest, ktype, vtype, num - 1, big)
  }

  function SkipFields(s: seq<Byte>, big: bool): (o: Outcome)
    ensures !o.Thrown? ==> |o.rest| <= |s|
    decreases |s|, 0, 0
  {
    if s == [] then Short(s)
    else if s[0] == T_STOP then Done(s[1..])
    else if |s| < 3 then Short(s[1..])
    else
      var x := Skip(s[3..], s[0], big);
      if Stops(s[3..], x) then Stopped(x) else SkipFields(x.rest, big)
  }

  /** The widths of the scalar types by their numbers: Booleans and bytes, i16, i32, then i64, u64 and double. */
  lemma TypeWidths(t: Byte)
    ensures FixedWidth(t) == Some(1) <==> t in {2, 3}
    ensures FixedWidth(t) == Some(2) <==> t == 6
    ensures FixedWidth(t) == Some(4) <==> t == 8
    ensures FixedWidth(t) == Some(8) <==> t in {4, 9, 10}
  {
  }

  /** A type that is none of these, and no string, list, set, map or struct, throws, also as the type of a field or of
      elements. */
  lemma UnknownTypeThrows(s: seq<Byte>, t: Byte, num: nat, big: bool)
    requires t !in {0, 1, 2, 3, 4, 6, 8, 9, 10, 11, 12, 13, 14, 15, 16, 17} && num > 0
    ensures Skip(s, t, big) == Thrown && SkipItems(s, t, num, big) == Thrown && SkipEntries(s, t, t, num, big) == Thrown
    ensures |s| >= 2 ==> SkipFields([t] + s, big) == Thrown
  {
    assert Skip(s, t, big) == Thrown;
    if |s| >= 2 {
      assert ([t] + s)[3..] == s[2..];
    }
  }

  // ----- Complete values

  /** The length of a nested value as its container sees it is not zero. */
  predicate Visible(v: Value, big: bool) {
    |Encode(v, big)| % WORD != 0
  }

  /** `skip` of `v` ends where `v` does: nothing nested in it looks empty to its container, except that a list or set
      of voids gives up without a byte to miss. */
  ghost predicate Lands(v: Value, big: bool) {
    match v
    case List(_, elem, items) => elem == T_VOID || forall x <- items :: Visible(x, big) && Lands(x, big)
    case Map(_, _, entries) =>
      forall e <- entries :: Visible(e.key, big) && Lands(e.key, big) && Visible(e.value, big) && Lands(e.value, big)
    case Struct(fields) => forall f <- fields :: Visible(f.value, big) && Lands(f.value, big)
    case _ => true
  }

  /** The same for the direct elements of `v`, which may look empty to `v` itself. */
  ghost predicate LandsInside(v: Value, big: bool) {
    match v
    case List(_, _, items) => forall x <- items :: Lands(x, big)
    case Map(_, _, entries) => forall e <- entries :: Lands(e.key, big) && Lands(e.value, big)
    case Struct(fields) => forall f <- fields :: Lands(f.value, big)
    case _ => true
  }

  /** No direct element of `v` looks empty to it. */
  ghost predicate SeesAll(v: Value, big: bool) {
    match v
    case List(_, _, items) => forall x <- items :: Visible(x, big)
    case Map(_, _, entries) => forall e <- entries :: Visible(e.key, big) && Visible(e.value, big)
    case Struct(fields) => forall f <- fields :: Visible(f.value, big)
    case _ => true
  }

  /** A call that ended with the cursor at `rest`, by success or by -1. */
  predicate Past(o: Outcome, rest: seq<Byte>) {
    !o.Thrown? && o.rest == rest
  }

  /** `skip` on a complete value takes exactly its encoding, whatever follows, if and only if no direct element looks
      empty to it; otherwise it gives up at that element, which is the end of the value for a list or set of voids. */
  lemma {:induction false} SkipTakesValue(v: Value, big: bool, rest: seq<Byte>)
    requires WellFormed(v) && LandsInside(v, big)
    ensures var o := Skip(Encode(v, big) + rest, TypeOf(v), big);
      && (if SeesAll(v, big) then o == Done(rest) else o.Short?)
      && (Lands(v, big) ==> Past(o, rest))
    decreases v, 1
  {
    match v
    case List(_, _, _) => ListTaken(v, big, rest);
    case Map(_, _, _) => MapTaken(v, big, rest);
    case Struct(fields) => FieldsTaken(fields, big, rest);
    case _ => LeafTaken(v, big, rest);
  }

  lemma {:induction false} ListTaken(v: Value, big: bool, rest: seq<Byte>)
    requires v.List? && WellFormed(v) && LandsInside(v, big)
    ensures var o := Skip(Encode(v, big) + rest, v.ftype, big);
      && (if SeesAll(v, big) then o == Done(rest) else o.Short?)
      && (Lands(v, big) ==> Past(o, rest))
    decreases v, 0
  {
    ListHead(v.ftype, v.elem, |v.items|, EncodeItems(v.items, big), rest, big);
    ItemsTaken(v.items, v.elem, big, rest);
    if v.elem == T_VOID {
      VoidItems(v.items, big);
      assert [] + rest == rest;
    }
  }

  lemma {:induction false} MapTaken(v: Value, big: bool, rest: seq<Byte>)
    requires v.Map? && WellFormed(v) && LandsInside(v, big)
    ensures var o := Skip(Encode(v, big) + rest, T_MAP, big);
      if SeesAll(v, big) then o == Done(rest) else o.Short?
    decreases v, 0
  {
    MapHead(v.ktype, v.vtype, |v.entries|, EncodeEntries(v.entries, big), rest, big);
    EntriesTaken(v.entries, v.ktype, v.vtype, big, rest);
  }

  lemma {:induction false} VoidItems(items: seq<Value>, big: bool)
    requires forall x <- items :: WellFormed(x) && TypeOf(x) == T_VOID
    ensures EncodeItems(items, big) == []
  {
    if items != [] {
      OnlyVoid(items[0]);
      VoidItems(items[1..], big);
    }
  }

  lemma OnlyVoid(x: Value)
    requires WellFormed(x) && TypeOf(x) == T_VOID
    ensures x == Void
  {
    match x case Fixed(_, _) => case _ =>
  }

  lemma LeafTaken(v: Value, big: bool, rest: seq<Byte>)
    requires WellFormed(v) && (v.Void? || v.Fixed? || v.Text?)
    ensures Skip(Encode(v, big) + rest, TypeOf(v), big) == Done(rest)
  {
    match v
    case Void =>
      assert [] + rest == rest;
    case Fixed(_, raw) =>
      assert (raw + rest)[|raw|..] == rest;
    case Text(t, bytes) =>
      TextTaken(t, bytes, big, rest);
  }

  lemma TextTaken(t: Byte, bytes: seq<Byte>, big: bool, rest: seq<Byte>)
    requires IsText(t) && |bytes| < WORD
    ensures Skip(Put(|bytes|, 4, big) + bytes + rest, t, big) == Done(rest)
  {
    var s := Put(|bytes|, 4, big) + bytes + rest;
    assert s == [] + Put(|bytes|, 4, big) + (bytes + rest);
    HeadRoundTrip(s, [], |bytes|, bytes + rest, big);
    assert s[..4] == s[0..4];
    assert (bytes + rest)[|bytes|..] == rest;
  }

  lemma ListHead(t: Byte, elem: Byte, n: nat, body: seq<Byte>, rest: seq<Byte>, big: bool)
    requires IsList(t) && n < WORD
    ensures Skip([elem] + Put(n, 4, big) + body + rest, t, big) == SkipItems(body + rest, elem, n, big)
  {
    var s := [elem] + Put(n, 4, big) + body + rest;
    assert s == [elem] + Put(n, 4, big) + (body + rest);
    HeadRoundTrip(s, [elem], n, body + rest, big);
  }

  lemma MapHead(ktype: Byte, vtype: Byte, n: nat, body: seq<Byte>, rest: seq<Byte>, big: bool)
    requires n < WORD
    ensures Skip([ktype, vtype] + Put(n, 4, big) + body + rest, T_MAP, big)
         == SkipEntries(body + rest, ktype, vtype, n, big)
  {
    var s := [ktype, vtype] + Put(n, 4, big) + body + rest;
    assert s == [ktype, vtype] + Put(n, 4, big) + (body + rest);
    HeadRoundTrip(s, [ktype, vtype], n, body + rest, big);
  }

  /** A header of types followed by a 32-bit count. */
  lemma HeadRoundTrip(s: seq<Byte>, types: seq<Byte>, n: nat, tail: seq<Byte>, big: bool)
    requires n < WORD && s == types + Put(n, 4, big) + tail
    ensures |s| >= |types| + 4 && s[..|types|] == types && s[|types| + 4..] == tail
    ensures Get(s[|types|..|types| + 4], big) == n
  {
    BoundValues();
    RoundTrip(n, 4, big);
    assert s[|types|..|types| + 4] == Put(n, 4, big);
  }

  /** What a container sees of one element: it goes on behind it, or stops at it if it looks empty. */
  lemma {:induction false} ElementTaken(x: Value, big: bool, after: seq<Byte>)
    requires WellFormed(x) && Lands(x, big)
    ensures var s := Encode(x, big) + after; var o := Skip(s, TypeOf(x), big);
      Past(o, after) && (Stops(s, o) <==> !Visible(x, big)) && (SeesAll(x, big) ==> o.Done?) && TypeOf(x) != T_STOP
    decreases x, 2
  {
    LandsDeep(x, big);
    SkipTakesValue(x, big, after);
    SeenBy(Encode(x, big), after);
  }

  /** A container stops at an element taken whole if its length looks like zero, and never at one given up. */
  lemma SeenBy(e: seq<Byte>, after: seq<Byte>)
    ensures Stops(e + after, Done(after)) <==> |e| % WORD == 0
    ensures !Stops(e + after, Short(after))
  {
  }

  lemma LandsDeep(x: Value, big: bool)
    requires WellFormed(x) && Lands(x, big)
    ensures LandsInside(x, big) && (!SeesAll(x, big) ==> Visible(x, big)) && TypeOf(x) != T_STOP
  {
    if x.List? && x.elem == T_VOID {
      VoidItems(x.items, big);
      forall y <- x.items ensures Lands(y, big) {
        OnlyVoid(y);
      }
    }
  }

  lemma {:induction false} ItemsTaken(items: seq<Value>, t: Byte, big: bool, rest: seq<Byte>)
    requires forall x <- items :: TypeOf(x) == t && WellFormed(x) && Lands(x, big)
    ensures var o := SkipItems(EncodeItems(items, big) + rest, t, |items|, big);
      if forall x <- items :: Visible(x, big) then o == Done(rest) else o.Short?
    decreases items
  {
    if items == [] {
      assert EncodeItems(items, big) + rest == rest;
    } else {
      var x, xs := items[0], items[1..];
      var after := EncodeItems(xs, big) + rest;
      assert EncodeItems(items, big) + rest == Encode(x, big) + after;
      ElementTaken(x, big, after);
      ItemsTaken(xs, t, big, rest);
      assert items == [x] + xs;
    }
  }

  lemma {:induction false} EntriesTaken(entries: seq<Entry>, ktype: Byte, vtype: Byte, big: bool, rest: seq<Byte>)
    requires forall e <- entries ::
      TypeOf(e.key) == ktype && TypeOf(e.value) == vtype && WellFormed(e.key) && WellFormed(e.value)
      && Lands(e.key, big) && Lands(e.value, big)
    ensures var o := SkipEntries(EncodeEntries(entries, big) + rest, ktype, vtype, |entries|, big);
      if forall e <- entries :: Visible(e.key, big) && Visible(e.value, big) then o == Done(rest) else o.Short?
    decreases entries
  {
    if entries == [] {
      assert EncodeEntries(entries, big) + rest == rest;
    } else {
      var e, es := entries[0], entries[1..];
      var after := EncodeEntries(es, big) + rest;
      EntriesCons(entries, big, rest);
      assert e in entries;
      EntryTaken(e, big, after);
      EntryStep(e, big, after, |entries|);
      EntriesTaken(es, ktype, vtype, big, rest);
      assert entries == [e] + es;
    }
  }

  lemma EntriesCons(entries: seq<Entry>, big: bool, rest: seq<Byte>)
    requires entries != []
    ensures EncodeEntries(entries, big) + rest
         == Encode(entries[0].key, big) + (Encode(entries[0].value, big) + (EncodeEntries(entries[1..], big) + rest))
  {
    var k, v, r := Encode(entries[0].key, big), Encode(entries[0].value, big), EncodeEntries(entries[1..], big);
    assert EncodeEntries(entries, big) == k + v + r;
    Regroup(k + v, r, rest);
    Regroup(k, v, r + rest);
  }

  /** One turn of the map loop. */
  lemma EntryStep(e: Entry, big: bool, after: seq<Byte>, num: nat)
    requires num > 0
    requires var k, v := Encode(e.key, big), Encode(e.value, big) + after;
      var o, p := Skip(k + v, TypeOf(e.key), big), Skip(v, TypeOf(e.value), big);
      && Past(o, v) && (Stops(k + v, o) <==> !Visible(e.key, big))
      && Past(p, after) && (Stops(v, p) <==> !Visible(e.value, big))
    ensures var t, u := TypeOf(e.key), TypeOf(e.value);
      var o := SkipEntries(Encode(e.key, big) + (Encode(e.value, big) + after), t, u, num, big);
      if Visible(e.key, big) && Visible(e.value, big) then o == SkipEntries(after, t, u, num - 1, big) else o.Short?
  {
  }

  lemma {:induction false} EntryTaken(e: Entry, big: bool, after: seq<Byte>)
    requires WellFormed(e.key) && WellFormed(e.value) && Lands(e.key, big) && Lands(e.value, big)
    ensures var k, v := Encode(e.key, big), Encode(e.value, big) + after;
      var o, p := Skip(k + v, TypeOf(e.key), big), Skip(v, TypeOf(e.value), big);
      && Past(o, v) && (Stops(k + v, o) <==> !Visible(e.key, big))
      && Past(p, after) && (Stops(v, p) <==> !Visible(e.value, big))
    decreases e
  {
    ElementTaken(e.key, big, Encode(e.value, big) + after);
    ElementTaken(e.value, big, after);
  }

  lemma {:induction false} FieldsTaken(fields: seq<Field>, big: bool, rest: seq<Byte>)
    requires forall f <- fields :: WellFormed(f.value) && Lands(f.value, big)
    ensures var o := SkipFields(EncodeFields(fields, big) + rest, big);
      if forall f <- fields :: Visible(f.value, big) then o == Done(rest) else o.Short?
    decreases fields
  {
    var s := EncodeFields(fields, big) + rest;
    if fields == [] {
      assert s[1..] == rest;
    } else {
      var f, fs := fields[0], fields[1..];
      var after := EncodeFields(fs, big) + rest;
      assert s == EncodeField(f, big) + after;
      FieldTaken(f, big, after);
      FieldStep(f, big, after);
      FieldsTaken(fs, big, rest);
      assert fields == [f] + fs;
    }
  }

  /** One turn of the field loop. */
  lemma FieldStep(f: Field, big: bool, after: seq<Byte>)
    requires var s := Encode(f.value, big) + after; var o := Skip(s, TypeOf(f.value), big);
      Past(o, after) && (Stops(s, o) <==> !Visible(f.value, big)) && TypeOf(f.value) != T_STOP
    ensures var o := SkipFields(EncodeField(f, big) + after, big);
      if Visible(f.value, big) then o == SkipFields(after, big) else o.Short?
  {
    var s := EncodeField(f, big) + after;
    assert s[3..] == Encode(f.value, big) + after;
  }

  lemma {:induction false} FieldTaken(f: Field, big: bool, after: seq<Byte>)
    requires WellFormed(f.value) && Lands(f.value, big)
    ensures var s := Encode(f.value, big) + after; var o := Skip(s, TypeOf(f.value), big);
      Past(o, after) && (Stops(s, o) <==> !Visible(f.value, big)) && TypeOf(f.value) != T_STOP
    decreases f
  {
    ElementTaken(f.value, big, after);
  }

  // ----- Values below 4 GB

  /** Voids occur in `v`, at any depth, only as elements of lists and sets. */
  ghost predicate VoidsInLists(v: Value) {
    match v
    case Void => false
    case List(_, elem, items) => elem == T_VOID || forall x <- items :: VoidsInLists(x)
    case Map(_, _, entries) => forall e <- entries :: VoidsInLists(e.key) && VoidsInLists(e.value)
    case Struct(fields) => forall f <- fields :: VoidsInLists(f.value)
    case _ => true
  }

  /** Below 4 GB, only void values are invisible. */
  lemma {:induction false} VoidsAreInvisible(v: Value, big: bool)
    requires WellFormed(v) && VoidsInLists(v) && |Encode(v, big)| < WORD
    ensures Visible(v, big) && Lands(v, big)
    decreases v, 1
  {
    match v
    case List(_, elem, items) =>
      if elem != T_VOID {
        forall x | x in items ensures Visible(x, big) && Lands(x, big) {
          var i :| 0 <= i < |items| && items[i] == x;
          ItemWithin(items, i, big);
          VoidsAreInvisible(x, big);
        }
      }
    case Map(_, _, entries) => VoidsInMap(v, big);
    case Struct(_) => VoidsInStruct(v, big);
    case _ =>
  }

  lemma {:induction false} VoidsInStruct(v: Value, big: bool)
    requires v.Struct? && WellFormed(v) && VoidsInLists(v) && |Encode(v, big)| < WORD
    ensures Visible(v, big) && Lands(v, big)
    decreases v, 0
  {
    forall f | f in v.fields ensures Visible(f.value, big) && Lands(f.value, big) {
      var i :| 0 <= i < |v.fields| && v.fields[i] == f;
      FieldWithin(v.fields, i, big);
      VoidsAreInvisible(f.value, big);
    }
  }

  lemma {:induction false} VoidsInMap(v: Value, big: bool)
    requires v.Map? && WellFormed(v) && VoidsInLists(v) && |Encode(v, big)| < WORD
    ensures Visible(v, big) && Lands(v, big)
    decreases v, 0
  {
    forall e | e in v.entries
      ensures Visible(e.key, big) && Lands(e.key, big) && Visible(e.value, big) && Lands(e.value, big)
    {
      var i :| 0 <= i < |v.entries| && v.entries[i] == e;
      EntryWithin(v.entries, i, big);
      VoidsAreInvisible(e.key, big);
      VoidsAreInvisible(e.value, big);
    }
  }

  lemma {:induction false} ItemWithin(items: seq<Value>, i: nat, big: bool)
    requires i < |items|
    ensures |Encode(items[i], big)| <= |EncodeItems(items, big)|
    decreases i
  {
    if i > 0 {
      ItemWithin(items[1..], i - 1, big);
    }
  }

  lemma {:induction false} EntryWithin(entries: seq<Entry>, i: nat, big: bool)
    requires i < |entries|
    ensures |Encode(entries[i].key, big)| + |Encode(entries[i].value, big)| <= |EncodeEntries(entries, big)|
    decreases i
  {
    if i > 0 {
      EntryWithin(entries[1..], i - 1, big);
    }
  }

  lemma {:induction false} FieldWithin(fields: seq<Field>, i: nat, big: bool)
    requires i < |fields|
    ensures |Encode(fields[i].value, big)| < |EncodeFields(fields, big)|
    decreases i
  {
    if i > 0 {
      FieldWithin(fields[1..], i - 1, big);
    }
  }

  /** `v` is itself a list or set with void elements. */
  predicate HoldsVoids(v: Value) {
    v.List? && v.elem == T_VOID && v.items != []
  }

  /** Hence the promise of `skip`: a complete value in which voids occur only as elements of lists and sets is stepped
      over, and its length returned exactly if it is not itself such a list; then -1 is returned at its end. */
  lemma SkipReturnsLength(v: Value, big: bool, rest: seq<Byte>)
    requires WellFormed(v) && VoidsInLists(v) && |Encode(v, big)| < 0x8000_0000
    ensures var s := Encode(v, big) + rest; var o := Skip(s, TypeOf(v), big);
      Past(o, rest) && Code(s, o) == if HoldsVoids(v) then -1 else |Encode(v, big)|
  {
    VoidsAreInvisible(v, big);
    ElementTaken(v, big, rest);
    if HoldsVoids(v) {
      VoidsGivenUp(v, big, rest);
    } else {
      LandsSees(v, big);
    }
  }

  lemma VoidsGivenUp(v: Value, big: bool, rest: seq<Byte>)
    requires WellFormed(v) && Lands(v, big) && HoldsVoids(v)
    ensures Skip(Encode(v, big) + rest, TypeOf(v), big).Short?
  {
    LandsDeep(v, big);
    SkipTakesValue(v, big, rest);
    VoidsUnseen(v, big);
  }

  lemma VoidsUnseen(v: Value, big: bool)
    requires WellFormed(v) && HoldsVoids(v)
    ensures !SeesAll(v, big)
  {
    OnlyVoid(v.items[0]);
    assert v.items[0] in v.items && !Visible(v.items[0], big);
  }

  lemma LandsSees(v: Value, big: bool)
    requires WellFormed(v) && Lands(v, big) && !HoldsVoids(v)
    ensures SeesAll(v, big)
  {
  }

  /** A list of one void is refused although nothing is missing, because a nested 0 is taken for a failure; a list of
      such lists is stepped over, because a nested -1 is not. */
  lemma VoidElementRefused(rest: seq<Byte>)
    ensures var v := List(15, T_VOID, [Void]); WellFormed(v) && Skip(Encode(v, true) + rest, 15, true) == Short(rest)
    ensures var w := List(15, 15, [List(15, T_VOID, [Void])]);
      WellFormed(w) && Skip(Encode(w, true) + rest, 15, true) == Done(rest)
  {
    var v := List(15, T_VOID, [Void]);
    var w := List(15, 15, [v]);
    assert WellFormed(v);
    assert EncodeItems([Void], true) == [] + EncodeItems([], true);
    assert |Encode(v, true)| == 5;
    SkipReturnsLength(v, true, rest);
    assert EncodeItems([v], true) == Encode(v, true) + EncodeItems([], true);
    assert |Encode(w, true)| == 10;
    SkipReturnsLength(w, true, rest);
  }

  // ----- The skipper itself, over a read cursor

  /** The result of a call on `s`: None is an exception. */
  ghost predicate Returns(s: seq<Byte>, o: Outcome, r: Option<int>, rest: seq<Byte>) {
    if o.Thrown? then r == None else |o.rest| <= |s| && r == Some(Code(s, o)) && rest == o.rest
  }

  method SkipValue(upk: Deserializer, t: Byte) returns (r: Option<int>)
    modifies upk
    ensures |upk.rest| <= old(|upk.rest|)
    ensures Returns(old(upk.rest), Skip(old(upk.rest), t, upk.big), r, upk.rest)
    decreases |upk.rest|, 1, 0
  {
    var size := |upk.rest|;
    var all;
    if t == T_MAP {
      all := SkipMap(upk);
    } else if IsList(t) {
      all := SkipList(upk, t);
    } else if t == T_STRUCT {
      all := FieldLoop(upk);
    } else {
      all := SkipLeaf(upk, t);
    }
    if all != Some(true) {
      return if all.None? then None else Some(-1);
    }
    r := Some(AsInt(size - |upk.rest|));
  }

  /** The cases without nested values. */
  method SkipLeaf(upk: Deserializer, t: Byte) returns (all: Option<bool>)
    requires t != T_MAP && !IsList(t) && t != T_STRUCT
    modifies upk
    ensures |upk.rest| <= old(|upk.rest|)
    ensures Leaves(Skip(old(upk.rest), t, upk.big), all, upk.rest)
  {
    all := Some(true);
    if t == T_STOP || t == T_VOID {
    } else if FixedWidth(t).Some? {
      if |upk.rest| < FixedWidth(t).value {
        return Some(false);
      }
      var _ := upk.Read(FixedWidth(t).value);
    } else if IsText(t) {
      if |upk.rest| < 4 {
        return Some(false);
      }
      var n := upk.ReadUint(4);
      if |upk.rest| < n.value {
        return Some(false);
      }
      var _ := upk.Read(n.value);
    } else {
      return None;
    }
  }

  /** How an element loop ends: by running to its end, by `return -1`, or by an exception. */
  ghost predicate Leaves(o: Outcome, all: Option<bool>, rest: seq<Byte>) {
    if o.Thrown? then all == None else all == Some(o.Done?) && rest == o.rest
  }

  method SkipMap(upk: Deserializer) returns (all: Option<bool>)
    modifies upk
    ensures |upk.rest| <= old(|upk.rest|)
    ensures Leaves(Skip(old(upk.rest), T_MAP, upk.big), all, upk.rest)
    decreases |upk.rest|, 0, 1
  {
    if |upk.rest| < 4 {
      return Some(false);
    }
    var ktype := upk.ReadByte();
    var vtype := upk.ReadByte();
    var num := upk.ReadUint(4);
    if num.None? {
      return None;
    }
    assert upk.rest == old(upk.rest[6..]) && old(upk.rest[1..][1..][..4]) == old(upk.rest[2..6]);
    all := EntryLoop(upk, ktype.value, vtype.value, num.value);
  }

  method SkipList(upk: Deserializer, t: Byte) returns (all: Option<bool>)
    requires IsList(t)
    modifies upk
    ensures |upk.rest| <= old(|upk.rest|)
    ensures Leaves(Skip(old(upk.rest), t, upk.big), all, upk.rest)
    decreases |upk.rest|, 0, 1
  {
    if |upk.rest| < 5 {
      return Some(false);
    }
    var vtype := upk.ReadByte();
    var num := upk.ReadUint(4);
    assert upk.rest == old(upk.rest[5..]) && old(upk.rest[1..][..4]) == old(upk.rest[1..5]);
    all := ItemLoop(upk, vtype.value, num.value);
  }

  method ItemLoop(upk: Deserializer, t: Byte, num: nat) returns (all: Option<bool>)
    modifies upk
    ensures |upk.rest| <= old(|upk.rest|)
    ensures Leaves(SkipItems(old(upk.rest), t, num, upk.big), all, upk.rest)
    decreases |upk.rest|, 2, num
  {
    var i := 0;
    while i < num
      invariant i <= num && |upk.rest| <= old(|upk.rest|)
      invariant SkipItems(old(upk.rest), t, num, upk.big) == SkipItems(upk.rest, t, num - i, upk.big)
    {
      var n := SkipValue(upk, t);
      if n.None? {
        return None;
      }
      if n.value == 0 {
        return Some(false);
      }
      i := i + 1;
    }
    all := Some(true);
  }

  method EntryLoop(upk: Deserializer, ktype: Byte, vtype: Byte, num: nat) returns (all: Option<bool>)
    modifies upk
    ensures |upk.rest| <= old(|upk.rest|)
    ensures Leaves(SkipEntries(old(upk.rest), ktype, vtype, num, upk.big), all, upk.rest)
    decreases |upk.rest|, 2, num
  {
    var i := 0;
    while i < num
      invariant i <= num && |upk.rest| <= old(|upk.rest|)
      invariant SkipEntries(old(upk.rest), ktype, vtype, num, upk.big)
             == SkipEntries(upk.rest, ktype, vtype, num - i, upk.big)
    {
      var k := SkipValue(upk, ktype);
      if k.None? {
        return None;
      }
      if k.value == 0 {
        return Some(false);
      }
      var v := SkipValue(upk, vtype);
      if v.None? {
        return None;
      }
      if v.value == 0 {
        return Some(false);
      }
      i := i + 1;
    }
    all := Some(true);
  }

  method FieldLoop(upk: Deserializer) returns (all: Option<bool>)
    modifies upk
    ensures |upk.rest| <= old(|upk.rest|)
    ensures Leaves(SkipFields(old(upk.rest), upk.big), all, upk.rest)
    decreases |upk.rest|, 0, 0
  {
    while true
      invariant |upk.rest| <= old(|upk.rest|)
      invariant SkipFields(old(upk.rest), upk.big) == SkipFields(upk.rest, upk.big)
      decreases |upk.rest|
    {
      if |upk.rest| < 1 {
        return Some(false);
      }
      var t := upk.ReadByte();
      if t.value == T_STOP {
        return Some(true);
      }
      if |upk.rest| < 2 {
        return Some(false);
      }
      var _ := upk.Read(2);
      var n := SkipValue(upk, t.value);
      if n.None? {
        return None;
      }
      if n.value == 0 {
        return Some(false);
      }
    }
  }
}
