/** Structs of scalars and strings in network byte order: a condition on their bytes alone that says exactly when a cut
    goes unnoticed (utils/serializer.h:797-811). */
module ThriftLeaves {
  import opened Util
  import opened Wire
  import opened Thrift
  import opened ThriftCuts

  // ----- What the field loop makes of up to seven bytes

  /** Types whose values take more than one byte and whose shortage leaves the bytes where they are. */
  predicate Wide(t: Byte) {
    t in {4, 6, 8, 9, 10, 11, 13, 14, 15, 16, 17}
  }

  /** The loop reads these bytes as the end of a struct. */
  ghost predicate Ends(s: seq<Byte>, big: bool) {
    SkipFields(s, big).Done?
  }

  lemma Two(s: seq<Byte>, big: bool)
    requires |s| <= 2
    ensures Ends(s, big) <==> |s| > 0 && s[0] == 0
    ensures |s| > 0 && s[0] != 0 ==> SkipFields(s, big) == Short(s[1..])
  {
  }

  /** With a field of type `t` and `body` behind its header. */
  ghost predicate EndsAfter(t: Byte, body: seq<Byte>, big: bool) {
    var o := Skip(body, t, big);
    !Stops(body, o) && Ends(o.rest, big)
  }

  lemma Unfold(s: seq<Byte>, big: bool)
    requires |s| >= 3
    ensures Ends(s, big) <==> s[0] == 0 || EndsAfter(s[0], s[3..], big)
  {
  }

  lemma Three(s: seq<Byte>, big: bool)
    requires |s| == 3
    ensures Ends(s, big) <==> s[0] == 0
  {
    Unfold(s, big);
    Two([], big);
    assert s[3..] == [];
    if s[0] != 0 && FixedWidth(s[0]).None? && s[0] != T_VOID {
      assert s[0] == T_STRUCT ==> Skip([], s[0], big) == Short([]);
    }
  }

  /** One byte behind the header. */
  lemma AfterOne(t: Byte, d: Byte, big: bool)
    requires t != 0
    ensures EndsAfter(t, [d], big) <==> Wide(t) && d == 0
  {
    Two([d], big);
    Two([], big);
    assert [d][1..] == [];
  }

  lemma Four(s: seq<Byte>, big: bool)
    requires |s| == 4
    ensures Ends(s, big) <==> s[0] == 0 || (Wide(s[0]) && s[3] == 0)
  {
    Unfold(s, big);
    assert s[3..] == [s[3]];
    if s[0] != 0 {
      AfterOne(s[0], s[3], big);
    }
  }

  /** A value that is short leaves its bytes to the loop. */
  lemma Shortage(t: Byte, body: seq<Byte>, big: bool)
    requires Wide(t) && |body| < (if IsList(t) then 5 else if FixedWidth(t).Some? then FixedWidth(t).value else 4)
    ensures EndsAfter(t, body, big) <==> Ends(body, big)
  {
  }

  /** A scalar that is there is stepped over. */
  lemma Scalar(t: Byte, body: seq<Byte>, big: bool)
    requires FixedWidth(t).Some? && FixedWidth(t).value <= |body| <= 4
    ensures EndsAfter(t, body, big) <==> Ends(body[FixedWidth(t).value..], big)
  {
  }

  /** A nested struct leaves what follows it, whether it was complete or not. */
  lemma Nested(body: seq<Byte>, big: bool)
    requires 0 < |body| <= 4
    ensures var o := SkipFields(body, big); EndsAfter(T_STRUCT, body, big) <==> !o.Thrown? && Ends(o.rest, big)
  {
    var o := SkipFields(body, big);
    if o.Done? {
      DoneTakes(body, big);
    }
    if !o.Thrown? {
      GoesOn(body, o);
    }
  }

  lemma GoesOn(body: seq<Byte>, o: Outcome)
    requires !o.Thrown? && |o.rest| <= |body| <= 4 && (o.Done? ==> |o.rest| < |body|)
    ensures !Stops(body, o)
  {
  }

  lemma {:induction false} DoneTakes(s: seq<Byte>, big: bool)
    requires SkipFields(s, big).Done?
    ensures |SkipFields(s, big).rest| < |s|
    decreases |s|
  {
    if s[0] != T_STOP {
      DoneTakes(Skip(s[3..], s[0], big).rest, big);
    }
  }

  /** Voids and unknown types stop the loop. */
  lemma NoType(t: Byte, body: seq<Byte>, big: bool)
    requires t != 0 && FixedWidth(t).None? && !IsText(t) && !IsList(t) && t != T_MAP && t != T_STRUCT
    ensures !EndsAfter(t, body, big)
  {
  }

  /** Two bytes behind the header. */
  lemma AfterTwo(t: Byte, s: seq<Byte>, big: bool)
    requires t != 0 && |s| == 2
    ensures EndsAfter(t, s, big) <==>
      (t in {2, 3, 12} && s[1] == 0) || (Wide(t) && t != 6 && s[0] == 0)
  {
    Two(s, big);
    Two(s[1..], big);
    Two([], big);
    if t in {2, 3, 6} {
      Scalar(t, s, big);
    } else if Wide(t) {
      Shortage(t, s, big);
    } else if t == T_STRUCT {
      Nested(s, big);
    } else {
      NoType(t, s, big);
    }
  }

  lemma Five(s: seq<Byte>, big: bool)
    requires |s| == 5
    ensures Ends(s, big) <==>
      s[0] == 0 || (s[0] in {2, 3, 12} && s[4] == 0) || (Wide(s[0]) && s[0] != 6 && s[3] == 0)
  {
    Unfold(s, big);
    if s[0] != 0 {
      AfterTwo(s[0], s[3..], big);
    }
  }

  /** A header alone, and a header with one byte, leave nothing that could end a struct; only a void leaves that
      byte. */
  lemma HeaderLeaves(s: seq<Byte>, big: bool)
    requires 3 <= |s| <= 4 && s[0] != 0
    ensures var o := SkipFields(s, big); o.Thrown? || o.rest == if s[0] == T_VOID then s[3..] else []
  {
    Two([], big);
    Two(s[3..], big);
    assert |s| == 3 ==> s[3..] == [];
    assert |s| == 4 ==> s[3..][1..] == [];
  }

  /** Three bytes behind the header. */
  lemma AfterThree(t: Byte, s: seq<Byte>, big: bool)
    requires t != 0 && |s| == 3
    ensures EndsAfter(t, s, big) <==>
      (t in {2, 3} && s[1] == 0) || (t == 6 && s[2] == 0) || (Wide(t) && t != 6 && s[0] == 0)
      || (t == T_STRUCT && s[0] == 0 && s[1] == 0)
  {
    if t in {2, 3, 6} {
      Scalar(t, s, big);
      Two(s[FixedWidth(t).value..], big);
    } else if Wide(t) {
      Shortage(t, s, big);
      Three(s, big);
    } else if t == T_STRUCT {
      Nested(s, big);
      Two(s[1..], big);
      Two([], big);
      if s[0] != 0 {
        HeaderLeaves(s, big);
        assert s[3..] == [];
      }
    } else {
      NoType(t, s, big);
    }
  }

  lemma Six(s: seq<Byte>, big: bool)
    requires |s| == 6
    ensures Ends(s, big) <==>
      s[0] == 0 || (s[0] in {2, 3} && s[4] == 0) || (s[0] == 6 && s[5] == 0) || (Wide(s[0]) && s[0] != 6 && s[3] == 0)
      || (s[0] == T_STRUCT && s[3] == 0 && s[4] == 0)
  {
    Unfold(s, big);
    if s[0] != 0 {
      AfterThree(s[0], s[3..], big);
    }
  }

  /** Four bytes behind the header. */
  lemma AfterFour(t: Byte, s: seq<Byte>, big: bool)
    requires t != 0 && |s| == 4
    ensures EndsAfter(t, s, big) <==>
      (t in {2, 3} && s[1] == 0) || (t == 6 && s[2] == 0)
      || (t in {4, 9, 10, 14, 15} && (s[0] == 0 || (Wide(s[0]) && s[3] == 0)))
      || (t == T_STRUCT && ((s[0] == 0 && s[1] == 0) || (s[0] == T_VOID && s[3] == 0)))
  {
    Two([], big);
    if t in {2, 3, 6, 8} {
      Scalar(t, s, big);
      if t in {2, 3} {
        Three(s[1..], big);
      } else {
        Two(s[FixedWidth(t).value..], big);
      }
    } else if t in {4, 9, 10, 14, 15} {
      Shortage(t, s, big);
      Four(s, big);
    } else if IsText(t) || t == T_MAP {
      FourTaken(t, s, big);
    } else if t == T_STRUCT {
      NestedFour(s, big);
    } else {
      NoType(t, s, big);
    }
  }

  /** Four bytes are a whole length for a string, and too few for the header of a map, which throws. */
  lemma FourTaken(t: Byte, s: seq<Byte>, big: bool)
    requires |s| == 4 && (IsText(t) || t == T_MAP)
    ensures !EndsAfter(t, s, big)
  {
    Two([], big);
    assert s[4..] == [];
  }

  lemma NestedFour(s: seq<Byte>, big: bool)
    requires |s| == 4
    ensures EndsAfter(T_STRUCT, s, big) <==> (s[0] == 0 && s[1] == 0) || (s[0] == T_VOID && s[3] == 0)
  {
    Nested(s, big);
    Two([], big);
    if s[0] == 0 {
      Three(s[1..], big);
    } else {
      HeaderLeaves(s, big);
      Two(s[3..], big);
      if s[0] == T_VOID {
        assert Skip(s[3..], T_VOID, big) == Done(s[3..]);
      }
    }
  }

  lemma Seven(s: seq<Byte>, big: bool)
    requires |s| == 7
    ensures Ends(s, big) <==>
      s[0] == 0 || (s[0] in {2, 3} && s[4] == 0) || (s[0] == 6 && s[5] == 0)
      || (s[0] in {4, 9, 10, 14, 15} && (s[3] == 0 || (Wide(s[3]) && s[6] == 0)))
      || (s[0] == T_STRUCT && ((s[3] == 0 && s[4] == 0) || (s[3] == T_VOID && s[6] == 0)))
  {
    Unfold(s, big);
    if s[0] != 0 {
      AfterFour(s[0], s[3..], big);
    }
  }

  // ----- Scalars

  /** The bytes of a scalar of which some strict prefix reads as the end of a struct: one that starts with a zero byte,
      and for eight bytes also one whose first byte is a type and is followed by a zero where the loop comes to look for
      a field after it. */
  predicate Misread(raw: seq<Byte>) {
    && 2 <= |raw|
    && (|| raw[0] == 0
        || (|raw| == 8 && raw[0] in {2, 3, 12} && raw[4] == 0)
        || (|raw| == 8 && raw[0] == 6 && raw[5] == 0)
        || (|raw| == 8 && Wide(raw[0]) && raw[3] == 0)
        || (|raw| == 8 && raw[0] in {4, 9, 10, 14, 15} && Wide(raw[3]) && raw[6] == 0)
        || (|raw| == 8 && raw[0] == T_STRUCT && raw[3] == T_VOID && raw[6] == 0))
  }

  /** The strict prefix of `raw` of length `j` reads as the end of a struct. */
  lemma PrefixEnds(raw: seq<Byte>, j: nat, big: bool)
    requires |raw| in {1, 2, 4, 8} && j < |raw|
    ensures Ends(raw[..j], big) ==> Misread(raw)
  {
    var s := raw[..j];
    assert forall i :: 0 <= i < j ==> s[i] == raw[i];
    if j <= 2 {
      Two(s, big);
    } else if j == 3 {
      Three(s, big);
    } else if j == 4 {
      Four(s, big);
    } else if j == 5 {
      Five(s, big);
    } else if j == 6 {
      Six(s, big);
    } else {
      Seven(s, big);
    }
  }

  /** Where a misread scalar is cut. */
  lemma MisreadAt(raw: seq<Byte>, big: bool) returns (j: nat)
    requires |raw| in {1, 2, 4, 8} && Misread(raw)
    ensures j < |raw| && Ends(raw[..j], big)
  {
    if raw[0] == 0 {
      j := 1;
      Two(raw[..1], big);
    } else if raw[0] in {2, 3, 12} && raw[4] == 0 {
      j := 5;
      Five(raw[..5], big);
    } else if raw[0] == 6 && raw[5] == 0 {
      j := 6;
      Six(raw[..6], big);
    } else if Wide(raw[0]) && raw[3] == 0 {
      j := 4;
      Four(raw[..4], big);
    } else {
      j := 7;
      Seven(raw[..7], big);
    }
  }

  // ----- Structs of scalars and strings

  /** A scalar, or a string of less than 16 MB. */
  predicate Leaf(x: Value) {
    x.Fixed? || (x.Text? && |x.bytes| < 0x100_0000)
  }

  /** All fields are scalars, and none is misread. */
  predicate Safe(fields: seq<Field>) {
    forall f <- fields :: f.value.Fixed? && !Misread(f.value.raw)
  }

  lemma AfterScalarCut(x: Value, j: nat, big: bool)
    requires x.Fixed? && WellFormed(x) && j < |x.raw|
    ensures AfterCut(x, j, big).Done? <==> Ends(x.raw[..j], big)
  {
    assert Skip(x.raw[..j], x.ftype, big) == Short(x.raw[..j]);
  }

  /** A field hides a cut exactly if it is a string or is misread. */
  lemma LeafHides(x: Value, big: bool)
    requires Leaf(x) && WellFormed(x) && (big || x.Fixed?)
    ensures (forall j :: 0 <= j < |Encode(x, big)| ==> !AfterCut(x, j, big).Done?) <==> x.Fixed? && !Misread(x.raw)
  {
    if x.Text? {
      AfterString(x, 1);
    } else {
      forall j | 0 <= j < |x.raw| ensures AfterCut(x, j, big).Done? ==> Misread(x.raw) {
        AfterScalarCut(x, j, big);
        PrefixEnds(x.raw, j, big);
      }
      if Misread(x.raw) {
        var j := MisreadAt(x.raw, big);
        AfterScalarCut(x, j, big);
      }
    }
  }

  lemma LeafSteady(x: Value, big: bool)
    requires Leaf(x) && WellFormed(x)
    ensures Visible(x, big) && Lands(x, big)
  {
  }

  lemma LeavesSteady(fields: seq<Field>, big: bool)
    requires forall f <- fields :: Leaf(f.value) && WellFormed(f.value)
    ensures Steady(fields, big)
  {
    forall f <- fields ensures Visible(f.value, big) && Lands(f.value, big) {
      LeafSteady(f.value, big);
    }
  }

  lemma LeavesNoticed(fields: seq<Field>, big: bool)
    requires forall f <- fields :: Leaf(f.value) && WellFormed(f.value) && (big || f.value.Fixed?)
    ensures FieldsNoticed(fields, big) <==> Safe(fields)
  {
    forall f <- fields
      ensures (forall j :: 0 <= j < |Encode(f.value, big)| ==> !AfterCut(f.value, j, big).Done?)
          <==> f.value.Fixed? && !Misread(f.value.raw)
    {
      LeafHides(f.value, big);
    }
    if FieldsNoticed(fields, big) {
      forall f <- fields ensures f.value.Fixed? && !Misread(f.value.raw) {
        var i :| 0 <= i < |fields| && fields[i] == f;
        assert forall j :: 0 <= j < |Encode(f.value, big)| ==> !AfterCut(fields[i].value, j, big).Done?;
      }
    }
  }

  /** For every struct of scalars and strings below 16 MB in network byte order, by its bytes alone: no cut goes
      unnoticed if and only if every field is a scalar and none of them is misread. */
  lemma LeavesCut(fields: seq<Field>, big: bool)
    requires forall f <- fields :: Leaf(f.value) && WellFormed(f.value) && (big || f.value.Fixed?)
    ensures CutsNoticed(Struct(fields), big) <==> Safe(fields)
  {
    LeavesSteady(fields, big);
    StructCut(fields, big);
    LeavesNoticed(fields, big);
  }
}
