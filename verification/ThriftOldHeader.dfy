/** Messages with the old thrift header (utils/serializer.h:922-937): a length word that is not used, the name behind
    its length, one byte of type, and the sequence number. */
module ThriftOldHeader {
  import opened Util
  import opened Wire
  import opened Thrift
  import opened ThriftCuts
  import opened ThriftLeaves
  import opened ThriftMessage

  ghost function OldHeader(w: nat, name: seq<Byte>, mtype: Byte, sn: nat): (s: seq<Byte>)
    ensures |s| == 13 + |name|
  {
    Put(w, 4, true) + Put(|name|, 4, true) + name + [mtype] + Put(sn, 4, true)
  }

  ghost predicate OldFields(w: nat, name: seq<Byte>, sn: nat) {
    w < 0x8000_0000 && |name| < WORD && sn < WORD
  }

  lemma OldSlices(a: seq<Byte>, b: seq<Byte>, c: seq<Byte>, d: Byte, e: seq<Byte>, f: seq<Byte>)
    requires |a| == 4 && |b| == 4 && |e| == 4
    ensures var s, n := a + b + c + [d] + e + f, |c|;
      && s[..4] == a && s[4..8] == b && s[8..8 + n] == c && s[8 + n] == d && s[9 + n..13 + n] == e && s[13 + n..] == f
  {
  }

  lemma OldParts(w: nat, name: seq<Byte>, mtype: Byte, sn: nat, s: seq<Byte>)
    requires OldFields(w, name, sn)
    ensures var data, n := OldHeader(w, name, mtype, sn) + s, |name|;
      && Get(data[..4], true) == w && Get(data[4..8], true) == n && data[8..8 + n] == name && data[8 + n] == mtype
      && Get(data[9 + n..13 + n], true) == sn && data[13 + n..] == s
  {
    BoundValues();
    RoundTrip(w, 4, true);
    RoundTrip(|name|, 4, true);
    RoundTrip(sn, 4, true);
    OldSlices(Put(w, 4, true), Put(|name|, 4, true), name, mtype, Put(sn, 4, true), s);
  }

  /** The fields of an old header are recovered whatever the length word and the body. */
  lemma OldHeaderRead(w: nat, name: seq<Byte>, mtype: Byte, sn: nat, s: seq<Byte>)
    requires OldFields(w, name, sn)
    ensures ReadMessage(OldHeader(w, name, mtype, sn) + s) == ReadBody(13 + |name| + |s|, s, name, mtype, sn)
  {
    OldParts(w, name, mtype, sn, s);
  }

  /** A message with an old header, followed by anything, is recognised with its own fields and lengths. */
  lemma OldMessageRead(w: nat, name: seq<Byte>, mtype: Byte, sn: nat, body: Value, rest: seq<Byte>)
    requires w < 0x8000_0000 && |name| < WORD && sn < WORD
    requires body.Struct? && WellFormed(body) && VoidsInLists(body) && |Encode(body, true)| < 0x8000_0000
    ensures ReadMessage(Put(w, 4, true) + Put(|name|, 4, true) + name + [mtype] + Put(sn, 4, true)
                        + Encode(body, true) + rest)
         == Whole(name, mtype, sn, (13 + |name|) % WORD, |Encode(body, true)|)
  {
    var h, s := OldHeader(w, name, mtype, sn), Encode(body, true) + rest;
    Regroup(h, Encode(body, true), rest);
    OldHeaderRead(w, name, mtype, sn, s);
    BodyRead(13 + |name|, 13 + |name| + |s|, s, body, rest, name, mtype, sn);
  }

  /** A header cut off inside the name throws; one cut off anywhere else, or directly behind it, is incomplete. */
  lemma PartOfOldHeader(w: nat, name: seq<Byte>, mtype: Byte, sn: nat, k: nat)
    requires OldFields(w, name, sn) && k <= 13 + |name|
    ensures ReadMessage(OldHeader(w, name, mtype, sn)[..k]) == if 8 <= k < 8 + |name| then Exception else Incomplete
  {
    var h := OldHeader(w, name, mtype, sn);
    OldParts(w, name, mtype, sn, []);
    assert h + [] == h;
    OldCutOff(h, h[..k], |name|);
  }

  lemma OldCutOff(h: seq<Byte>, data: seq<Byte>, n: nat)
    requires |h| == 13 + n && data <= h && Get(h[..4], true) < 0x8000_0000 && Get(h[4..8], true) == n
    ensures ReadMessage(data) == if 8 <= |data| < 8 + n then Exception else Incomplete
  {
    if |data| >= 4 {
      SliceOfPrefix(h, data, 0, 4);
      if |data| >= 8 {
        SliceOfPrefix(h, data, 4, 8);
        if |data| == |h| {
          assert data[13 + n..] == [];
          EmptyBody(|data|, data[8..8 + n], data[8 + n], Get(data[9 + n..13 + n], true));
        }
      }
    }
  }

  /** Cut off inside the body, a message with an old header fares as one with a strict header: for scalars and strings
      below 16 MB it is never reported whole if and only if every field is a scalar and none of them is misread. */
  lemma OldTruncationNoticed(w: nat, name: seq<Byte>, mtype: Byte, sn: nat, fields: seq<Field>)
    requires OldFields(w, name, sn) && |EncodeFields(fields, true)| < 0x8000_0000
    requires forall f <- fields :: Leaf(f.value) && WellFormed(f.value)
    ensures (forall k :: 0 <= k < |EncodeFields(fields, true)| ==>
               !ReadMessage(OldHeader(w, name, mtype, sn) + EncodeFields(fields, true)[..k]).Whole?)
      <==> Safe(fields)
  {
    forall k | 0 <= k < |EncodeFields(fields, true)|
      ensures ReadMessage(OldHeader(w, name, mtype, sn) + EncodeFields(fields, true)[..k]).Whole?
          <==> SkipFields(EncodeFields(fields, true)[..k], true).Done?
    {
      var p := EncodeFields(fields, true)[..k];
      OldHeaderRead(w, name, mtype, sn, p);
      ReadBodyIs(13 + |name|, 13 + |name| + |p|, p, name, mtype, sn);
    }
    LeavesSteady(fields, true);
    LeavesNoticed(fields, true);
    FieldsCut(fields, true);
  }
}
