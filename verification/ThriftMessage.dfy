/** Whole thrift messages (utils/serializer.h:907-962): `build_message` writes the strict header and the body,
    `read_message_begin` finds the header fields and the extent of the body in received bytes. */
module ThriftMessage {
  import opened Util
  import opened Wire
  import opened Thrift
  import opened ThriftCuts
  import opened ThriftLeaves
  import ByteBuffers
  import Packet

  const VERSION_1: nat := 0x8001_0000

  /** The outcome of `read_message_begin`: true with its five results, false, or an exception. */
  datatype Reading =
    | Whole(name: seq<Byte>, mtype: nat, sn: nat, headerLength: nat, bodyLength: nat)
    | Incomplete
    | Exception

  function Header(name: seq<Byte>, mtype: nat, sn: nat): (s: seq<Byte>)
    ensures |s| == 12 + |name|
  {
    Put(VERSION_1 + mtype % 256, 4, true) + Put(|name|, 4, true) + name + Put(sn, 4, true)
  }

  /** `build_message`, with the bytes that the object marshals. */
  function BuildMessage(name: seq<Byte>, mtype: nat, sn: nat, body: seq<Byte>): (s: seq<Byte>) {
    Header(name, mtype, sn) + body
  }

  /** What follows the header. */
  function ReadBody(size: nat, s: seq<Byte>, name: seq<Byte>, mtype: nat, sn: nat): (r: Reading)
    requires |s| <= size
  {
    var o := Skip(s, T_STRUCT, true);
    if o.Thrown? then Exception
    else if Code(s, o) < 0 then Incomplete
    else Whole(name, mtype, sn, (size - |s|) % WORD, Code(s, o))
  }

  /** The header with a version word. */
  function ReadStrict(data: seq<Byte>): (r: Reading)
    requires |data| >= 4
  {
    if |data| < 8 then Incomplete else
    var n := Get(data[4..8], true);
    if |data| < 8 + n + 4 then Incomplete else
    ReadBody(|data|, data[12 + n..], data[8..8 + n], Get(data[..4], true) % 256, Get(data[8 + n..12 + n], true))
  }

  /** The old header, which starts with a length that is read and not used. */
  function ReadOld(data: seq<Byte>): (r: Reading)
    requires |data| >= 4
  {
    if |data| < 8 then Incomplete else
    var n := Get(data[4..8], true);
    if |data| < 8 + n then Exception else
    if |data| < 8 + n + 5 then Incomplete else
    ReadBody(|data|, data[13 + n..], data[8..8 + n], data[8 + n], Get(data[9 + n..13 + n], true))
  }

  function ReadMessage(data: seq<Byte>): (r: Reading) {
    if |data| < 4 then Incomplete
    else if Get(data[..4], true) >= 0x8000_0000 then ReadStrict(data)
    else ReadOld(data)
  }

  lemma HeaderParts(name: seq<Byte>, mtype: nat, sn: nat, s: seq<Byte>)
    requires |name| < WORD && sn < WORD
    ensures var data := Header(name, mtype, sn) + s;
      && Get(data[..4], true) == VERSION_1 + mtype % 256 && Get(data[4..8], true) == |name|
      && data[8..8 + |name|] == name && Get(data[8 + |name|..12 + |name|], true) == sn
      && data[12 + |name|..] == s
  {
    var version := VERSION_1 + mtype % 256;
    BoundValues();
    RoundTrip(version, 4, true);
    RoundTrip(|name|, 4, true);
    RoundTrip(sn, 4, true);
    Slices(Put(version, 4, true), Put(|name|, 4, true), name, Put(sn, 4, true), s);
  }

  lemma Slices(a: seq<Byte>, b: seq<Byte>, c: seq<Byte>, d: seq<Byte>, e: seq<Byte>)
    requires |a| == 4 && |b| == 4 && |d| == 4
    ensures var s := a + b + c + d + e;
      s[..4] == a && s[4..8] == b && s[8..8 + |c|] == c && s[8 + |c|..12 + |c|] == d && s[12 + |c|..] == e
  {
  }

  lemma TypeByte(mtype: nat)
    ensures (VERSION_1 + mtype % 256) % 256 == mtype % 256 && VERSION_1 + mtype % 256 >= 0x8000_0000
  {
  }

  /** The fields of a strict header are recovered whatever the body. */
  lemma HeaderRead(name: seq<Byte>, mtype: nat, sn: nat, s: seq<Byte>)
    requires |name| < WORD && sn < WORD
    ensures var data := Header(name, mtype, sn) + s;
      ReadMessage(data) == ReadBody(|data|, s, name, mtype % 256, sn)
  {
    HeaderParts(name, mtype, sn, s);
    TypeByte(mtype);
  }

  /** Any word with the highest bit set starts a strict header; only its lowest byte is looked at. */
  lemma AnyVersionRead(version: nat, name: seq<Byte>, sn: nat, s: seq<Byte>)
    requires 0x8000_0000 <= version < WORD && |name| < WORD && sn < WORD
    ensures ReadMessage(Put(version, 4, true) + Put(|name|, 4, true) + name + Put(sn, 4, true) + s)
         == ReadBody(12 + |name| + |s|, s, name, version % 256, sn)
  {
    BoundValues();
    RoundTrip(version, 4, true);
    RoundTrip(|name|, 4, true);
    RoundTrip(sn, 4, true);
    Slices(Put(version, 4, true), Put(|name|, 4, true), name, Put(sn, 4, true), s);
  }

  /** A built message, followed by anything, is recognised with its own fields and lengths. */
  lemma BuiltMessageRead(name: seq<Byte>, mtype: nat, sn: nat, body: Value, rest: seq<Byte>)
    requires |name| < WORD && sn < WORD
    requires body.Struct? && WellFormed(body) && VoidsInLists(body) && |Encode(body, true)| < 0x8000_0000
    ensures ReadMessage(BuildMessage(name, mtype, sn, Encode(body, true)) + rest)
         == Whole(name, mtype % 256, sn, (12 + |name|) % WORD, |Encode(body, true)|)
  {
    var h, b := Header(name, mtype, sn), Encode(body, true);
    Regroup(h, b, rest);
    BuiltRead(name, mtype, sn, body, rest, b + rest, h + b + rest);
  }

  lemma BuiltRead(name: seq<Byte>, mtype: nat, sn: nat, body: Value, rest: seq<Byte>, s: seq<Byte>, data: seq<Byte>)
    requires |name| < WORD && sn < WORD && data == Header(name, mtype, sn) + s && s == Encode(body, true) + rest
    requires body.Struct? && WellFormed(body) && VoidsInLists(body) && |Encode(body, true)| < 0x8000_0000
    ensures ReadMessage(data) == Whole(name, mtype % 256, sn, (12 + |name|) % WORD, |Encode(body, true)|)
  {
    HeaderReadOf(name, mtype, sn, s, data);
    BodyRead(12 + |name|, 12 + |name| + |s|, s, body, rest, name, mtype % 256, sn);
  }

  lemma HeaderReadOf(name: seq<Byte>, mtype: nat, sn: nat, s: seq<Byte>, data: seq<Byte>)
    requires |name| < WORD && sn < WORD && data == Header(name, mtype, sn) + s
    ensures ReadMessage(data) == ReadBody(12 + |name| + |s|, s, name, mtype % 256, sn)
  {
    HeaderRead(name, mtype, sn, s);
  }

  lemma BodyRead(h: nat, size: nat, s: seq<Byte>, body: Value, rest: seq<Byte>, name: seq<Byte>, mtype: nat, sn: nat)
    requires body.Struct? && WellFormed(body) && VoidsInLists(body) && |Encode(body, true)| < 0x8000_0000
    requires s == Encode(body, true) + rest && size == h + |s|
    ensures ReadBody(size, s, name, mtype, sn) == Whole(name, mtype, sn, h % WORD, |Encode(body, true)|)
  {
    SkipReturnsLength(body, true, rest);
  }

  /** Before the first byte of the body has arrived the message is reported incomplete. */
  lemma PartOfHeaderIncomplete(name: seq<Byte>, mtype: nat, sn: nat, k: nat)
    requires |name| < WORD && sn < WORD && k <= 12 + |name|
    ensures ReadMessage(Header(name, mtype, sn)[..k]) == Incomplete
  {
    var h := Header(name, mtype, sn);
    HeaderParts(name, mtype, sn, []);
    assert h + [] == h;
    TypeByte(mtype);
    ShortIncomplete(h, h[..k], |name|);
  }

  lemma ShortIncomplete(h: seq<Byte>, data: seq<Byte>, n: nat)
    requires |h| == 12 + n && data <= h && Get(h[..4], true) >= 0x8000_0000 && Get(h[4..8], true) == n
    ensures ReadMessage(data) == Incomplete
  {
    if |data| >= 4 {
      SliceOfPrefix(h, data, 0, 4);
      if |data| >= 8 {
        SliceOfPrefix(h, data, 4, 8);
        if |data| == |h| {
          assert data[12 + n..] == [];
          EmptyBody(|data|, data[8..8 + n], Get(data[..4], true) % 256, Get(data[8 + n..12 + n], true));
        }
      }
    }
  }

  lemma EmptyBody(size: nat, name: seq<Byte>, mtype: nat, sn: nat)
    ensures ReadBody(size, [], name, mtype, sn) == Incomplete
  {
    assert SkipFields([], true) == Short([]);
  }

  lemma SliceOfPrefix(h: seq<Byte>, p: seq<Byte>, a: nat, b: nat)
    requires p <= h && a <= b <= |p|
    ensures p[a..b] == h[a..b]
  {
  }

  /** What is made of a message whose body is cut off to `p`. */
  lemma CutBodyRead(name: seq<Byte>, mtype: nat, sn: nat, p: seq<Byte>)
    requires |name| < WORD && sn < WORD && |p| < 0x8000_0000
    ensures var r, o := ReadMessage(Header(name, mtype, sn) + p), SkipFields(p, true);
      && (r.Whole? <==> o.Done?)
      && (o.Done? ==> r == Whole(name, mtype % 256, sn, (12 + |name|) % WORD, |p| - |o.rest|))
  {
    HeaderReadOf(name, mtype, sn, p, Header(name, mtype, sn) + p);
    ReadBodyIs(12 + |name|, 12 + |name| + |p|, p, name, mtype % 256, sn);
  }

  lemma ReadBodyIs(h: nat, size: nat, p: seq<Byte>, name: seq<Byte>, mtype: nat, sn: nat)
    requires size == h + |p| && |p| < 0x8000_0000
    ensures var r, o := ReadBody(size, p, name, mtype, sn), SkipFields(p, true);
      (r.Whole? <==> o.Done?) && (o.Done? ==> r == Whole(name, mtype, sn, h % WORD, |p| - |o.rest|))
  {
    assert Skip(p, T_STRUCT, true) == SkipFields(p, true);
  }

  /** A message cut off inside its body is never reported whole if and only if no field's cut-off bytes read as the end
      of the struct. */
  lemma TruncationNoticed(name: seq<Byte>, mtype: nat, sn: nat, fields: seq<Field>)
    requires |name| < WORD && sn < WORD && Steady(fields, true) && |EncodeFields(fields, true)| < 0x8000_0000
    ensures (forall k :: 0 <= k < |EncodeFields(fields, true)| ==>
               !ReadMessage(Header(name, mtype, sn) + EncodeFields(fields, true)[..k]).Whole?)
      <==> FieldsNoticed(fields, true)
  {
    forall k | 0 <= k < |EncodeFields(fields, true)|
      ensures ReadMessage(Header(name, mtype, sn) + EncodeFields(fields, true)[..k]).Whole?
          <==> SkipFields(EncodeFields(fields, true)[..k], true).Done?
    {
      CutBodyRead(name, mtype, sn, EncodeFields(fields, true)[..k]);
    }
    FieldsCut(fields, true);
  }

  /** By the bytes of the fields alone, for a body of scalars and strings below 16 MB: such a message is never reported
      whole if and only if every field is a scalar and none of them is misread. */
  lemma LeafTruncationNoticed(name: seq<Byte>, mtype: nat, sn: nat, fields: seq<Field>)
    requires |name| < WORD && sn < WORD && |EncodeFields(fields, true)| < 0x8000_0000
    requires forall f <- fields :: Leaf(f.value) && WellFormed(f.value)
    ensures (forall k :: 0 <= k < |EncodeFields(fields, true)| ==>
               !ReadMessage(Header(name, mtype, sn) + EncodeFields(fields, true)[..k]).Whole?)
      <==> Safe(fields)
  {
    LeavesSteady(fields, true);
    LeavesNoticed(fields, true);
    TruncationNoticed(name, mtype, sn, fields);
  }

  /** A scalar of two or more bytes that starts with a zero byte: cut off inside it, the message is reported whole with
      a body that ends at that zero byte. */
  lemma TruncatedReadWhole(name: seq<Byte>, mtype: nat, sn: nat, fields: seq<Field>, i: nat, j: nat, k: nat)
    requires |name| < WORD && sn < WORD && Steady(fields, true) && |EncodeFields(fields, true)| < 0x8000_0000
    requires i < |fields| && fields[i].value.Fixed?
    requires 1 <= j < |fields[i].value.raw| && fields[i].value.raw[0] == 0 && k == Offset(fields, i, true) + 3 + j
    ensures k < |EncodeFields(fields, true)|
    ensures ReadMessage(Header(name, mtype, sn) + EncodeFields(fields, true)[..k])
         == Whole(name, mtype % 256, sn, (12 + |name|) % WORD, k - (j - 1))
  {
    ScalarCutMissed(fields, i, j, k, true);
    CutBodyRead(name, mtype, sn, EncodeFields(fields, true)[..k]);
  }

  /** `build_message` over the buffer of its serializer: the message, or an exception if it exceeds 64 MB. */
  method Build(name: seq<Byte>, mtype: nat, sn: nat, body: seq<Byte>) returns (r: Option<seq<Byte>>)
    ensures r == Packet.Kept(Some(BuildMessage(name, mtype, sn, body)), ByteBuffers.LIMIT)
  {
    var pk := new Packet.Serializer(true);
    BuiltParts(name, mtype, sn, body);
    var ok := WriteHeader(pk, name, mtype, sn);
    if ok {
      ok := pk.Write(body);
    }
    r := if ok then Some(pk.buffer.data[pk.buffer.head..pk.buffer.tail]) else None;
  }

  method WriteHeader(pk: Packet.Serializer, name: seq<Byte>, mtype: nat, sn: nat) returns (ok: bool)
    requires pk.Valid() && pk.big && pk.buffer.Contents() == []
    modifies pk.buffer, pk.buffer.data
    ensures pk.Valid() && pk.buffer.limit == old(pk.buffer.limit)
    ensures pk.buffer.data == old(pk.buffer.data) || fresh(pk.buffer.data)
    ensures ok <==> |Header(name, mtype, sn)| <= pk.buffer.limit
    ensures ok ==> pk.buffer.Contents() == Header(name, mtype, sn)
  {
    var version := Put(VERSION_1 + mtype % 256, 4, true);
    ghost var named := Put(|name|, 4, true) + name;
    HeaderIs(name, mtype, sn, version, named);
    ok := pk.Write(version);
    if ok {
      assert pk.buffer.Contents() == version;
      ok := WriteName(pk, name);
    }
    if ok {
      assert pk.buffer.Contents() == version + named;
      ok := pk.Write(Put(sn, 4, true));
    }
  }

  lemma HeaderIs(name: seq<Byte>, mtype: nat, sn: nat, version: seq<Byte>, named: seq<Byte>)
    requires version == Put(VERSION_1 + mtype % 256, 4, true) && named == Put(|name|, 4, true) + name
    ensures [] + version == version && Header(name, mtype, sn) == version + named + Put(sn, 4, true)
  {
    Regroup(version, Put(|name|, 4, true), name);
  }

  /** `write_string32`. */
  method WriteName(pk: Packet.Serializer, name: seq<Byte>) returns (ok: bool)
    requires pk.Valid() && pk.big
    modifies pk.buffer, pk.buffer.data
    ensures pk.Appended(Some(Put(|name|, 4, true) + name), ok)
  {
    Packet.JoinAssoc(Some(pk.buffer.Contents()), Some(Put(|name|, 4, true)), Some(name));
    ok := pk.Write(Put(|name|, 4, true));
    if ok {
      ok := pk.Write(name);
    }
  }

  lemma BuiltParts(name: seq<Byte>, mtype: nat, sn: nat, body: seq<Byte>)
    ensures Header(name, mtype, sn) + body == BuildMessage(name, mtype, sn, body)
  {
  }

  /** `read_message_begin`: the three parts of its body below. */
  method ReadMessageBegin(data: seq<Byte>) returns (r: Reading)
    ensures r == ReadMessage(data)
  {
    var upk := new Deserializer(data, true);
    if |upk.rest| < 4 {
      return Incomplete;
    }
    var sz := upk.ReadUint(4);
    if sz.value >= 0x8000_0000 {
      r := StrictHeader(upk, data, sz.value % 256);
    } else {
      r := OldHeader(upk, data);
    }
  }

  method StrictHeader(upk: Deserializer, data: seq<Byte>, mtype: nat) returns (r: Reading)
    requires |data| >= 4 && upk.rest == data[4..] && upk.big && mtype == Get(data[..4], true) % 256
    modifies upk
    ensures r == ReadStrict(data)
  {
    if |upk.rest| < 4 {
      return Incomplete;
    }
    assert upk.rest[..4] == data[4..8];
    var sz := upk.ReadUint(4);
    assert upk.rest == data[8..];
    if |upk.rest| < sz.value {
      return Incomplete;
    }
    var name := upk.Read(sz.value);
    SliceAt(data, 8, sz.value);
    r := StrictTail(upk, data, sz.value, name.value, mtype);
  }

  lemma SliceAt(data: seq<Byte>, a: nat, n: nat)
    requires a + n <= |data|
    ensures data[a..][..n] == data[a..a + n] && data[a..][n..] == data[a + n..]
  {
  }

  /** What follows the name. */
  method StrictTail(upk: Deserializer, data: seq<Byte>, n: nat, name: seq<Byte>, mtype: nat) returns (r: Reading)
    requires 8 + n <= |data| && n == Get(data[4..8], true) && mtype == Get(data[..4], true) % 256
    requires upk.rest == data[8 + n..] && upk.big && name == data[8..8 + n]
    modifies upk
    ensures r == ReadStrict(data)
  {
    if |upk.rest| < 4 {
      return Incomplete;
    }
    SliceAt(data, 8 + n, 4);
    var sn := upk.ReadUint(4);
    r := Body(upk, |data|, name, mtype, sn.value);
  }

  method OldHeader(upk: Deserializer, data: seq<Byte>) returns (r: Reading)
    requires |data| >= 4 && upk.rest == data[4..] && upk.big
    modifies upk
    ensures r == ReadOld(data)
  {
    if |upk.rest| < 4 {
      return Incomplete;
    }
    assert upk.rest[..4] == data[4..8];
    var sz := upk.ReadUint(4);
    assert upk.rest == data[8..];
    var name := upk.Read(sz.value);
    if name.None? {
      return Exception;
    }
    SliceAt(data, 8, sz.value);
    r := OldTail(upk, data, sz.value, name.value);
  }

  method OldTail(upk: Deserializer, data: seq<Byte>, n: nat, name: seq<Byte>) returns (r: Reading)
    requires 8 + n <= |data| && n == Get(data[4..8], true)
    requires upk.rest == data[8 + n..] && upk.big && name == data[8..8 + n]
    modifies upk
    ensures r == ReadOld(data)
  {
    if |upk.rest| < 5 {
      return Incomplete;
    }
    SliceAt(data, 8 + n, 1);
    var mtype := upk.ReadByte();
    SliceAt(data, 9 + n, 4);
    var sn := upk.ReadUint(4);
    r := Body(upk, |data|, name, mtype.value, sn.value);
  }

  method Body(upk: Deserializer, size: nat, name: seq<Byte>, mtype: nat, sn: nat) returns (r: Reading)
    requires |upk.rest| <= size && upk.big
    modifies upk
    ensures r == ReadBody(size, old(upk.rest), name, mtype, sn)
  {
    var headerLength := (size - |upk.rest|) % WORD;
    var pos := SkipValue(upk, T_STRUCT);
    if pos.None? {
      return Exception;
    }
    if pos.value < 0 {
      return Incomplete;
    }
    r := Whole(name, mtype, sn, headerLength, pos.value);
  }
}
