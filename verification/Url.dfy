/** Percent-encoding and the URL printer and parser (utils/url_parser.h, utils/url_parser.cpp). */
module Url {
  import opened Util
  import opened Wire

  type Text = seq<Byte>

  const COLON: Byte := ':' as int
  const SLASH: Byte := '/' as int
  const AT: Byte := '@' as int
  const QUERY: Byte := '?' as int
  const AND: Byte := '&' as int
  const EQUALS: Byte := '=' as int
  const PERCENT: Byte := '%' as int
  const OPEN: Byte := '[' as int
  const CLOSE: Byte := ']' as int

  // ----- Percent-encoding (section 2.1 of RFC 3986)

  function CharToHex(x: Byte): (r: Byte) {
    if x > 9 then (x + 55) % 256 else x + 48
  }

  /** What the decoder makes of one hexadecimal character; plain `char` is signed. */
  function HexToInt(c: Byte): (r: int) {
    (if c >= 128 then c - 256 else c) - 48 - (if 65 <= c < 128 then 7 else 0) - (if 97 <= c < 128 then 32 else 0)
  }

  predicate IsAlpha(c: Byte) { 97 <= c <= 122 || 65 <= c <= 90 }

  /** Letters, digits, `-_.!~*'()`, and NUL, which `strchr` finds at the end of that string. */
  predicate Plain(c: Byte) {
    IsAlpha(c) || 48 <= c <= 57 || c in {45, 95, 46, 33, 126, 42, 39, 40, 41, 0}
  }

  function Escape(c: Byte): (r: Text) {
    if c == 32 then [PERCENT, 50, 48]
    else if Plain(c) then [c]
    else [PERCENT, CharToHex(c / 16), CharToHex(c % 16)]
  }

  function Encoded(s: Text): (r: Text) {
    if s == [] then [] else Escape(s[0]) + Encoded(s[1..])
  }

  function Cat(a: Text, b: Option<Text>): (r: Option<Text>) {
    if b.None? then None else Some(a + b.value)
  }

  /** The byte of `%xy`. */
  function Unhex(x: Byte, y: Byte): (r: Byte) {
    (HexToInt(x) * 16 + HexToInt(y)) % 256
  }

  /** The decoded text, or None if a `%` at the very end makes the decoder read behind the terminating NUL. */
  function Decoded(s: Text): (r: Option<Text>) {
    if s == [] then Some([])
    else if s[0] != PERCENT then Cat([s[0]], Decoded(s[1..]))
    else if |s| < 2 then None
    else if |s| < 3 then Some([Unhex(s[1], 0)])
    else Cat([Unhex(s[1], s[2])], Decoded(s[3..]))
  }

  lemma HexRoundTrip(c: Byte)
    ensures Unhex(CharToHex(c / 16), CharToHex(c % 16)) == c
  {
    NibbleRoundTrip(c / 16);
    NibbleRoundTrip(c % 16);
    assert c / 16 * 16 + c % 16 == c;
  }

  lemma NibbleRoundTrip(x: Byte)
    requires x < 16
    ensures HexToInt(CharToHex(x)) == x
  {
  }

  lemma DecodeEscape(c: Byte, rest: Text)
    ensures Decoded(Escape(c) + rest) == Cat([c], Decoded(rest))
  {
    var s := Escape(c) + rest;
    if Plain(c) {
      assert s[1..] == rest;
    } else {
      HexRoundTrip(c);
      assert s[3..] == rest;
    }
  }

  /** Decoding undoes encoding, for every byte string. */
  lemma {:induction false} DecodeEncode(s: Text)
    ensures Decoded(Encoded(s)) == Some(s)
  {
    if s != [] {
      DecodeEscape(s[0], Encoded(s[1..]));
      DecodeEncode(s[1..]);
      assert [s[0]] + s[1..] == s;
    }
  }

  /** An encoded text holds nothing but plain characters and `%`, so none of the delimiters. */
  lemma {:induction false} EncodedIsPlain(s: Text)
    ensures forall c <- Encoded(s) :: Plain(c) || c == PERCENT
  {
    if s != [] {
      EncodedIsPlain(s[1..]);
      EscapeIsPlain(s[0]);
    }
  }

  lemma EscapeIsPlain(c: Byte)
    ensures forall x <- Escape(c) :: Plain(x) || x == PERCENT
  {
    HexIsPlain(c / 16);
    HexIsPlain(c % 16);
  }

  lemma HexIsPlain(x: Byte)
    requires x < 16
    ensures Plain(CharToHex(x))
  {
  }

  const HEX_DIGITS := "0123456789ABCDEF"
  const MARKS := "-_.!~*'()"

  /** Exactly letters, digits, the marks and NUL stay as they are; every other byte becomes its two hexadecimal
      digits. */
  lemma EscapeIs(c: Byte)
    ensures var plain := (|| 'a' as int <= c <= 'z' as int || 'A' as int <= c <= 'Z' as int
                          || '0' as int <= c <= '9' as int || c == 0
                          || exists i :: 0 <= i < |MARKS| && c == MARKS[i] as int);
      && |HEX_DIGITS| == 16
      && Escape(c) == if plain then [c] else [PERCENT, HEX_DIGITS[c / 16] as int, HEX_DIGITS[c % 16] as int]
  {
    HexDigit(c / 16);
    HexDigit(c % 16);
    MarkIs(c);
  }

  lemma HexDigit(x: Byte)
    requires x < 16
    ensures |HEX_DIGITS| == 16 && CharToHex(x) == HEX_DIGITS[x] as int
  {
  }

  lemma MarkIs(c: Byte)
    ensures c in {45, 95, 46, 33, 126, 42, 39, 40, 41} <==> exists i :: 0 <= i < |MARKS| && c == MARKS[i] as int
  {
    assert MARKS[0] == '-' && MARKS[1] == '_' && MARKS[2] == '.' && MARKS[3] == '!' && MARKS[4] == '~'
        && MARKS[5] == '*' && MARKS[6] == '\'' && MARKS[7] == '(' && MARKS[8] == ')';
  }

  /** The decoder reads hexadecimal digits of either case. */
  lemma UnhexIs(x: Byte, y: Byte, d: Byte, e: Byte)
    requires d < 16 && e < 16
    requires x == HEX_DIGITS[d] as int || (d >= 10 && x == HEX_DIGITS[d] as int + 32)
    requires y == HEX_DIGITS[e] as int || (e >= 10 && y == HEX_DIGITS[e] as int + 32)
    ensures Unhex(x, y) == 16 * d + e
  {
    DigitValue(x, d);
    DigitValue(y, e);
  }

  lemma DigitValue(x: Byte, d: Byte)
    requires d < 16 && (x == HEX_DIGITS[d] as int || (d >= 10 && x == HEX_DIGITS[d] as int + 32))
    ensures HexToInt(x) == d
  {
    HexDigit(d);
    NibbleRoundTrip(d);
  }

  lemma CatCat(a: Text, b: Text, c: Option<Text>)
    ensures Cat(a, Cat(b, c)) == Cat(a + b, c)
  {
    if c.Some? {
      assert a + (b + c.value) == a + b + c.value;
    }
  }

  lemma CatEmpty(a: Option<Text>)
    ensures Cat([], a) == a
  {
    if a.Some? {
      assert [] + a.value == a.value;
    }
  }

  method EncodeURL(src: Text) returns (dst: Text)
    requires |src| < WORD
    ensures dst == Encoded(src)
  {
    dst := [];
    ghost var whole := Encoded(src);
    assert src[0..] == src;
    for i := 0 to |src|
      invariant dst + Encoded(src[i..]) == whole
    {
      EncodedStep(dst, src, i);
      dst := dst + Escape(src[i]);
    }
    assert dst + [] == dst;
  }

  lemma EncodedStep(dst: Text, src: Text, i: nat)
    requires i < |src|
    ensures dst + Encoded(src[i..]) == dst + Escape(src[i]) + Encoded(src[i + 1..])
  {
    assert src[i..][1..] == src[i + 1..];
  }

  method DecodeURL(src: Text) returns (r: Option<Text>)
    requires |src| < WORD
    ensures r == Decoded(src)
  {
    var dst: Text := [];
    var i := 0;
    CatEmpty(Decoded(src));
    assert src[0..] == src;
    while i < |src|
      invariant i <= |src| && Decoded(src) == Cat(dst, Decoded(src[i..]))
    {
      if src[i] != PERCENT {
        assert src[i..][1..] == src[i + 1..];
        CatCat(dst, [src[i]], Decoded(src[i + 1..]));
        dst, i := dst + [src[i]], i + 1;
      } else if i + 2 > |src| {
        return None;
      } else if i + 2 == |src| {
        return Some(dst + [Unhex(src[i + 1], 0)]);
      } else {
        assert src[i..][3..] == src[i + 3..];
        CatCat(dst, [Unhex(src[i + 1], src[i + 2])], Decoded(src[i + 3..]));
        dst, i := dst + [Unhex(src[i + 1], src[i + 2])], i + 3;
      }
    }
    assert src[i..] == [] && dst + [] == dst;
    r := Some(dst);
  }

  // ----- Printing

  datatype Url = Url(
    protocol: Text, host: Text, port: Text, path: Text, username: Text, password: Text, params: map<Text, Text>)

  const NONE: Url := Url([], [], [], [], [], [], map[])

  /** The parameters in the iteration order `keys`. */
  function Query(params: map<Text, Text>, keys: seq<Text>): (r: Text)
    requires forall k <- keys :: k in params
  {
    if keys == [] then []
    else if |keys| == 1 then keys[0] + [EQUALS] + params[keys[0]]
    else keys[0] + [EQUALS] + params[keys[0]] + [AND] + Query(params, keys[1..])
  }

  function PortPart(port: Text): (r: Text) {
    if port == [] then [] else [COLON] + port
  }

  function Printed(u: Url, keys: seq<Text>): (r: Text)
    requires forall k <- keys :: k in u.params
  {
    u.protocol + ([COLON, SLASH, SLASH] + (u.host + (PortPart(u.port) + ([SLASH] + u.path
    + ([QUERY] + Query(u.params, keys))))))
  }

  // ----- Parsing a string without NUL, stage by stage

  /** Where the scan for one of `stops` halts. */
  function Until(s: Text, stops: set<Byte>): (n: nat)
    ensures n <= |s| && (forall i :: 0 <= i < n ==> s[i] !in stops) && (n < |s| ==> s[n] in stops)
  {
    if s == [] || s[0] in stops then 0 else 1 + Until(s[1..], stops)
  }

  /** A stage ends the parse with a verdict, or goes on with the rest. */
  datatype Stage = Stop(ok: bool, url: Url) | Go(url: Url, rest: Text)

  predicate IsSchemeChar(c: Byte) {
    IsAlpha(c) || c in {43, 45, 46}
  }

  /** What starts with a certain character. */
  predicate At(s: Text, c: Byte) {
    s != [] && s[0] == c
  }

  function Scheme(u: Url, s: Text): (r: Stage) {
    var n := Until(s, {COLON});
    if n == |s| || exists c <- s[..n] :: !IsSchemeChar(c) then Stop(false, u)
    else
      var rest := s[n + 1..];
      var v := u.(protocol := s[..n]);
      if At(rest, SLASH) && At(rest[1..], SLASH) then Go(v, rest[2..]) else Stop(false, v)
  }

  function Password(u: Url, s: Text): (r: Stage) {
    if !At(s, COLON) then Go(u, s) else
    var n := Until(s[1..], {AT});
    Go(u.(password := s[1..][..n]), s[1..][n..])
  }

  function UserInfo(u: Url, s: Text): (r: Stage) {
    if !At(s[Until(s, {AT, SLASH})..], AT) then Go(u, s) else
    var n := Until(s, {COLON, AT});
    var p := Password(u.(username := s[..n]), s[n..]);
    if p.Go? && At(p.rest, AT) then Go(p.url, p.rest[1..]) else Stop(false, p.url)
  }

  /** A host in brackets ends behind the bracket, another one before a port or path. */
  function HostEnd(s: Text): (n: nat)
    ensures n <= |s|
  {
    if At(s, OPEN) then
      var k := Until(s, {CLOSE});
      if k < |s| then k + 1 else k
    else Until(s, {COLON, SLASH})
  }

  function Port(u: Url, s: Text): (r: Stage) {
    if !At(s, COLON) then Go(u, s) else
    var n := Until(s[1..], {SLASH});
    Go(u.(port := s[1..][..n]), s[1..][n..])
  }

  function Define(params: map<Text, Text>, param: Text): (r: map<Text, Text>) {
    var n := Until(param, {EQUALS});
    if n == |param| then params else params[param[..n] := param[n + 1..]]
  }

  function Params(params: map<Text, Text>, s: Text): (r: map<Text, Text>)
    decreases |s|
  {
    var n := Until(s, {AND});
    var next := Define(params, s[..n]);
    if n == |s| then next else Params(next, s[n + 1..])
  }

  function PathAndQuery(u: Url, s: Text): (r: Url) {
    var n := Until(s, {QUERY});
    var v := u.(path := s[..n]);
    if n == |s| then v else v.(params := Params(u.params, s[n + 1..]))
  }

  function AfterHost(u: Url, s: Text): (r: Url) {
    var p := Port(u, s);
    if p.rest == [] then p.url else PathAndQuery(p.url, p.rest)
  }

  /** The verdict and the new fields of a parser that held `u`. */
  function ParseText(u: Url, s: Text): (r: (bool, Url)) {
    var a := Scheme(u, s);
    if a.Stop? then (a.ok, a.url) else
    var b := UserInfo(a.url, a.rest);
    if b.Stop? then (b.ok, b.url) else
    var n := HostEnd(b.rest);
    (true, AfterHost(b.url.(host := b.rest[..n]), b.rest[n..]))
  }

  // ----- Parsing what was printed

  predicate Free(s: Text, stops: set<Byte>) {
    forall c <- s :: c !in stops
  }

  /** No field holds NUL or a character that ends it. */
  ghost predicate Clean(u: Url) {
    && (forall c <- u.protocol :: IsSchemeChar(c))
    && Free(u.host, {0, SLASH, AT}) && HostClosed(u.host)
    && Free(u.port, {0, SLASH, AT}) && Free(u.path, {0, QUERY})
    && forall k <- u.params.Keys :: Free(k, {0, EQUALS, AND}) && Free(u.params[k], {0, AND})
  }

  /** A host that opens a bracket closes it at its end and only there; another host holds no colon. */
  predicate HostClosed(h: Text) {
    if At(h, OPEN) then h[|h| - 1] == CLOSE && Free(h[..|h| - 1], {CLOSE}) else Free(h, {COLON})
  }

  lemma FreeCat(a: Text, b: Text, stops: set<Byte>)
    requires Free(a, stops) && Free(b, stops)
    ensures Free(a + b, stops)
  {
  }

  lemma {:induction false} UntilIs(a: Text, b: Text, stops: set<Byte>)
    requires Free(a, stops) && (b == [] || b[0] in stops)
    ensures Until(a + b, stops) == |a| && (a + b)[..|a|] == a && (a + b)[|a|..] == b
  {
    if a == [] {
      assert a + b == b;
    } else {
      assert (a + b)[1..] == a[1..] + b;
      UntilIs(a[1..], b, stops);
    }
  }

  lemma SchemeTaken(u: Url, protocol: Text, s: Text)
    requires forall c <- protocol :: IsSchemeChar(c)
    ensures Scheme(u, protocol + ([COLON, SLASH, SLASH] + s)) == Go(u.(protocol := protocol), s)
  {
    var b := [COLON, SLASH, SLASH] + s;
    UntilIs(protocol, b, {COLON});
    assert (protocol + b)[|protocol| + 1..] == b[1..];
    assert b[1..][2..] == s;
  }

  lemma NoUserInfo(u: Url, authority: Text, s: Text)
    requires Free(authority, {AT, SLASH})
    ensures UserInfo(u, authority + ([SLASH] + s)) == Go(u, authority + ([SLASH] + s))
  {
    UntilIs(authority, [SLASH] + s, {AT, SLASH});
  }

  lemma HostTaken(h: Text, s: Text)
    requires HostClosed(h) && Free(h, {SLASH}) && (At(s, COLON) || At(s, SLASH))
    ensures HostEnd(h + s) == |h| && (h + s)[..|h|] == h && (h + s)[|h|..] == s
  {
    if At(h, OPEN) {
      var a := h[..|h| - 1];
      assert h + s == a + ([CLOSE] + s);
      UntilIs(a, [CLOSE] + s, {CLOSE});
    } else {
      UntilIs(h, s, {COLON, SLASH});
    }
  }

  lemma PortTaken(u: Url, port: Text, s: Text)
    requires Free(port, {SLASH}) && At(s, SLASH)
    ensures Port(u, PortPart(port) + s) == Go(if port == [] then u else u.(port := port), s)
  {
    if port == [] {
      assert [] + s == s;
    } else {
      assert (PortPart(port) + s)[1..] == port + s;
      UntilIs(port, s, {SLASH});
    }
  }

  /** `r` is `m` with the parameters of `keys` set. */
  ghost predicate Overlaid(r: map<Text, Text>, m: map<Text, Text>, params: map<Text, Text>, keys: seq<Text>)
    requires forall k <- keys :: k in params
  {
    && (forall k :: k in r <==> k in m || k in keys)
    && (forall k :: k in r ==> r[k] == if k in keys then params[k] else m[k])
  }

  lemma DefineTaken(m: map<Text, Text>, key: Text, value: Text)
    requires Free(key, {EQUALS})
    ensures Define(m, key + [EQUALS] + value) == m[key := value]
  {
    assert key + [EQUALS] + value == key + ([EQUALS] + value);
    UntilIs(key, [EQUALS] + value, {EQUALS});
    assert ([EQUALS] + value)[1..] == value;
    assert (key + ([EQUALS] + value))[|key| + 1..] == value;
  }

  lemma {:induction false} ParamsTaken(m: map<Text, Text>, params: map<Text, Text>, keys: seq<Text>)
    requires forall k <- keys :: k in params && Free(k, {EQUALS, AND}) && Free(params[k], {AND})
    ensures Overlaid(Params(m, Query(params, keys)), m, params, keys)
    decreases |keys|
  {
    if keys != [] {
      var k, ks := keys[0], keys[1..];
      ParamTaken(m, params, keys);
      var next := m[k := params[k]];
      var r := Params(m, Query(params, keys));
      if ks == [] {
        OverlaidOne(r, m, params, keys);
      } else {
        ParamsTaken(next, params, ks);
        OverlaidMore(r, m, next, params, keys);
      }
    }
  }

  lemma OverlaidOne(r: map<Text, Text>, m: map<Text, Text>, params: map<Text, Text>, keys: seq<Text>)
    requires |keys| == 1 && keys[0] in params && r == m[keys[0] := params[keys[0]]]
    ensures Overlaid(r, m, params, keys)
  {
  }

  lemma OverlaidMore(r: map<Text, Text>, m: map<Text, Text>, next: map<Text, Text>, params: map<Text, Text>,
                     keys: seq<Text>)
    requires keys != [] && (forall k <- keys :: k in params) && next == m[keys[0] := params[keys[0]]]
    requires Overlaid(r, next, params, keys[1..])
    ensures Overlaid(r, m, params, keys)
  {
    assert forall k :: k in keys <==> k == keys[0] || k in keys[1..] by {
      assert keys == [keys[0]] + keys[1..];
    }
  }

  lemma ParamTaken(m: map<Text, Text>, params: map<Text, Text>, keys: seq<Text>)
    requires keys != [] && forall k <- keys :: k in params && Free(k, {EQUALS, AND}) && Free(params[k], {AND})
    ensures var next := m[keys[0] := params[keys[0]]];
      Params(m, Query(params, keys)) == if |keys| == 1 then next else Params(next, Query(params, keys[1..]))
  {
    var k, ks := keys[0], keys[1..];
    var one := k + [EQUALS] + params[k];
    DefineTaken(m, k, params[k]);
    OneParam(m, one, Query(params, ks)) by {
      FreeCat(k + [EQUALS], params[k], {AND});
    }
    if ks != [] {
      assert Query(params, keys) == one + [AND] + Query(params, ks);
    }
  }

  lemma OneParam(m: map<Text, Text>, one: Text, query: Text)
    requires Free(one, {AND})
    ensures Params(m, one) == Define(m, one)
    ensures Params(m, one + [AND] + query) == Params(Define(m, one), query)
  {
    assert one + [] == one;
    UntilIs(one, [], {AND});
    var rest := [AND] + query;
    assert one + [AND] + query == one + rest;
    UntilIs(one, rest, {AND});
    assert (one + rest)[|one| + 1..] == query;
  }

  lemma PathTaken(u: Url, path: Text, query: Text)
    requires Free(path, {QUERY})
    ensures PathAndQuery(u, [SLASH] + path + ([QUERY] + query))
         == u.(path := [SLASH] + path, params := Params(u.params, query))
  {
    var a, b := [SLASH] + path, [QUERY] + query;
    UntilIs(a, b, {QUERY});
    assert (a + b)[|a| + 1..] == b[1..] == query;
  }

  /** The parameters in any iteration order. */
  ghost predicate Enumerates(keys: seq<Text>, params: map<Text, Text>) {
    forall k :: k in keys <==> k in params
  }

  /** What a parser that held `before` holds after it has read `u`. */
  ghost function Read(before: Url, u: Url): (r: Url) {
    Url(u.protocol, u.host, if u.port == [] then before.port else u.port, [SLASH] + u.path,
        before.username, before.password, before.params + u.params)
  }

  lemma QueryTaken(m: map<Text, Text>, u: Url, keys: seq<Text>)
    requires Clean(u) && Enumerates(keys, u.params)
    ensures Params(m, Query(u.params, keys)) == m + u.params
  {
    forall k <- keys ensures Free(k, {EQUALS, AND}) && Free(u.params[k], {AND}) {
      assert k in u.params.Keys;
    }
    ParamsTaken(m, u.params, keys);
    OverlaidAll(Params(m, Query(u.params, keys)), m, u.params, keys);
  }

  lemma OverlaidAll(r: map<Text, Text>, m: map<Text, Text>, params: map<Text, Text>, keys: seq<Text>)
    requires Enumerates(keys, params) && Overlaid(r, m, params, keys)
    ensures r == m + params
  {
  }

  lemma AfterHostTaken(u: Url, port: Text, path: Text, query: Text)
    requires Free(port, {SLASH}) && Free(path, {QUERY})
    ensures AfterHost(u, PortPart(port) + ([SLASH] + path + ([QUERY] + query)))
         == u.(port := if port == [] then u.port else port, path := [SLASH] + path, params := Params(u.params, query))
  {
    PortTaken(u, port, [SLASH] + path + ([QUERY] + query));
    PathTaken(if port == [] then u else u.(port := port), path, query);
  }

  lemma Reassociate(a: Text, b: Text, c: Text, d: Text)
    ensures a + (b + ([SLASH] + c + d)) == (a + b) + ([SLASH] + (c + d))
  {
  }

  lemma AuthorityTaken(v: Url, host: Text, port: Text, path: Text, query: Text)
    requires Free(host, {SLASH, AT}) && HostClosed(host) && Free(port, {SLASH, AT})
    ensures var rest := PortPart(port) + ([SLASH] + path + query); var s := host + rest;
      UserInfo(v, s) == Go(v, s) && HostEnd(s) == |host| && s[..|host|] == host && s[|host|..] == rest
  {
    Reassociate(host, PortPart(port), path, query);
    NoUserInfo(v, host + PortPart(port), path + query);
    HostTaken(host, PortPart(port) + ([SLASH] + path + query));
  }

  /** Parsing the printed form of a clean URL succeeds with the same protocol, host, port and parameters, and with the
      path behind the slash that the printer adds. */
  lemma ParsePrinted(before: Url, u: Url, keys: seq<Text>)
    requires Clean(u) && Enumerates(keys, u.params)
    ensures ParseText(before, Printed(u, keys)) == (true, Read(before, u))
  {
    var query := Query(u.params, keys);
    var tail := [SLASH] + u.path + ([QUERY] + query);
    var rest := PortPart(u.port) + tail;
    SchemeTaken(before, u.protocol, u.host + rest);
    var v := before.(protocol := u.protocol);
    AuthorityTaken(v, u.host, u.port, u.path, [QUERY] + query);
    AfterHostTaken(v.(host := u.host), u.port, u.path, query);
    QueryTaken(before.params, u, keys);
  }

  // ----- The whole of `Build` and `Parse`

  /** The C string that starts at the beginning of `s`. */
  function CString(s: Text): (r: Text) {
    s[..Until(s, {0})]
  }

  /** `Parse(const string&)`; None if the decoder runs off the string. */
  function Parse(u: Url, s: Text): (r: Option<(bool, Url)>) {
    var d := Decoded(s);
    if d.None? then None else Some(ParseText(u, CString(d.value)))
  }

  lemma {:induction false} QueryFree(u: Url, keys: seq<Text>)
    requires Clean(u) && forall k <- keys :: k in u.params
    ensures Free(Query(u.params, keys), {0})
    decreases |keys|
  {
    if keys != [] {
      assert keys[0] in u.params.Keys;
      QueryFree(u, keys[1..]);
    }
  }

  lemma PrintedFree(u: Url, keys: seq<Text>)
    requires Clean(u) && forall k <- keys :: k in u.params
    ensures Free(Printed(u, keys), {0})
  {
    QueryFree(u, keys);
    var e := [QUERY] + Query(u.params, keys);
    FreeCat([SLASH] + u.path, e, {0});
    var d := [SLASH] + u.path + e;
    FreeCat(PortPart(u.port), d, {0});
    FreeCat(u.host, PortPart(u.port) + d, {0});
    FreeCat([COLON, SLASH, SLASH], u.host + (PortPart(u.port) + d), {0});
    FreeCat(u.protocol, [COLON, SLASH, SLASH] + (u.host + (PortPart(u.port) + d)), {0});
  }

  /** A fresh parser reads a built URL back. */
  lemma ParseBuilt(u: Url, keys: seq<Text>)
    requires Clean(u) && Enumerates(keys, u.params)
    ensures Parse(NONE, Encoded(Printed(u, keys)))
         == Some((true, u.(path := [SLASH] + u.path, username := [], password := [])))
  {
    var s := Printed(u, keys);
    DecodeEncode(s);
    PrintedFree(u, keys);
    assert s + [] == s;
    UntilIs(s, [], {0});
    ParsePrinted(NONE, u, keys);
    assert map[] + u.params == u.params;
  }

  /** The parser object: its own fields, updated while it reads. */
  class UrlParser {
    var protocol: Text
    var host: Text
    var port: Text
    var path: Text
    var username: Text
    var password: Text
    var params: map<Text, Text>

    ghost function Value(): (u: Url)
      reads this
    {
      Url(protocol, host, port, path, username, password, params)
    }

    constructor ()
      ensures Value() == NONE
    {
      protocol, host, port, path, username, password, params := [], [], [], [], [], [], map[];
    }

    /** `Build`, with the iteration order of the parameters. */
    method Build(keys: seq<Text>) returns (url: Text)
      requires (forall k <- keys :: k in params) && |Printed(Value(), keys)| < WORD
      ensures url == Encoded(Printed(Value(), keys))
    {
      url := protocol + [COLON, SLASH, SLASH];
      url := url + host;
      if port != [] {
        url := url + [COLON];
        url := url + port;
      }
      assert url == protocol + ([COLON, SLASH, SLASH] + (host + PortPart(port)));
      url := url + [SLASH];
      url := url + path;
      url := url + [QUERY];
      ghost var front := url;
      url := AppendQuery(url, keys);
      PrintedInOrder(Value(), keys, front);
      url := EncodeURL(url);
    }

    /** `Parse(const string&)`; None if decoding runs off the string. */
    method ParseString(url: Text) returns (ok: Option<bool>)
      requires |url| < WORD
      modifies this
      ensures var r := Parse(old(Value()), url);
        if r.None? then ok == None && Value() == old(Value()) else ok == Some(r.value.0) && Value() == r.value.1
    {
      var data := DecodeURL(url);
      if data.None? {
        return None;
      }
      var n := Find(data.value, {0});
      var b := ParseCString(data.value[..n]);
      ok := Some(b);
    }

    method ParseCString(s: Text) returns (ok: bool)
      modifies this
      ensures (ok, Value()) == ParseText(old(Value()), s)
    {
      var good, rest := ParseScheme(s);
      if !good {
        return false;
      }
      good, rest := ParseUserInfo(rest);
      if !good {
        return false;
      }
      var n := FindHostEnd(rest);
      host := rest[..n];
      ParseAfterHost(rest[n..]);
      ok := true;
    }

    /** The result of a stage. */
    ghost predicate Ended(st: Stage, good: bool, rest: Text)
      reads this
    {
      st.url == Value() && if good then st.Go? && st.rest == rest else st.Stop? && !st.ok
    }

    method ParseScheme(s: Text) returns (good: bool, rest: Text)
      modifies this
      ensures Ended(Scheme(old(Value()), s), good, rest)
    {
      rest := s;
      var n := Find(s, {COLON});
      if n == |s| {
        return false, s;
      }
      for i := 0 to n
        invariant forall j :: 0 <= j < i ==> IsSchemeChar(s[j])
      {
        if !IsSchemeChar(s[i]) {
          assert s[..n][i] == s[i];
          return false, s;
        }
      }
      protocol := s[..n];
      rest := s[n + 1..];
      if !At(rest, SLASH) || !At(rest[1..], SLASH) {
        return false, rest;
      }
      good, rest := true, rest[2..];
    }

    method ParseUserInfo(s: Text) returns (good: bool, rest: Text)
      modifies this`username, this`password
      ensures Ended(UserInfo(old(Value()), s), good, rest)
    {
      rest := s;
      var n := Find(s, {AT, SLASH});
      if !At(s[n..], AT) {
        return true, s;
      }
      n := Find(s, {COLON, AT});
      username := s[..n];
      rest := ParsePassword(s[n..]);
      if !At(rest, AT) {
        return false, rest;
      }
      good, rest := true, rest[1..];
    }

    method ParsePassword(s: Text) returns (rest: Text)
      modifies this`password
      ensures Go(Value(), rest) == Password(old(Value()), s)
    {
      rest := s;
      if At(rest, COLON) {
        rest := rest[1..];
        var n := Find(rest, {AT});
        password := rest[..n];
        rest := rest[n..];
      }
    }

    static method FindHostEnd(s: Text) returns (n: nat)
      ensures n == HostEnd(s)
    {
      if At(s, OPEN) {
        n := Find(s, {CLOSE});
        if n < |s| {
          n := n + 1;
        }
      } else {
        n := Find(s, {COLON, SLASH});
      }
    }

    method ParseAfterHost(s: Text)
      modifies this
      ensures Value() == AfterHost(old(Value()), s)
    {
      var rest := ParsePort(s);
      if rest != [] {
        ParsePath(rest);
      }
    }

    method ParsePort(s: Text) returns (rest: Text)
      modifies this`port
      ensures Go(Value(), rest) == Port(old(Value()), s)
    {
      rest := s;
      if At(rest, COLON) {
        rest := rest[1..];
        var n := Find(rest, {SLASH});
        port := rest[..n];
        rest := rest[n..];
      }
    }

    method ParsePath(s: Text)
      modifies this`path, this`params
      ensures Value() == PathAndQuery(old(Value()), s)
    {
      var n := Find(s, {QUERY});
      path := s[..n];
      if n < |s| {
        ParseQuery(s[n + 1..]);
      }
    }

    method ParseQuery(s: Text)
      modifies this`params
      ensures params == Params(old(params), s)
    {
      var rest := s;
      var n := Find(rest, {AND});
      ghost var all := Params(params, s);
      while n < |rest|
        invariant n == Until(rest, {AND}) && Params(params, rest) == all
        decreases |rest|
      {
        SetParam(rest[..n]);
        rest := rest[n + 1..];
        n := Find(rest, {AND});
      }
      SetParam(rest[..n]);
    }

    method SetParam(param: Text)
      modifies this`params
      ensures params == Define(old(params), param)
    {
      var pos := Find(param, {EQUALS});
      if pos != |param| {
        params := params[param[..pos] := param[pos + 1..]];
      }
    }

    method AppendQuery(front: Text, keys: seq<Text>) returns (url: Text)
      requires forall k <- keys :: k in params
      ensures url == front + Query(params, keys)
    {
      url := front;
      var flag := [];
      for i := 0 to |keys|
        invariant flag == if i == 0 then [] else [AND]
        invariant url + Remaining(params, keys, i) == front + Query(params, keys)
      {
        QueryStep(params, keys, i, url);
        url := url + flag;
        url := url + keys[i];
        url := url + [EQUALS];
        url := url + params[keys[i]];
        flag := [AND];
      }
      assert url + [] == url;
    }
  }

  /** A pointer that runs to the next of `stops` or to the end. */
  method Find(s: Text, stops: set<Byte>) returns (n: nat)
    ensures n == Until(s, stops)
  {
    n := 0;
    while n < |s| && s[n] !in stops
      invariant n <= |s| && Until(s, stops) == n + Until(s[n..], stops)
    {
      assert s[n..][1..] == s[n + 1..];
      n := n + 1;
    }
  }

  lemma PrintedInOrder(u: Url, keys: seq<Text>, front: Text)
    requires forall k <- keys :: k in u.params
    requires front == u.protocol + ([COLON, SLASH, SLASH] + (u.host + PortPart(u.port))) + [SLASH] + u.path + [QUERY]
    ensures front + Query(u.params, keys) == Printed(u, keys)
  {
  }

  /** What is still to be printed after `i` parameters. */
  ghost function Remaining(params: map<Text, Text>, keys: seq<Text>, i: nat): (r: Text)
    requires i <= |keys| && forall k <- keys :: k in params
  {
    if i == |keys| then [] else if i == 0 then Query(params, keys) else [AND] + Query(params, keys[i..])
  }

  lemma QueryStep(params: map<Text, Text>, keys: seq<Text>, i: nat, url: Text)
    requires i < |keys| && forall k <- keys :: k in params
    ensures url + Remaining(params, keys, i)
         == url + (if i == 0 then [] else [AND]) + keys[i] + [EQUALS] + params[keys[i]] + Remaining(params, keys, i + 1)
  {
    assert keys[0..] == keys;
    QueryHead(params, keys, i);
    Chain(url, if i == 0 then [] else [AND], keys[i], params[keys[i]], Remaining(params, keys, i + 1));
  }

  lemma Chain(a: Text, b: Text, c: Text, d: Text, e: Text)
    ensures a + (b + (c + [EQUALS] + d + e)) == a + b + c + [EQUALS] + d + e
    ensures a + (c + [EQUALS] + d + e) == a + [] + c + [EQUALS] + d + e
  {
  }

  lemma QueryHead(params: map<Text, Text>, keys: seq<Text>, i: nat)
    requires i < |keys| && forall k <- keys :: k in params
    ensures Query(params, keys[i..]) == keys[i] + [EQUALS] + params[keys[i]] + Remaining(params, keys, i + 1)
  {
    var ks := keys[i..];
    assert ks[1..] == keys[i + 1..];
    var one := keys[i] + [EQUALS] + params[keys[i]];
    if i + 1 == |keys| {
      assert |ks| == 1 && one + [] == one;
    } else {
      assert one + [AND] + Query(params, ks[1..]) == one + ([AND] + Query(params, ks[1..]));
    }
  }
}
