/** What `UrlParser::Parse` makes of any text (utils/url_parser.cpp:41-256), stated by the parts a URL is written from:
    scheme, user name and password, host, port, path and query, each free of what would end it. */
module UrlParts {
  import opened Util
  import opened Wire
  import opened Url

  /** The user information in front of the `@`, if any. */
  datatype Login = Nobody | Name(name: Text) | NameAndPassword(name: Text, password: Text)

  /** One parameter of a query; without `=` it defines nothing. */
  datatype Item = Bare(text: Text) | Definition(name: Text, value: Text)

  datatype Parts = Parts(
    protocol: Text, login: Login, host: Text, port: Option<Text>, path: Text, query: Option<seq<Item>>)

  // ----- How the parts are written

  function LoginText(l: Login): (r: Text) {
    match l
    case Nobody => []
    case Name(n) => n + [AT]
    case NameAndPassword(n, p) => n + [COLON] + p + [AT]
  }

  function PortText(port: Option<Text>): (r: Text) {
    if port.None? then [] else [COLON] + port.value
  }

  function ItemText(i: Item): (r: Text) {
    match i
    case Bare(text) => text
    case Definition(name, value) => name + [EQUALS] + value
  }

  function ItemsText(items: seq<Item>): (r: Text)
    requires items != []
  {
    if |items| == 1 then ItemText(items[0]) else ItemText(items[0]) + [AND] + ItemsText(items[1..])
  }

  /** Path and query. */
  function TailText(p: Parts): (r: Text)
    requires p.query.Some? ==> p.query.value != []
  {
    p.path + if p.query.None? then [] else [QUERY] + ItemsText(p.query.value)
  }

  /** Everything behind the user information. */
  function AddressText(p: Parts): (r: Text)
    requires p.query.Some? ==> p.query.value != []
  {
    p.host + (PortText(p.port) + TailText(p))
  }

  function Spelled(p: Parts): (r: Text)
    requires p.query.Some? ==> p.query.value != []
  {
    p.protocol + ([COLON, SLASH, SLASH] + (LoginText(p.login) + AddressText(p)))
  }

  // ----- Each part is free of what would end it

  ghost predicate LoginOk(l: Login, address: Text) {
    match l
    case Nobody =>
      // no `@` in front of the first slash
      forall i :: 0 <= i < |address| && address[i] == AT ==> SLASH in address[..i]
    case Name(n) => Free(n, {COLON, AT, SLASH})
    case NameAndPassword(n, p) => Free(n, {COLON, AT, SLASH}) && Free(p, {AT, SLASH})
  }

  /** A host in brackets ends with its first closing bracket; without one it goes on to the end of the text. Another
      host holds no colon and no slash. */
  ghost predicate HostOk(p: Parts) {
    if At(p.host, OPEN) then
      || (p.host[|p.host| - 1] == CLOSE && Free(p.host[..|p.host| - 1], {CLOSE}))
      || (Free(p.host, {CLOSE}) && p.port == None && p.path == [] && p.query == None)
    else Free(p.host, {COLON, SLASH})
  }

  /** A path starts with a slash, unless it follows a host in brackets directly. */
  ghost predicate PathOk(p: Parts) {
    && Free(p.path, {QUERY})
    && (|| At(p.path, SLASH) || (p.path == [] && p.query == None)
        || (At(p.host, OPEN) && p.port == None && !At(p.path, COLON)))
  }

  ghost predicate ItemOk(i: Item) {
    match i
    case Bare(text) => Free(text, {AND, EQUALS})
    case Definition(name, value) => Free(name, {AND, EQUALS}) && Free(value, {AND})
  }

  ghost predicate QueryOk(q: Option<seq<Item>>) {
    q.Some? ==> q.value != [] && forall i <- q.value :: ItemOk(i)
  }

  ghost predicate Ok(p: Parts) {
    && (forall c <- p.protocol :: IsSchemeChar(c)) && HostOk(p) && PathOk(p) && QueryOk(p.query)
    && (p.port.Some? ==> Free(p.port.value, {SLASH})) && LoginOk(p.login, AddressText(p))
  }

  // ----- What a parser that held `before` holds afterwards

  /** The last item that defines `k`. */
  ghost predicate LastDefinition(items: seq<Item>, i: nat, k: Text)
    requires i < |items|
  {
    Defines(items[i], k) && forall j :: i < j < |items| ==> !Defines(items[j], k)
  }

  ghost predicate Defines(i: Item, k: Text) {
    i.Definition? && i.name == k
  }

  /** `r` is `m` with the definitions of `items`, the last one of a name winning. */
  ghost predicate Updated(r: map<Text, Text>, m: map<Text, Text>, items: seq<Item>) {
    && (forall i, k :: 0 <= i < |items| && LastDefinition(items, i, k) ==> k in r && r[k] == items[i].value)
    && (forall k :: (forall i <- items :: !Defines(i, k)) ==>
          (k in r <==> k in m) && (k in m ==> r[k] == m[k]))
  }

  ghost predicate Holds(after: Url, before: Url, p: Parts) {
    && after.protocol == p.protocol && after.host == p.host
    && after.port == (if p.port.None? then before.port else p.port.value)
    && after.path == (if p.path == [] && p.query == None then before.path else p.path)
    && after.username == (if p.login == Nobody then before.username else p.login.name)
    && after.password == (if p.login.NameAndPassword? then p.login.password else before.password)
    && (if p.query.None? then after.params == before.params
        else Updated(after.params, before.params, p.query.value))
  }

  // ----- Every URL written from such parts is taken apart into them

  lemma LoginTaken(u: Url, l: Login, s: Text)
    requires LoginOk(l, s)
    ensures UserInfo(u, LoginText(l) + s)
         == Go(u.(username := if l == Nobody then u.username else l.name,
                  password := if l.NameAndPassword? then l.password else u.password), s)
  {
    match l
    case Nobody =>
      assert [] + s == s;
    case Name(n) => NameTaken(u, n, s);
    case NameAndPassword(n, p) => PasswordTaken(u, n, p, s);
  }

  lemma NameTaken(u: Url, n: Text, s: Text)
    requires Free(n, {COLON, AT, SLASH})
    ensures UserInfo(u, n + [AT] + s) == Go(u.(username := n), s)
  {
    var t := [AT] + s;
    assert n + [AT] + s == n + t;
    UntilIs(n, t, {AT, SLASH});
    UntilIs(n, t, {COLON, AT});
    assert t[1..] == s;
  }

  lemma PasswordTaken(u: Url, n: Text, p: Text, s: Text)
    requires Free(n, {COLON, AT, SLASH}) && Free(p, {AT, SLASH})
    ensures UserInfo(u, n + [COLON] + p + [AT] + s) == Go(u.(username := n, password := p), s)
  {
    var t, c := [AT] + s, [COLON] + p;
    LoginSplit(n, p, s);
    FreeCat(n, c, {AT, SLASH});
    UntilIs(n + c, t, {AT, SLASH});
    UntilIs(n, c + t, {COLON, AT});
    PasswordStage(u.(username := n), p, s);
    UserInfoStages(u, n, c + t, t);
  }

  lemma LoginSplit(n: Text, p: Text, s: Text)
    ensures n + [COLON] + p + [AT] + s == n + ([COLON] + p + ([AT] + s)) == n + ([COLON] + p) + ([AT] + s)
  {
  }

  lemma PasswordStage(u: Url, p: Text, s: Text)
    requires Free(p, {AT})
    ensures Password(u, [COLON] + p + ([AT] + s)) == Go(u.(password := p), [AT] + s)
  {
    var t := [AT] + s;
    assert ([COLON] + p + t)[1..] == p + t;
    UntilIs(p, t, {AT});
  }

  /** The stages of the user information: the name, the password, the `@`. */
  lemma UserInfoStages(u: Url, n: Text, c: Text, t: Text)
    requires At((n + c)[Until(n + c, {AT, SLASH})..], AT) && Until(n + c, {COLON, AT}) == |n|
    requires var p := Password(u.(username := n), c); p.Go? && p.rest == t && At(t, AT)
    ensures UserInfo(u, n + c) == Go(Password(u.(username := n), c).url, t[1..])
  {
    assert (n + c)[..|n|] == n && (n + c)[|n|..] == c;
  }

  /** A host followed by `t`. */
  ghost predicate HostTakes(h: Text, t: Text) {
    HostEnd(h + t) == |h| && (h + t)[..|h|] == h && (h + t)[|h|..] == t
  }

  lemma BracketsTaken(h: Text, t: Text)
    requires At(h, OPEN) && h[|h| - 1] == CLOSE && Free(h[..|h| - 1], {CLOSE})
    ensures HostTakes(h, t)
  {
    var a := h[..|h| - 1];
    assert h + t == a + ([CLOSE] + t);
    UntilIs(a, [CLOSE] + t, {CLOSE});
  }

  lemma OpenBracketTaken(h: Text)
    requires At(h, OPEN) && Free(h, {CLOSE})
    ensures HostTakes(h, [])
  {
    assert h + [] == h;
    UntilIs(h, [], {CLOSE});
  }

  lemma PlainHostTaken(h: Text, t: Text)
    requires !At(h, OPEN) && Free(h, {COLON, SLASH}) && (t == [] || At(t, COLON) || At(t, SLASH))
    ensures HostTakes(h, t)
  {
    assert t != [] ==> t[0] in {COLON, SLASH};
    UntilIs(h, t, {COLON, SLASH});
    assert h == [] ==> h + t == t;
  }

  lemma HostIs(p: Parts)
    requires HostOk(p) && PathOk(p) && QueryOk(p.query)
    ensures HostTakes(p.host, PortText(p.port) + TailText(p))
  {
    var t := PortText(p.port) + TailText(p);
    if At(p.host, OPEN) {
      if Free(p.host, {CLOSE}) {
        assert t == [];
        OpenBracketTaken(p.host);
      } else {
        BracketsTaken(p.host, t);
      }
    } else {
      assert t == [] || At(t, COLON) || At(t, SLASH);
      PlainHostTaken(p.host, t);
    }
  }

  lemma PortIs(u: Url, port: Option<Text>, s: Text)
    requires port.Some? ==> Free(port.value, {SLASH}) && (s == [] || At(s, SLASH))
    requires port.None? ==> !At(s, COLON)
    ensures Port(u, PortText(port) + s) == Go(if port.None? then u else u.(port := port.value), s)
  {
    if port.None? {
      assert [] + s == s;
    } else {
      assert (PortText(port) + s)[1..] == port.value + s;
      UntilIs(port.value, s, {SLASH});
    }
  }

  lemma BareDefinesNothing(m: map<Text, Text>, text: Text)
    requires Free(text, {EQUALS})
    ensures Define(m, text) == m
  {
    assert text + [] == text;
    UntilIs(text, [], {EQUALS});
  }

  lemma ItemTaken(m: map<Text, Text>, i: Item)
    requires ItemOk(i)
    ensures Define(m, ItemText(i)) == if i.Bare? then m else m[i.name := i.value]
    ensures Free(ItemText(i), {AND})
  {
    match i
    case Bare(text) => BareDefinesNothing(m, text);
    case Definition(name, value) =>
      DefineTaken(m, name, value);
      FreeCat(name + [EQUALS], value, {AND});
  }

  lemma {:induction false} ItemsTaken(m: map<Text, Text>, items: seq<Item>)
    requires items != [] && forall i <- items :: ItemOk(i)
    ensures Updated(Params(m, ItemsText(items)), m, items)
    decreases |items|
  {
    var i := items[0];
    ItemTaken(m, i);
    var next := Define(m, ItemText(i));
    OneParam(m, ItemText(i), if |items| == 1 then [] else ItemsText(items[1..]));
    if |items| == 1 {
      UpdatedByOne(next, m, items);
    } else {
      ItemsTaken(next, items[1..]);
      UpdatedByMore(Params(m, ItemsText(items)), next, m, items);
    }
  }

  lemma UpdatedByOne(r: map<Text, Text>, m: map<Text, Text>, items: seq<Item>)
    requires |items| == 1 && r == if items[0].Bare? then m else m[items[0].name := items[0].value]
    ensures Updated(r, m, items)
  {
    assert items[0] in items;
  }

  lemma UpdatedByMore(r: map<Text, Text>, next: map<Text, Text>, m: map<Text, Text>, items: seq<Item>)
    requires items != [] && Updated(r, next, items[1..])
    requires next == if items[0].Bare? then m else m[items[0].name := items[0].value]
    ensures Updated(r, m, items)
  {
    var rest := items[1..];
    forall i, k | 0 <= i < |items| && LastDefinition(items, i, k) ensures k in r && r[k] == items[i].value {
      if i > 0 {
        assert forall j :: i - 1 < j < |rest| ==> rest[j] == items[j + 1];
        assert LastDefinition(rest, i - 1, k);
      } else {
        assert forall j :: 0 <= j < |rest| ==> rest[j] == items[j + 1];
        assert forall x <- rest :: !Defines(x, k);
      }
    }
    forall k | forall x <- items :: !Defines(x, k)
      ensures (k in r <==> k in m) && (k in m ==> r[k] == m[k])
    {
      assert items[0] in items;
      assert forall x <- rest :: !Defines(x, k);
    }
  }

  lemma PathAlone(u: Url, path: Text)
    requires Free(path, {QUERY})
    ensures PathAndQuery(u, path + []) == u.(path := path)
  {
    UntilIs(path, [], {QUERY});
    assert path + [] == path;
  }

  lemma PathWithQuery(u: Url, path: Text, query: Text)
    requires Free(path, {QUERY})
    ensures PathAndQuery(u, path + ([QUERY] + query)) == u.(path := path, params := Params(u.params, query))
  {
    var q := [QUERY] + query;
    UntilIs(path, q, {QUERY});
    assert (path + q)[|path| + 1..] == q[1..] == query;
  }

  lemma TailTaken(u: Url, p: Parts)
    requires PathOk(p) && QueryOk(p.query) && TailText(p) != []
    ensures var r := PathAndQuery(u, TailText(p));
      && r == u.(path := p.path, params := r.params)
      && (if p.query.None? then r.params == u.params else Updated(r.params, u.params, p.query.value))
  {
    if p.query.None? {
      PathAlone(u, p.path);
    } else {
      PathWithQuery(u, p.path, ItemsText(p.query.value));
      ItemsTaken(u.params, p.query.value);
    }
  }

  lemma AfterHostTakes(u: Url, p: Parts)
    requires Ok(p)
    ensures var r := AfterHost(u, PortText(p.port) + TailText(p));
      && r == u.(port := if p.port.None? then u.port else p.port.value,
                 path := if p.path == [] && p.query == None then u.path else p.path, params := r.params)
      && (if p.query.None? then r.params == u.params else Updated(r.params, u.params, p.query.value))
  {
    var v := if p.port.None? then u else u.(port := p.port.value);
    PortIs(u, p.port, TailText(p));
    if TailText(p) != [] {
      TailTaken(v, p);
    }
  }

  /** A URL written from any such parts is accepted, and each field is the part it was written from; what is not
      written stays as it was. */
  lemma ParseSpelled(before: Url, p: Parts)
    requires Ok(p)
    ensures var (ok, after) := ParseText(before, Spelled(p)); ok && Holds(after, before, p)
  {
    var u := before.(protocol := p.protocol);
    SchemeTaken(before, p.protocol, LoginText(p.login) + AddressText(p));
    LoginTaken(u, p.login, AddressText(p));
    var v := u.(username := if p.login == Nobody then u.username else p.login.name,
                password := if p.login.NameAndPassword? then p.login.password else u.password);
    HostIs(p);
    AfterHostTakes(v.(host := p.host), p);
  }

  /** The printer's text in these terms: no user information, a slash in front of the path, and one definition for each
      parameter, or an empty query. */
  ghost function PrintedParts(u: Url, keys: seq<Text>): (p: Parts)
    requires forall k <- keys :: k in u.params
  {
    Parts(u.protocol, Nobody, u.host, if u.port == [] then None else Some(u.port), [SLASH] + u.path,
          Some(if keys == [] then [Bare([])] else Definitions(u.params, keys)))
  }

  ghost function Definitions(params: map<Text, Text>, keys: seq<Text>): (items: seq<Item>)
    requires forall k <- keys :: k in params
    ensures |items| == |keys| && forall i :: 0 <= i < |keys| ==> items[i] == Definition(keys[i], params[keys[i]])
  {
    seq(|keys|, i requires 0 <= i < |keys| => Definition(keys[i], params[keys[i]]))
  }

  lemma {:induction false} QueryIs(params: map<Text, Text>, keys: seq<Text>)
    requires keys != [] && forall k <- keys :: k in params
    ensures Query(params, keys) == ItemsText(Definitions(params, keys))
    decreases |keys|
  {
    var items := Definitions(params, keys);
    if |keys| > 1 {
      QueryIs(params, keys[1..]);
      assert items[1..] == Definitions(params, keys[1..]);
    }
  }

  lemma PrintedIs(u: Url, keys: seq<Text>)
    requires forall k <- keys :: k in u.params
    ensures Printed(u, keys) == Spelled(PrintedParts(u, keys))
  {
    var p := PrintedParts(u, keys);
    if keys != [] {
      QueryIs(u.params, keys);
    }
    assert PortPart(u.port) == PortText(p.port);
    assert [QUERY] + Query(u.params, keys) == [QUERY] + ItemsText(p.query.value);
    Regroup([SLASH] + u.path, [QUERY], Query(u.params, keys));
    assert [] + AddressText(p) == AddressText(p);
  }

  // ----- And every accepted text is written from such parts

  lemma {:induction false} ItemsOf(s: Text) returns (items: seq<Item>)
    ensures items != [] && (forall i <- items :: ItemOk(i)) && ItemsText(items) == s
    decreases |s|
  {
    var n := Until(s, {AND});
    var i := ItemOf(s[..n]);
    if n == |s| {
      items := [i];
    } else {
      var rest := ItemsOf(s[n + 1..]);
      items := [i] + rest;
      assert items[1..] == rest;
      assert s == s[..n] + [AND] + s[n + 1..];
    }
  }

  lemma ItemOf(s: Text) returns (i: Item)
    requires Free(s, {AND})
    ensures ItemOk(i) && ItemText(i) == s
  {
    var n := Until(s, {EQUALS});
    if n == |s| {
      i := Bare(s);
    } else {
      i := Definition(s[..n], s[n + 1..]);
      assert s == s[..n] + [EQUALS] + s[n + 1..];
    }
  }

  lemma LoginOf(s: Text) returns (l: Login, address: Text)
    ensures LoginOk(l, address) && LoginText(l) + address == s
  {
    var n := Until(s, {AT, SLASH});
    if !At(s[n..], AT) {
      l, address := Nobody, s;
      assert [] + s == s;
      NobodyWritten(s, n);
    } else {
      address := s[n + 1..];
      l := LoginWritten(s, n);
    }
  }

  lemma NobodyWritten(s: Text, n: nat)
    requires n <= |s| && (forall j :: 0 <= j < n ==> s[j] !in {AT, SLASH}) && (n < |s| ==> s[n] == SLASH)
    ensures LoginOk(Nobody, s)
  {
    forall i | 0 <= i < |s| && s[i] == AT ensures SLASH in s[..i] {
      assert s[..i][n] == SLASH;
    }
  }

  lemma LoginWritten(s: Text, n: nat) returns (l: Login)
    requires n < |s| && s[n] == AT && forall j :: 0 <= j < n ==> s[j] !in {AT, SLASH}
    ensures LoginOk(l, s[n + 1..]) && LoginText(l) + s[n + 1..] == s
  {
    var k := Until(s, {COLON, AT});
    if k == n {
      l := Name(s[..n]);
      assert s == s[..n] + [AT] + s[n + 1..];
    } else {
      l := NameAndPassword(s[..k], s[k + 1..n]);
      assert s == s[..k] + [COLON] + s[k + 1..n] + [AT] + s[n + 1..];
      SubFree(s, n, k);
    }
  }

  lemma SubFree(s: Text, n: nat, k: nat)
    requires k < n <= |s| && (forall j :: 0 <= j < n ==> s[j] !in {AT, SLASH})
    requires forall j :: 0 <= j < k ==> s[j] != COLON
    ensures Free(s[..k], {COLON, AT, SLASH}) && Free(s[k + 1..n], {AT, SLASH})
  {
  }

  /** Path and query of what follows host and port. */
  lemma TailOf(s: Text) returns (path: Text, query: Option<seq<Item>>)
    ensures Free(path, {QUERY}) && QueryOk(query)
    ensures s == path + if query.None? then [] else [QUERY] + ItemsText(query.value)
  {
    var n := Until(s, {QUERY});
    path := s[..n];
    if n == |s| {
      query := None;
    } else {
      var items := ItemsOf(s[n + 1..]);
      query := Some(items);
      assert s == s[..n] + ([QUERY] + s[n + 1..]);
    }
  }

  lemma PortOf(s: Text) returns (port: Option<Text>, rest: Text)
    ensures s == PortText(port) + rest
    ensures port.Some? ==> Free(port.value, {SLASH}) && (rest == [] || At(rest, SLASH))
    ensures port.None? ==> rest == s && !At(s, COLON)
  {
    if At(s, COLON) {
      var n := Until(s[1..], {SLASH});
      port, rest := Some(s[1..][..n]), s[1..][n..];
      assert s == [COLON] + s[1..][..n] + s[1..][n..];
    } else {
      port, rest := None, s;
      assert [] + s == s;
    }
  }

  lemma HostOf(s: Text) returns (host: Text, rest: Text)
    ensures s == host + rest
    ensures At(host, OPEN) ==>
      || (host[|host| - 1] == CLOSE && Free(host[..|host| - 1], {CLOSE}))
      || (Free(host, {CLOSE}) && rest == [])
    ensures !At(host, OPEN) ==> Free(host, {COLON, SLASH}) && (rest == [] || At(rest, COLON) || At(rest, SLASH))
  {
    var n := HostEnd(s);
    host, rest := s[..n], s[n..];
    if At(s, OPEN) {
      var k := Until(s, {CLOSE});
      assert k < |s| ==> host[..n - 1] == s[..k];
    }
  }

  lemma AddressOf(s: Text, protocol: Text, login: Login) returns (p: Parts)
    requires LoginOk(login, s) && forall c <- protocol :: IsSchemeChar(c)
    ensures p.protocol == protocol && p.login == login && Ok(p) && AddressText(p) == s
  {
    var host, t := HostOf(s);
    var port, rest := PortOf(t);
    var path, query := TailOf(rest);
    p := Parts(protocol, login, host, port, path, query);
    assert TailText(p) == rest;
    assert rest != [] && path == [] ==> At(rest, QUERY);
    assert path != [] ==> rest[0] == path[0];
  }

  /** A scheme, a colon and two slashes in front. */
  ghost predicate HasScheme(s: Text, n: nat) {
    n + 3 <= |s| && s[n..n + 3] == [COLON, SLASH, SLASH] && forall c <- s[..n] :: IsSchemeChar(c)
  }

  /** A text with a scheme is written from parts. */
  lemma PartsOf(s: Text, n: nat) returns (p: Parts)
    requires HasScheme(s, n)
    ensures Ok(p) && Spelled(p) == s
  {
    var rest := s[n + 3..];
    var login, address := LoginOf(rest);
    p := AddressOf(address, s[..n], login);
    assert s == s[..n] + (s[n..n + 3] + s[n + 3..]);
  }

  lemma SchemeThere(u: Url, s: Text)
    requires Scheme(u, s).Go?
    ensures HasScheme(s, Until(s, {COLON}))
  {
    var n := Until(s, {COLON});
    var rest := s[n + 1..];
    assert s[n..n + 3] == [s[n], rest[0], rest[1..][0]];
  }

  /** The whole of `Parse`: exactly the texts with a scheme are accepted, and then the fields are the parts that the
      text is written from. */
  lemma AcceptedIff(before: Url, s: Text)
    ensures ParseText(before, s).0 <==> exists n :: HasScheme(s, n)
    ensures ParseText(before, s).0 ==>
      exists p :: Ok(p) && Spelled(p) == s && Holds(ParseText(before, s).1, before, p)
  {
    if n :| HasScheme(s, n) {
      var p := PartsOf(s, n);
      ParseSpelled(before, p);
    } else if Scheme(before, s).Go? {
      SchemeThere(before, s);
    }
  }

  /** A rejected text leaves the parser alone, except that a scheme in front of the first colon is stored before the
      slashes are looked for. */
  lemma RejectedFields(before: Url, s: Text)
    requires !ParseText(before, s).0
    ensures var n := Until(s, {COLON});
      ParseText(before, s).1
      == if n < |s| && forall c <- s[..n] :: IsSchemeChar(c) then before.(protocol := s[..n]) else before
  {
    if Scheme(before, s).Go? {
      SchemeThere(before, s);
      AcceptedIff(before, s);
    }
  }
}
