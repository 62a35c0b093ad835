/** Writing a URL from its parts and parsing the text gives exactly those parts back. */
module HttpUrlText {
  import opened Texts
  import opened HttpUrl

  /** The parts of an absolute URL; an empty text stands for a part that is not there. */
  datatype Address = Address(schema: string, userInfo: string, host: string, port: string, path: string, query: string, fragment: string)

  predicate IsAddress(a: Address) {
    && a.schema != "" && (forall c <- a.schema :: IsAlpha(c))
    && (forall c <- a.userInfo :: IsUserInfoChar(c))
    && a.host != "" && (forall c <- a.host :: IsHostChar(c))
    && AllDigits(a.port) && Decimal(a.port) <= MAX_PORT
    && (a.path != "" ==> a.path[0] == '/') && (forall c <- a.path :: IsUrlChar(c))
    && (forall c <- a.query :: IsUrlChar(c) || c == '?')
    && (a.fragment != "" ==> a.fragment[0] != '#') && (forall c <- a.fragment :: IsUrlChar(c) || c == '?' || c == '#')
    && (a.fragment != "" ==> a.path != "" || a.query != "")
  }

  function Server(a: Address): string {
    (if a.userInfo == "" then "" else a.userInfo + "@") + (a.host + (if a.port == "" then "" else ":" + a.port))
  }

  function After(mark: string, s: string): string {
    if s == "" then "" else mark + s
  }

  function Write(a: Address): string {
    a.schema + ("://" + (Server(a) + (a.path + (After("?", a.query) + After("#", a.fragment)))))
  }

  function Component(a: Address, p: Part): string {
    match p
    case SchemaPart => a.schema
    case HostPart => a.host
    case PortPart => a.port
    case PathPart => a.path
    case QueryPart => a.query
    case FragmentPart => a.fragment
    case UserInfoPart => a.userInfo
  }

  // The first loop over the text.

  lemma Next(buf: string, n: nat)
    requires n < |buf|
    ensures ScanTo(buf, false, n + 1) == ScanStep(ScanTo(buf, false, n), n, buf[n])
  {
  }

  /** A run of characters that keep the state makes its field longer. */
  lemma {:induction false} Run(buf: string, n: nat, m: nat, scan: Scan, u: Part)
    requires n <= m <= |buf| && ScanTo(buf, false, n) == scan
    requires PartOf(scan.state) == Just(u) && scan.last == Just(u) && u in scan.fields && !scan.state.ServerWithAt?
    requires forall k | n <= k < m :: UrlChar(scan.state, buf[k]) == scan.state
    ensures ScanTo(buf, false, m) == scan.(fields := scan.fields[u := Field(scan.fields[u].off, scan.fields[u].len + m - n)])
    decreases m
  {
    hide UrlChar;
    if n < m {
      Run(buf, n, m - 1, scan, u);
    } else {
      assert scan.fields[u := Field(scan.fields[u].off, scan.fields[u].len + m - n)] == scan.fields;
    }
  }

  /** A piece of text all in one state, entered by its first character, becomes a new field. */
  lemma Piece(buf: string, n: nat, s: string, scan: Scan, state: UrlState, u: Part)
    requires At(buf, n, s) && s != "" && ScanTo(buf, false, n) == scan && scan.last != Just(u)
    requires PartOf(state) == Just(u) && !state.ServerWithAt?
    requires UrlChar(scan.state, s[0]) == state && forall c <- s[1..] :: UrlChar(state, c) == state
    ensures ScanTo(buf, false, n + |s|) == Scan(state, Just(u), scan.fields[u := Field(n, |s|)], scan.foundAt)
  {
    hide UrlChar;
    AtIndex(buf, n, s);
    Next(buf, n);
    var first := Scan(state, Just(u), scan.fields[u := Field(n, 1)], scan.foundAt);
    assert ScanTo(buf, false, n + 1) == first;
    forall k | n + 1 <= k < n + |s| ensures UrlChar(state, buf[k]) == state {
      assert buf[k] == s[1..][k - n - 1];
    }
    Run(buf, n + 1, n + |s|, first, u);
    assert first.fields[u := Field(n, |s|)] == scan.fields[u := Field(n, |s|)];
  }

  lemma TailIn(s: string)
    requires s != ""
    ensures s[0] in s && forall c <- s[1..] :: c in s
  {
  }

  lemma SchemaChars(a: Address, c: char)
    requires IsAddress(a)
    ensures c in a.schema ==> UrlChar(BeforeUrl, c) == Schema == UrlChar(Schema, c)
    ensures UrlChar(Schema, ':') == SchemaSlash && UrlChar(SchemaSlash, '/') == SchemaSlashSlash && UrlChar(SchemaSlashSlash, '/') == ServerStart
  {
  }

  lemma SchemaRead(buf: string, a: Address)
    requires IsAddress(a) && At(buf, 0, a.schema + "://")
    ensures
      ScanTo(buf, false, |a.schema| + 3) == Scan(ServerStart, Just(SchemaPart), map[SchemaPart := Field(0, |a.schema|)], false)
  {
    hide UrlChar;
    AtParts(buf, 0, a.schema, "://");
    TailIn(a.schema);
    forall c <- a.schema ensures UrlChar(BeforeUrl, c) == Schema == UrlChar(Schema, c) {
      SchemaChars(a, c);
    }
    Piece(buf, 0, a.schema, ScanStart(false), Schema, SchemaPart);
    SlashesRead(buf, |a.schema|, ScanTo(buf, false, |a.schema|), a);
  }

  lemma SlashesRead(buf: string, n: nat, scan: Scan, a: Address)
    requires At(buf, n, "://") && ScanTo(buf, false, n) == scan && scan.state == Schema && IsAddress(a)
    ensures ScanTo(buf, false, n + 3) == scan.(state := ServerStart)
  {
    hide UrlChar;
    SchemaChars(a, ':');
    AtIndex(buf, n, "://");
    Next(buf, n);
    Next(buf, n + 1);
    Next(buf, n + 2);
  }

  lemma HostTextKeeps(a: Address, c: char)
    requires IsAddress(a)
    ensures c in a.userInfo || c in a.host + After(":", a.port) ==> UrlChar(UrlState.Server, c) == UrlState.Server
    ensures c in a.userInfo || c in a.host + After(":", a.port) ==> UrlChar(ServerStart, c) == UrlState.Server
    ensures c in a.host + After(":", a.port) ==> UrlChar(ServerWithAt, c) == UrlState.Server
  {
    if c in a.port {
      var k :| 0 <= k < |a.port| && a.port[k] == c;
    }
  }

  lemma ServerRead(buf: string, n: nat, a: Address, scan: Scan)
    requires IsAddress(a) && At(buf, n, Server(a)) && ScanTo(buf, false, n) == scan
    requires scan.state.ServerStart? && scan.last != Just(HostPart) && !scan.foundAt
    ensures
      ScanTo(buf, false, n + |Server(a)|) ==
      Scan(UrlState.Server, Just(HostPart), scan.fields[HostPart := Field(n, |Server(a)|)], a.userInfo != "")
  {
    hide UrlChar, IsAddress, ScanTo, At;
    var rest := a.host + After(":", a.port);
    forall c: char
      ensures c in a.userInfo || c in rest ==> UrlChar(UrlState.Server, c) == UrlState.Server && UrlChar(ServerStart, c) == UrlState.Server
      ensures c in rest ==> UrlChar(ServerWithAt, c) == UrlState.Server
    {
      HostTextKeeps(a, c);
    }
    assert rest != "" by {
      NotEmpty(a);
    }
    TailIn(rest);
    if a.userInfo == "" {
      assert Server(a) == rest;
      Piece(buf, n, rest, scan, UrlState.Server, HostPart);
    } else {
      Regroup(a.userInfo, "@", rest);
      UserThenHost(buf, n, a.userInfo, rest, scan);
    }
  }

  lemma UserThenHost(buf: string, n: nat, user: string, rest: string, scan: Scan)
    requires At(buf, n, user + ("@" + rest)) && user != "" && rest != "" && ScanTo(buf, false, n) == scan
    requires scan.state.ServerStart? && scan.last != Just(HostPart)
    requires forall c <- user :: UrlChar(UrlState.Server, c) == UrlState.Server && UrlChar(ServerStart, c) == UrlState.Server
    requires UrlChar(ServerWithAt, rest[0]) == UrlState.Server
    requires forall c <- rest :: UrlChar(UrlState.Server, c) == UrlState.Server
    ensures
      ScanTo(buf, false, n + |user| + 1 + |rest|) ==
      Scan(UrlState.Server, Just(HostPart), scan.fields[HostPart := Field(n, |user| + 1 + |rest|)], true)
  {
    hide UrlChar, ScanTo, At;
    var m := n + |user|;
    AtParts(buf, n, user, "@" + rest);
    TailIn(user);
    Piece(buf, n, user, scan, UrlState.Server, HostPart);
    var found := ScanTo(buf, false, m);
    HostAfterAt(buf, m, rest, found);
    assert found.fields[HostPart := Field(n, |user| + 1 + |rest|)] == scan.fields[HostPart := Field(n, |user| + 1 + |rest|)];
  }

  /** One more character of the host field. */
  lemma HostMore(buf: string, n: nat, scan: Scan, state: UrlState)
    requires n < |buf| && ScanTo(buf, false, n) == scan && scan.last == Just(HostPart) && HostPart in scan.fields
    requires UrlChar(scan.state, buf[n]) == state && PartOf(state) == Just(HostPart)
    ensures
      ScanTo(buf, false, n + 1) ==
      Scan(state, Just(HostPart), scan.fields[HostPart := Field(scan.fields[HostPart].off, scan.fields[HostPart].len + 1)], scan.foundAt || state.ServerWithAt?)
  {
    hide UrlChar;
    Next(buf, n);
  }

  lemma AtHead(buf: string, n: nat, s: string)
    requires At(buf, n, s) && s != ""
    ensures n + |s| <= |buf| && buf[n] == s[0]
  {
    AtIndex(buf, n, s);
  }

  lemma AllServer(buf: string, n: nat, s: string)
    requires At(buf, n, s) && forall c <- s :: UrlChar(UrlState.Server, c) == UrlState.Server
    ensures n + |s| <= |buf| && forall i | n <= i < n + |s| :: UrlChar(UrlState.Server, buf[i]) == UrlState.Server
  {
    hide UrlChar;
    AtIndex(buf, n, s);
    forall i | n <= i < n + |s| ensures UrlChar(UrlState.Server, buf[i]) == UrlState.Server {
      assert buf[i] == s[i - n];
    }
  }

  lemma SetTwice(fields: Fields, p: Part, f: Field, g: Field)
    ensures fields[p := f][p := g] == fields[p := g]
  {
  }

  /** Over the at sign and the character behind it. */
  lemma OverAt(buf: string, m: nat, scan: Scan)
    requires m + 1 < |buf| && buf[m] == '@' && UrlChar(ServerWithAt, buf[m + 1]) == UrlState.Server
    requires ScanTo(buf, false, m) == scan && scan.state == UrlState.Server && scan.last == Just(HostPart) && HostPart in scan.fields
    ensures
      var f := scan.fields[HostPart];
      ScanTo(buf, false, m + 2) == Scan(UrlState.Server, Just(HostPart), scan.fields[HostPart := Field(f.off, f.len + 2)], true)
  {
    hide UrlChar, ScanTo, ScanStep;
    AtAfterServer();
    var f := scan.fields[HostPart];
    HostMore(buf, m, scan, ServerWithAt);
    HostMore(buf, m + 1, Scan(ServerWithAt, Just(HostPart), scan.fields[HostPart := Field(f.off, f.len + 1)], true), UrlState.Server);
    SetTwice(scan.fields, HostPart, Field(f.off, f.len + 1), Field(f.off, f.len + 2));
  }

  lemma HostAfterAt(buf: string, m: nat, rest: string, scan: Scan)
    requires At(buf, m, "@" + rest) && rest != "" && ScanTo(buf, false, m) == scan
    requires scan.state == UrlState.Server && scan.last == Just(HostPart) && HostPart in scan.fields
    requires UrlChar(ServerWithAt, rest[0]) == UrlState.Server
    requires forall c <- rest :: UrlChar(UrlState.Server, c) == UrlState.Server
    ensures
      ScanTo(buf, false, m + 1 + |rest|) ==
      Scan(UrlState.Server, Just(HostPart), scan.fields[HostPart := Field(scan.fields[HostPart].off, scan.fields[HostPart].len + 1 + |rest|)], true)
  {
    hide UrlChar, At, ScanTo, ScanStep;
    AtParts(buf, m, "@", rest);
    AtHead(buf, m, "@");
    AtHead(buf, m + 1, rest);
    AllServer(buf, m + 1, rest);
    var f := scan.fields[HostPart];
    var second := Scan(UrlState.Server, Just(HostPart), scan.fields[HostPart := Field(f.off, f.len + 2)], true);
    OverAt(buf, m, scan);
    Run(buf, m + 2, m + 1 + |rest|, second, HostPart);
    SetTwice(scan.fields, HostPart, Field(f.off, f.len + 2), Field(f.off, f.len + 1 + |rest|));
  }

  lemma AtAfterServer()
    ensures UrlChar(UrlState.Server, '@') == ServerWithAt
  {
  }

  function With(fields: Fields, u: Part, n: nat, s: string): Fields {
    if s == "" then fields else fields[u := Field(n, |s|)]
  }

  lemma PathRead(buf: string, n: nat, a: Address, scan: Scan)
    requires IsAddress(a) && At(buf, n, a.path) && ScanTo(buf, false, n) == scan
    requires scan.state == UrlState.Server && scan.last == Just(HostPart)
    ensures
      var r := ScanTo(buf, false, n + |a.path|);
      && r.fields == With(scan.fields, PathPart, n, a.path) && r.foundAt == scan.foundAt
      && (if a.path == "" then r == scan else r.state == InPath && r.last == Just(PathPart))
  {
    hide ScanTo, ScanStep, At;
    if a.path != "" {
      TailIn(a.path);
      Piece(buf, n, a.path, scan, InPath, PathPart);
    }
  }

  /** A part behind its mark. */
  lemma MarkedPiece(buf: string, n: nat, mark: char, s: string, scan: Scan, start: UrlState, state: UrlState, u: Part)
    requires At(buf, n, [mark] + s) && s != "" && ScanTo(buf, false, n) == scan && scan.last != Just(u)
    requires UrlChar(scan.state, mark) == start && PartOf(start).Nothing? && !start.DeadUrl?
    requires PartOf(state) == Just(u) && !state.ServerWithAt?
    requires UrlChar(start, s[0]) == state && forall c <- s :: UrlChar(state, c) == state
    ensures ScanTo(buf, false, n + 1 + |s|) == Scan(state, Just(u), scan.fields[u := Field(n + 1, |s|)], scan.foundAt)
  {
    hide UrlChar;
    AtParts(buf, n, [mark], s);
    AtIndex(buf, n, [mark]);
    Next(buf, n);
    TailIn(s);
    Piece(buf, n + 1, s, Scan(start, scan.last, scan.fields, scan.foundAt), state, u);
  }

  lemma TailChars(a: Address, c: char)
    requires IsAddress(a)
    ensures UrlChar(UrlState.Server, '?') == UrlChar(InPath, '?') == QueryStart
    ensures UrlChar(InPath, '#') == UrlChar(InQuery, '#') == FragmentStart
    ensures c in a.query ==> UrlChar(QueryStart, c) == InQuery == UrlChar(InQuery, c)
    ensures c in a.fragment ==> UrlChar(InFragment, c) == InFragment
    ensures a.fragment != "" ==> UrlChar(FragmentStart, a.fragment[0]) == InFragment
  {
    if a.fragment != "" {
      assert a.fragment[0] in a.fragment;
    }
  }

  lemma QueryRead(buf: string, n: nat, a: Address, scan: Scan)
    requires IsAddress(a) && At(buf, n, After("?", a.query)) && ScanTo(buf, false, n) == scan
    requires (scan.state == UrlState.Server || scan.state == InPath) && scan.last != Just(QueryPart)
    ensures
      var r := ScanTo(buf, false, n + |After("?", a.query)|);
      && r.fields == With(scan.fields, QueryPart, n + 1, a.query) && r.foundAt == scan.foundAt
      && (if a.query == "" then r == scan else r.state == InQuery && r.last == Just(QueryPart))
  {
    hide UrlChar, IsAddress, ScanTo;
    if a.query != "" {
      forall c <- a.query ensures UrlChar(QueryStart, c) == InQuery == UrlChar(InQuery, c) {
        TailChars(a, c);
      }
      TailChars(a, '?');
      TailIn(a.query);
      MarkedPiece(buf, n, '?', a.query, scan, QueryStart, InQuery, QueryPart);
    }
  }

  lemma FragmentRead(buf: string, n: nat, a: Address, scan: Scan)
    requires IsAddress(a) && At(buf, n, After("#", a.fragment)) && ScanTo(buf, false, n) == scan
    requires a.fragment != "" ==> (scan.state == InPath || scan.state == InQuery) && scan.last != Just(FragmentPart)
    ensures
      var r := ScanTo(buf, false, n + |After("#", a.fragment)|);
      && r.fields == With(scan.fields, FragmentPart, n + 1, a.fragment) && r.foundAt == scan.foundAt
      && (if a.fragment == "" then r == scan else r.state == InFragment)
  {
    hide UrlChar, IsAddress, ScanTo;
    if a.fragment != "" {
      forall c <- a.fragment ensures UrlChar(InFragment, c) == InFragment {
        TailChars(a, c);
      }
      TailChars(a, '#');
      MarkedPiece(buf, n, '#', a.fragment, scan, FragmentStart, InFragment, FragmentPart);
    }
  }

  /** The fields the first loop marks off in the text of an address, the server part still in one. */
  function Marked(a: Address): Fields {
    var n1 := |a.schema| + 3;
    var n2 := n1 + |Server(a)|;
    var n3 := n2 + |a.path|;
    var n4 := n3 + |After("?", a.query)|;
    With(With(With(map[SchemaPart := Field(0, |a.schema|), HostPart := Field(n1, |Server(a)|)],
      PathPart, n2, a.path), QueryPart, n3 + 1, a.query), FragmentPart, n4 + 1, a.fragment)
  }

  lemma Pieces(a: Address)
    ensures
      var buf := Write(a);
      var n1 := |a.schema| + 3;
      var n2 := n1 + |Server(a)|;
      var n3 := n2 + |a.path|;
      var n4 := n3 + |After("?", a.query)|;
      && At(buf, 0, a.schema + "://") && At(buf, 0, a.schema) && At(buf, n1, Server(a)) && At(buf, n2, a.path)
      && At(buf, n3, After("?", a.query)) && At(buf, n4, After("#", a.fragment)) && |buf| == n4 + |After("#", a.fragment)|
  {
    hide At, Server, After;
    var buf := Write(a);
    var n1 := |a.schema| + 3;
    var n2 := n1 + |Server(a)|;
    var n3 := n2 + |a.path|;
    var d := After("?", a.query) + After("#", a.fragment);
    AtWhole(buf);
    Regroup(a.schema, "://", Server(a) + (a.path + d));
    AtParts(buf, 0, a.schema + "://", Server(a) + (a.path + d));
    AtParts(buf, 0, a.schema, "://");
    AtParts(buf, n1, Server(a), a.path + d);
    AtParts(buf, n2, a.path, d);
    AtParts(buf, n3, After("?", a.query), After("#", a.fragment));
  }

  lemma AtWhole(buf: string)
    ensures At(buf, 0, buf)
  {
  }

  lemma TextRead(a: Address)
    requires IsAddress(a)
    ensures
      var r := ScanTo(Write(a), false, |Write(a)|);
      !r.state.DeadUrl? && r.fields == Marked(a) && r.foundAt == (a.userInfo != "")
  {
    hide ScanTo, At, Server, Write, IsAddress;
    Pieces(a);
    var buf := Write(a);
    var n1 := |a.schema| + 3;
    var n2 := n1 + |Server(a)|;
    var n3 := n2 + |a.path|;
    var n4 := n3 + |After("?", a.query)|;
    SchemaRead(buf, a);
    var s1 := ScanTo(buf, false, n1);
    ServerRead(buf, n1, a, s1);
    var s2 := ScanTo(buf, false, n2);
    assert s1.fields[HostPart := Field(n1, |Server(a)|)] == map[SchemaPart := Field(0, |a.schema|), HostPart := Field(n1, |Server(a)|)];
    PathRead(buf, n2, a, s2);
    var s3 := ScanTo(buf, false, n3);
    QueryRead(buf, n3, a, s3);
    FragmentFollows(a);
    FragmentRead(buf, n4, a, ScanTo(buf, false, n4));
  }

  lemma FragmentFollows(a: Address)
    requires IsAddress(a)
    ensures a.fragment != "" ==> a.path != "" || a.query != ""
  {
  }

  // The host loop over the server part.

  lemma HostNext(buf: string, fields: Fields, found: bool, n: nat)
    requires HostPart in fields && fields[HostPart].off <= n < |buf|
    ensures HostScanTo(buf, fields, found, n + 1) == HostStep(HostScanTo(buf, fields, found, n), n, buf[n])
  {
  }

  /** The part a host state's characters belong to. */
  function HostPartOf(s: HostState): Maybe {
    match s
    case InUserInfo => Just(UserInfoPart)
    case InHost => Just(HostPart)
    case InPort => Just(PortPart)
    case _ => Nothing
  }

  lemma {:induction false} HostRun(buf: string, fields: Fields, found: bool, n: nat, m: nat, scan: HostScan, u: Part)
    requires HostPart in fields && fields[HostPart].off <= n <= m <= |buf| && HostScanTo(buf, fields, found, n) == scan
    requires HostPartOf(scan.state) == Just(u) && u in scan.fields
    requires forall k | n <= k < m :: HostChar(scan.state, buf[k]) == scan.state
    ensures
      HostScanTo(buf, fields, found, m) ==
      scan.(fields := scan.fields[u := Field(scan.fields[u].off, scan.fields[u].len + m - n)])
    decreases m
  {
    hide HostChar;
    if n < m {
      HostRun(buf, fields, found, n, m - 1, scan, u);
    } else {
      assert scan.fields[u := Field(scan.fields[u].off, scan.fields[u].len + m - n)] == scan.fields;
    }
  }

  lemma HostPiece(buf: string, fields: Fields, found: bool, n: nat, s: string, scan: HostScan, state: HostState, u: Part)
    requires HostPart in fields && fields[HostPart].off <= n && At(buf, n, s) && s != ""
    requires HostScanTo(buf, fields, found, n) == scan && scan.state != state && HostPartOf(state) == Just(u)
    requires u == HostPart ==> HostPart in scan.fields && scan.fields[HostPart].len == 0
    requires HostChar(scan.state, s[0]) == state && forall c <- s[1..] :: HostChar(state, c) == state
    ensures HostScanTo(buf, fields, found, n + |s|) == HostScan(state, scan.fields[u := Field(n, |s|)])
  {
    hide HostChar;
    AtIndex(buf, n, s);
    HostNext(buf, fields, found, n);
    var first := HostScan(state, scan.fields[u := Field(n, 1)]);
    assert HostScanTo(buf, fields, found, n + 1) == first;
    forall k | n + 1 <= k < n + |s| ensures HostChar(state, buf[k]) == state {
      assert buf[k] == s[1..][k - n - 1];
    }
    HostRun(buf, fields, found, n + 1, n + |s|, first, u);
    assert first.fields[u := Field(n, |s|)] == scan.fields[u := Field(n, |s|)];
  }

  lemma HostChars(a: Address, c: char)
    requires IsAddress(a)
    ensures c in a.userInfo ==> HostChar(UserInfoStart, c) == InUserInfo == HostChar(InUserInfo, c)
    ensures c in a.host ==> HostChar(HostStart, c) == InHost == HostChar(InHost, c)
    ensures c in a.port ==> HostChar(PortStart, c) == InPort == HostChar(InPort, c)
    ensures HostChar(InUserInfo, '@') == HostStart && HostChar(InHost, ':') == PortStart
  {
    if c in a.port {
      var k :| 0 <= k < |a.port| && a.port[k] == c;
    }
  }

  /** A delimiter changes the state and nothing else. */
  lemma HostMark(buf: string, fields: Fields, found: bool, n: nat, mark: char, scan: HostScan, state: HostState)
    requires HostPart in fields && fields[HostPart].off <= n && At(buf, n, [mark])
    requires HostScanTo(buf, fields, found, n) == scan && HostChar(scan.state, mark) == state
    requires state.HostStart? || state.PortStart?
    ensures HostScanTo(buf, fields, found, n + 1) == scan.(state := state)
  {
    hide HostChar;
    AtIndex(buf, n, [mark]);
    HostNext(buf, fields, found, n);
  }

  /** Up to the host: with a user part, that part is marked off first. */
  lemma UserRead(buf: string, fields: Fields, a: Address, n: nat)
    requires IsAddress(a) && HostPart in fields && fields[HostPart].off == n
    requires At(buf, n, if a.userInfo == "" then "" else a.userInfo + "@")
    ensures
      var h := n + (if a.userInfo == "" then 0 else |a.userInfo| + 1);
      && h <= |buf|
      && HostScanTo(buf, fields, a.userInfo != "", h) ==
        HostScan(HostStart, With(fields[HostPart := Field(n, 0)], UserInfoPart, n, a.userInfo))
  {
    hide At, HostChar, HostStep, IsAddress;
    AtFits(buf, n, if a.userInfo == "" then "" else a.userInfo + "@");
    if a.userInfo != "" {
      MarkedUser(buf, fields, a, n);
    }
  }

  lemma HostBegins(buf: string, fields: Fields, found: bool)
    requires HostPart in fields && fields[HostPart].off <= |buf|
    ensures HostScanTo(buf, fields, found, fields[HostPart].off) == HostScanStart(fields, found)
  {
  }

  lemma MarkedUser(buf: string, fields: Fields, a: Address, n: nat)
    requires IsAddress(a) && HostPart in fields && fields[HostPart].off == n && At(buf, n, a.userInfo + "@") && a.userInfo != ""
    ensures n + |a.userInfo| + 1 <= |buf|
    ensures HostScanTo(buf, fields, true, n + |a.userInfo| + 1) ==
      HostScan(HostStart, fields[HostPart := Field(n, 0)][UserInfoPart := Field(n, |a.userInfo|)])
  {
    hide At, HostChar, HostStep, IsAddress, HostScanTo;
    AtFits(buf, n, a.userInfo + "@");
    HostBegins(buf, fields, true);
    var m := n + |a.userInfo|;
    AtParts(buf, n, a.userInfo, "@");
    TailIn(a.userInfo);
    forall c <- a.userInfo ensures HostChar(UserInfoStart, c) == InUserInfo == HostChar(InUserInfo, c) {
      HostChars(a, c);
    }
    HostPiece(buf, fields, true, n, a.userInfo, HostScanStart(fields, true), InUserInfo, UserInfoPart);
    HostChars(a, '@');
    HostMark(buf, fields, true, m, '@', HostScanTo(buf, fields, true, m), HostStart);
  }

  lemma NameRead(buf: string, fields: Fields, found: bool, a: Address, h: nat, scan: HostScan)
    requires IsAddress(a) && HostPart in fields && fields[HostPart].off <= h && At(buf, h, a.host)
    requires h <= |buf| && HostScanTo(buf, fields, found, h) == scan && scan.state == HostStart
    requires HostPart in scan.fields && scan.fields[HostPart].len == 0
    ensures HostScanTo(buf, fields, found, h + |a.host|) == HostScan(InHost, scan.fields[HostPart := Field(h, |a.host|)])
  {
    hide HostChar, HostStep;
    TailIn(a.host);
    forall c <- a.host ensures HostChar(HostStart, c) == InHost == HostChar(InHost, c) {
      HostChars(a, c);
    }
    HostPiece(buf, fields, found, h, a.host, scan, InHost, HostPart);
  }

  lemma PortRead(buf: string, fields: Fields, found: bool, a: Address, n: nat, scan: HostScan)
    requires IsAddress(a) && HostPart in fields && fields[HostPart].off <= n && At(buf, n, After(":", a.port))
    requires HostScanTo(buf, fields, found, n) == scan && scan.state == InHost
    ensures
      var r := HostScanTo(buf, fields, found, n + |After(":", a.port)|);
      r.fields == With(scan.fields, PortPart, n + 1, a.port) && HostComplete(r.state)
  {
    hide At, HostChar, HostStep, IsAddress, HostScanTo;
    if a.port != "" {
      MarkedPort(buf, fields, found, a, n, scan);
    }
  }

  lemma MarkedPort(buf: string, fields: Fields, found: bool, a: Address, n: nat, scan: HostScan)
    requires IsAddress(a) && HostPart in fields && fields[HostPart].off <= n && At(buf, n, ":" + a.port) && a.port != ""
    requires HostScanTo(buf, fields, found, n) == scan && scan.state == InHost
    ensures HostScanTo(buf, fields, found, n + 1 + |a.port|) == HostScan(InPort, scan.fields[PortPart := Field(n + 1, |a.port|)])
  {
    hide At, HostChar, HostStep, IsAddress, HostScanTo;
    AtParts(buf, n, ":", a.port);
    HostChars(a, ':');
    HostMark(buf, fields, found, n, ':', scan, PortStart);
    TailIn(a.port);
    forall c <- a.port ensures HostChar(PortStart, c) == InPort == HostChar(InPort, c) {
      HostChars(a, c);
    }
    HostPiece(buf, fields, found, n + 1, a.port, HostScan(PortStart, scan.fields), InPort, PortPart);
  }

  /** The fields of the text of an address. */
  function Final(a: Address): Fields {
    var n := |a.schema| + 3;
    var h := n + (if a.userInfo == "" then 0 else |a.userInfo| + 1);
    With(With(Marked(a)[HostPart := Field(n, 0)], UserInfoPart, n, a.userInfo)[HostPart := Field(h, |a.host|)],
      PortPart, h + |a.host| + 1, a.port)
  }

  lemma BeforeMark(buf: string, n: nat, s: string, mark: string)
    requires At(buf, n, if s == "" then "" else s + mark)
    ensures At(buf, n, s)
  {
    if s != "" {
      AtParts(buf, n, s, mark);
    }
  }

  lemma BehindMark(buf: string, n: nat, s: string, mark: string)
    requires At(buf, n, After(mark, s))
    ensures |After(mark, s)| == (if s == "" then 0 else |mark| + |s|)
    ensures At(buf, n + |After(mark, s)| - |s|, s)
  {
    if s != "" {
      AtParts(buf, n, mark, s);
    }
  }

  lemma ServerIs(a: Address)
    ensures Server(a) == (if a.userInfo == "" then "" else a.userInfo + "@") + (a.host + After(":", a.port))
  {
  }

  lemma ServerPieces(buf: string, a: Address, n: nat)
    requires At(buf, n, Server(a))
    ensures
      var h := n + (if a.userInfo == "" then 0 else |a.userInfo| + 1);
      && At(buf, n, if a.userInfo == "" then "" else a.userInfo + "@") && At(buf, n, a.userInfo)
      && At(buf, h, a.host) && At(buf, h + |a.host|, After(":", a.port)) && At(buf, h + |a.host| + |After(":", a.port)| - |a.port|, a.port)
      && n + |Server(a)| == h + |a.host| + |After(":", a.port)|
  {
    hide At, Server, After;
    var user := if a.userInfo == "" then "" else a.userInfo + "@";
    ServerIs(a);
    AtParts(buf, n, user, a.host + After(":", a.port));
    var h := n + |user|;
    AtParts(buf, h, a.host, After(":", a.port));
    BeforeMark(buf, n, a.userInfo, "@");
    BehindMark(buf, h + |a.host|, a.port, ":");
  }

  lemma MarkedHost(a: Address)
    ensures HostPart in Marked(a) && Marked(a)[HostPart] == Field(|a.schema| + 3, |Server(a)|)
    ensures UserInfoPart !in Marked(a) && PortPart !in Marked(a) && SchemaPart in Marked(a)
  {
  }

  lemma HostRead(a: Address)
    requires IsAddress(a) && FieldEnd(Field(|a.schema| + 3, |Server(a)|)) <= |Write(a)|
    ensures HostPart in Marked(a) && FieldEnd(Marked(a)[HostPart]) <= |Write(a)|
    ensures HostResult(Write(a), Marked(a), a.userInfo != "") == Parsed(Final(a), 0)
  {
    hide HostScanTo, At, Write, IsAddress, Marked, Server;
    MarkedHost(a);
    Pieces(a);
    var buf, fields, found := Write(a), Marked(a), a.userInfo != "";
    var n := |a.schema| + 3;
    var h := n + (if a.userInfo == "" then 0 else |a.userInfo| + 1);
    ServerPieces(buf, a, n);
    UserRead(buf, fields, a, n);
    NameRead(buf, fields, found, a, h, HostScanTo(buf, fields, found, h));
    PortRead(buf, fields, found, a, h + |a.host|, HostScanTo(buf, fields, found, h + |a.host|));
  }

  /** Where a part stands in the text. */
  function Offset(a: Address, p: Part): nat {
    var n := |a.schema| + 3;
    var h := n + (if a.userInfo == "" then 0 else |a.userInfo| + 1);
    var n2 := n + |Server(a)|;
    var n3 := n2 + |a.path|;
    match p
    case SchemaPart => 0
    case UserInfoPart => n
    case HostPart => h
    case PortPart => h + |a.host| + 1
    case PathPart => n2
    case QueryPart => n3 + 1
    case FragmentPart => n3 + |After("?", a.query)| + 1
  }

  lemma FinalIs(a: Address, p: Part)
    requires a.schema != "" && a.host != ""
    ensures p in Final(a) <==> Component(a, p) != ""
    ensures p in Final(a) ==> Final(a)[p] == Field(Offset(a, p), |Component(a, p)|)
  {
    hide Server, After;
  }

  lemma StandsAt(a: Address, p: Part)
    requires Component(a, p) != ""
    ensures At(Write(a), Offset(a, p), Component(a, p))
  {
    hide Write, Server, After, At;
    Pieces(a);
    ServerPieces(Write(a), a, |a.schema| + 3);
    TextParts(Write(a), a);
  }

  lemma FinalFields(a: Address, p: Part)
    requires a.schema != "" && a.host != ""
    ensures p in Final(a) <==> Component(a, p) != ""
    ensures p in Final(a) ==> FieldEnd(Final(a)[p]) <= |Write(a)| && Text(Write(a), Final(a)[p]) == Component(a, p)
  {
    hide Write, Final, Component, Offset;
    FinalIs(a, p);
    if p in Final(a) {
      StandsAt(a, p);
    }
  }

  /** The parts behind their marks. */
  lemma TextParts(buf: string, a: Address)
    requires
      var n3 := |a.schema| + 3 + |Server(a)| + |a.path|;
      && At(buf, n3, After("?", a.query)) && At(buf, n3 + |After("?", a.query)|, After("#", a.fragment))
    ensures
      var n3 := |a.schema| + 3 + |Server(a)| + |a.path|;
      && (a.query != "" ==> At(buf, n3 + 1, a.query))
      && (a.fragment != "" ==> At(buf, n3 + |After("?", a.query)| + 1, a.fragment))
      && (a.port != "" ==> |After(":", a.port)| == |a.port| + 1)
  {
    hide At;
    var n3 := |a.schema| + 3 + |Server(a)| + |a.path|;
    if a.query != "" {
      AtParts(buf, n3, "?", a.query);
    }
    if a.fragment != "" {
      AtParts(buf, n3 + |After("?", a.query)|, "#", a.fragment);
    }
  }

  lemma ParsedIs(a: Address)
    requires IsAddress(a)
    ensures
      && ParseUrl(Write(a), false) == Parsed(Final(a), Decimal(a.port))
      && forall p: Part ::
        && (p in Final(a) <==> Component(a, p) != "")
        && (p in Final(a) ==> FieldEnd(Final(a)[p]) <= |Write(a)| && Text(Write(a), Final(a)[p]) == Component(a, p))
  {
    hide ScanTo, HostResult, Marked, Final, Write, Server, Decimal, At, IsAddress;
    var buf := Write(a);
    TextRead(a);
    Pieces(a);
    MarkedHost(a);
    WriteNotEmpty(a);
    HostRead(a);
    HostFields(buf, false);
    NotEmpty(a);
    forall p: Part
      ensures p in Final(a) <==> Component(a, p) != ""
      ensures p in Final(a) ==> FieldEnd(Final(a)[p]) <= |buf| && Text(buf, Final(a)[p]) == Component(a, p)
    {
      FinalFields(a, p);
    }
    PortOf(a);
  }

  /** Parsing the text of an address sets exactly its parts' fields, each on exactly its text, and the port's value. */
  lemma UrlRoundTrip(a: Address)
    requires IsAddress(a)
    ensures
      var buf := Write(a);
      var r := ParseUrl(buf, false);
      && r.Parsed? && r.port == Decimal(a.port)
      && forall p: Part ::
        && (p in r.fields <==> Component(a, p) != "")
        && (p in r.fields ==> FieldEnd(r.fields[p]) <= |buf| && Text(buf, r.fields[p]) == Component(a, p))
  {
    hide ParseUrl, Final, Write, Component, Decimal;
    ParsedIs(a);
  }

  lemma NotEmpty(a: Address)
    requires IsAddress(a)
    ensures a.schema != "" && a.host != ""
  {
  }

  lemma WriteNotEmpty(a: Address)
    requires IsAddress(a)
    ensures Write(a) != ""
  {
  }

  lemma PortOf(a: Address)
    requires IsAddress(a)
    ensures 0 <= Decimal(a.port) <= MAX_PORT && (a.port == "" ==> Decimal(a.port) == 0)
  {
  }
}
