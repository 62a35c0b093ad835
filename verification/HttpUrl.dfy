/** The URL parser: the states of a URL and of its host part, and the fields they mark off. */
module HttpUrl {
  datatype UrlState =
    | DeadUrl | BeforeUrl
    | Schema | SchemaSlash | SchemaSlashSlash
    | ServerStart | Server | ServerWithAt
    | InPath | QueryStart | InQuery | FragmentStart | InFragment

  datatype HostState =
    | DeadHost | UserInfoStart | InUserInfo | HostStart | V6Start | InHost | V6 | V6End | V6ZoneStart | V6Zone
    | PortStart | InPort

  datatype Part = SchemaPart | HostPart | PortPart | PathPart | QueryPart | FragmentPart | UserInfoPart

  datatype Maybe = Nothing | Just(part: Part)

  datatype Field = Field(off: nat, len: nat)

  type Fields = map<Part, Field>

  function IsAlpha(c: char): bool {
    'a' <= c <= 'z' || 'A' <= c <= 'Z'
  }

  function IsDigit(c: char): bool {
    '0' <= c <= '9'
  }

  predicate IsHex(c: char) {
    IsDigit(c) || 'a' <= c <= 'f' || 'A' <= c <= 'F'
  }

  predicate IsMark(c: char) {
    c == '-' || c == '_' || c == '.' || c == '!' || c == '~' || c == '*' || c == '\'' || c == '(' || c == ')'
  }

  predicate IsUserInfoChar(c: char) {
    || IsAlpha(c) || IsDigit(c) || IsMark(c)
    || c == '%' || c == ';' || c == ':' || c == '&' || c == '=' || c == '+' || c == '$' || c == ','
  }

  /** The printable characters of US-ASCII but for '#' and '?'. */
  predicate IsUrlChar(c: char) {
    33 as char <= c <= 126 as char && c != '#' && c != '?'
  }

  predicate IsHostChar(c: char) {
    IsAlpha(c) || IsDigit(c) || c == '.' || c == '-'
  }

  predicate IsZoneChar(c: char) {
    IsAlpha(c) || IsDigit(c) || c == '%' || c == '.' || c == '-' || c == '_' || c == '~'
  }

  /** parse_url_char. */
  function UrlChar(s: UrlState, c: char): UrlState {
    if c == ' ' || c == '\r' || c == '\n' || c == '\t' || c == 12 as char then DeadUrl
    else
      match s
      case BeforeUrl => if c == '/' || c == '*' then InPath else if IsAlpha(c) then Schema else DeadUrl
      case Schema => if IsAlpha(c) then Schema else if c == ':' then SchemaSlash else DeadUrl
      case SchemaSlash => if c == '/' then SchemaSlashSlash else DeadUrl
      case SchemaSlashSlash => if c == '/' then ServerStart else DeadUrl
      case ServerStart | Server | ServerWithAt =>
        if s.ServerWithAt? && c == '@' then DeadUrl
        else if c == '/' then InPath
        else if c == '?' then QueryStart
        else if c == '@' then ServerWithAt
        else if IsUserInfoChar(c) || c == '[' || c == ']' then Server
        else DeadUrl
      case InPath =>
        if IsUrlChar(c) then InPath else if c == '?' then QueryStart else if c == '#' then FragmentStart else DeadUrl
      case QueryStart | InQuery =>
        if IsUrlChar(c) || c == '?' then InQuery else if c == '#' then FragmentStart else DeadUrl
      case FragmentStart =>
        if IsUrlChar(c) || c == '?' then InFragment else if c == '#' then FragmentStart else DeadUrl
      case InFragment => if IsUrlChar(c) || c == '?' || c == '#' then InFragment else DeadUrl
      case DeadUrl => DeadUrl
  }

  /** http_parse_host_char. */
  function HostChar(s: HostState, c: char): HostState {
    match s
    case UserInfoStart | InUserInfo => if c == '@' then HostStart else if IsUserInfoChar(c) then InUserInfo else DeadHost
    case HostStart => if c == '[' then V6Start else if IsHostChar(c) then InHost else DeadHost
    case InHost => if IsHostChar(c) then InHost else if c == ':' then PortStart else DeadHost
    case V6End => if c == ':' then PortStart else DeadHost
    case V6 => if c == ']' then V6End else if IsHex(c) || c == ':' || c == '.' then V6 else if c == '%' then V6ZoneStart else DeadHost
    case V6Start => if IsHex(c) || c == ':' || c == '.' then V6 else DeadHost
    case V6Zone => if c == ']' then V6End else if IsZoneChar(c) then V6Zone else DeadHost
    case V6ZoneStart => if IsZoneChar(c) then V6Zone else DeadHost
    case PortStart | InPort => if IsDigit(c) then InPort else DeadHost
    case DeadHost => DeadHost
  }

  /** The field the characters of a state belong to; delimiters belong to none. */
  function PartOf(s: UrlState): Maybe {
    match s
    case Schema => Just(SchemaPart)
    case Server | ServerWithAt => Just(HostPart)
    case InPath => Just(PathPart)
    case InQuery => Just(QueryPart)
    case InFragment => Just(FragmentPart)
    case _ => Nothing
  }

  /** What the first loop knows after some characters. */
  datatype Scan = Scan(state: UrlState, last: Maybe, fields: Fields, foundAt: bool)

  function ScanStart(connect: bool): Scan {
    Scan(if connect then ServerStart else BeforeUrl, Nothing, map[], false)
  }

  /** One turn of the first loop, on the character at a position. */
  function ScanStep(scan: Scan, pos: nat, c: char): Scan {
    var s := UrlChar(scan.state, c);
    var next := scan.(state := s, foundAt := scan.foundAt || s.ServerWithAt?);
    match PartOf(s)
    case Nothing => next
    case Just(uf) =>
      if scan.last == Just(uf) && uf in scan.fields then
        next.(fields := scan.fields[uf := Field(scan.fields[uf].off, scan.fields[uf].len + 1)])
      else next.(fields := scan.fields[uf := Field(pos, 1)], last := Just(uf))
  }

  function ScanTo(buf: string, connect: bool, n: nat): Scan
    requires n <= |buf|
  {
    if n == 0 then ScanStart(connect) else ScanStep(ScanTo(buf, connect, n - 1), n - 1, buf[n - 1])
  }

  /** What the host loop knows after some characters; the host's own length is counted anew. */
  datatype HostScan = HostScan(state: HostState, fields: Fields)

  function Grow(fields: Fields, part: Part): Fields {
    if part in fields then fields[part := Field(fields[part].off, fields[part].len + 1)] else fields
  }

  function HostStep(scan: HostScan, pos: nat, c: char): HostScan {
    var s := scan.state;
    var next := HostChar(s, c);
    var host := if HostPart in scan.fields then scan.fields[HostPart] else Field(0, 0);
    var fields :=
      match next
      case InHost => scan.fields[HostPart := Field(if s.InHost? then host.off else pos, host.len + 1)]
      case V6 => scan.fields[HostPart := Field(if s.V6? then host.off else pos, host.len + 1)]
      case V6ZoneStart | V6Zone => Grow(scan.fields, HostPart)
      case InPort => if s.InPort? then Grow(scan.fields, PortPart) else scan.fields[PortPart := Field(pos, 1)]
      case InUserInfo => if s.InUserInfo? then Grow(scan.fields, UserInfoPart) else scan.fields[UserInfoPart := Field(pos, 1)]
      case _ => scan.fields;
    HostScan(next, fields)
  }

  function HostScanStart(fields: Fields, foundAt: bool): HostScan
    requires HostPart in fields
  {
    HostScan(if foundAt then UserInfoStart else HostStart, fields[HostPart := Field(fields[HostPart].off, 0)])
  }

  /** After the characters of the host field up to the position n. */
  function HostScanTo(buf: string, fields: Fields, foundAt: bool, n: nat): HostScan
    requires HostPart in fields && fields[HostPart].off <= n <= |buf|
    decreases n
  {
    if n == fields[HostPart].off then HostScanStart(fields, foundAt)
    else HostStep(HostScanTo(buf, fields, foundAt, n - 1), n - 1, buf[n - 1])
  }

  predicate HostComplete(s: HostState) {
    s.InHost? || s.V6End? || s.InPort?
  }

  function Digit(c: char): int {
    c as int - '0' as int
  }

  predicate AllDigits(s: string) {
    forall i | 0 <= i < |s| :: IsDigit(s[i])
  }

  function Decimal(s: string): (n: int)
    ensures AllDigits(s) ==> n >= 0
  {
    if s == "" then 0 else 10 * Decimal(s[..|s| - 1]) + Digit(s[|s| - 1])
  }

  datatype Result = Failed | Parsed(fields: Fields, port: nat)

  const MAX_PORT := 0xFFFF

  /** The text of a field. */
  function Text(buf: string, f: Field): string
    requires f.off + f.len <= |buf|
  {
    buf[f.off..f.off + f.len]
  }

  // What both loops keep.

  /** The order in which the parts of a URL can come. */
  function Place(p: Part): nat {
    match p
    case SchemaPart => 1
    case UserInfoPart => 2
    case HostPart => 3
    case PortPart => 4
    case PathPart => 5
    case QueryPart => 7
    case FragmentPart => 9
  }

  /** How far a URL has come in that order. */
  function PlaceOf(s: UrlState): nat {
    match s
    case DeadUrl | BeforeUrl => 0
    case Schema => 1
    case SchemaSlash | SchemaSlashSlash | ServerStart => 2
    case Server | ServerWithAt => 3
    case InPath => 5
    case QueryStart => 6
    case InQuery => 7
    case FragmentStart => 8
    case InFragment => 9
  }

  /** Fields are not empty, end by the position n, and lie in the order of their parts without overlap. */
  predicate InOrder(fields: Fields, n: nat) {
    && (forall p <- fields :: fields[p].len > 0 && fields[p].off + fields[p].len <= n)
    && (forall p, q | p in fields && q in fields && Place(p) < Place(q) :: fields[p].off + fields[p].len <= fields[q].off)
  }

  predicate ScanGood(scan: Scan, n: nat) {
    && InOrder(scan.fields, n)
    && (forall p <- scan.fields :: Place(p) <= PlaceOf(scan.state) && p != UserInfoPart && p != PortPart)
    && match PartOf(scan.state)
      case Nothing => forall p <- scan.fields :: Place(p) < PlaceOf(scan.state)
      case Just(u) => scan.last == Just(u) && u in scan.fields && scan.fields[u].off + scan.fields[u].len == n
  }

  lemma StateMoves(s: UrlState, c: char)
    requires !UrlChar(s, c).DeadUrl?
    ensures PlaceOf(s) <= PlaceOf(UrlChar(s, c))
    ensures PartOf(s).Just? && PartOf(UrlChar(s, c)).Nothing? ==> PlaceOf(s) < PlaceOf(UrlChar(s, c))
  {
  }

  lemma PartPlaces(s: UrlState)
    ensures PartOf(s).Just? ==> Place(PartOf(s).part) == PlaceOf(s) && PartOf(s).part != UserInfoPart && PartOf(s).part != PortPart
  {
  }

  lemma PlaceTells(p: Part, q: Part)
    ensures Place(p) == Place(q) ==> p == q
  {
  }

  lemma ScanStepKeeps(scan: Scan, n: nat, c: char)
    requires ScanGood(scan, n) && !UrlChar(scan.state, c).DeadUrl?
    ensures ScanGood(ScanStep(scan, n, c), n + 1)
  {
    hide UrlChar, PartOf, PlaceOf, Place, InOrder;
    var s := UrlChar(scan.state, c);
    StateMoves(scan.state, c);
    PartPlaces(scan.state);
    PartPlaces(s);
    if PartOf(s).Just? {
      var uf := PartOf(s).part;
      forall p | p in scan.fields && p != uf ensures Place(p) < Place(uf) {
        PlaceTells(p, uf);
      }
      if PartOf(scan.state).Just? {
        PlaceTells(PartOf(scan.state).part, uf);
      }
      if scan.last == Just(uf) && uf in scan.fields {
        GrownInOrder(scan.fields, n, uf);
      } else {
        NewInOrder(scan.fields, n, uf);
      }
    } else {
      StillInOrder(scan.fields, n);
    }
  }

  lemma StillInOrder(fields: Fields, n: nat)
    requires InOrder(fields, n)
    ensures InOrder(fields, n + 1)
  {
  }

  /** The last field takes in the next character. */
  lemma GrownInOrder(fields: Fields, n: nat, u: Part)
    requires InOrder(fields, n) && u in fields && fields[u].off + fields[u].len == n
    requires forall p | p in fields && p != u :: Place(p) < Place(u)
    ensures InOrder(fields[u := Field(fields[u].off, fields[u].len + 1)], n + 1)
  {
    hide Place;
  }

  /** A field behind all others begins. */
  lemma NewInOrder(fields: Fields, n: nat, u: Part)
    requires InOrder(fields, n) && u !in fields
    requires forall p | p in fields && p != u :: Place(p) < Place(u)
    ensures InOrder(fields[u := Field(n, 1)], n + 1)
  {
    hide Place;
  }

  lemma {:induction false} ScanKeeps(buf: string, connect: bool, n: nat)
    requires n <= |buf| && !ScanTo(buf, connect, n).state.DeadUrl?
    ensures ScanGood(ScanTo(buf, connect, n), n)
    decreases n
  {
    hide UrlChar, ScanGood, ScanStep;
    if n == 0 {
      StartGood(connect);
    } else {
      var before := ScanTo(buf, connect, n - 1);
      StepState(before, n - 1, buf[n - 1]);
      ScanKeeps(buf, connect, n - 1);
      ScanStepKeeps(before, n - 1, buf[n - 1]);
    }
  }

  lemma StartGood(connect: bool)
    ensures ScanGood(ScanStart(connect), 0)
  {
  }

  lemma StepState(scan: Scan, n: nat, c: char)
    ensures ScanStep(scan, n, c).state == UrlChar(scan.state, c)
    ensures scan.state.DeadUrl? ==> UrlChar(scan.state, c).DeadUrl?
  {
    hide UrlChar;
    DeadStays(scan.state, c);
  }

  lemma DeadStays(s: UrlState, c: char)
    ensures s.DeadUrl? ==> UrlChar(s, c).DeadUrl?
  {
  }

  // The host loop.

  function FieldEnd(f: Field): nat {
    f.off + f.len
  }

  /** What the host loop keeps between the start of the host field and the position n. */
  predicate HostGood(fields: Fields, scan: HostScan, n: nat)
    requires HostPart in fields
  {
    var start, s, f := fields[HostPart].off, scan.state, scan.fields;
    && HostPart in f && start <= n
    && (forall p | p in f && p != UserInfoPart && p != HostPart && p != PortPart :: p in fields && f[p] == fields[p])
    && (forall p <- fields :: p in f)
    && (UserInfoPart in f ==>
      && start <= f[UserInfoPart].off && f[UserInfoPart].len > 0
      && FieldEnd(f[UserInfoPart]) <= n && (s.InUserInfo? ==> FieldEnd(f[UserInfoPart]) == n))
    && (s.UserInfoStart? ==> UserInfoPart !in f)
    && (s.InUserInfo? ==> UserInfoPart in f)
    && (if s.UserInfoStart? || s.InUserInfo? || s.HostStart? || s.V6Start? then f[HostPart].len == 0
      else
        && f[HostPart].len > 0 && start <= f[HostPart].off && FieldEnd(f[HostPart]) <= n
        && (UserInfoPart in f ==> FieldEnd(f[UserInfoPart]) <= f[HostPart].off))
    && (s.InHost? || s.V6? || s.V6ZoneStart? || s.V6Zone? ==> FieldEnd(f[HostPart]) == n)
    && (PortPart in f <==> s.InPort?)
    && (s.InPort? ==> f[PortPart].len > 0 && FieldEnd(f[PortPart]) == n && FieldEnd(f[HostPart]) <= f[PortPart].off)
  }

  lemma HostStepKeeps(fields: Fields, scan: HostScan, n: nat, c: char)
    requires HostPart in fields && UserInfoPart !in fields && PortPart !in fields
    requires HostGood(fields, scan, n) && !HostChar(scan.state, c).DeadHost?
    ensures HostGood(fields, HostStep(scan, n, c), n + 1)
  {
    hide IsAlpha, IsDigit, IsHex, IsZoneChar, IsHostChar, IsUserInfoChar;
  }

  lemma {:induction false} HostKeeps(buf: string, fields: Fields, foundAt: bool, n: nat)
    requires HostPart in fields && UserInfoPart !in fields && PortPart !in fields
    requires fields[HostPart].off <= n <= |buf| && !HostScanTo(buf, fields, foundAt, n).state.DeadHost?
    ensures HostGood(fields, HostScanTo(buf, fields, foundAt, n), n)
    decreases n
  {
    hide HostChar, HostGood, HostStep;
    if n == fields[HostPart].off {
      HostStartGood(fields, foundAt);
    } else {
      var before := HostScanTo(buf, fields, foundAt, n - 1);
      HostStepState(before, n - 1, buf[n - 1]);
      HostKeeps(buf, fields, foundAt, n - 1);
      HostStepKeeps(fields, before, n - 1, buf[n - 1]);
    }
  }

  lemma HostStartGood(fields: Fields, foundAt: bool)
    requires HostPart in fields && UserInfoPart !in fields && PortPart !in fields
    ensures HostGood(fields, HostScanStart(fields, foundAt), fields[HostPart].off)
  {
  }

  lemma HostStepState(scan: HostScan, n: nat, c: char)
    ensures HostStep(scan, n, c).state == HostChar(scan.state, c)
    ensures scan.state.DeadHost? ==> HostChar(scan.state, c).DeadHost?
  {
  }

  /** The characters of a port are digits. */
  lemma {:induction false} PortDigits(buf: string, fields: Fields, foundAt: bool, n: nat)
    requires HostPart in fields && UserInfoPart !in fields && PortPart !in fields
    requires fields[HostPart].off <= n <= |buf| && HostScanTo(buf, fields, foundAt, n).state.InPort?
    ensures
      var f := HostScanTo(buf, fields, foundAt, n).fields;
      && PortPart in f && FieldEnd(f[PortPart]) == n && AllDigits(Text(buf, f[PortPart]))
    decreases n
  {
    hide HostGood;
    HostKeeps(buf, fields, foundAt, n);
    InPortHas(fields, HostScanTo(buf, fields, foundAt, n), n);
    var before := HostScanTo(buf, fields, foundAt, n - 1);
    if before.state.InPort? {
      PortDigits(buf, fields, foundAt, n - 1);
    }
    hide AllDigits;
    PortStep(buf, before, n - 1);
  }

  lemma IntoPort(s: HostState, c: char)
    ensures HostChar(s, c).InPort? ==> IsDigit(c)
  {
  }

  lemma PortStep(buf: string, scan: HostScan, n: nat)
    requires n < |buf| && HostStep(scan, n, buf[n]).state.InPort?
    requires scan.state.InPort? ==>
      PortPart in scan.fields && FieldEnd(scan.fields[PortPart]) == n && AllDigits(Text(buf, scan.fields[PortPart]))
    ensures
      var f := HostStep(scan, n, buf[n]).fields;
      && PortPart in f && FieldEnd(f[PortPart]) == n + 1 && AllDigits(Text(buf, f[PortPart]))
  {
    hide HostChar, IsDigit;
    IntoPort(scan.state, buf[n]);
    if scan.state.InPort? {
      var p := scan.fields[PortPart];
      DigitAppended(Text(buf, p), buf[n]);
      assert Text(buf, Field(p.off, p.len + 1)) == Text(buf, p) + [buf[n]];
    } else {
      assert Text(buf, Field(n, 1)) == [buf[n]];
    }
  }

  lemma DigitAppended(s: string, c: char)
    requires AllDigits(s) && IsDigit(c)
    ensures AllDigits(s + [c])
  {
  }

  lemma InPortHas(fields: Fields, scan: HostScan, n: nat)
    requires HostPart in fields && HostGood(fields, scan, n) && scan.state.InPort?
    ensures PortPart in scan.fields && FieldEnd(scan.fields[PortPart]) == n && fields[HostPart].off < n
  {
  }

  // Parsing a URL.

  /** http_parse_host: the fields with the host field taken apart, or failure. */
  function HostResult(buf: string, fields: Fields, foundAt: bool): Result
    requires HostPart in fields && FieldEnd(fields[HostPart]) <= |buf|
  {
    var scan := HostScanTo(buf, fields, foundAt, FieldEnd(fields[HostPart]));
    if HostComplete(scan.state) then Parsed(scan.fields, 0) else Failed
  }

  function WithPort(buf: string, fields: Fields): Result
    requires PortPart in fields ==> FieldEnd(fields[PortPart]) <= |buf|
  {
    if PortPart !in fields then Parsed(fields, 0)
    else
      var v := Decimal(Text(buf, fields[PortPart]));
      if 0 <= v <= MAX_PORT then Parsed(fields, v) else Failed
  }

  /** http_parser_parse_url. */
  function ParseUrl(buf: string, connect: bool): Result {
    if buf == "" then Failed
    else
      var scan := ScanTo(buf, connect, |buf|);
      if scan.state.DeadUrl? then Failed
      else if SchemaPart in scan.fields && HostPart !in scan.fields then Failed
      else
        ScanKeeps(buf, connect, |buf|);
        ScanFields(scan, |buf|);
        var host := if HostPart in scan.fields then HostResult(buf, scan.fields, scan.foundAt) else Parsed(scan.fields, 0);
        if host.Failed? then Failed
        else if connect && host.fields.Keys != {HostPart, PortPart} then Failed
        else
          HostFields(buf, connect);
          WithPort(buf, host.fields)
  }

  lemma ScanFields(scan: Scan, n: nat)
    requires ScanGood(scan, n)
    ensures InOrder(scan.fields, n) && UserInfoPart !in scan.fields && PortPart !in scan.fields
    ensures forall p <- scan.fields :: FieldEnd(scan.fields[p]) <= n
  {
  }

  /** Fields after both loops: in the buffer, in order, the host not empty, the port made of digits. */
  predicate FieldsGood(buf: string, fields: Fields) {
    && InOrder(fields, |buf|)
    && (PortPart in fields ==> FieldEnd(fields[PortPart]) <= |buf| && AllDigits(Text(buf, fields[PortPart])))
  }

  lemma HostInOrder(fields: Fields, scan: HostScan, n: nat, size: nat)
    requires HostPart in fields && UserInfoPart !in fields && PortPart !in fields && InOrder(fields, size)
    requires n == FieldEnd(fields[HostPart]) && HostGood(fields, scan, n) && HostComplete(scan.state)
    ensures InOrder(scan.fields, size)
  {
    var f := scan.fields;
    forall p <- f ensures f[p].len > 0 && FieldEnd(f[p]) <= size {
    }
    forall p, q | p in f && q in f && Place(p) < Place(q) ensures FieldEnd(f[p]) <= f[q].off {
      if p in fields && p != HostPart && q !in fields {
        assert FieldEnd(fields[p]) <= fields[HostPart].off;
      }
      if q in fields && q != HostPart && p !in fields {
        assert n <= fields[q].off;
      }
    }
  }

  lemma HostFields(buf: string, connect: bool)
    requires buf != ""
    requires
      var scan := ScanTo(buf, connect, |buf|);
      && !scan.state.DeadUrl?
    ensures
      var scan := ScanTo(buf, connect, |buf|);
      && InOrder(scan.fields, |buf|)
      && (if HostPart in scan.fields then
        var host := HostResult(buf, scan.fields, scan.foundAt);
        host.Parsed? ==> FieldsGood(buf, host.fields) && HostPart in host.fields && (SchemaPart in host.fields <==> SchemaPart in scan.fields)
      else FieldsGood(buf, scan.fields))
  {
    hide HostGood, ScanGood, InOrder;
    var scan := ScanTo(buf, connect, |buf|);
    ScanKeeps(buf, connect, |buf|);
    ScanFields(scan, |buf|);
    if HostPart in scan.fields {
      var n := FieldEnd(scan.fields[HostPart]);
      var hs := HostScanTo(buf, scan.fields, scan.foundAt, n);
      if HostComplete(hs.state) {
        HostKeeps(buf, scan.fields, scan.foundAt, n);
        HostInOrder(scan.fields, hs, n, |buf|);
        HostParts(scan.fields, hs, n);
        if hs.state.InPort? {
          PortDigits(buf, scan.fields, scan.foundAt, n);
        }
      }
    }
  }

  lemma HostParts(fields: Fields, scan: HostScan, n: nat)
    requires HostPart in fields && HostGood(fields, scan, n)
    ensures HostPart in scan.fields && (PortPart in scan.fields <==> scan.state.InPort?)
    ensures SchemaPart in scan.fields <==> SchemaPart in fields
  {
  }

  /** What a URL that parses looks like: its fields lie in the buffer, are not empty and do not overlap; a schema comes
      with a host; the port is the value of its digits and fits; CONNECT has a host and a port and nothing else. */
  lemma UrlSound(buf: string, connect: bool)
    requires ParseUrl(buf, connect).Parsed?
    ensures
      var fields, port := ParseUrl(buf, connect).fields, ParseUrl(buf, connect).port;
      && (forall p <- fields :: 0 < fields[p].len && FieldEnd(fields[p]) <= |buf|)
      && (forall p, q | p in fields && q in fields && p != q :: FieldEnd(fields[p]) <= fields[q].off || FieldEnd(fields[q]) <= fields[p].off)
      && (SchemaPart in fields ==> HostPart in fields)
      && (PortPart in fields ==> AllDigits(Text(buf, fields[PortPart])) && port == Decimal(Text(buf, fields[PortPart])) <= MAX_PORT)
      && (PortPart !in fields ==> port == 0)
      && (connect ==> fields.Keys == {HostPart, PortPart})
  {
    hide ScanTo, HostScanTo;
    HostFields(buf, connect);
    var fields := ParseUrl(buf, connect).fields;
    forall p, q | p in fields && q in fields && p != q ensures Place(p) < Place(q) || Place(q) < Place(p) {
      PlaceTells(p, q);
    }
  }

  // The loops.

  lemma {:induction false} DeadForGood(buf: string, connect: bool, n: nat, k: nat)
    requires n <= k <= |buf| && ScanTo(buf, connect, n).state.DeadUrl?
    ensures ScanTo(buf, connect, k).state.DeadUrl?
    decreases k
  {
    hide ScanStep, UrlChar;
    if n < k {
      DeadForGood(buf, connect, n, k - 1);
      StepState(ScanTo(buf, connect, k - 1), k - 1, buf[k - 1]);
    }
  }

  lemma {:induction false} HostDeadForGood(buf: string, fields: Fields, foundAt: bool, n: nat, k: nat)
    requires HostPart in fields && fields[HostPart].off <= n <= k <= |buf|
    requires HostScanTo(buf, fields, foundAt, n).state.DeadHost?
    ensures HostScanTo(buf, fields, foundAt, k).state.DeadHost?
    decreases k
  {
    hide HostStep, HostChar;
    if n < k {
      HostDeadForGood(buf, fields, foundAt, n, k - 1);
      HostStepState(HostScanTo(buf, fields, foundAt, k - 1), k - 1, buf[k - 1]);
    }
  }

  /** Digits behind a number only make it larger. */
  lemma {:induction false} DecimalGrows(s: string, n: nat)
    requires AllDigits(s) && n <= |s|
    ensures 0 <= Decimal(s[..n]) <= Decimal(s)
    decreases |s| - n
  {
    if n < |s| {
      assert s[..n + 1][..n] == s[..n];
      DecimalGrows(s, n + 1);
      assert AllDigits(s[..n]);
    } else {
      assert s[..n] == s;
    }
  }

  /** http_parser_url, filled in field by field. */
  class Url {
    var fields: Fields
    var port: nat
    /** Whether the server part had an '@': a local variable of the parser. */
    var foundAt: bool

    constructor ()
      ensures fields == map[] && port == 0
    {
      fields, port, foundAt := map[], 0, false;
    }

    /** The first loop. */
    method ScanAll(buf: string, connect: bool) returns (failed: bool)
      modifies `fields, `foundAt
      ensures
        var scan := ScanTo(buf, connect, |buf|);
        && (failed <==> scan.state.DeadUrl?) && (!failed ==> fields == scan.fields && foundAt == scan.foundAt)
    {
      hide UrlChar;
      fields, foundAt := map[], false;
      var s := if connect then ServerStart else BeforeUrl;
      var last := Nothing;
      for p := 0 to |buf|
        invariant ScanTo(buf, connect, p) == Scan(s, last, fields, foundAt) && !s.DeadUrl?
        invariant last.Just? ==> last.part in fields
      {
        s := UrlChar(s, buf[p]);
        if s.DeadUrl? {
          DeadForGood(buf, connect, p + 1, |buf|);
          return true;
        }
        if s.ServerWithAt? {
          foundAt := true;
        }
        var uf := PartOf(s);
        if uf.Just? {
          if uf == last {
            fields := fields[uf.part := Field(fields[uf.part].off, fields[uf.part].len + 1)];
          } else {
            fields := fields[uf.part := Field(p, 1)];
            last := uf;
          }
        }
      }
      failed := false;
    }

    /** What the host loop does with a character that leads from the state s to the next one. */
    method Mark(buf: string, s: HostState, next: HostState, p: nat)
      requires p < |buf| && next == HostChar(s, buf[p]) && HostPart in fields
      requires (s.InUserInfo? ==> UserInfoPart in fields) && (s.InPort? ==> PortPart in fields)
      modifies `fields
      ensures HostScan(next, fields) == HostStep(HostScan(s, old(fields)), p, buf[p])
      ensures HostPart in fields && (next.InUserInfo? ==> UserInfoPart in fields) && (next.InPort? ==> PortPart in fields)
    {
      hide HostChar;
      match next
      case InHost => fields := fields[HostPart := Field(if s != InHost then p else fields[HostPart].off, fields[HostPart].len + 1)];
      case V6 => fields := fields[HostPart := Field(if s != V6 then p else fields[HostPart].off, fields[HostPart].len + 1)];
      case V6ZoneStart | V6Zone => fields := fields[HostPart := Field(fields[HostPart].off, fields[HostPart].len + 1)];
      case InPort =>
        if s != InPort {
          fields := fields[PortPart := Field(p, 0)];
        }
        fields := fields[PortPart := Field(fields[PortPart].off, fields[PortPart].len + 1)];
      case InUserInfo =>
        if s != InUserInfo {
          fields := fields[UserInfoPart := Field(p, 0)];
        }
        fields := fields[UserInfoPart := Field(fields[UserInfoPart].off, fields[UserInfoPart].len + 1)];
      case _ =>
    }

    method ParseHost(buf: string, foundAt: bool) returns (failed: bool)
      requires HostPart in fields && FieldEnd(fields[HostPart]) <= |buf|
      requires UserInfoPart !in fields && PortPart !in fields
      modifies `fields
      ensures
        var r := HostResult(buf, old(fields), foundAt);
        && (failed <==> r.Failed?) && (!failed ==> fields == r.fields)
    {
      hide HostChar, HostStep;
      ghost var start := fields;
      var p, end := fields[HostPart].off, FieldEnd(fields[HostPart]);
      fields := fields[HostPart := Field(p, 0)];
      var s := if foundAt then UserInfoStart else HostStart;
      while p < end
        invariant start[HostPart].off <= p <= end
        decreases end - p
        invariant HostScanTo(buf, start, foundAt, p) == HostScan(s, fields) && !s.DeadHost?
        invariant HostPart in fields && (s.InUserInfo? ==> UserInfoPart in fields) && (s.InPort? ==> PortPart in fields)
      {
        var next := HostChar(s, buf[p]);
        HostStepState(HostScan(s, fields), p, buf[p]);
        if next.DeadHost? {
          HostDeadForGood(buf, start, foundAt, p + 1, end);
          return true;
        }
        Mark(buf, s, next, p);
        s := next;
        p := p + 1;
      }
      failed := !HostComplete(s);
    }

    method ReadPort(buf: string, f: Field) returns (failed: bool)
      requires FieldEnd(f) <= |buf| && AllDigits(Text(buf, f))
      modifies `port
      ensures failed <==> Decimal(Text(buf, f)) > MAX_PORT
      ensures !failed ==> port == Decimal(Text(buf, f))
    {
      var text := Text(buf, f);
      var v := 0;
      for i := 0 to |text|
        invariant 0 <= v == Decimal(text[..i]) <= MAX_PORT
      {
        assert text[..i + 1][..i] == text[..i];
        v := v * 10 + Digit(text[i]);
        if v > MAX_PORT {
          DecimalGrows(text, i + 1);
          return true;
        }
      }
      assert text[..|text|] == text;
      port := v;
      failed := false;
    }

    /** http_parser_parse_url; offsets and lengths fit their 16 bits because the buffer does. */
    method Parse(buf: string, connect: bool) returns (failed: bool)
      requires |buf| <= 0xFFFF
      modifies this
      ensures
        var r := ParseUrl(buf, connect);
        && (failed <==> r.Failed?) && (!failed ==> fields == r.fields && port == r.port)
    {
      hide UrlChar, ScanGood, HostGood, InOrder, HostScanTo, Decimal;
      if buf == "" {
        return true;
      }
      port := 0;
      failed := ScanAll(buf, connect);
      if failed {
        return;
      }
      assert !ScanTo(buf, connect, |buf|).state.DeadUrl?;
      ghost var scan := ScanTo(buf, connect, |buf|);
      if SchemaPart in fields && HostPart !in fields {
        return true;
      }
      HostFields(buf, connect);
      ScanKeeps(buf, connect, |buf|);
      ScanFields(scan, |buf|);
      if HostPart in fields {
        failed := ParseHost(buf, foundAt);
        if failed {
          return;
        }
      }
      if connect && fields.Keys != {HostPart, PortPart} {
        return true;
      }
      if PortPart in fields {
        failed := ReadPort(buf, fields[PortPart]);
      }
    }
  }
}
