/**
 * The body half of the HTTP parser as a machine that consumes one byte at a time.
 * The events are the callbacks the application sees, with every body byte on its own.
 */
module HttpBody {
  import opened Octets
  import opened HttpMessage

  datatype Event = Byte(b: byte) | HeadersComplete | ChunkHeader | ChunkComplete | MessageComplete

  /** The result of feeding bytes: the parser afterwards, the events, and how many bytes were consumed. */
  datatype Outcome = Outcome(parser: Parser, events: seq<Event>, consumed: nat)

  function Fail(p: Parser, e: Errno): Outcome {
    Outcome(p.(errno := e), [], 0)
  }

  function Go(p: Parser, s: State, events: seq<Event>): Outcome {
    Outcome(p.(state := s), events, 1)
  }

  /** The value of a hexadecimal digit, or -1. */
  function Unhex(ch: byte): (v: int)
    ensures -1 <= v <= 15
  {
    if 48 <= ch <= 57 then ch as int - 48
    else if 65 <= ch <= 70 then ch as int - 55
    else if 97 <= ch <= 102 then ch as int - 87
    else -1
  }

  const CHUNK_SIZE_LIMIT := (UNKNOWN_LENGTH - 16) / 16

  /** After an upgrade the rest of the connection belongs to another protocol. */
  predicate Exited(p: Parser) {
    p.upgrade && (p.state.Dead? || p.state.StartReq? || p.state.StartRes?)
  }

  predicate Stopped(p: Parser) {
    p.errno != Ok || Exited(p)
  }

  function OnMessageDone(c: Config, p: Parser): Outcome {
    Go(p, NewMessage(c, p.flags, p.contentLength), [MessageComplete])
  }

  /** The decision how the body is framed, taken on the LF that ends the headers. */
  function OnHeadersDone(c: Config, p0: Parser, ch: byte): Outcome {
    if ch != LF then Fail(p0, Strict)
    else
      var p := p0.(nread := 0);
      var hasBody := p.flags.chunked || (p.contentLength > 0 && p.contentLength != UNKNOWN_LENGTH);
      if p.upgrade && (c.connect || p.flags.skipBody || !hasBody) then OnMessageDone(c, p)
      else if p.flags.skipBody then OnMessageDone(c, p)
      else if p.flags.chunked then Go(p, ChunkSizeStart, [])
      else if c.usesTransferEncoding then
        if c.kind.Request? && !c.lenient then Fail(p, InvalidTransferEncoding)
        else Go(p, BodyIdentityEof, [])
      else if p.contentLength == 0 then OnMessageDone(c, p)
      else if p.contentLength != UNKNOWN_LENGTH then Go(p, BodyIdentity, [])
      else if !NeedsEof(c, p.flags, p.contentLength) then OnMessageDone(c, p)
      else Go(p, BodyIdentityEof, [])
  }

  function Prepend(events: seq<Event>, consumed: nat, o: Outcome): Outcome {
    Outcome(o.parser, events + o.events, consumed + o.consumed)
  }

  /** The LF after the last header or trailer field; on_headers_complete returns 0. */
  function OnHeadersAlmostDone(c: Config, p: Parser, ch: byte): Outcome {
    if ch != LF then Fail(p, Strict)
    else if p.flags.trailing then Prepend([ChunkComplete], 0, OnMessageDone(c, p))
    else if c.usesTransferEncoding && p.flags.contentLength && (if p.flags.chunked then !c.allowChunkedLength else !c.lenient) then
      Fail(p, UnexpectedContentLength)
    else
      var upgrade :=
        if p.flags.upgradeHeader && p.flags.connectionUpgrade then c.kind.Request? || c.status == 101
        else c.connect;
      Prepend([HeadersComplete], 0, OnHeadersDone(c, p.(state := HeadersDone, upgrade := upgrade), ch))
  }

  /** The first byte after a finished message, or of a trailer section. */
  function OnStart(p: Parser, ch: byte): Outcome {
    if ch == CR || ch == LF then Go(p, p.state, []) else Fail(p, OutsideModel)
  }

  function OnChunkSize(p: Parser, ch: byte): Outcome {
    if ch == CR then Go(p, ChunkSizeAlmostDone, [])
    else if Unhex(ch) == -1 then
      if ch == 59 || ch == 32 then Go(p, ChunkParameters, []) else Fail(p, InvalidChunkSize)
    else if CHUNK_SIZE_LIMIT < p.contentLength then Fail(p, InvalidContentLength)
    else Go(p.(contentLength := p.contentLength * 16 + Unhex(ch)), ChunkSize, [])
  }

  function OnChunkSizeAlmostDone(p: Parser, ch: byte): Outcome {
    if ch != LF then Fail(p, Strict)
    else if p.contentLength == 0 then Go(p.(nread := 0, flags := p.flags.(trailing := true)), HeaderFieldStart, [ChunkHeader])
    else Go(p.(nread := 0), ChunkData, [ChunkHeader])
  }

  function OnBodyIdentity(c: Config, p0: Parser, ch: byte): Outcome
    requires p0.contentLength > 0
  {
    var p := p0.(contentLength := p0.contentLength - 1);
    if p.contentLength == 0 then Prepend([Byte(ch)], 0, OnMessageDone(c, p))
    else Go(p, BodyIdentity, [Byte(ch)])
  }

  function OnChunkData(p0: Parser, ch: byte): Outcome
    requires p0.contentLength > 0
  {
    var p := p0.(contentLength := p0.contentLength - 1);
    Go(p, if p.contentLength == 0 then ChunkDataAlmostDone else ChunkData, [Byte(ch)])
  }

  /** One byte in the current state, with the header bytes already counted. */
  function Dispatch(c: Config, p: Parser, ch: byte): Outcome
    requires Valid(p.(nread := 0)) && (p.state.ChunkSizeStart? ==> p.nread == 1)
  {
    match p.state
    case Dead => if ch == CR || ch == LF then Go(p, Dead, []) else Fail(p, ClosedConnection)
    case StartReq => OnStart(p, ch)
    case StartRes => OnStart(p, ch)
    case HeaderFieldStart =>
      if ch == CR then Go(p, HeadersAlmostDone, [])
      else if ch == LF then OnHeadersAlmostDone(c, p.(state := HeadersAlmostDone), ch)
      else Fail(p, OutsideModel)
    case ChunkSizeStart =>
      if Unhex(ch) == -1 then Fail(p, InvalidChunkSize) else Go(p.(contentLength := Unhex(ch)), ChunkSize, [])
    case ChunkSize => OnChunkSize(p, ch)
    case ChunkParameters => if ch == CR then Go(p, ChunkSizeAlmostDone, []) else Go(p, ChunkParameters, [])
    case ChunkSizeAlmostDone => OnChunkSizeAlmostDone(p, ch)
    case HeadersAlmostDone => OnHeadersAlmostDone(c, p, ch)
    case HeadersDone => OnHeadersDone(c, p, ch)
    case ChunkData => OnChunkData(p, ch)
    case ChunkDataAlmostDone => if ch != CR then Fail(p, Strict) else Go(p, ChunkDataDone, [])
    case ChunkDataDone => if ch != LF then Fail(p, Strict) else Go(p.(nread := 0), ChunkSizeStart, [ChunkComplete])
    case BodyIdentity => OnBodyIdentity(c, p, ch)
    case BodyIdentityEof => Go(p, BodyIdentityEof, [Byte(ch)])
    case MessageDone => OnMessageDone(c, p)
  }

  /** One byte of input. */
  function Step(c: Config, p: Parser, ch: byte): Outcome
    requires Valid(p)
  {
    if !ParsingHeader(p.state) then Dispatch(c, p, ch)
    else if p.nread + 1 > c.maxHeader then Fail(p.(nread := p.nread + 1), HeaderOverflow)
    else Dispatch(c, p.(nread := p.nread + 1), ch)
  }

  /** What the code asserts or relies on in each state: a chunk is in progress only in a chunked message, a pending length is neither zero nor the sentinel. */
  predicate Valid(p: Parser) {
    && p.contentLength <= UNKNOWN_LENGTH
    && (InChunk(p.state) ==> p.flags.chunked && p.contentLength <= UNKNOWN_LENGTH - 16)
    && (p.state.ChunkSizeStart? ==> p.flags.chunked && p.nread == 0)
    && (p.state.ChunkData? ==> p.contentLength > 0)
    && (p.state.ChunkDataAlmostDone? ==> p.contentLength == 0)
    && (p.state.BodyIdentity? ==> 0 < p.contentLength < UNKNOWN_LENGTH)
  }

  predicate InChunk(s: State) {
    s.ChunkSize? || s.ChunkParameters? || s.ChunkSizeAlmostDone? || s.ChunkData? || s.ChunkDataAlmostDone? || s.ChunkDataDone?
  }

  /** Either the byte was consumed and the parser is valid, or an error is set and the byte was not. */
  ghost predicate Sound(o: Outcome) {
    if o.parser.errno == Ok then o.consumed == 1 && Valid(o.parser) else o.consumed == 0
  }

  lemma HeadersDoneSound(c: Config, p: Parser, ch: byte)
    requires p.errno == Ok && p.contentLength <= UNKNOWN_LENGTH
    ensures Sound(OnHeadersDone(c, p, ch))
  {
    hide ShouldKeepAlive, NeedsEof;
  }

  lemma HeadersAlmostDoneSound(c: Config, p: Parser, ch: byte)
    requires p.errno == Ok && p.contentLength <= UNKNOWN_LENGTH
    ensures Sound(OnHeadersAlmostDone(c, p, ch))
  {
    hide OnHeadersDone, ShouldKeepAlive, NeedsEof;
    var upgrade :=
      if p.flags.upgradeHeader && p.flags.connectionUpgrade then c.kind.Request? || c.status == 101 else c.connect;
    HeadersDoneSound(c, p.(state := HeadersDone, upgrade := upgrade), ch);
  }

  lemma ChunkStatesSound(p: Parser, ch: byte)
    requires p.errno == Ok && Valid(p.(nread := 0))
    ensures p.state.ChunkSize? ==> Sound(OnChunkSize(p, ch))
    ensures p.state.ChunkSizeAlmostDone? ==> Sound(OnChunkSizeAlmostDone(p, ch))
    ensures p.state.ChunkData? ==> Sound(OnChunkData(p, ch))
  {
  }

  lemma DispatchSound(c: Config, p: Parser, ch: byte)
    requires p.errno == Ok && Valid(p.(nread := 0)) && (p.state.ChunkSizeStart? ==> p.nread == 1)
    ensures Sound(Dispatch(c, p, ch))
  {
    hide OnHeadersAlmostDone, OnHeadersDone, OnChunkSize, OnChunkSizeAlmostDone, OnChunkData, ShouldKeepAlive, Unhex;
    HeadersAlmostDoneSound(c, p.(state := HeadersAlmostDone), ch);
    HeadersDoneSound(c, p, ch);
    ChunkStatesSound(p, ch);
  }

  /** Every assertion of the code holds over a whole run: a step from a valid state fails or ends in a valid one. */
  lemma StepSound(c: Config, p: Parser, ch: byte)
    requires p.errno == Ok && Valid(p)
    ensures Sound(Step(c, p, ch))
  {
    hide Dispatch;
    if !ParsingHeader(p.state) {
      DispatchSound(c, p, ch);
    } else if p.nread + 1 <= c.maxHeader {
      DispatchSound(c, p.(nread := p.nread + 1), ch);
    }
  }

  ghost predicate Ready(p: Parser) {
    Stopped(p) || Valid(p)
  }

  /** Feed bytes one after the other until an error, an upgrade or the end of the data. */
  function Run(c: Config, p: Parser, data: seq<byte>): (o: Outcome)
    requires Ready(p)
    ensures Ready(o.parser) && o.consumed <= |data|
    ensures o.consumed < |data| ==> Stopped(o.parser)
    decreases data
  {
    if data == [] || Stopped(p) then Outcome(p, [], 0)
    else
      var o := Step(c, p, data[0]);
      StepSound(c, p, data[0]);
      if o.parser.errno != Ok then o
      else Prepend(o.events, 1, Run(c, o.parser, data[1..]))
  }

  lemma PrependTwice(e1: seq<Event>, n1: nat, e2: seq<Event>, n2: nat, o: Outcome)
    ensures Prepend(e1, n1, Prepend(e2, n2, o)) == Prepend(e1 + e2, n1 + n2, o)
  {
    assert e1 + (e2 + o.events) == (e1 + e2) + o.events;
  }

  /** Feeding two pieces in turn is feeding them joined. */
  lemma {:induction false} RunAppend(c: Config, p: Parser, a: seq<byte>, b: seq<byte>)
    requires Ready(p)
    ensures var r := Run(c, p, a); Run(c, p, a + b) == Prepend(r.events, r.consumed, Run(c, r.parser, b))
    decreases |a|
  {
    hide Step, Valid;
    if a == [] || Stopped(p) {
      assert a == [] ==> a + b == b;
    } else {
      assert (a + b)[0] == a[0] && (a + b)[1..] == a[1..] + b;
      var o := Step(c, p, a[0]);
      StepSound(c, p, a[0]);
      if o.parser.errno == Ok {
        RunAppend(c, o.parser, a[1..], b);
        var r := Run(c, o.parser, a[1..]);
        PrependTwice(o.events, 1, r.events, r.consumed, Run(c, r.parser, b));
      }
    }
  }

  lemma RunOne(c: Config, p: Parser, ch: byte)
    requires Ready(p) && !Stopped(p)
    ensures Run(c, p, [ch]) == Step(c, p, ch)
  {
    hide Dispatch, Step;
    StepSound(c, p, ch);
    var o := Step(c, p, ch);
    assert o.events + [] == o.events;
  }

  function Bytes(s: seq<byte>): (e: seq<Event>)
    ensures |e| == |s| && forall i :: 0 <= i < |s| ==> e[i] == Byte(s[i])
  {
    if s == [] then [] else Bytes(s[..|s| - 1]) + [Byte(s[|s| - 1])]
  }

  // ----- Body states consume many bytes at once -----

  function AfterChunkData(p: Parser, n: nat): Parser
    requires n <= p.contentLength
  {
    p.(contentLength := p.contentLength - n, state := if n == p.contentLength then ChunkDataAlmostDone else ChunkData)
  }

  lemma FirstByte(data: seq<byte>, n: nat)
    requires 0 < n <= |data|
    ensures Bytes(data[..n]) == [Byte(data[0])] + Bytes(data[1..][..n - 1])
    ensures data[1..][n - 1..] == data[n..]
    ensures Bytes(data[..1]) == [Byte(data[0])]
  {
    hide Bytes;
  }

  lemma StepChunkData(c: Config, p: Parser, ch: byte)
    requires Valid(p) && p.state.ChunkData?
    ensures Step(c, p, ch) == Outcome(AfterChunkData(p, 1), [Byte(ch)], 1)
    ensures Valid(AfterChunkData(p, 1))
  {
  }

  lemma {:induction false} RunChunkData(c: Config, p: Parser, data: seq<byte>, n: nat)
    requires Ready(p) && p.state.ChunkData? && p.errno == Ok && 0 < n <= p.contentLength && n <= |data|
    ensures Ready(AfterChunkData(p, n))
    ensures Run(c, p, data) == Prepend(Bytes(data[..n]), n, Run(c, AfterChunkData(p, n), data[n..]))
    decreases n
  {
    hide Step, Bytes;
    StepChunkData(c, p, data[0]);
    FirstByte(data, n);
    if n > 1 {
      RunChunkData(c, AfterChunkData(p, 1), data[1..], n - 1);
      PrependTwice([Byte(data[0])], 1, Bytes(data[1..][..n - 1]), n - 1, Run(c, AfterChunkData(p, n), data[n..]));
    }
  }

  /** The parser after n bytes of an identity body; the last one completes the message. */
  function AfterIdentity(c: Config, p: Parser, n: nat): Parser
    requires n <= p.contentLength
  {
    var q := p.(contentLength := p.contentLength - n);
    if n == p.contentLength then q.(state := NewMessage(c, q.flags, q.contentLength)) else q
  }

  function IdentityEnd(p: Parser, n: nat): seq<Event> {
    if n == p.contentLength then [MessageComplete] else []
  }

  lemma StepIdentity(c: Config, p: Parser, ch: byte)
    requires Valid(p) && p.state.BodyIdentity? && p.errno == Ok
    ensures Step(c, p, ch) == Outcome(AfterIdentity(c, p, 1), [Byte(ch)] + IdentityEnd(p, 1), 1)
    ensures Valid(AfterIdentity(c, p, 1))
  {
    StepSound(c, p, ch);
  }

  lemma {:induction false} RunIdentity(c: Config, p: Parser, data: seq<byte>, n: nat)
    requires Ready(p) && p.state.BodyIdentity? && p.errno == Ok && 0 < n <= p.contentLength && n <= |data|
    ensures Ready(AfterIdentity(c, p, n))
    ensures Run(c, p, data) == Prepend(Bytes(data[..n]) + IdentityEnd(p, n), n, Run(c, AfterIdentity(c, p, n), data[n..]))
    decreases n
  {
    hide Step, NewMessage, Bytes;
    StepIdentity(c, p, data[0]);
    FirstByte(data, n);
    if n > 1 {
      var q := AfterIdentity(c, p, 1);
      var e, tail := [Byte(data[0])], Bytes(data[1..][..n - 1]) + IdentityEnd(q, n - 1);
      RunIdentity(c, q, data[1..], n - 1);
      PrependTwice(e, 1, tail, n - 1, Run(c, AfterIdentity(c, p, n), data[n..]));
      assert e + tail == Bytes(data[..n]) + IdentityEnd(p, n);
      assert e + IdentityEnd(p, 1) == e;
      assert AfterIdentity(c, q, n - 1) == AfterIdentity(c, p, n);
    }
  }

  lemma StepEof(c: Config, p: Parser, ch: byte)
    requires Valid(p) && p.state.BodyIdentityEof? && p.errno == Ok
    ensures Step(c, p, ch) == Outcome(p, [Byte(ch)], 1)
  {
  }

  lemma {:induction false} RunEof(c: Config, p: Parser, data: seq<byte>)
    requires Ready(p) && p.state.BodyIdentityEof? && p.errno == Ok
    ensures Run(c, p, data) == Outcome(p, Bytes(data), |data|)
    decreases data
  {
    hide Step, Bytes;
    if data != [] {
      StepEof(c, p, data[0]);
      RunEof(c, p, data[1..]);
      assert [Byte(data[0])] + Bytes(data[1..]) == Bytes(data);
    }
  }

  // ----- What one call of the parser delivers -----

  /**
   * The call ends in the error of the byte after a chunk's data that is not CR, having consumed something.
   * Body bytes are handed over lazily, so the chunk bytes this call has seen are then never delivered.
   */
  predicate Stranded(p: Parser, o: Outcome) {
    !Stopped(p) && o.parser.errno == Strict && o.parser.state.ChunkDataAlmostDone? && o.consumed > 0
  }

  lemma ErrorAtBreak(c: Config, p: Parser, ch: byte)
    requires Ready(p) && !Stopped(p) && Step(c, p, ch).parser.errno != Ok && Step(c, p, ch).parser.state.ChunkDataAlmostDone?
    ensures p.state.ChunkDataAlmostDone? && Step(c, p, ch).events == []
  {
    hide NewMessage, NeedsEof, Unhex;
  }

  lemma EndOfHeadersAvoidsBreak(c: Config, p: Parser, ch: byte)
    ensures !p.state.ChunkDataAlmostDone? ==> !OnHeadersDone(c, p, ch).parser.state.ChunkDataAlmostDone?
    ensures !p.state.ChunkDataAlmostDone? ==> !OnHeadersAlmostDone(c, p, ch).parser.state.ChunkDataAlmostDone?
  {
    hide NeedsEof, ShouldKeepAlive;
  }

  lemma OnlyDataReachesBreak(c: Config, p: Parser, ch: byte)
    requires Ready(p) && !Stopped(p) && !p.state.ChunkData? && Step(c, p, ch).parser.errno == Ok
    ensures !Step(c, p, ch).parser.state.ChunkDataAlmostDone?
  {
    hide NeedsEof, Unhex, ShouldKeepAlive, OnHeadersDone, OnHeadersAlmostDone;
    var q := if ParsingHeader(p.state) then p.(nread := p.nread + 1) else p;
    EndOfHeadersAvoidsBreak(c, q, ch);
    EndOfHeadersAvoidsBreak(c, q.(state := HeadersAlmostDone), ch);
  }

  lemma EndOfHeadersAvoidsData(c: Config, p: Parser, ch: byte)
    ensures !p.state.ChunkData? ==> !OnHeadersDone(c, p, ch).parser.state.ChunkData?
    ensures !p.state.ChunkData? ==> !OnHeadersAlmostDone(c, p, ch).parser.state.ChunkData?
  {
    hide NeedsEof, ShouldKeepAlive;
  }

  /** Chunk data begins with the notification of its header. */
  lemma DataStartsAfterHeader(c: Config, p: Parser, ch: byte)
    requires Ready(p) && !Stopped(p) && !p.state.ChunkData? && Step(c, p, ch).parser.errno == Ok && Step(c, p, ch).parser.state.ChunkData?
    ensures Step(c, p, ch).events == [ChunkHeader]
  {
    hide NeedsEof, Unhex, ShouldKeepAlive, OnHeadersDone, OnHeadersAlmostDone;
    var q := if ParsingHeader(p.state) then p.(nread := p.nread + 1) else p;
    EndOfHeadersAvoidsData(c, q, ch);
    EndOfHeadersAvoidsData(c, q.(state := HeadersAlmostDone), ch);
  }

  function DropLastBytes(e: seq<Event>): (d: seq<Event>)
    ensures |d| <= |e|
  {
    if e != [] && e[|e| - 1].Byte? then DropLastBytes(e[..|e| - 1]) else e
  }

  predicate EndsInByte(e: seq<Event>) {
    e != [] && e[|e| - 1].Byte?
  }

  /** The calls http_parser_execute makes for non-empty data, as events. */
  function Exec(c: Config, p: Parser, data: seq<byte>): (r: Outcome)
    requires Ready(p)
    ensures Ready(r.parser)
  {
    var o := Run(c, p, data);
    if Stranded(p, o) then o.(events := DropLastBytes(o.events)) else o
  }

  lemma {:induction false} DropBytes(e: seq<Event>, s: seq<byte>)
    requires !EndsInByte(e)
    ensures DropLastBytes(e + Bytes(s)) == e
    decreases s
  {
    if s == [] {
      assert e + Bytes(s) == e;
    } else {
      DropBytes(e, s[..|s| - 1]);
      assert (e + Bytes(s))[..|e| + |s| - 1] == e + Bytes(s[..|s| - 1]);
    }
  }
}
