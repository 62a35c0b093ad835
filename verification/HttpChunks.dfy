/** Chunked bodies end to end, the guards on their sizes, and how a message's framing is chosen. */
module HttpChunks {
  import opened Octets
  import opened HttpMessage
  import opened HttpBody
  import opened HttpSplit

  // ----- Numbers in the message -----

  predicate AllHex(s: seq<byte>) {
    forall i :: 0 <= i < |s| ==> Unhex(s[i]) >= 0
  }

  /** The value of a hexadecimal numeral, most significant digit first. */
  function HexValue(s: seq<byte>): nat
    requires AllHex(s)
  {
    if s == [] then 0 else HexValue(s[..|s| - 1]) * 16 + Unhex(s[|s| - 1])
  }

  /** A chunk in transmission: the digits of its size, an extension that is skipped, its data. */
  datatype Chunk = Chunk(digits: seq<byte>, extension: seq<byte>, data: seq<byte>)

  const CRLF: seq<byte> := [CR, LF]

  predicate SizeLine(digits: seq<byte>, extension: seq<byte>, maxHeader: nat) {
    && digits != [] && AllHex(digits)
    && (extension != [] ==> extension[0] == 59 || extension[0] == 32)
    && CR !in extension
    && |digits| + |extension| + 2 <= maxHeader
  }

  function EncodeLine(digits: seq<byte>, extension: seq<byte>): seq<byte> {
    digits + extension + CRLF
  }

  /** The parser after some digits of a chunk size. */
  function InSize(p: Parser, n: nat, digits: nat): Parser {
    p.(state := ChunkSize, contentLength := n, nread := digits)
  }

  lemma StepSize(c: Config, p: Parser, ch: byte)
    requires p.errno == Ok && Valid(p) && p.state.ChunkSize? && Unhex(ch) >= 0 && p.nread + 1 <= c.maxHeader
    ensures Step(c, p, ch) ==
      if p.contentLength <= CHUNK_SIZE_LIMIT then Outcome(InSize(p, p.contentLength * 16 + Unhex(ch), p.nread + 1), [], 1)
      else Outcome(p.(nread := p.nread + 1, errno := InvalidContentLength), [], 0)
  {
  }

  lemma StepFirstDigit(c: Config, p: Parser, ch: byte)
    requires p.errno == Ok && Valid(p) && p.state.ChunkSizeStart? && Unhex(ch) >= 0 && 1 <= c.maxHeader
    ensures Step(c, p, ch) == Outcome(InSize(p, Unhex(ch), 1), [], 1)
  {
  }

  lemma RunSnoc(c: Config, p: Parser, s: seq<byte>, ch: byte)
    requires Ready(p)
    ensures var r := Run(c, p, s); Run(c, p, s + [ch]) == Prepend(r.events, r.consumed, Run(c, r.parser, [ch]))
  {
    RunAppend(c, p, s, [ch]);
  }

  /** The guard before each further digit admits exactly the sizes up to 2^64 - 17: they are stored without wrapping, and larger ones are refused. */
  lemma {:induction false} SizeDigits(c: Config, p: Parser, digits: seq<byte>)
    requires p.errno == Ok && Valid(p) && p.state.ChunkSizeStart? && !Stopped(p)
    requires digits != [] && AllHex(digits) && |digits| <= c.maxHeader
    ensures var o := Run(c, p, digits);
      if HexValue(digits) <= UNKNOWN_LENGTH - 16 then o == Outcome(InSize(p, HexValue(digits), |digits|), [], |digits|)
      else o.parser.errno == InvalidContentLength && o.events == []
    decreases digits
  {
    hide Run, Dispatch, Step;
    var n := |digits| - 1;
    var s, ch := digits[..n], digits[n];
    assert digits == s + [ch];
    if n == 0 {
      StepFirstDigit(c, p, ch);
      RunOne(c, p, ch);
      assert digits == [ch] && HexValue(s) == 0;
    } else {
      SizeDigits(c, p, s);
      RunSnoc(c, p, s, ch);
      var q := Run(c, p, s).parser;
      if HexValue(s) <= UNKNOWN_LENGTH - 16 {
        StepSize(c, q, ch);
        RunOne(c, q, ch);
      } else {
        StoppedRun(c, q, [ch]);
      }
    }
  }

  lemma StoppedRun(c: Config, p: Parser, s: seq<byte>)
    requires Ready(p) && Stopped(p)
    ensures Run(c, p, s) == Outcome(p, [], 0)
  {
  }

  lemma RunPair(c: Config, p: Parser, a: seq<byte>, b: seq<byte>, q: Parser, ea: seq<Event>, r: Parser, eb: seq<Event>)
    requires Ready(p) && Ready(q)
    requires Run(c, p, a) == Outcome(q, ea, |a|) && Run(c, q, b) == Outcome(r, eb, |b|)
    ensures Run(c, p, a + b) == Outcome(r, ea + eb, |a + b|)
  {
    RunAppend(c, p, a, b);
  }

  lemma StepExtension(c: Config, p: Parser, ch: byte)
    requires p.errno == Ok && Valid(p) && p.nread + 1 <= c.maxHeader && ch != CR
    requires p.state.ChunkParameters? || (p.state.ChunkSize? && (ch == 59 || ch == 32))
    ensures Step(c, p, ch) == Outcome(p.(state := ChunkParameters, nread := p.nread + 1), [], 1)
  {
  }

  lemma {:induction false} RunExtension(c: Config, p: Parser, ext: seq<byte>)
    requires p.errno == Ok && Valid(p) && p.nread + |ext| <= c.maxHeader && CR !in ext
    requires p.state.ChunkParameters? || (p.state.ChunkSize? && ext != [] && (ext[0] == 59 || ext[0] == 32))
    ensures Run(c, p, ext) == Outcome(p.(state := ChunkParameters, nread := p.nread + |ext|), [], |ext|)
    decreases ext
  {
    hide Step;
    if ext != [] {
      StepExtension(c, p, ext[0]);
      RunExtension(c, p.(state := ChunkParameters, nread := p.nread + 1), ext[1..]);
    }
  }

  /** The parser behind the line that ends with a chunk's size. */
  function AfterLine(p: Parser, n: nat): Parser {
    if n == 0 then p.(contentLength := 0, nread := 0, flags := p.flags.(trailing := true), state := HeaderFieldStart)
    else p.(contentLength := n, nread := 0, state := ChunkData)
  }

  lemma RunLineEnd(c: Config, p: Parser)
    requires p.errno == Ok && Valid(p) && (p.state.ChunkSize? || p.state.ChunkParameters?) && p.nread + 2 <= c.maxHeader
    ensures Ready(AfterLine(p, p.contentLength))
    ensures Run(c, p, CRLF) == Outcome(AfterLine(p, p.contentLength), [ChunkHeader], 2)
  {
    var q := p.(state := ChunkSizeAlmostDone, nread := p.nread + 1);
    assert Step(c, p, CR) == Outcome(q, [], 1);
    assert Step(c, q, LF) == Outcome(AfterLine(p, p.contentLength), [ChunkHeader], 1);
    RunOne(c, p, CR);
    RunOne(c, q, LF);
    RunPair(c, p, [CR], [LF], q, [], AfterLine(p, p.contentLength), [ChunkHeader]);
    assert [CR] + [LF] == CRLF;
  }

  lemma RunLine(c: Config, p: Parser, digits: seq<byte>, ext: seq<byte>)
    requires p.errno == Ok && Valid(p) && p.state.ChunkSizeStart?
    requires SizeLine(digits, ext, c.maxHeader) && HexValue(digits) <= UNKNOWN_LENGTH - 16
    ensures var q := AfterLine(p, HexValue(digits)); Ready(q) && Run(c, p, EncodeLine(digits, ext)) == Outcome(q, [ChunkHeader], |EncodeLine(digits, ext)|)
  {
    hide Run, Step, HexValue, Dispatch;
    var q := InSize(p, HexValue(digits), |digits|);
    SizeDigits(c, p, digits);
    if ext == [] {
      RunLineEnd(c, q);
      RunPair(c, p, digits, CRLF, q, [], AfterLine(p, HexValue(digits)), [ChunkHeader]);
      assert EncodeLine(digits, ext) == digits + CRLF;
    } else {
      var r := q.(state := ChunkParameters, nread := q.nread + |ext|);
      RunExtension(c, q, ext);
      RunLineEnd(c, r);
      RunPair(c, p, digits, ext, q, [], r, []);
      RunPair(c, p, digits + ext, CRLF, r, [], AfterLine(p, HexValue(digits)), [ChunkHeader]);
    }
  }

  function EncodeChunk(ch: Chunk): seq<byte> {
    EncodeLine(ch.digits, ch.extension) + ch.data + CRLF
  }

  predicate GoodChunk(ch: Chunk, maxHeader: nat) {
    SizeLine(ch.digits, ch.extension, maxHeader) && HexValue(ch.digits) == |ch.data| && 0 < |ch.data| <= UNKNOWN_LENGTH - 16
  }

  function ChunkEvents(ch: Chunk): seq<Event> {
    [ChunkHeader] + Bytes(ch.data) + [ChunkComplete]
  }

  lemma RunDataEnd(c: Config, p: Parser)
    requires p.errno == Ok && Valid(p) && p.state.ChunkDataAlmostDone?
    ensures Ready(p.(state := ChunkSizeStart, nread := 0))
    ensures Run(c, p, CRLF) == Outcome(p.(state := ChunkSizeStart, nread := 0), [ChunkComplete], 2)
  {
    var q, r := p.(state := ChunkDataDone), p.(state := ChunkSizeStart, nread := 0);
    assert Step(c, p, CR) == Outcome(q, [], 1);
    assert Step(c, q, LF) == Outcome(r, [ChunkComplete], 1);
    RunOne(c, p, CR);
    RunOne(c, q, LF);
    RunPair(c, p, [CR], [LF], q, [], r, [ChunkComplete]);
    assert [CR] + [LF] == CRLF;
  }

  lemma RunChunk(c: Config, p: Parser, ch: Chunk)
    requires p.errno == Ok && Valid(p) && p.state.ChunkSizeStart? && GoodChunk(ch, c.maxHeader)
    ensures Ready(p.(contentLength := 0))
    ensures Run(c, p, EncodeChunk(ch)) == Outcome(p.(contentLength := 0), ChunkEvents(ch), |EncodeChunk(ch)|)
  {
    hide Run, Step, HexValue, Dispatch, EncodeLine, Bytes;
    var n := |ch.data|;
    var q := AfterLine(p, n);
    RunLine(c, p, ch.digits, ch.extension);
    var r := AfterChunkData(q, n);
    RunChunkData(c, q, ch.data, n);
    RunNothing(c, r);
    assert ch.data[..n] == ch.data && ch.data[n..] == [];
    assert Bytes(ch.data) + [] == Bytes(ch.data);
    RunDataEnd(c, r);
    var line := EncodeLine(ch.digits, ch.extension);
    RunPair(c, p, line, ch.data, q, [ChunkHeader], r, Bytes(ch.data));
    RunPair(c, p, line + ch.data, CRLF, r, [ChunkHeader] + Bytes(ch.data), p.(contentLength := 0), [ChunkComplete]);
  }

  lemma RunNothing(c: Config, p: Parser)
    requires Ready(p)
    ensures Run(c, p, []) == Outcome(p, [], 0)
  {
  }

  function EncodeChunks(chunks: seq<Chunk>): seq<byte> {
    if chunks == [] then [] else EncodeChunk(chunks[0]) + EncodeChunks(chunks[1..])
  }

  function ChunksEvents(chunks: seq<Chunk>): seq<Event> {
    if chunks == [] then [] else ChunkEvents(chunks[0]) + ChunksEvents(chunks[1..])
  }

  lemma {:induction false} RunChunks(c: Config, p: Parser, chunks: seq<Chunk>)
    requires p.errno == Ok && Valid(p) && p.state.ChunkSizeStart?
    requires forall i :: 0 <= i < |chunks| ==> GoodChunk(chunks[i], c.maxHeader)
    ensures var q := if chunks == [] then p else p.(contentLength := 0);
      Ready(q) && Run(c, p, EncodeChunks(chunks)) == Outcome(q, ChunksEvents(chunks), |EncodeChunks(chunks)|)
    decreases chunks
  {
    hide Run, Step, Dispatch, GoodChunk, EncodeChunk, ChunkEvents;
    if chunks == [] {
      RunNothing(c, p);
    } else {
      var q := p.(contentLength := 0);
      RunChunk(c, p, chunks[0]);
      RunChunks(c, q, chunks[1..]);
      RunPair(c, p, EncodeChunk(chunks[0]), EncodeChunks(chunks[1..]), q, ChunkEvents(chunks[0]), q, ChunksEvents(chunks[1..]));
    }
  }

  /** A whole chunked body: the chunks, a last chunk of size zero, and an empty trailer section (section 4.1 of RFC 7230). */
  function EncodeBody(chunks: seq<Chunk>, digits: seq<byte>, extension: seq<byte>): seq<byte> {
    EncodeChunks(chunks) + EncodeLine(digits, extension) + CRLF
  }

  /** The parser once a chunked message is complete. */
  function Completed(c: Config, p: Parser): (r: Parser)
    ensures r.errno == p.errno
  {
    var q := p.(contentLength := 0, flags := p.flags.(trailing := true), nread := 2);
    q.(state := NewMessage(c, q.flags, 0))
  }

  lemma StepTrailer(c: Config, p: Parser)
    requires p.errno == Ok && Valid(p) && p.state.HeaderFieldStart? && p.flags.trailing && p.contentLength == 0 && p.nread == 0 && 2 <= c.maxHeader
    ensures var q := p.(state := HeadersAlmostDone, nread := 1);
      Valid(q) && Step(c, p, CR) == Outcome(q, [], 1) && Step(c, q, LF) == Outcome(Completed(c, p), [ChunkComplete] + [MessageComplete], 1)
  {
    hide ShouldKeepAlive, OnHeadersDone;
  }

  lemma RunTrailer(c: Config, p: Parser)
    requires p.errno == Ok && Valid(p) && p.state.HeaderFieldStart? && p.flags.trailing && p.contentLength == 0 && p.nread == 0 && 2 <= c.maxHeader
    ensures Run(c, p, CRLF) == Outcome(Completed(c, p), [ChunkComplete, MessageComplete], 2)
  {
    hide Step, Dispatch, Run, Completed, Valid;
    var q := p.(state := HeadersAlmostDone, nread := 1);
    StepTrailer(c, p);
    RunOne(c, p, CR);
    RunOne(c, q, LF);
    RunPair(c, p, [CR], [LF], q, [], Completed(c, p), [ChunkComplete, MessageComplete]);
    assert [CR] + [LF] == CRLF;
  }

  /** Executing an encoded chunked body consumes all of it and delivers exactly the chunks' data and one message_complete. */
  lemma ChunkedRoundTrip(c: Config, p: Parser, chunks: seq<Chunk>, digits: seq<byte>, extension: seq<byte>)
    requires p.errno == Ok && Valid(p) && p.state.ChunkSizeStart?
    requires forall i :: 0 <= i < |chunks| ==> GoodChunk(chunks[i], c.maxHeader)
    requires SizeLine(digits, extension, c.maxHeader) && HexValue(digits) == 0
    ensures var body := EncodeBody(chunks, digits, extension);
      Exec(c, p, body) == Outcome(Completed(c, p), ChunksEvents(chunks) + [ChunkHeader, ChunkComplete, MessageComplete], |body|)
  {
    hide Run, Step, Dispatch, GoodChunk, EncodeLine, NewMessage;
    var q := if chunks == [] then p else p.(contentLength := 0);
    var line := EncodeLine(digits, extension);
    RunChunks(c, p, chunks);
    RunLine(c, q, digits, extension);
    var r := AfterLine(q, 0);
    RunPair(c, p, EncodeChunks(chunks), line, q, ChunksEvents(chunks), r, [ChunkHeader]);
    RunTrailer(c, r);
    RunPair(c, p, EncodeChunks(chunks) + line, CRLF, r, ChunksEvents(chunks) + [ChunkHeader], Completed(c, p), [ChunkComplete, MessageComplete]);
    assert ChunksEvents(chunks) + [ChunkHeader] + [ChunkComplete, MessageComplete] == ChunksEvents(chunks) + [ChunkHeader, ChunkComplete, MessageComplete];
  }

  function BodyOf(e: seq<Event>): seq<byte> {
    if e == [] then [] else BodyOf(e[..|e| - 1]) + if e[|e| - 1].Byte? then [e[|e| - 1].b] else []
  }

  function Data(chunks: seq<Chunk>): seq<byte> {
    if chunks == [] then [] else chunks[0].data + Data(chunks[1..])
  }

  lemma {:induction false} BodyAppend(a: seq<Event>, b: seq<Event>)
    ensures BodyOf(a + b) == BodyOf(a) + BodyOf(b)
    decreases b
  {
    if b == [] {
      assert a + b == a;
    } else {
      BodyAppend(a, b[..|b| - 1]);
      assert (a + b)[..|a + b| - 1] == a + b[..|b| - 1];
    }
  }

  lemma {:induction false} BodyOfBytes(s: seq<byte>)
    ensures BodyOf(Bytes(s)) == s
    decreases s
  {
    if s != [] {
      BodyOfBytes(s[..|s| - 1]);
    }
  }

  lemma ChunkBody(ch: Chunk)
    ensures BodyOf(ChunkEvents(ch)) == ch.data
  {
    hide Bytes;
    BodyAppend([ChunkHeader] + Bytes(ch.data), [ChunkComplete]);
    BodyAppend([ChunkHeader], Bytes(ch.data));
    BodyOfBytes(ch.data);
    assert BodyOf([ChunkHeader]) == [] && BodyOf([ChunkComplete]) == [];
  }

  /** The body bytes of a chunked message are the concatenation of its chunks. */
  lemma {:induction false} ChunksBody(chunks: seq<Chunk>)
    ensures BodyOf(ChunksEvents(chunks)) == Data(chunks)
    decreases chunks
  {
    hide Bytes, ChunkEvents, BodyOf;
    if chunks != [] {
      ChunksBody(chunks[1..]);
      BodyAppend(ChunkEvents(chunks[0]), ChunksEvents(chunks[1..]));
      ChunkBody(chunks[0]);
    } else {
      EmptyBody();
    }
  }

  lemma EmptyBody()
    ensures BodyOf([]) == []
  {
  }

  // ----- Hexadecimal numerals exist for every size -----

  function HexDigit(d: nat): byte
    requires d < 16
  {
    if d < 10 then (48 + d) as byte else (87 + d) as byte
  }

  function HexDigits(n: nat): seq<byte> {
    if n < 16 then [HexDigit(n)] else HexDigits(n / 16) + [HexDigit(n % 16)]
  }

  lemma DigitValue(d: nat)
    requires d < 16
    ensures Unhex(HexDigit(d)) == d
  {
  }

  lemma {:induction false} HexDigitsValue(n: nat, width: nat)
    requires width >= 1
    ensures AllHex(HexDigits(n)) && HexDigits(n) != [] && HexValue(HexDigits(n)) == n
    ensures n < Power16(width) ==> |HexDigits(n)| <= width
    decreases n
  {
    hide Unhex, HexDigit;
    DigitValue(n % 16);
    if n >= 16 {
      HexDigitsValue(n / 16, if width > 1 then width - 1 else 1);
      var s := HexDigits(n);
      assert s[..|s| - 1] == HexDigits(n / 16);
    }
  }

  function Power16(k: nat): nat {
    if k == 0 then 1 else 16 * Power16(k - 1)
  }

  function Plain(parts: seq<seq<byte>>): seq<Chunk> {
    if parts == [] then [] else [Chunk(HexDigits(|parts[0]|), [], parts[0])] + Plain(parts[1..])
  }

  lemma {:induction false} PlainGood(parts: seq<seq<byte>>, maxHeader: nat)
    requires forall i :: 0 <= i < |parts| ==> 0 < |parts[i]| <= UNKNOWN_LENGTH - 16
    requires maxHeader >= 18
    ensures |Plain(parts)| == |parts|
    ensures forall i :: 0 <= i < |parts| ==> Plain(parts)[i].data == parts[i] && GoodChunk(Plain(parts)[i], maxHeader)
    decreases parts
  {
    if parts != [] {
      assert Power16(16) == 0x1_0000_0000_0000_0000 by {
        assert Power16(4) == 0x1_0000 && Power16(8) == 0x1_0000_0000 && Power16(12) == 0x1_0000_0000_0000;
      }
      HexDigitsValue(|parts[0]|, 16);
      PlainGood(parts[1..], maxHeader);
    }
  }

  /** For every list of non-empty parts, sending each as one chunk delivers their concatenation and one completion, however the bytes are split into calls. */
  lemma PartsRoundTrip(c: Config, p: Parser, parts: seq<seq<byte>>)
    requires p.errno == Ok && Valid(p) && p.state.ChunkSizeStart? && c.maxHeader >= 18
    requires forall i :: 0 <= i < |parts| ==> 0 < |parts[i]| <= UNKNOWN_LENGTH - 16
    ensures var body := EncodeBody(Plain(parts), HexDigits(0), []);
      var o := Exec(c, p, body);
      && o.consumed == |body| && o.parser == Completed(c, p) && BodyOf(o.events) == Join(parts)
      && o.events != [] && o.events[|o.events| - 1] == MessageComplete && MessageComplete !in o.events[..|o.events| - 1]
      && forall pieces :: NoneEmpty(pieces) && Join(pieces) == body ==> ExecPieces(c, p, pieces) == o
  {
    hide Exec, EncodeBody, Completed, GoodChunk, BodyOf, HexDigits, ChunksEvents, Plain, HexValue, SizeLine, Run;
    PlainGood(parts, c.maxHeader);
    var chunks := Plain(parts);
    ZeroLine(c.maxHeader);
    ChunkedRoundTrip(c, p, chunks, HexDigits(0), []);
    ChunksBody(chunks);
    PlainData(parts);
    BodyAppend(ChunksEvents(chunks), [ChunkHeader, ChunkComplete, MessageComplete]);
    NoBodyInEnd();
    NotComplete(chunks);
    var body := EncodeBody(chunks, HexDigits(0), []);
    forall pieces | NoneEmpty(pieces) && Join(pieces) == body ensures ExecPieces(c, p, pieces) == Exec(c, p, body) {
      NotStranded(c, p, body);
      UnbrokenPieces(c, p, pieces);
      PiecesAreJoined(c, p, pieces);
    }
  }

  lemma ZeroLine(maxHeader: nat)
    requires maxHeader >= 18
    ensures SizeLine(HexDigits(0), [], maxHeader) && HexValue(HexDigits(0)) == 0
  {
    HexDigitsValue(0, 1);
  }

  lemma NotStranded(c: Config, p: Parser, data: seq<byte>)
    requires Ready(p) && Exec(c, p, data).parser.errno == Ok
    ensures !Stranded(p, Run(c, p, data)) && Exec(c, p, data) == Run(c, p, data)
  {
  }

  lemma {:induction false} PlainData(parts: seq<seq<byte>>)
    ensures Data(Plain(parts)) == Join(parts)
    decreases parts
  {
    if parts != [] {
      PlainData(parts[1..]);
    }
  }

  lemma NoBodyInEnd()
    ensures BodyOf([ChunkHeader, ChunkComplete, MessageComplete]) == []
  {
    assert [ChunkHeader, ChunkComplete, MessageComplete][..2] == [ChunkHeader, ChunkComplete];
    assert [ChunkHeader, ChunkComplete][..1] == [ChunkHeader];
  }

  lemma {:induction false} NotComplete(chunks: seq<Chunk>)
    ensures MessageComplete !in ChunksEvents(chunks)
    decreases chunks
  {
    hide Bytes;
    if chunks != [] {
      NotComplete(chunks[1..]);
    }
  }

  // ----- Content-Length -----

  function DecimalValue(s: seq<byte>): nat
    requires forall i :: 0 <= i < |s| ==> 48 <= s[i] <= 57
  {
    if s == [] then 0 else DecimalValue(s[..|s| - 1]) * 10 + (s[|s| - 1] as int - 48)
  }

  datatype Length = Length(value: nat) | Refused

  const DECIMAL_LIMIT := (UNKNOWN_LENGTH - 10) / 10

  /** The digits of a Content-Length value, accumulated in the 64-bit content_length as the header's bytes arrive. */
  method AccumulateLength(digits: seq<byte>) returns (r: Length)
    requires digits != [] && forall i :: 0 <= i < |digits| ==> 48 <= digits[i] <= 57
    ensures r == if DecimalValue(digits) <= UNKNOWN_LENGTH - 6 then Length(DecimalValue(digits)) else Refused
  {
    var contentLength := digits[0] as nat - 48;
    assert digits[..1][..0] == [];
    var i := 1;
    while i < |digits|
      invariant 1 <= i <= |digits|
      invariant contentLength == DecimalValue(digits[..i]) <= UNKNOWN_LENGTH - 6
    {
      var t := (contentLength * 10 + (digits[i] as nat - 48)) % (UNKNOWN_LENGTH + 1);
      assert digits[..i + 1][..i] == digits[..i];
      if DECIMAL_LIMIT < contentLength {
        DecimalGrows(digits, i + 1);
        return Refused;
      }
      contentLength := t;
      i := i + 1;
    }
    assert digits[..i] == digits;
    r := Length(contentLength);
  }

  lemma {:induction false} DecimalGrows(s: seq<byte>, n: nat)
    requires n <= |s| && forall i :: 0 <= i < |s| ==> 48 <= s[i] <= 57
    ensures DecimalValue(s[..n]) <= DecimalValue(s)
    decreases |s| - n
  {
    if n < |s| {
      DecimalGrows(s, n + 1);
      assert s[..n + 1][..n] == s[..n];
    } else {
      assert s[..n] == s;
    }
  }

  // ----- How the framing is chosen -----

  /** Responses that never have a body by their status: 1xx, 204 and 304. */
  predicate Bodiless(c: Config) {
    c.status / 100 == 1 || c.status == 204 || c.status == 304
  }

  /**
   * The body is read until the connection closes exactly when http_message_needs_eof says so,
   * except for a transfer coding other than chunked on a lenient request or on a bodiless response:
   * there the parser reads until EOF although http_message_needs_eof answers no.
   */
  lemma EofFramingExactly(c: Config, p: Parser)
    requires p.errno == Ok && p.state.HeadersDone? && !p.upgrade && p.contentLength <= UNKNOWN_LENGTH
    ensures (OnHeadersDone(c, p, LF).parser.state.BodyIdentityEof? <==> NeedsEof(c, p.flags, p.contentLength)) <==>
      !(c.usesTransferEncoding && !p.flags.chunked && !p.flags.skipBody && (if c.kind.Request? then c.lenient else Bodiless(c)))
  {
    hide ShouldKeepAlive;
    assert !StartState(c).BodyIdentityEof?;
  }

  // ----- A broken chunk -----

  /** A chunk of one byte, and X where CR must follow. */
  const BROKEN: seq<byte> := [49] + CRLF + [65] + [88]

  lemma SizeOne(c: Config, p: Parser)
    requires p.errno == Ok && Valid(p) && p.state.ChunkSizeStart? && c.maxHeader >= 3
    ensures var q := p.(state := ChunkSize, contentLength := 1, nread := 1); Valid(q) && Run(c, p, [49]) == Outcome(q, [], 1)
  {
    hide OnHeadersDone, OnHeadersAlmostDone, OnChunkSize, OnChunkSizeAlmostDone, Run;
    RunOne(c, p, 49);
  }

  /** Fed to a parser that waits for a chunk, this delivers no body byte in one call, and the chunk's byte in two. */
  lemma StrandedExample(c: Config, p: Parser)
    requires p.errno == Ok && Valid(p) && p.state.ChunkSizeStart? && c.maxHeader >= 3
    ensures Exec(c, p, BROKEN).events == [ChunkHeader]
    ensures ExecPieces(c, p, [BROKEN[..4], BROKEN[4..]]).events == [ChunkHeader, Byte(65)]
  {
    hide Step, Run, Dispatch, ExecPieces, Bytes, Exec;
    SizeOne(c, p);
    var p1 := p.(state := ChunkSize, contentLength := 1, nread := 1);
    RunLineEnd(c, p1);
    var q0 := AfterLine(p1, 1);
    RunPair(c, p, [49], CRLF, p1, [], q0, [ChunkHeader]);
    var q := AfterChunkData(q0, 1);
    StepChunkData(c, q0, 65);
    RunOne(c, q0, 65);
    RunPair(c, p, [49] + CRLF, [65], q0, [ChunkHeader], q, [Byte(65)]);
    FirstByteAtBreak(c, q, 88);
    RunOne(c, q, 88);
    var a := [49] + CRLF + [65];
    RunAppend(c, p, a, [88]);
    assert a == BROKEN[..4] && BROKEN[4..] == [88] && a + [88] == BROKEN;
    var e := [ChunkHeader] + [Byte(65)];
    assert e == [ChunkHeader, Byte(65)] && [] + [ChunkHeader] == [ChunkHeader] && e[..1] == [ChunkHeader];
    BrokenEvents(c, p, q, a, e);
    DropBytes([ChunkHeader], [65]);
    assert Bytes([65]) == [Byte(65)];
    TwoPieces(c, p, a, [88]);
  }

  lemma BrokenEvents(c: Config, p: Parser, q: Parser, a: seq<byte>, e: seq<Event>)
    requires Ready(p) && !Stopped(p) && Ready(q) && q.errno == Ok && q.state.ChunkDataAlmostDone? && |a| > 0
    requires Run(c, p, a) == Outcome(q, e, |a|) && EndsInByte(e)
    requires Run(c, q, [88]) == Outcome(q.(errno := Strict), [], 0)
    requires Run(c, p, a + [88]) == Prepend(e, |a|, Run(c, q, [88]))
    ensures Exec(c, p, a) == Outcome(q, e, |a|) && Exec(c, q, [88]).events == []
    ensures Exec(c, p, a + [88]).events == DropLastBytes(e)
  {
    hide Run, DropLastBytes;
    assert e + [] == e;
  }
}
