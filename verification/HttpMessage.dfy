/** The fields of the HTTP parser that decide how a message body is framed. */
module HttpMessage {
  import opened Octets

  const CR: byte := 13
  const LF: byte := 10

  /** 2^64 - 1: the value of content_length while no length is known. */
  const UNKNOWN_LENGTH := 0xFFFF_FFFF_FFFF_FFFF

  /** The parser states from the end of the headers on, with the states a finished message leaves behind. */
  datatype State =
    | Dead | StartReq | StartRes
    | HeaderFieldStart
    | ChunkSizeStart | ChunkSize | ChunkParameters | ChunkSizeAlmostDone
    | HeadersAlmostDone | HeadersDone
    | ChunkData | ChunkDataAlmostDone | ChunkDataDone
    | BodyIdentity | BodyIdentityEof
    | MessageDone

  /** OutsideModel marks the first byte of a start line or of a trailer field, where this model ends. */
  datatype Errno =
    | Ok | Strict | HeaderOverflow | InvalidChunkSize | InvalidContentLength | UnexpectedContentLength
    | InvalidTransferEncoding | InvalidEofState | ClosedConnection | OutsideModel

  datatype MessageType = Request | Response

  /** What the header half of the parser and the application settled before the body starts. */
  datatype Config = Config(
    kind: MessageType,
    connect: bool,
    status: nat,
    httpMajor: nat,
    httpMinor: nat,
    usesTransferEncoding: bool,
    lenient: bool,
    allowChunkedLength: bool,
    maxHeader: nat)

  datatype Flags = Flags(
    chunked: bool,
    connectionKeepAlive: bool,
    connectionClose: bool,
    connectionUpgrade: bool,
    trailing: bool,
    upgradeHeader: bool,
    skipBody: bool,
    contentLength: bool)

  datatype Parser = Parser(
    state: State,
    flags: Flags,
    contentLength: nat,
    nread: nat,
    upgrade: bool,
    errno: Errno)

  /** States up to the end of the headers count towards the header size limit. */
  predicate ParsingHeader(s: State) {
    !(s.ChunkData? || s.ChunkDataAlmostDone? || s.ChunkDataDone? || s.BodyIdentity? || s.BodyIdentityEof? || s.MessageDone?)
  }

  predicate NeedsEof(c: Config, flags: Flags, contentLength: nat) {
    if c.kind.Request? then false
    else if c.status / 100 == 1 || c.status == 204 || c.status == 304 || flags.skipBody then false
    else if c.usesTransferEncoding && !flags.chunked then true
    else if flags.chunked || contentLength != UNKNOWN_LENGTH then false
    else true
  }

  predicate ShouldKeepAlive(c: Config, flags: Flags, contentLength: nat) {
    if c.httpMajor > 0 && c.httpMinor > 0 && flags.connectionClose then false
    else if !(c.httpMajor > 0 && c.httpMinor > 0) && !flags.connectionKeepAlive then false
    else !NeedsEof(c, flags, contentLength)
  }

  function StartState(c: Config): State {
    if c.kind.Request? then StartReq else StartRes
  }

  /** The state after a complete message: ready for the next one, or closed. */
  function NewMessage(c: Config, flags: Flags, contentLength: nat): State {
    if ShouldKeepAlive(c, flags, contentLength) then StartState(c) else Dead
  }
}
