/** http_parser_execute over its body states: the parser object, its loop over the data, and the calls it makes. */
module HttpExecute {
  import opened Octets
  import opened HttpMessage
  import opened HttpBody

  /** A callback: body data, or one of the notifications. */
  datatype Call = OnBody(bytes: seq<byte>) | Notify(event: Event)

  function Flatten(calls: seq<Call>): seq<Event> {
    if calls == [] then [] else Flatten(calls[..|calls| - 1]) + Expand(calls[|calls| - 1])
  }

  function Expand(call: Call): seq<Event> {
    match call
    case OnBody(bytes) => Bytes(bytes)
    case Notify(e) => [e]
  }

  lemma FlattenOne(calls: seq<Call>, call: Call)
    ensures Flatten(calls + [call]) == Flatten(calls) + Expand(call)
  {
    assert (calls + [call])[..|calls|] == calls;
  }

  /** Body data is handed over in pieces as long as can be: none is empty, and none follows another one. */
  ghost predicate Grouped(calls: seq<Call>) {
    forall i :: 0 <= i < |calls| ==> GroupedAt(calls, i)
  }

  predicate GroupedAt(calls: seq<Call>, i: nat)
    requires i < |calls|
  {
    if calls[i].OnBody? then calls[i].bytes != [] && (i > 0 ==> calls[i - 1].Notify?) else !calls[i].event.Byte?
  }

  predicate EndsInBody(calls: seq<Call>) {
    calls != [] && calls[|calls| - 1].OnBody?
  }

  /** Only notifications have been added. */
  ghost predicate Noticed(before: seq<Call>, after: seq<Call>) {
    before <= after && forall i :: |before| <= i < |after| ==> after[i].Notify? && !after[i].event.Byte?
  }

  lemma NoticedGroups(before: seq<Call>, after: seq<Call>)
    requires Grouped(before) && Noticed(before, after)
    ensures Grouped(after) && (after == before || !EndsInBody(after))
  {
    forall i | 0 <= i < |after| ensures GroupedAt(after, i) {
      assert i < |before| ==> GroupedAt(before, i) && after[i] == before[i] && (i > 0 ==> after[i - 1] == before[i - 1]);
    }
  }

  lemma BodyGroups(calls: seq<Call>, s: seq<byte>)
    requires Grouped(calls) && !EndsInBody(calls) && s != []
    ensures Grouped(calls + [OnBody(s)])
  {
    var after := calls + [OnBody(s)];
    forall i | 0 <= i < |after| ensures GroupedAt(after, i) {
      assert i < |calls| ==> GroupedAt(calls, i);
    }
  }

  /** The trailing body bytes of grouped calls are the last call. */
  lemma LastGroup(calls: seq<Call>)
    requires Grouped(calls) && calls != []
    ensures var last, init := calls[|calls| - 1], calls[..|calls| - 1];
      && Grouped(init) && Flatten(calls) == Flatten(init) + Expand(last) && Expand(last) != []
      && (last.Notify? ==> !EndsInByte(Flatten(calls)))
      && (last.OnBody? ==> !EndsInByte(Flatten(init)) && DropLastBytes(Flatten(calls)) == Flatten(init))
  {
    hide Bytes;
    var last, init := calls[|calls| - 1], calls[..|calls| - 1];
    assert GroupedAt(calls, |calls| - 1);
    forall i | 0 <= i < |init| ensures GroupedAt(init, i) {
      assert GroupedAt(calls, i);
    }
    if last.OnBody? {
      if init != [] {
        assert init[|init| - 1] == calls[|calls| - 2] && GroupedAt(calls, |calls| - 2);
        assert Flatten(init) == Flatten(init[..|init| - 1]) + Expand(init[|init| - 1]);
      }
      DropBytes(Flatten(init), last.bytes);
    }
  }

  lemma NoCalls()
    ensures Grouped([]) && Flatten([]) == []
  {
  }

  /** The events of one execution tell its calls. */
  lemma {:induction false} EventsTellCalls(a: seq<Call>, b: seq<Call>)
    requires Grouped(a) && Grouped(b) && Flatten(a) == Flatten(b)
    ensures a == b
    decreases |a|
  {
    hide Bytes, Flatten, Expand, DropLastBytes, Grouped, EndsInByte;
    if a == [] || b == [] {
      FlattenNone(a);
      FlattenNone(b);
    } else {
      LastGroup(a);
      LastGroup(b);
      var x, y, i, j := a[|a| - 1], b[|b| - 1], a[..|a| - 1], b[..|b| - 1];
      ExpandTells(Flatten(i), x, Flatten(j), y);
      EventsTellCalls(i, j);
      assert a == i + [x] && b == j + [y];
    }
  }

  lemma FlattenNone(calls: seq<Call>)
    requires Grouped(calls)
    ensures Flatten(calls) == [] <==> calls == []
  {
    if calls != [] {
      LastGroup(calls);
    }
  }

  lemma BodyEndsInByte(e: seq<Event>, call: Call)
    ensures call.OnBody? && Expand(call) != [] ==> EndsInByte(e + Expand(call))
  {
    var x := Expand(call);
    assert x != [] ==> (e + x)[|e + x| - 1] == x[|x| - 1];
  }

  lemma ExpandTells(e: seq<Event>, x: Call, f: seq<Event>, y: Call)
    requires e + Expand(x) == f + Expand(y) && Expand(x) != [] && Expand(y) != []
    requires if x.OnBody? then DropLastBytes(e + Expand(x)) == e else !EndsInByte(e + Expand(x))
    requires if y.OnBody? then DropLastBytes(f + Expand(y)) == f else !EndsInByte(f + Expand(y))
    ensures e == f && x == y
  {
    var all := e + Expand(x);
    BodyEndsInByte(e, x);
    BodyEndsInByte(f, y);
    if EndsInByte(all) {
      assert x.OnBody? && y.OnBody?;
      assert Expand(x) == all[|e|..] == Expand(y);
      assert forall i :: 0 <= i < |x.bytes| ==> Bytes(x.bytes)[i] == Byte(x.bytes[i]);
      assert x.bytes == y.bytes;
    } else {
      assert e == all[..|all| - 1] == f && all[|all| - 1] == x.event == y.event;
    }
  }

  /** A call with no data reports the end of the connection. */
  function AtEof(p: Parser): Outcome {
    if p.errno != Ok then Outcome(p, [], 0)
    else if p.state.BodyIdentityEof? then Outcome(p, [MessageComplete], 0)
    else if p.state.Dead? || p.state.StartReq? || p.state.StartRes? then Outcome(p, [], 0)
    else Outcome(p.(errno := InvalidEofState), [], 1)
  }

  class HttpParser {
    const config: Config
    var state: State
    var flags: Flags
    var contentLength: nat
    var nread: nat
    var upgrade: bool
    var errno: Errno
    /** The callbacks the current call has made, which all return 0. */
    var calls: seq<Call>

    function Snapshot(): Parser
      reads this
    {
      Parser(state, flags, contentLength, nread, upgrade, errno)
    }

    constructor (c: Config, p: Parser)
      ensures config == c && Snapshot() == p && calls == []
    {
      config := c;
      state, flags, contentLength, nread, upgrade, errno := p.state, p.flags, p.contentLength, p.nread, p.upgrade, p.errno;
      calls := [];
    }

    method Call(call: Call)
      modifies `calls
      ensures calls == old(calls) + [call] && Flatten(calls) == Flatten(old(calls)) + Expand(call)
    {
      FlattenOne(calls, call);
      calls := calls + [call];
    }

    method MessageDoneCase()
      modifies this
      ensures Snapshot() == OnMessageDone(config, old(Snapshot())).parser && calls == old(calls) + [Notify(MessageComplete)]
      ensures Flatten(calls) == Flatten(old(calls)) + [MessageComplete]
    {
      state := NewMessage(config, flags, contentLength);
      Call(Notify(MessageComplete));
    }

    method HeadersDoneCase(ch: byte)
      modifies this
      ensures var o := OnHeadersDone(config, old(Snapshot()), ch);
        Snapshot() == o.parser && Flatten(calls) == Flatten(old(calls)) + o.events && Noticed(old(calls), calls)
    {
      if ch != LF {
        errno := Strict;
        return;
      }
      nread := 0;
      var hasBody := flags.chunked || (contentLength > 0 && contentLength != UNKNOWN_LENGTH);
      if upgrade && (config.connect || flags.skipBody || !hasBody) {
        MessageDoneCase();
        return;
      }
      if flags.skipBody {
        MessageDoneCase();
      } else if flags.chunked {
        state := ChunkSizeStart;
      } else if config.usesTransferEncoding {
        if config.kind.Request? && !config.lenient {
          errno := InvalidTransferEncoding;
        } else {
          state := BodyIdentityEof;
        }
      } else {
        if contentLength == 0 {
          MessageDoneCase();
        } else if contentLength != UNKNOWN_LENGTH {
          state := BodyIdentity;
        } else {
          if !NeedsEof(config, flags, contentLength) {
            MessageDoneCase();
          } else {
            state := BodyIdentityEof;
          }
        }
      }
    }

    method HeadersAlmostDoneCase(ch: byte)
      modifies this
      ensures var o := OnHeadersAlmostDone(config, old(Snapshot()), ch);
        Snapshot() == o.parser && Flatten(calls) == Flatten(old(calls)) + o.events && Noticed(old(calls), calls)
    {
      hide OnHeadersDone, Flatten, NewMessage;
      if ch != LF {
        errno := Strict;
        return;
      }
      if flags.trailing {
        state := MessageDone;
        Call(Notify(ChunkComplete));
        MessageDoneCase();
        return;
      }
      if config.usesTransferEncoding && flags.contentLength {
        if flags.chunked {
          if !config.allowChunkedLength {
            errno := UnexpectedContentLength;
            return;
          }
        } else if !config.lenient {
          errno := UnexpectedContentLength;
          return;
        }
      }
      state := HeadersDone;
      if flags.upgradeHeader && flags.connectionUpgrade {
        upgrade := config.kind.Request? || config.status == 101;
      } else {
        upgrade := config.connect;
      }
      Call(Notify(HeadersComplete));
      HeadersDoneCase(ch);
    }

    method ChunkSizeCase(ch: byte)
      requires contentLength <= UNKNOWN_LENGTH
      modifies this
      ensures Snapshot() == OnChunkSize(old(Snapshot()), ch).parser && calls == old(calls) && OnChunkSize(old(Snapshot()), ch).events == []
    {
      if ch == CR {
        state := ChunkSizeAlmostDone;
        return;
      }
      var unhexVal := Unhex(ch);
      if unhexVal == -1 {
        if ch == 59 || ch == 32 {
          state := ChunkParameters;
          return;
        }
        errno := InvalidChunkSize;
        return;
      }
      var t := (contentLength * 16 + unhexVal) % (UNKNOWN_LENGTH + 1);
      if CHUNK_SIZE_LIMIT < contentLength {
        errno := InvalidContentLength;
        return;
      }
      contentLength := t;
      state := ChunkSize;
    }

    /** A byte in one of the states that take one byte at a time, already counted. */
    method OneByte(ch: byte)
      requires Valid(Snapshot().(nread := 0)) && (state.ChunkSizeStart? ==> nread == 1)
      requires !state.ChunkData? && !state.BodyIdentity? && !state.BodyIdentityEof? && errno == Ok
      modifies this
      ensures var o := Dispatch(config, old(Snapshot()), ch);
        Snapshot() == o.parser && Flatten(calls) == Flatten(old(calls)) + o.events && Noticed(old(calls), calls)
      ensures old(state).ChunkDataDone? && errno == Ok ==> calls != old(calls)
    {
      hide OnHeadersDone, OnHeadersAlmostDone, Flatten, NewMessage, Unhex, OnChunkSize;
      match state {
        case Dead =>
          if ch != CR && ch != LF {
            errno := ClosedConnection;
          }
        case StartReq =>
          if ch != CR && ch != LF {
            errno := OutsideModel;
          }
        case StartRes =>
          if ch != CR && ch != LF {
            errno := OutsideModel;
          }
        case HeaderFieldStart =>
          if ch == CR {
            state := HeadersAlmostDone;
          } else if ch == LF {
            state := HeadersAlmostDone;
            HeadersAlmostDoneCase(ch);
          } else {
            errno := OutsideModel;
          }
        case ChunkSizeStart =>
          assert nread == 1 && flags.chunked;
          var unhexVal := Unhex(ch);
          if unhexVal == -1 {
            errno := InvalidChunkSize;
          } else {
            contentLength := unhexVal;
            state := ChunkSize;
          }
        case ChunkSize =>
          assert flags.chunked;
          ChunkSizeCase(ch);
        case ChunkParameters =>
          assert flags.chunked;
          if ch == CR {
            state := ChunkSizeAlmostDone;
          }
        case ChunkSizeAlmostDone =>
          assert flags.chunked;
          if ch != LF {
            errno := Strict;
          } else {
            nread := 0;
            if contentLength == 0 {
              flags := flags.(trailing := true);
              state := HeaderFieldStart;
            } else {
              state := ChunkData;
            }
            Call(Notify(ChunkHeader));
          }
        case HeadersAlmostDone => HeadersAlmostDoneCase(ch);
        case HeadersDone => HeadersDoneCase(ch);
        case ChunkDataAlmostDone =>
          assert flags.chunked && contentLength == 0;
          if ch != CR {
            errno := Strict;
          } else {
            state := ChunkDataDone;
          }
        case ChunkDataDone =>
          assert flags.chunked;
          if ch != LF {
            errno := Strict;
          } else {
            nread := 0;
            state := ChunkSizeStart;
            Call(Notify(ChunkComplete));
          }
        case MessageDone => MessageDoneCase();
        case _ =>
      }
    }

    /** Where the loop stands after `p` bytes: `done` has been delivered, the body bytes from `mark` on are pending. */
    ghost predicate At(p0: Parser, data: seq<byte>, done: seq<Event>, p: nat, mark: int)
      reads this
    {
      && p <= |data| && Ready(p0) && !Stopped(p0) && errno == Ok && !Exited(Snapshot()) && Valid(Snapshot())
      && (mark == -1 || 0 <= mark < p)
      && Run(config, p0, data) == Prepend(done + Pending(data, mark, p), p, Run(config, Snapshot(), data[p..]))
      && (mark >= 0 ==> state.ChunkData? || state.ChunkDataAlmostDone? || state.BodyIdentity? || state.BodyIdentityEof?)
      && (state.ChunkData? || state.ChunkDataAlmostDone? ==> !EndsInByte(done))
      && (state.ChunkDataAlmostDone? && p > 0 ==> mark >= 0)
      && Grouped(calls) && (EndsInBody(calls) ==> state.ChunkDataDone?)
    }

    /** Consume as much of the current chunk's data as there is. */
    method ChunkDataCase(ghost p0: Parser, data: seq<byte>, ghost done: seq<Event>, p: nat, mark: int) returns (p': nat, mark': int)
      requires At(p0, data, done, p, mark) && p < |data| && state.ChunkData?
      modifies this
      ensures At(p0, data, done, p', mark') && p < p' && calls == old(calls)
    {
      hide Bytes, Run, Prepend, Pending, EndsInByte;
      var toRead := if contentLength < |data| - p then contentLength else |data| - p;
      assert contentLength != 0 && contentLength != UNKNOWN_LENGTH && flags.chunked;
      RunChunkData(config, Snapshot(), data[p..], toRead);
      AdvanceMark(data, done, mark, p, toRead, [], Run(config, AfterChunkData(Snapshot(), toRead), data[p..][toRead..]));
      mark' := if mark == -1 then p else mark;
      contentLength := contentLength - toRead;
      p' := p + toRead;
      if contentLength == 0 {
        state := ChunkDataAlmostDone;
      }
    }

    /** Consume as much of an identity body as there is; the last byte completes the message. */
    method IdentityCase(ghost p0: Parser, data: seq<byte>, ghost done: seq<Event>, p: nat, mark: int) returns (p': nat, mark': int)
      requires At(p0, data, done, p, mark) && p < |data| && state.BodyIdentity? && Flatten(calls) == done
      modifies this
      ensures p < p' <= |data| && (mark' == -1 || 0 <= mark' <= p') && errno == Ok && Grouped(calls)
      ensures if Exited(Snapshot()) then Run(config, p0, data) == Outcome(Snapshot(), Flatten(calls), p') else At(p0, data, Flatten(calls), p', mark')
    {
      hide Bytes, Run, Pending, EndsInByte, ShouldKeepAlive, Flatten, Grouped;
      var toRead := if contentLength < |data| - p then contentLength else |data| - p;
      assert contentLength != 0 && contentLength != UNKNOWN_LENGTH;
      ghost var before := Snapshot();
      RunIdentity(config, before, data[p..], toRead);
      ghost var rest := Run(config, AfterIdentity(config, before, toRead), data[p..][toRead..]);
      AdvanceMark(data, done, mark, p, toRead, IdentityEnd(before, toRead), rest);
      mark' := if mark == -1 then p else mark;
      contentLength := contentLength - toRead;
      p' := p + toRead;
      if contentLength == 0 {
        state := MessageDone;
        DeliverBody(data, mark', p');
        mark' := -1;
        ghost var made := calls;
        MessageDoneCase();
        NoticedGroups(made, calls);
        NothingPending(data, Flatten(calls), p', rest);
        if upgrade {
          RunStopped(config, Snapshot(), data[p'..]);
        }
      }
    }

    /** Hand over the pending body bytes, if any. */
    method DeliverBody(data: seq<byte>, mark: int, p: nat)
      requires mark == -1 || 0 <= mark <= p <= |data|
      modifies `calls
      ensures Flatten(calls) == Flatten(old(calls)) + Pending(data, mark, p)
      ensures calls == if mark >= 0 then old(calls) + [OnBody(data[mark..p])] else old(calls)
      ensures Grouped(old(calls)) && !EndsInBody(old(calls)) && mark < p ==> Grouped(calls)
    {
      if mark >= 0 {
        if Grouped(calls) && !EndsInBody(calls) && mark < p {
          BodyGroups(calls, data[mark..p]);
        }
        Call(OnBody(data[mark..p]));
      }
    }

    /** CR after a chunk's data delivers the data. */
    method PassCase(ghost p0: Parser, data: seq<byte>, ghost done: seq<Event>, p: nat, mark: int)
      requires At(p0, data, done, p, mark) && p < |data| && state.ChunkDataAlmostDone? && Flatten(calls) == done && data[p] == CR
      modifies this
      ensures errno == Ok && At(p0, data, Flatten(calls), p + 1, -1)
    {
      hide Bytes, Run, EndsInByte, Flatten, Pending, Exec, Grouped, Valid, Prepend;
      ghost var before := Snapshot();
      state := ChunkDataDone;
      DeliverBody(data, mark, p);
      PassBreak(config, before, data, done, p, mark);
      NothingPending(data, Flatten(calls), p + 1, Run(config, Snapshot(), data[p + 1..]));
    }

    /** The byte after a chunk's data: anything but CR is an error that strands the data. */
    method BreakCase(ghost p0: Parser, data: seq<byte>, ghost done: seq<Event>, p: nat, mark: int) returns (mark': int)
      requires At(p0, data, done, p, mark) && p < |data| && state.ChunkDataAlmostDone? && Flatten(calls) == done
      modifies this
      ensures if errno == Ok then At(p0, data, Flatten(calls), p + 1, mark') else
        Exec(config, p0, data) == Outcome(Snapshot(), Flatten(calls), p) && Grouped(calls)
    {
      assert flags.chunked && contentLength == 0;
      hide Bytes, Run, EndsInByte, Flatten, Pending, Exec, Grouped, Valid, Prepend;
      mark' := mark;
      if data[p] != CR {
        StrandAt(config, p0, Snapshot(), data, done, p, mark);
        errno := Strict;
        return;
      }
      PassCase(p0, data, done, p, mark);
      mark' := -1;
    }

    /** Everything that is left belongs to a body that ends with the connection. */
    method EofCase(ghost p0: Parser, data: seq<byte>, ghost done: seq<Event>, p: nat, mark: int) returns (mark': int)
      requires At(p0, data, done, p, mark) && p < |data| && state.BodyIdentityEof?
      ensures At(p0, data, done, |data|, mark')
    {
      hide Bytes, Pending, EndsInByte, Step;
      mark' := if mark == -1 then p else mark;
      var n := |data| - p;
      ghost var o := Run(config, Snapshot(), data[|data|..]);
      RunEof(config, Snapshot(), data[p..]);
      AdvanceMark(data, done, mark, p, n, [], o);
      assert data[p..][..n] == data[p..];
      assert Prepend(Bytes(data[p..]), n, o) == Outcome(Snapshot(), Bytes(data[p..]), n);
    }

    /** A byte of any other state. */
    method ByteCase(ghost p0: Parser, data: seq<byte>, ghost done: seq<Event>, p: nat)
      requires At(p0, data, done, p, -1) && p < |data| && Flatten(calls) == done
      requires !state.ChunkData? && !state.ChunkDataAlmostDone? && !state.BodyIdentity? && !state.BodyIdentityEof?
      modifies this
      ensures
        if errno != Ok then Exec(config, p0, data) == Outcome(Snapshot(), Flatten(calls), p) && Grouped(calls)
        else if Exited(Snapshot()) then Exec(config, p0, data) == Outcome(Snapshot(), Flatten(calls), p + 1) && Grouped(calls)
        else At(p0, data, Flatten(calls), p + 1, -1)
    {
      hide Dispatch, Run, Flatten, EndsInByte, Exec, Grouped;
      ghost var before := Snapshot();
      if ParsingHeader(state) {
        nread := nread + 1;
        if nread > config.maxHeader {
          errno := HeaderOverflow;
          StepRun(config, p0, before, data, done, p);
          return;
        }
      }
      ghost var made := calls;
      OneByte(data[p]);
      NoticedGroups(made, calls);
      StepRun(config, p0, before, data, done, p);
    }

    method EofCall() returns (nparsed: nat)
      modifies this
      ensures var o := AtEof(old(Snapshot()));
        Snapshot() == o.parser && Flatten(calls) == Flatten(old(calls)) + o.events && nparsed == o.consumed && Noticed(old(calls), calls)
    {
      hide Flatten;
      if errno != Ok {
        return 0;
      }
      match state {
        case BodyIdentityEof =>
          Call(Notify(MessageComplete));
          return 0;
        case Dead => return 0;
        case StartReq => return 0;
        case StartRes => return 0;
        case _ =>
          errno := InvalidEofState;
          return 1;
      }
    }

    /** One turn of the loop: as many bytes as the state takes at once. `stop` tells that the call returns early. */
    method Turn(ghost p0: Parser, data: seq<byte>, p: nat, mark: int) returns (p': nat, mark': int, stop: bool)
      requires At(p0, data, Flatten(calls), p, mark) && p < |data|
      modifies this
      ensures if stop then Exec(config, p0, data) == Outcome(Snapshot(), Flatten(calls), p') && Grouped(calls) else At(p0, data, Flatten(calls), p', mark') && p < p'
    {
      hide Run, Flatten, Exec, Dispatch, EndsInByte, Valid, Bytes, Grouped;
      ghost var done := Flatten(calls);
      mark', stop := -1, false;
      if state.ChunkData? {
        p', mark' := ChunkDataCase(p0, data, done, p, mark);
      } else if state.ChunkDataAlmostDone? {
        mark' := BreakCase(p0, data, done, p, mark);
        stop := errno != Ok;
        p' := if stop then p else p + 1;
      } else if state.BodyIdentity? {
        p', mark' := IdentityCase(p0, data, done, p, mark);
        stop := Exited(Snapshot());
        FinishRun(config, p0, data);
      } else if state.BodyIdentityEof? {
        mark' := EofCase(p0, data, done, p, mark);
        p' := |data|;
      } else {
        ByteCase(p0, data, done, p);
        stop := errno != Ok || Exited(Snapshot());
        p' := if errno != Ok then p else p + 1;
      }
    }

    /**
     * Feed one buffer. The caller does not go on after an upgrade.
     * With data, the calls and the final state are those the byte machine prescribes, with its body bytes grouped.
     */
    method Execute(data: seq<byte>) returns (nparsed: nat)
      requires Ready(Snapshot()) && !Exited(Snapshot())
      modifies this
      ensures Ready(Snapshot())
      ensures data == [] ==> AtEof(old(Snapshot())) == Outcome(Snapshot(), Flatten(calls), nparsed)
      ensures data != [] ==> Exec(config, old(Snapshot()), data) == Outcome(Snapshot(), Flatten(calls), nparsed)
      ensures Grouped(calls)
    {
      hide Run, Exec, Dispatch, EndsInByte, Valid, Bytes, Grouped, Flatten;
      calls := [];
      NoCalls();
      if |data| == 0 {
        nparsed := EofCall();
        NoticedGroups([], calls);
        return;
      }
      ghost var p0 := Snapshot();
      FinishRun(config, p0, data);
      if errno != Ok {
        NothingToDo(config, p0, data);
        return 0;
      }
      var p, mark, stop := 0, -1, false;
      StartRun(config, p0, data);
      while p < |data|
        invariant At(p0, data, Flatten(calls), p, mark)
        decreases |data| - p
      {
        p, mark, stop := Turn(p0, data, p, mark);
        if stop {
          return p;
        }
      }
      EndRun(config, p0, Snapshot(), data, Flatten(calls), mark);
      DeliverBody(data, mark, p);
      return |data|;
    }
  }

  lemma NothingToDo(c: Config, p: Parser, data: seq<byte>)
    requires p.errno != Ok
    ensures Exec(c, p, data) == Outcome(p, [], 0)
  {
  }

  lemma StartRun(c: Config, p: Parser, data: seq<byte>)
    requires Ready(p) && !Stopped(p)
    ensures Run(c, p, data) == Prepend([] + Pending(data, -1, 0), 0, Run(c, p, data[0..])) && Valid(p)
    ensures !EndsInByte([])
  {
    hide Run;
    assert data[0..] == data;
    assert [] + Run(c, p, data).events == Run(c, p, data).events;
  }

  /** Runs that end early, by an error or an upgrade, leave the parser ready, and Exec agrees with Run when the parser is not in error. */
  lemma FinishRun(c: Config, p: Parser, data: seq<byte>)
    requires Ready(p)
    ensures Ready(Run(c, p, data).parser) && Exec(c, p, data).parser == Run(c, p, data).parser
    ensures Run(c, p, data).parser.errno == Ok ==> Exec(c, p, data) == Run(c, p, data)
  {
  }

  lemma EndRun(c: Config, p0: Parser, q: Parser, data: seq<byte>, done: seq<Event>, mark: int)
    requires Ready(p0) && Valid(q) && q.errno == Ok && (mark == -1 || 0 <= mark < |data|)
    requires Run(c, p0, data) == Prepend(done + Pending(data, mark, |data|), |data|, Run(c, q, data[|data|..]))
    ensures Exec(c, p0, data) == Outcome(q, done + Pending(data, mark, |data|), |data|)
  {
    hide Dispatch;
    assert done + Pending(data, mark, |data|) + [] == done + Pending(data, mark, |data|);
  }

  lemma StepRun(c: Config, p0: Parser, q: Parser, data: seq<byte>, done: seq<Event>, p: nat)
    requires Ready(p0) && !Stopped(p0) && Valid(q) && !Stopped(q) && p < |data|
    requires !q.state.ChunkData? && !q.state.ChunkDataAlmostDone?
    requires Run(c, p0, data) == Prepend(done + Pending(data, -1, p), p, Run(c, q, data[p..]))
    ensures var o := Step(c, q, data[p]);
      if o.parser.errno != Ok then Exec(c, p0, data) == Outcome(o.parser, done + o.events, p)
      else
        && Valid(o.parser)
        && (Exited(o.parser) ==> Exec(c, p0, data) == Outcome(o.parser, done + o.events, p + 1))
        && Run(c, p0, data) == Prepend(done + o.events + Pending(data, -1, p + 1), p + 1, Run(c, o.parser, data[p + 1..]))
        && !o.parser.state.ChunkDataAlmostDone?
        && (o.parser.state.ChunkData? ==> !EndsInByte(done + o.events))
  {
    hide Dispatch, Step;
    StepSound(c, q, data[p]);
    var o := Step(c, q, data[p]);
    assert data[p..][1..] == data[p + 1..];
    assert done + [] == done;
    if o.parser.errno != Ok {
      if o.parser.state.ChunkDataAlmostDone? {
        ErrorAtBreak(c, q, data[p]);
      }
      assert done + [] + o.events == done + o.events;
    } else {
      OnlyDataReachesBreak(c, q, data[p]);
      if o.parser.state.ChunkData? {
        DataStartsAfterHeader(c, q, data[p]);
      }
      var r := Run(c, o.parser, data[p + 1..]);
      PrependTwice(done, p, o.events, 1, r);
      assert done + o.events + [] == done + o.events;
    }
  }

  lemma StrandAt(c: Config, p0: Parser, q: Parser, data: seq<byte>, done: seq<Event>, p: nat, mark: int)
    requires Ready(p0) && Valid(q) && q.errno == Ok && q.state.ChunkDataAlmostDone? && !Stopped(p0)
    requires p < |data| && data[p] != CR && (mark == -1 || 0 <= mark < p) && (p > 0 ==> mark >= 0)
    requires !EndsInByte(done)
    requires Run(c, p0, data) == Prepend(done + Pending(data, mark, p), p, Run(c, q, data[p..]))
    ensures Exec(c, p0, data) == Outcome(q.(errno := Strict), done, p)
  {
    hide Bytes, EndsInByte, Dispatch, DropLastBytes;
    StepBreak(c, q, data[p]);
    assert Run(c, q, data[p..]) == Outcome(q.(errno := Strict), [], 0);
    assert done + Pending(data, mark, p) + [] == done + Pending(data, mark, p);
    if p > 0 {
      DropBytes(done, data[mark..p]);
    } else {
      assert done + [] == done;
    }
  }

  lemma StepBreak(c: Config, q: Parser, ch: byte)
    requires Valid(q) && q.errno == Ok && q.state.ChunkDataAlmostDone?
    ensures Step(c, q, ch) == if ch != CR then Outcome(q.(errno := Strict), [], 0) else Outcome(q.(state := ChunkDataDone), [], 1)
  {
  }

  lemma PassBreak(c: Config, q: Parser, data: seq<byte>, done: seq<Event>, p: nat, mark: int)
    requires Valid(q) && q.errno == Ok && q.state.ChunkDataAlmostDone?
    requires p < |data| && data[p] == CR && (mark == -1 || 0 <= mark < p)
    ensures Ready(q.(state := ChunkDataDone))
    ensures Prepend(done + Pending(data, mark, p), p, Run(c, q, data[p..])) ==
      Prepend(done + Pending(data, mark, p), p + 1, Run(c, q.(state := ChunkDataDone), data[p + 1..]))
  {
    hide Bytes, Pending, Step;
    StepBreak(c, q, data[p]);
    assert data[p..][1..] == data[p + 1..];
    var o := Run(c, q.(state := ChunkDataDone), data[p + 1..]);
    assert [] + o.events == o.events;
  }

  lemma RunStopped(c: Config, p: Parser, data: seq<byte>)
    requires Stopped(p)
    ensures Run(c, p, data) == Outcome(p, [], 0)
  {
  }

  lemma NothingPending(data: seq<byte>, events: seq<Event>, p: nat, o: Outcome)
    requires p <= |data|
    ensures events + Pending(data, -1, p) == events
    ensures Prepend(events, p, Outcome(o.parser, [], 0)) == Outcome(o.parser, events, p)
  {
  }

  /** The body bytes between the mark and the current position. */
  function Pending(data: seq<byte>, mark: int, p: nat): seq<Event>
    requires mark == -1 || 0 <= mark <= p <= |data|
  {
    if mark == -1 then [] else Bytes(data[mark..p])
  }

  lemma AdvanceMark(data: seq<byte>, done: seq<Event>, mark: int, p: nat, n: nat, end: seq<Event>, o: Outcome)
    requires (mark == -1 || 0 <= mark <= p) && p + n <= |data|
    ensures data[p..][n..] == data[p + n..]
    ensures Prepend(done + Pending(data, mark, p), p, Prepend(Bytes(data[p..][..n]) + end, n, o)) ==
      Prepend(done + Pending(data, if mark == -1 then p else mark, p + n) + end, p + n, o)
    ensures Bytes(data[p..][..n]) + [] == Bytes(data[p..][..n])
    ensures done + Pending(data, if mark == -1 then p else mark, p + n) + [] == done + Pending(data, if mark == -1 then p else mark, p + n)
  {
    hide Bytes;
    var m := if mark == -1 then p else mark;
    PrependTwice(done + Pending(data, mark, p), p, Bytes(data[p..][..n]) + end, n, o);
    assert Pending(data, mark, p) + Bytes(data[p..][..n]) == Pending(data, m, p + n);
    assert done + Pending(data, mark, p) + (Bytes(data[p..][..n]) + end) == done + (Pending(data, mark, p) + Bytes(data[p..][..n])) + end;
  }
}
