/** Splitting the input of the HTTP parser: what does not depend on where the pieces end, and the one case that does. */
module HttpSplit {
  import opened Octets
  import opened HttpMessage
  import opened HttpBody

  function Join(pieces: seq<seq<byte>>): seq<byte> {
    if pieces == [] then [] else pieces[0] + Join(pieces[1..])
  }

  /** A call with no data would report the end of the connection. */
  ghost predicate NoneEmpty(pieces: seq<seq<byte>>) {
    forall i :: 0 <= i < |pieces| ==> pieces[i] != []
  }

  /** The pieces fed by one ideal run each. */
  function RunPieces(c: Config, p: Parser, pieces: seq<seq<byte>>): (o: Outcome)
    requires Ready(p)
    ensures Ready(o.parser)
    decreases pieces
  {
    if pieces == [] then Outcome(p, [], 0)
    else
      var o := Run(c, p, pieces[0]);
      Prepend(o.events, o.consumed, RunPieces(c, o.parser, pieces[1..]))
  }

  /** The pieces executed by one call each. */
  function ExecPieces(c: Config, p: Parser, pieces: seq<seq<byte>>): (o: Outcome)
    requires Ready(p) && NoneEmpty(pieces)
    ensures Ready(o.parser)
    decreases pieces
  {
    if pieces == [] then Outcome(p, [], 0)
    else
      var o := Exec(c, p, pieces[0]);
      Prepend(o.events, o.consumed, ExecPieces(c, o.parser, pieces[1..]))
  }

  lemma {:induction false} PiecesAreJoined(c: Config, p: Parser, pieces: seq<seq<byte>>)
    requires Ready(p)
    ensures RunPieces(c, p, pieces) == Run(c, p, Join(pieces))
    decreases pieces
  {
    if pieces != [] {
      RunAppend(c, p, pieces[0], Join(pieces[1..]));
      PiecesAreJoined(c, Run(c, p, pieces[0]).parser, pieces[1..]);
    }
  }

  /** The callbacks other than body data. */
  function Notices(e: seq<Event>): seq<Event> {
    if e == [] then [] else Notices(e[..|e| - 1]) + if e[|e| - 1].Byte? then [] else [e[|e| - 1]]
  }

  lemma {:induction false} NoticesAppend(a: seq<Event>, b: seq<Event>)
    ensures Notices(a + b) == Notices(a) + Notices(b)
    decreases b
  {
    if b == [] {
      assert a + b == a;
    } else {
      NoticesAppend(a, b[..|b| - 1]);
      assert (a + b)[..|a + b| - 1] == a + b[..|b| - 1];
    }
  }

  lemma {:induction false} NoticesDrop(e: seq<Event>)
    ensures Notices(DropLastBytes(e)) == Notices(e)
    decreases e
  {
    if EndsInByte(e) {
      NoticesDrop(e[..|e| - 1]);
    }
  }

  lemma {:induction false} ExecPiecesNotices(c: Config, p: Parser, pieces: seq<seq<byte>>)
    requires Ready(p) && NoneEmpty(pieces)
    ensures ExecPieces(c, p, pieces).parser == RunPieces(c, p, pieces).parser
    ensures ExecPieces(c, p, pieces).consumed == RunPieces(c, p, pieces).consumed
    ensures Notices(ExecPieces(c, p, pieces).events) == Notices(RunPieces(c, p, pieces).events)
    decreases pieces
  {
    if pieces != [] {
      var o, r := Exec(c, p, pieces[0]), Run(c, p, pieces[0]);
      ExecPiecesNotices(c, r.parser, pieces[1..]);
      NoticesDrop(r.events);
      NoticesAppend(o.events, ExecPieces(c, r.parser, pieces[1..]).events);
      NoticesAppend(r.events, RunPieces(c, r.parser, pieces[1..]).events);
    }
  }

  /** For every splitting into non-empty pieces, the final parser with its state and error, the bytes consumed and the notifications are those of one call. */
  lemma SplitKeepsNotices(c: Config, p: Parser, pieces: seq<seq<byte>>)
    requires Ready(p) && NoneEmpty(pieces) && pieces != []
    ensures var whole, parts := Exec(c, p, Join(pieces)), ExecPieces(c, p, pieces);
      parts.parser == whole.parser && parts.consumed == whole.consumed && Notices(parts.events) == Notices(whole.events)
  {
    PiecesAreJoined(c, p, pieces);
    ExecPiecesNotices(c, p, pieces);
    NoticesDrop(Run(c, p, Join(pieces)).events);
  }

  // ----- The body bytes -----

  /** The guard of the failing branch: some byte after the first is where a chunk's data must be followed by CR, and is not CR. */
  ghost predicate BreaksChunk(c: Config, p: Parser, data: seq<byte>)
    requires Ready(p)
  {
    exists k: nat :: BreaksChunkAt(c, p, data, k)
  }

  predicate BreaksChunkAt(c: Config, p: Parser, data: seq<byte>, k: nat)
    requires Ready(p)
  {
    0 < k < |data| && data[k] != CR &&
    var o := Run(c, p, data[..k]);
    !Stopped(o.parser) && o.parser.state.ChunkDataAlmostDone?
  }

  lemma FirstByteAtBreak(c: Config, p: Parser, ch: byte)
    requires Ready(p) && !Stopped(p) && p.state.ChunkDataAlmostDone? && ch != CR
    ensures Step(c, p, ch) == Outcome(p.(errno := Strict), [], 0)
  {
  }

  lemma {:induction false} OnlyBreakStrands(c: Config, p: Parser, ch: byte)
    requires Ready(p) && !Stopped(p) && Step(c, p, ch).parser.errno == Strict && Step(c, p, ch).parser.state.ChunkDataAlmostDone?
    ensures p.state.ChunkDataAlmostDone? && ch != CR && Step(c, p, ch).consumed == 0
  {
    hide NewMessage, NeedsEof, Unhex;
    StepSound(c, p, ch);
  }

  lemma {:induction false} BreakStrands(c: Config, p: Parser, data: seq<byte>, k: nat)
    requires Ready(p) && BreaksChunkAt(c, p, data, k)
    ensures Stranded(p, Run(c, p, data))
  {
    var o := Run(c, p, data[..k]);
    assert data == data[..k] + data[k..];
    RunAppend(c, p, data[..k], data[k..]);
    FirstByteAtBreak(c, o.parser, data[k]);
    assert o.consumed == k;
  }

  lemma {:induction false} StrandBreaks(c: Config, p: Parser, data: seq<byte>)
    requires Ready(p) && !Stopped(p) && Run(c, p, data).parser.errno == Strict && Run(c, p, data).parser.state.ChunkDataAlmostDone?
    ensures var k := Run(c, p, data).consumed;
      k < |data| && data[k] != CR && !Stopped(Run(c, p, data[..k]).parser) && Run(c, p, data[..k]).parser.state.ChunkDataAlmostDone?
    decreases data
  {
    hide Dispatch, Step;
    StepSound(c, p, data[0]);
    var o := Step(c, p, data[0]);
    if o.parser.errno != Ok {
      OnlyBreakStrands(c, p, data[0]);
      assert data[..0] == [];
    } else {
      StrandBreaks(c, o.parser, data[1..]);
      var k := Run(c, o.parser, data[1..]).consumed;
      assert data[..k + 1][1..] == data[1..][..k];
    }
  }

  /** A call strands body bytes exactly when its input breaks a chunk. */
  lemma StrandedExactly(c: Config, p: Parser, data: seq<byte>)
    requires Ready(p)
    ensures Stranded(p, Run(c, p, data)) <==> BreaksChunk(c, p, data)
  {
    if Stranded(p, Run(c, p, data)) {
      StrandBreaks(c, p, data);
      assert BreaksChunkAt(c, p, data, Run(c, p, data).consumed);
    }
    if BreaksChunk(c, p, data) {
      var k: nat :| BreaksChunkAt(c, p, data, k);
      BreakStrands(c, p, data, k);
    }
  }

  lemma DataEndsInByte(c: Config, p: Parser, ch: byte)
    requires Ready(p) && !Stopped(p) && Step(c, p, ch).parser.errno == Ok && Step(c, p, ch).parser.state.ChunkDataAlmostDone?
    ensures Step(c, p, ch).events == [Byte(ch)]
  {
    hide NewMessage, NeedsEof, Unhex, OnHeadersDone;
    if p.state.ChunkData? {
      StepChunkData(c, p, ch);
    } else {
      OnlyDataReachesBreak(c, p, ch);
    }
  }

  lemma {:induction false} RunEndsInByte(c: Config, p: Parser, data: seq<byte>)
    requires Ready(p) && Run(c, p, data).parser.state.ChunkDataAlmostDone? && Run(c, p, data).consumed > 0
    ensures EndsInByte(Run(c, p, data).events)
    decreases data
  {
    hide Dispatch, Step;
    StepSound(c, p, data[0]);
    var o := Step(c, p, data[0]);
    if Run(c, o.parser, data[1..]).consumed > 0 {
      RunEndsInByte(c, o.parser, data[1..]);
    } else {
      NothingConsumed(c, o.parser, data[1..]);
      DataEndsInByte(c, p, data[0]);
    }
  }

  lemma NothingConsumed(c: Config, p: Parser, data: seq<byte>)
    requires Ready(p) && p.errno == Ok && Run(c, p, data).consumed == 0 && Run(c, p, data).parser.state.ChunkDataAlmostDone?
    ensures p.state.ChunkDataAlmostDone? && Run(c, p, data).events == []
  {
    if data != [] && !Stopped(p) {
      hide Dispatch;
      StepSound(c, p, data[0]);
      ErrorAtBreak(c, p, data[0]);
    }
  }

  /** One call delivers every body byte it consumed exactly when its input breaks no chunk. */
  lemma ExecDeliversExactly(c: Config, p: Parser, data: seq<byte>)
    requires Ready(p)
    ensures Exec(c, p, data) == Run(c, p, data) <==> !BreaksChunk(c, p, data)
  {
    StrandedExactly(c, p, data);
    var o := Run(c, p, data);
    if Stranded(p, o) {
      RunEndsInByte(c, p, data);
      assert |DropLastBytes(o.events)| < |o.events|;
    }
  }

  lemma StrandedPrefix(c: Config, p: Parser, a: seq<byte>, b: seq<byte>)
    requires Ready(p) && Stranded(p, Run(c, p, a))
    ensures Stranded(p, Run(c, p, a + b))
  {
    RunAppend(c, p, a, b);
  }

  lemma {:induction false} UnbrokenPieces(c: Config, p: Parser, pieces: seq<seq<byte>>)
    requires Ready(p) && NoneEmpty(pieces) && !Stranded(p, Run(c, p, Join(pieces)))
    ensures ExecPieces(c, p, pieces) == RunPieces(c, p, pieces)
    decreases pieces
  {
    if pieces != [] {
      var r := Run(c, p, pieces[0]);
      RunAppend(c, p, pieces[0], Join(pieces[1..]));
      if Stranded(p, r) {
        StrandedPrefix(c, p, pieces[0], Join(pieces[1..]));
      }
      if Stopped(r.parser) {
        StoppedPieces(c, r.parser, pieces[1..]);
      } else {
        UnbrokenPieces(c, r.parser, pieces[1..]);
      }
    }
  }

  lemma {:induction false} StoppedPieces(c: Config, p: Parser, pieces: seq<seq<byte>>)
    requires Ready(p) && Stopped(p) && NoneEmpty(pieces)
    ensures ExecPieces(c, p, pieces) == RunPieces(c, p, pieces) == Outcome(p, [], 0)
    decreases pieces
  {
    if pieces != [] {
      StoppedPieces(c, p, pieces[1..]);
    }
  }

  function Singles(data: seq<byte>): seq<seq<byte>> {
    if data == [] then [] else [[data[0]]] + Singles(data[1..])
  }

  lemma {:induction false} JoinSingles(data: seq<byte>)
    ensures NoneEmpty(Singles(data)) && Join(Singles(data)) == data
    decreases data
  {
    if data != [] {
      JoinSingles(data[1..]);
      var rest := Singles(data[1..]);
      assert Singles(data) == [[data[0]]] + rest;
      assert ([[data[0]]] + rest)[1..] == rest;
      assert [data[0]] + data[1..] == data;
    }
  }

  /** Fed byte by byte, every body byte is delivered. */
  lemma {:induction false} SinglesDeliver(c: Config, p: Parser, data: seq<byte>)
    requires Ready(p)
    ensures NoneEmpty(Singles(data)) && ExecPieces(c, p, Singles(data)) == Run(c, p, data)
    decreases data
  {
    JoinSingles(data);
    if data != [] {
      hide Step, Dispatch;
      assert Singles(data)[1..] == Singles(data[1..]);
      assert data == [data[0]] + data[1..];
      RunAppend(c, p, [data[0]], data[1..]);
      var r := Run(c, p, [data[0]]);
      assert !Stranded(p, r) by {
        if Stranded(p, r) {
          StrandBreaks(c, p, [data[0]]);
        }
      }
      SinglesDeliver(c, r.parser, data[1..]);
    }
  }

  /** All splittings of the input into non-empty pieces give the same calls, in the same order, exactly when the input breaks no chunk. */
  lemma SplitAgreesExactly(c: Config, p: Parser, data: seq<byte>)
    requires Ready(p) && data != []
    ensures (forall pieces :: NoneEmpty(pieces) && Join(pieces) == data ==> ExecPieces(c, p, pieces) == Exec(c, p, data)) <==> !BreaksChunk(c, p, data)
  {
    ExecDeliversExactly(c, p, data);
    StrandedExactly(c, p, data);
    JoinSingles(data);
    SinglesDeliver(c, p, data);
    if !BreaksChunk(c, p, data) {
      forall pieces | NoneEmpty(pieces) && Join(pieces) == data ensures ExecPieces(c, p, pieces) == Exec(c, p, data) {
        UnbrokenPieces(c, p, pieces);
        PiecesAreJoined(c, p, pieces);
      }
    }
  }

  lemma TwoPieces(c: Config, p: Parser, a: seq<byte>, b: seq<byte>)
    requires Ready(p) && a != [] && b != []
    ensures var o := Exec(c, p, a); ExecPieces(c, p, [a, b]) == Prepend(o.events, o.consumed, Exec(c, o.parser, b))
  {
    hide Run, Exec;
    var o := Exec(c, p, a);
    var r := Exec(c, o.parser, b);
    assert [a, b][1..] == [b] && [b][1..] == [];
    assert ExecPieces(c, r.parser, []) == Outcome(r.parser, [], 0);
    assert r.events + [] == r.events;
    assert ExecPieces(c, o.parser, [b]) == r;
  }
}
