/** The tokenizer object: its fields, and the loop of next_token. */
module HtmlTokenizer {
  import opened Texts
  import opened HtmlTokens

  /** What a turn did, from the token it hands out, if any, and the machine it leaves. */
  function Turned(out: Current, m: Machine): Turn {
    match out
    case None => More(m)
    case Building(t) => Emit(t, m)
  }

  class Tokenizer {
    const input: Source
    var position: nat
    var state: State
    var returnState: State
    var current: Current

    function Snapshot(): Machine
      reads this
    {
      Machine(position, state, returnState, current)
    }

    predicate Valid()
      reads this
    {
      Good(input, Snapshot())
    }

    constructor (text: Source)
      ensures input == text && Snapshot() == Start() && Valid()
    {
      input := text;
      position, state, returnState, current := 0, Data, Data, None;
    }

    /** Called by the tree builder, which only does so when no token is under construction. */
    method SetState(s: State)
      requires Valid() && current.None? && (s.Data? || s.Rcdata? || s.Rawtext?)
      modifies `state
      ensures Valid() && Snapshot() == old(Snapshot()).(state := s)
      ensures Budget(input, Snapshot()) <= old(Budget(input, Snapshot()))
    {
      state := s;
    }

    method Advance()
      modifies `position
      ensures position == if old(position) < |input| then old(position) + 1 else old(position)
    {
      if Char(input, position) != '\0' {
        position := position + 1;
      }
    }

    method Skip(n: nat)
      requires position + n <= |input|
      modifies `position
      ensures position == old(position) + n
    {
      for i := 0 to n
        invariant position == old(position) + i
      {
        Advance();
      }
    }

    /** Hands out the token under construction and forgets it. */
    method Release() returns (out: Current)
      requires position < |input|
      modifies this
      ensures out == old(current) && Snapshot() == old(Snapshot()).(state := Data, pos := old(position) + 1, current := None)
    {
      state := Data;
      Advance();
      out := current;
      current := None;
    }

    method TextCase() returns (out: Current)
      requires Valid() && position < |input|
      requires state.Data? || state.Rcdata? || state.Rawtext?
      modifies this
      ensures Turned(out, Snapshot()) == OnText(old(Snapshot()), input[old(position)])
    {
      var c := Char(input, position);
      out := None;
      if c == '<' {
        state := TagOpen;
      } else if c == '&' && !state.Rawtext? {
        returnState := state;
        state := CharacterReference;
      } else {
        out := Building(CharToken(c));
      }
      Advance();
    }

    method TagOpenCase() returns (out: Current)
      requires Valid() && position < |input|
      requires state.TagOpen? || state.EndTagOpen?
      modifies this
      ensures Turned(out, Snapshot()) == OnTagOpen(old(Snapshot()), input[old(position)])
    {
      var c := Char(input, position);
      out := None;
      if state.TagOpen? {
        if c == '!' {
          state := CommentStart;
          Advance();
        } else if c == '/' {
          state := EndTagOpen;
          Advance();
        } else if IsAlpha(c) {
          current := Building(NewToken(StartTag));
          state := TagName;
        } else {
          state := Data;
          out := Building(CharToken('<'));
        }
      } else if IsAlpha(c) {
        current := Building(NewToken(EndTag));
        state := TagName;
      } else if c == '>' {
        state := Data;
        Advance();
      } else {
        state := Data;
      }
    }

    method TagNameCase() returns (out: Current)
      requires Valid() && position < |input| && state.TagName?
      modifies this
      ensures Turned(out, Snapshot()) == OnTagName(old(Snapshot()), input[old(position)])
    {
      var c := Char(input, position);
      out := None;
      if IsSpace(c) {
        state := BeforeAttributeName;
        Advance();
      } else if c == '/' {
        state := SelfClosing;
        Advance();
      } else if c == '>' {
        out := Release();
      } else {
        current := Building(AddName(current.token, c));
        Advance();
      }
    }

    method AttributeNameCase() returns (out: Current)
      requires Valid() && position < |input|
      requires state.BeforeAttributeName? || state.AttributeName? || state.AfterAttributeName?
      modifies this
      ensures Turned(out, Snapshot()) == OnAttributeName(old(Snapshot()), input[old(position)])
    {
      var c := Char(input, position);
      out := None;
      match state
      case BeforeAttributeName =>
        if IsSpace(c) {
          Advance();
        } else if c == '/' || c == '>' {
          state := AfterAttributeName;
        } else {
          current := Building(AddAttr(current.token));
          state := AttributeName;
        }
      case AttributeName =>
        if IsSpace(c) || c == '/' || c == '>' {
          state := AfterAttributeName;
        } else if c == '=' {
          state := BeforeAttributeValue;
          Advance();
        } else {
          current := Building(AddAttrName(current.token, c));
          Advance();
        }
      case AfterAttributeName =>
        if IsSpace(c) {
          Advance();
        } else if c == '/' {
          state := SelfClosing;
          Advance();
        } else if c == '=' {
          state := BeforeAttributeValue;
          Advance();
        } else if c == '>' {
          out := Release();
        } else {
          current := Building(AddAttr(current.token));
          state := AttributeName;
        }
    }

    method ValueCase() returns (out: Current)
      requires Valid() && position < |input|
      requires state.ValueDoubleQuoted? || state.ValueSingleQuoted? || state.ValueUnquoted?
      modifies this
      ensures Turned(out, Snapshot()) == OnValue(old(Snapshot()), input[old(position)])
    {
      var c := Char(input, position);
      out := None;
      if (state.ValueDoubleQuoted? && c == '"') || (state.ValueSingleQuoted? && c == '\'') {
        state := AfterValueQuoted;
        Advance();
      } else if state.ValueUnquoted? && IsSpace(c) {
        state := BeforeAttributeName;
        Advance();
      } else if c == '&' {
        returnState := state;
        state := CharacterReference;
        Advance();
      } else if state.ValueUnquoted? && c == '>' {
        out := Release();
      } else {
        current := Building(AddAttrValue(current.token, c));
        Advance();
      }
    }

    method AroundValueCase() returns (out: Current)
      requires Valid() && position < |input|
      requires state.BeforeAttributeValue? || state.AfterValueQuoted? || state.SelfClosing?
      modifies this
      ensures Turned(out, Snapshot()) == OnAttributeValue(old(Snapshot()), input[old(position)])
    {
      var c := Char(input, position);
      out := None;
      match state
      case BeforeAttributeValue =>
        if IsSpace(c) {
          Advance();
        } else if c == '"' {
          state := ValueDoubleQuoted;
          Advance();
        } else if c == '\'' {
          state := ValueSingleQuoted;
          Advance();
        } else if c == '>' {
          out := Release();
        } else {
          state := ValueUnquoted;
        }
      case AfterValueQuoted =>
        if IsSpace(c) {
          state := BeforeAttributeName;
          Advance();
        } else if c == '/' {
          state := SelfClosing;
          Advance();
        } else if c == '>' {
          out := Release();
        } else {
          state := BeforeAttributeName;
        }
      case SelfClosing =>
        if c == '>' {
          current := Building(current.token.(selfClosing := true));
          out := Release();
        } else {
          state := BeforeAttributeName;
        }
    }

    method CommentStartCase() returns (out: Current)
      requires Valid() && position < |input|
      requires state.CommentStart? || state.CommentStartDash?
      modifies this
      ensures Turned(out, Snapshot()) == OnCommentStart(input, old(Snapshot()), input[old(position)])
    {
      var c := Char(input, position);
      out := None;
      if state.CommentStart? {
        if c == '-' {
          state := CommentStartDash;
          Advance();
        } else if At(input, position, "DOCTYPE") {
          state := BeforeDoctype;
          Skip(7);
        } else {
          current := Building(NewToken(Comment));
          state := InComment;
        }
      } else {
        if c == '-' {
          state := InComment;
          current := Building(NewToken(Comment));
        } else {
          state := Data;
        }
        Advance();
      }
    }

    method CommentCase() returns (out: Current)
      requires Valid() && position < |input|
      requires state.InComment? || state.CommentEndDash? || state.CommentEnd?
      modifies this
      ensures Turned(out, Snapshot()) == OnComment(old(Snapshot()), input[old(position)])
    {
      var c := Char(input, position);
      var t := current.token;
      out := None;
      match state
      case InComment =>
        if c == '-' {
          state := CommentEndDash;
        } else {
          current := Building(t.(data := Append(t.data, c, TEXT_LIMIT)));
        }
        Advance();
      case CommentEndDash =>
        if c == '-' {
          state := CommentEnd;
        } else {
          if |t.data| < TEXT_LIMIT - 1 {
            current := Building(t.(data := t.data + ['-', c]));
          }
          state := InComment;
        }
        Advance();
      case CommentEnd =>
        if c == '>' {
          out := Release();
        } else {
          state := InComment;
          Advance();
        }
    }

    method DoctypeCase() returns (out: Current)
      requires Valid() && position < |input|
      requires state.BeforeDoctype? || state.DoctypeName? || state.AfterDoctypeName?
      modifies this
      ensures Turned(out, Snapshot()) == OnDoctype(old(Snapshot()), input[old(position)])
    {
      var c := Char(input, position);
      out := None;
      match state
      case BeforeDoctype =>
        if IsSpace(c) {
          Advance();
        } else {
          current := Building(NewToken(Doctype));
          state := DoctypeName;
        }
      case DoctypeName =>
        if IsSpace(c) {
          state := AfterDoctypeName;
          Advance();
        } else if c == '>' {
          out := Release();
        } else {
          current := Building(AddName(current.token, c));
          Advance();
        }
      case AfterDoctypeName =>
        if c == '>' {
          out := Release();
        } else {
          Advance();
        }
    }

    method ReferenceCase() returns (out: Current)
      requires Valid() && position < |input| && InReference(state)
      modifies this
      ensures Turned(out, Snapshot()) == OnReference(input, old(Snapshot()), input[old(position)])
    {
      var c := Char(input, position);
      out := None;
      match state
      case CharacterReference =>
        if IsAlpha(c) {
          state := NamedReference;
        } else if c == '#' {
          state := NumericReference;
          Advance();
        } else {
          state := returnState;
          out := Building(CharToken('&'));
        }
      case NamedReference =>
        var (text, character) := Named(input, position);
        Skip(|text|);
        state := returnState;
        out := Building(CharToken(character));
      case NumericReference =>
        Advance();
    }

    /** One turn of the loop. */
    method TurnOnce() returns (out: Current)
      requires Valid()
      modifies this
      ensures Turned(out, Snapshot()) == Step(input, old(Snapshot())) && Valid()
    {
      hide OnText, OnTagOpen, OnTagName, OnAttributeName, OnAttributeValue, OnCommentStart, OnComment, OnDoctype, OnReference;
      StepSound(input, Snapshot());
      if Char(input, position) == '\0' {
        if state.Data? || state.Rcdata? || state.Rawtext? || current.None? {
          out := Building(NewToken(EndOfFile));
        } else {
          out := current;
          current := None;
        }
        return;
      }
      match state
      case Data | Rcdata | Rawtext => out := TextCase();
      case TagOpen | EndTagOpen => out := TagOpenCase();
      case TagName => out := TagNameCase();
      case BeforeAttributeName | AttributeName | AfterAttributeName => out := AttributeNameCase();
      case ValueDoubleQuoted | ValueSingleQuoted | ValueUnquoted =>
        ValueIsValue(Snapshot(), input[position]);
        out := ValueCase();
      case BeforeAttributeValue | AfterValueQuoted | SelfClosing => out := AroundValueCase();
      case CommentStart | CommentStartDash => out := CommentStartCase();
      case InComment | CommentEndDash | CommentEnd => out := CommentCase();
      case BeforeDoctype | DoctypeName | AfterDoctypeName => out := DoctypeCase();
      case CharacterReference | NamedReference | NumericReference => out := ReferenceCase();
    }

    /** next_token: turns until a token comes out; the call always returns. */
    method NextToken() returns (t: Token)
      requires Valid()
      modifies this
      ensures (t, Snapshot()) == Next(input, old(Snapshot())) && Valid()
    {
      hide Step, Sound;
      ghost var start := Snapshot();
      while true
        invariant Valid() && Next(input, Snapshot()) == Next(input, start)
        decreases |input| - position, Rank(state, Char(input, position))
      {
        ghost var m := Snapshot();
        TurnEffect(input, m);
        var out := TurnOnce();
        if out.Building? {
          return out.token;
        }
      }
    }
  }

  lemma ValueIsValue(m: Machine, c: char)
    requires m.current.Building? && (m.state.ValueDoubleQuoted? || m.state.ValueSingleQuoted? || m.state.ValueUnquoted?)
    ensures OnAttributeValue(m, c) == OnValue(m, c)
  {
  }

  lemma TurnEffect(input: Source, m: Machine)
    requires Good(input, m)
    ensures
      var turn := Step(input, m);
      var n := turn.machine;
      && (turn.Emit? ==> Next(input, m) == (turn.token, n))
      && (turn.More? ==>
        && Good(input, n) && Next(input, m) == Next(input, n)
        && (n.pos > m.pos || (n.pos == m.pos && Rank(n.state, Char(input, n.pos)) < Rank(m.state, Char(input, m.pos)))))
  {
    hide Step;
    StepSound(input, m);
  }
}
