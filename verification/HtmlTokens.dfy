/** The HTML tokenizer as a state machine: its tokens, one turn of its loop, and the token a call returns. */
module HtmlTokens {
  import opened Texts

  datatype Kind = Doctype | StartTag | EndTag | Comment | Character | EndOfFile

  datatype Attr = Attr(name: string, value: string)

  datatype Token = Token(kind: Kind, name: string, data: string, selfClosing: bool, attrs: seq<Attr>)

  /** NumericReference stands for every state without a case of its own; no transition enters the others. */
  datatype State =
    | Data | Rcdata | Rawtext
    | TagOpen | EndTagOpen | TagName
    | BeforeAttributeName | AttributeName | AfterAttributeName
    | BeforeAttributeValue | ValueDoubleQuoted | ValueSingleQuoted | ValueUnquoted | AfterValueQuoted
    | SelfClosing
    | CommentStart | CommentStartDash | InComment | CommentEndDash | CommentEnd
    | BeforeDoctype | DoctypeName | AfterDoctypeName
    | CharacterReference | NamedReference | NumericReference

  /** The token under construction: a null or non-null current_token. */
  datatype Current = None | Building(token: Token)

  datatype Machine = Machine(pos: nat, state: State, ret: State, current: Current)

  /** What one turn of the loop does: go round again, or return a token. */
  datatype Turn = More(machine: Machine) | Emit(token: Token, machine: Machine)

  const NAME_LIMIT := 63
  const TEXT_LIMIT := 255
  const ATTR_LIMIT := 16

  /** A C string: its bytes before the closing NUL. */
  type Source = s: string | '\0' !in s

  function Char(input: Source, pos: nat): char {
    if pos < |input| then input[pos] else '\0'
  }

  predicate IsAlpha(c: char) {
    'a' <= c <= 'z' || 'A' <= c <= 'Z'
  }

  predicate IsSpace(c: char) {
    c == ' ' || c == '\t' || c == '\n' || c == '\r' || c == 12 as char
  }

  function Lower(c: char): char {
    if 'A' <= c <= 'Z' then (c as int + 32) as char else c
  }

  function NewToken(kind: Kind): Token {
    Token(kind, "", "", false, [])
  }

  function CharToken(c: char): Token {
    Token(Character, "", [c], false, [])
  }

  /** Appends to a buffer that holds at most limit characters before its NUL. */
  function Append(s: string, c: char, limit: nat): string {
    if |s| < limit then s + [c] else s
  }

  function AddName(t: Token, c: char): Token {
    t.(name := Append(t.name, Lower(c), NAME_LIMIT))
  }

  function AddAttr(t: Token): Token {
    if |t.attrs| < ATTR_LIMIT then t.(attrs := t.attrs + [Attr("", "")]) else t
  }

  function AddAttrName(t: Token, c: char): Token {
    if t.attrs == [] then t
    else
      var last := |t.attrs| - 1;
      t.(attrs := t.attrs[last := t.attrs[last].(name := Append(t.attrs[last].name, Lower(c), NAME_LIMIT))])
  }

  function AddAttrValue(t: Token, c: char): Token {
    if t.attrs == [] then t
    else
      var last := |t.attrs| - 1;
      t.(attrs := t.attrs[last := t.attrs[last].(value := Append(t.attrs[last].value, c, TEXT_LIMIT))])
  }

  /** States that read or write through current_token. */
  predicate UsesToken(s: State) {
    match s
    case TagName | BeforeAttributeName | AttributeName | AfterAttributeName => true
    case BeforeAttributeValue | ValueDoubleQuoted | ValueSingleQuoted | ValueUnquoted | AfterValueQuoted => true
    case SelfClosing | InComment | CommentEndDash | CommentEnd | DoctypeName | AfterDoctypeName => true
    case _ => false
  }

  predicate InReference(s: State) {
    s.CharacterReference? || s.NamedReference? || s.NumericReference?
  }

  /** A token is under construction in its own states and while one of its character references is read. */
  predicate Constructing(m: Machine) {
    UsesToken(m.state) || (InReference(m.state) && UsesToken(m.ret))
  }

  predicate CanReturnTo(s: State) {
    s.Data? || s.Rcdata? || s.ValueDoubleQuoted? || s.ValueSingleQuoted? || s.ValueUnquoted?
  }

  predicate Sized(t: Token) {
    && |t.name| <= NAME_LIMIT && |t.data| <= TEXT_LIMIT && |t.attrs| <= ATTR_LIMIT
    && (t.kind.Character? ==> |t.data| == 1)
    && forall a <- t.attrs :: |a.name| <= NAME_LIMIT && |a.value| <= TEXT_LIMIT
  }

  predicate IsMarkup(k: Kind) {
    !k.EndOfFile? && !k.Character?
  }

  /** The invariant between turns: current_token is set exactly while a token is under construction; only at the end
      of the input, where that token has been handed out, may it be null. */
  predicate Good(input: Source, m: Machine) {
    && m.pos <= |input|
    && CanReturnTo(m.ret)
    && (m.current.Building? ==> Constructing(m) && Sized(m.current.token) && IsMarkup(m.current.token.kind))
    && (m.pos < |input| && Constructing(m) ==> m.current.Building?)
  }

  function Start(): Machine {
    Machine(0, Data, Data, None)
  }

  // One turn of the loop, state by state; c is the current character, which is not the closing NUL.

  function Finish(m: Machine): Turn
    requires m.current.Building?
  {
    Emit(m.current.token, m.(state := Data, pos := m.pos + 1, current := None))
  }

  function Go(m: Machine, s: State): Turn {
    More(m.(state := s, pos := m.pos + 1))
  }

  function Reconsume(m: Machine, s: State): Turn {
    More(m.(state := s))
  }

  function Build(m: Machine, t: Token): Machine {
    m.(current := Building(t))
  }

  function OnText(m: Machine, c: char): Turn {
    if c == '<' then Go(m, TagOpen)
    else if c == '&' && !m.state.Rawtext? then Go(m.(ret := m.state), CharacterReference)
    else Emit(CharToken(c), m.(pos := m.pos + 1))
  }

  function OnTagOpen(m: Machine, c: char): Turn {
    if m.state.TagOpen? then
      if c == '!' then Go(m, CommentStart)
      else if c == '/' then Go(m, EndTagOpen)
      else if IsAlpha(c) then Reconsume(Build(m, NewToken(StartTag)), TagName)
      else Emit(CharToken('<'), m.(state := Data))
    else
      if IsAlpha(c) then Reconsume(Build(m, NewToken(EndTag)), TagName)
      else if c == '>' then Go(m, Data)
      else Reconsume(m, Data)
  }

  function OnTagName(m: Machine, c: char): Turn
    requires m.current.Building?
  {
    if IsSpace(c) then Go(m, BeforeAttributeName)
    else if c == '/' then Go(m, SelfClosing)
    else if c == '>' then Finish(m)
    else Go(Build(m, AddName(m.current.token, c)), TagName)
  }

  function OnAttributeName(m: Machine, c: char): Turn
    requires m.current.Building?
  {
    var t := m.current.token;
    match m.state
    case BeforeAttributeName =>
      if IsSpace(c) then Go(m, BeforeAttributeName)
      else if c == '/' || c == '>' then Reconsume(m, AfterAttributeName)
      else Reconsume(Build(m, AddAttr(t)), AttributeName)
    case AttributeName =>
      if IsSpace(c) || c == '/' || c == '>' then Reconsume(m, AfterAttributeName)
      else if c == '=' then Go(m, BeforeAttributeValue)
      else Go(Build(m, AddAttrName(t, c)), AttributeName)
    case _ =>
      if IsSpace(c) then Go(m, AfterAttributeName)
      else if c == '/' then Go(m, SelfClosing)
      else if c == '=' then Go(m, BeforeAttributeValue)
      else if c == '>' then Finish(m)
      else Reconsume(Build(m, AddAttr(t)), AttributeName)
  }

  function OnValue(m: Machine, c: char): Turn
    requires m.current.Building?
  {
    if m.state.ValueDoubleQuoted? && c == '"' then Go(m, AfterValueQuoted)
    else if m.state.ValueSingleQuoted? && c == '\'' then Go(m, AfterValueQuoted)
    else if m.state.ValueUnquoted? && IsSpace(c) then Go(m, BeforeAttributeName)
    else if c == '&' then Go(m.(ret := m.state), CharacterReference)
    else if m.state.ValueUnquoted? && c == '>' then Finish(m)
    else Go(Build(m, AddAttrValue(m.current.token, c)), m.state)
  }

  function OnAttributeValue(m: Machine, c: char): Turn
    requires m.current.Building?
  {
    match m.state
    case BeforeAttributeValue =>
      if IsSpace(c) then Go(m, BeforeAttributeValue)
      else if c == '"' then Go(m, ValueDoubleQuoted)
      else if c == '\'' then Go(m, ValueSingleQuoted)
      else if c == '>' then Finish(m)
      else Reconsume(m, ValueUnquoted)
    case AfterValueQuoted =>
      if IsSpace(c) then Go(m, BeforeAttributeName)
      else if c == '/' then Go(m, SelfClosing)
      else if c == '>' then Finish(m)
      else Reconsume(m, BeforeAttributeName)
    case SelfClosing =>
      if c == '>' then Finish(Build(m, m.current.token.(selfClosing := true)))
      else Reconsume(m, BeforeAttributeName)
    case _ => OnValue(m, c)
  }

  function OnCommentStart(input: Source, m: Machine, c: char): Turn {
    if m.state.CommentStart? then
      if c == '-' then Go(m, CommentStartDash)
      else if At(input, m.pos, "DOCTYPE") then More(m.(state := BeforeDoctype, pos := m.pos + 7))
      else Reconsume(Build(m, NewToken(Comment)), InComment)
    else
      if c == '-' then Go(Build(m, NewToken(Comment)), InComment)
      else Go(m, Data)
  }

  function OnComment(m: Machine, c: char): Turn
    requires m.current.Building?
  {
    var t := m.current.token;
    match m.state
    case InComment =>
      if c == '-' then Go(m, CommentEndDash)
      else Go(Build(m, t.(data := Append(t.data, c, TEXT_LIMIT))), InComment)
    case CommentEndDash =>
      if c == '-' then Go(m, CommentEnd)
      else Go(Build(m, t.(data := if |t.data| < TEXT_LIMIT - 1 then t.data + ['-', c] else t.data)), InComment)
    case _ =>
      if c == '>' then Finish(m) else Go(m, InComment)
  }

  function OnDoctype(m: Machine, c: char): Turn
    requires UsesToken(m.state) ==> m.current.Building?
  {
    match m.state
    case DoctypeName =>
      if IsSpace(c) then Go(m, AfterDoctypeName)
      else if c == '>' then Finish(m)
      else Go(Build(m, AddName(m.current.token, c)), DoctypeName)
    case AfterDoctypeName =>
      if c == '>' then Finish(m) else Go(m, AfterDoctypeName)
    case _ =>
      if IsSpace(c) then Go(m, BeforeDoctype)
      else Reconsume(Build(m, NewToken(Doctype)), DoctypeName)
  }

  /** The four named references: their text, and the character each stands for. */
  function Named(input: Source, pos: nat): (string, char) {
    if At(input, pos, "lt;") then ("lt;", '<')
    else if At(input, pos, "gt;") then ("gt;", '>')
    else if At(input, pos, "amp;") then ("amp;", '&')
    else if At(input, pos, "quot;") then ("quot;", '"')
    else ("", '&')
  }

  function OnReference(input: Source, m: Machine, c: char): Turn {
    match m.state
    case CharacterReference =>
      if IsAlpha(c) then Reconsume(m, NamedReference)
      else if c == '#' then Go(m, NumericReference)
      else Emit(CharToken('&'), m.(state := m.ret))
    case NamedReference =>
      var (text, character) := Named(input, m.pos);
      Emit(CharToken(character), m.(state := m.ret, pos := m.pos + |text|))
    case _ => Go(m, NumericReference)
  }

  function Step(input: Source, m: Machine): Turn
    requires Good(input, m)
  {
    var c := Char(input, m.pos);
    if c == '\0' then
      if (m.state.Data? || m.state.Rcdata? || m.state.Rawtext?) || m.current.None? then Emit(NewToken(EndOfFile), m)
      else Emit(m.current.token, m.(current := None))
    else
      match m.state
      case Data | Rcdata | Rawtext => OnText(m, c)
      case TagOpen | EndTagOpen => OnTagOpen(m, c)
      case TagName => OnTagName(m, c)
      case BeforeAttributeName | AttributeName | AfterAttributeName => OnAttributeName(m, c)
      case CommentStart | CommentStartDash => OnCommentStart(input, m, c)
      case InComment | CommentEndDash | CommentEnd => OnComment(m, c)
      case BeforeDoctype | DoctypeName | AfterDoctypeName => OnDoctype(m, c)
      case CharacterReference | NamedReference | NumericReference => OnReference(input, m, c)
      case _ => OnAttributeValue(m, c)
  }

  /** How many more times the machine can turn on the same character. */
  function Rank(s: State, c: char): nat {
    match s
    case AttributeName => if IsSpace(c) || c == '/' || c == '>' then 1 else 0
    case AfterAttributeName => if IsSpace(c) || c == '/' || c == '>' || c == '=' then 0 else 1
    case BeforeAttributeName => 2
    case AfterValueQuoted | SelfClosing => 3
    case TagOpen | EndTagOpen | BeforeAttributeValue | CommentStart | CharacterReference | BeforeDoctype => 1
    case _ => 0
  }

  /** States reached through a character that has produced nothing yet. */
  predicate OwesToken(s: State) {
    s.TagOpen? || s.EndTagOpen? || s.CommentStart? || s.BeforeDoctype? || s.CharacterReference? || s.NamedReference?
  }

  /** The tokens the rest of the input can still produce. */
  function Budget(input: Source, m: Machine): nat
    requires Good(input, m)
  {
    |input| - m.pos + (if m.current.Building? then 1 else 0) + (if OwesToken(m.state) then 1 else 0)
  }

  /** What every turn keeps: no state dereferences a null current_token and no buffer outgrows its array; a turn that
      returns nothing moves forward or lowers its rank on the same character; the budget never grows, and returning a
      token other than the end of the file costs one. */
  predicate Sound(input: Source, m: Machine, turn: Turn)
    requires Good(input, m)
  {
    var n := turn.machine;
    && Good(input, n)
    && Budget(input, n) <= Budget(input, m)
    && match turn
      case More(_) => n.pos > m.pos || (n.pos == m.pos && Rank(n.state, Char(input, n.pos)) < Rank(m.state, Char(input, m.pos)))
      case Emit(t, _) =>
        && Sized(t)
        && (IsMarkup(t.kind) ==> n.current.None?)
        && if t.kind.EndOfFile? then n == m && m.pos == |input| else Budget(input, n) < Budget(input, m)
  }

  lemma TokensStaySized(t: Token, c: char)
    requires Sized(t)
    ensures Sized(AddName(t, c)) && Sized(AddAttr(t)) && Sized(AddAttrName(t, c)) && Sized(AddAttrValue(t, c))
    ensures Sized(t.(selfClosing := true))
    ensures AddAttr(t).kind == AddAttrName(t, c).kind == AddAttrValue(t, c).kind == t.kind
  {
  }

  lemma TextSound(input: Source, m: Machine)
    requires Good(input, m) && m.pos < |input|
    ensures m.state.Data? || m.state.Rcdata? || m.state.Rawtext? ==> Sound(input, m, OnText(m, input[m.pos]))
    ensures m.state.TagOpen? || m.state.EndTagOpen? ==> Sound(input, m, OnTagOpen(m, input[m.pos]))
  {
  }

  lemma NameSound(input: Source, m: Machine)
    requires Good(input, m) && m.pos < |input| && m.current.Building?
    ensures m.state.TagName? ==> Sound(input, m, OnTagName(m, input[m.pos]))
  {
    hide Sized, AddAttr, AddAttrName, OnAttributeName;
    TokensStaySized(m.current.token, input[m.pos]);
  }

  lemma AttributeNameSound(input: Source, m: Machine)
    requires Good(input, m) && m.pos < |input| && m.current.Building?
    ensures m.state.BeforeAttributeName? || m.state.AttributeName? || m.state.AfterAttributeName? ==>
      Sound(input, m, OnAttributeName(m, input[m.pos]))
  {
    hide Sized, AddAttr, AddAttrName;
    TokensStaySized(m.current.token, input[m.pos]);
  }

  lemma ValueSound(input: Source, m: Machine)
    requires Good(input, m) && m.pos < |input| && m.current.Building?
    ensures m.state.ValueDoubleQuoted? || m.state.ValueSingleQuoted? || m.state.ValueUnquoted? ==>
      Sound(input, m, OnValue(m, input[m.pos]))
  {
    hide Sized, AddAttrValue, OnAttributeValue;
    TokensStaySized(m.current.token, input[m.pos]);
  }

  lemma AttributeValueSound(input: Source, m: Machine)
    requires Good(input, m) && m.pos < |input| && m.current.Building?
    ensures m.state.BeforeAttributeValue? || m.state.AfterValueQuoted? || m.state.SelfClosing? ==>
      Sound(input, m, OnAttributeValue(m, input[m.pos]))
  {
    hide Sized, AddAttrValue;
    TokensStaySized(m.current.token, input[m.pos]);
  }

  lemma CommentSound(input: Source, m: Machine)
    requires Good(input, m) && m.pos < |input|
    ensures m.state.CommentStart? || m.state.CommentStartDash? ==> Sound(input, m, OnCommentStart(input, m, input[m.pos]))
    ensures m.state.InComment? || m.state.CommentEndDash? || m.state.CommentEnd? ==> Sound(input, m, OnComment(m, input[m.pos]))
  {
  }

  lemma DoctypeSound(input: Source, m: Machine)
    requires Good(input, m) && m.pos < |input|
    requires m.state.BeforeDoctype? || m.state.DoctypeName? || m.state.AfterDoctypeName?
    ensures Sound(input, m, OnDoctype(m, input[m.pos]))
  {
  }

  lemma ReferenceSound(input: Source, m: Machine)
    requires Good(input, m) && m.pos < |input| && InReference(m.state)
    ensures Sound(input, m, OnReference(input, m, input[m.pos]))
  {
  }

  lemma StepSound(input: Source, m: Machine)
    requires Good(input, m)
    ensures Sound(input, m, Step(input, m))
  {
    hide OnText, OnTagOpen, OnTagName, OnAttributeName, OnCommentStart, OnComment, OnDoctype, OnReference;
    if m.pos < |input| {
      hide Sized, Sound;
      TextSound(input, m);
      CommentSound(input, m);
      if InReference(m.state) {
        ReferenceSound(input, m);
      }
      if m.state.BeforeDoctype? || m.state.DoctypeName? || m.state.AfterDoctypeName? {
        DoctypeSound(input, m);
      }
      if m.current.Building? {
        NameSound(input, m);
        AttributeNameSound(input, m);
        ValueSound(input, m);
        AttributeValueSound(input, m);
      }
    }
  }

  /** next_token: the token a call returns and the machine it leaves. */
  function Next(input: Source, m: Machine): (r: (Token, Machine))
    requires Good(input, m)
    ensures Good(input, r.1) && Sized(r.0)
    ensures IsMarkup(r.0.kind) ==> r.1.current.None?
    ensures if r.0.kind.EndOfFile? then r.1.pos == |input| else Budget(input, r.1) < Budget(input, m)
    decreases |input| - m.pos, Rank(m.state, Char(input, m.pos))
  {
    StepSound(input, m);
    match Step(input, m)
    case Emit(t, n) => (t, n)
    case More(n) => Next(input, n)
  }

  /** The end of the file is reported for ever. */
  lemma {:induction false} EndStays(input: Source, m: Machine)
    requires Good(input, m)
    ensures
      var (t, n) := Next(input, m);
      t.kind.EndOfFile? ==> t == NewToken(EndOfFile) && Next(input, n) == (t, n)
    decreases |input| - m.pos, Rank(m.state, Char(input, m.pos))
  {
    hide OnText, OnTagOpen, OnTagName, OnAttributeName, OnAttributeValue, OnCommentStart, OnComment, OnDoctype, OnReference;
    StepSound(input, m);
    match Step(input, m)
    case Emit(_, _) =>
    case More(n) => EndStays(input, n);
  }

  /** Every token up to the end of the file, with no state set from outside between the calls. */
  function Tokens(input: Source, m: Machine): (r: seq<Token>)
    requires Good(input, m)
    ensures |r| <= Budget(input, m)
    ensures forall t <- r :: Sized(t) && !t.kind.EndOfFile?
    decreases Budget(input, m)
  {
    var (t, n) := Next(input, m);
    if t.kind.EndOfFile? then [] else [t] + Tokens(input, n)
  }

  function Tokenize(input: Source): (r: seq<Token>)
    ensures |r| <= |input|
    ensures forall t <- r :: Sized(t) && !t.kind.EndOfFile?
  {
    Tokens(input, Start())
  }
}
