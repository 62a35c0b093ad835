/** Writing tokens as HTML text and tokenizing the text gives the same tokens back. */
module HtmlRoundTrip {
  import opened Texts
  import opened HtmlTokens

  predicate NameChar(c: char) {
    c != '\0' && !IsSpace(c) && c != '/' && c != '>' && Lower(c) == c
  }

  predicate IsTagName(s: string) {
    0 < |s| <= NAME_LIMIT && IsAlpha(s[0]) && forall c <- s :: NameChar(c)
  }

  predicate IsDoctypeName(s: string) {
    |s| <= NAME_LIMIT && forall c <- s :: c != '\0' && !IsSpace(c) && c != '>' && Lower(c) == c
  }

  predicate IsAttrName(s: string) {
    0 < |s| <= NAME_LIMIT && forall c <- s :: NameChar(c) && c != '='
  }

  predicate IsValue(s: string) {
    |s| <= TEXT_LIMIT && forall c <- s :: c != '\0' && c != '"' && c != '&'
  }

  /** A comment's dashes are single and none is last. */
  predicate DashesSeparate(s: string) {
    forall i | 0 <= i < |s| && s[i] == '-' :: i + 1 < |s| && s[i + 1] != '-'
  }

  predicate IsComment(s: string) {
    |s| <= TEXT_LIMIT && '\0' !in s && DashesSeparate(s)
  }

  /** The tokens that have an HTML text: lower-case names, values without quotes or ampersands, sizes that fit. */
  predicate Writable(t: Token) {
    match t.kind
    case Doctype => IsDoctypeName(t.name) && t == NewToken(Doctype).(name := t.name)
    case StartTag | EndTag =>
      && IsTagName(t.name) && t.data == "" && |t.attrs| <= ATTR_LIMIT
      && forall a <- t.attrs :: IsAttrName(a.name) && IsValue(a.value)
    case Comment => IsComment(t.data) && t == NewToken(Comment).(data := t.data)
    case Character => |t.data| == 1 && t.data[0] != '\0' && t == CharToken(t.data[0])
    case EndOfFile => false
  }

  function RenderAttr(a: Attr): string {
    " " + a.name + "=\"" + a.value + "\""
  }

  function RenderAttrs(attrs: seq<Attr>): string {
    if attrs == [] then "" else RenderAttr(attrs[0]) + RenderAttrs(attrs[1..])
  }

  function TagEnd(t: Token): string {
    if t.selfClosing then "/>" else ">"
  }

  function TagStart(t: Token): string {
    if t.kind.EndTag? then "</" else "<"
  }

  function Render(t: Token): (s: string)
    requires Writable(t)
    ensures |s| > 0
  {
    match t.kind
    case Doctype => "<!DOCTYPE " + t.name + ">"
    case Comment => "<!--" + t.data + "-->"
    case Character => if t.data == "<" then "&lt;" else if t.data == "&" then "&amp;" else t.data
    case _ => TagStart(t) + t.name + RenderAttrs(t.attrs) + TagEnd(t)
  }

  function RenderAll(ts: seq<Token>): string
    requires forall t <- ts :: Writable(t)
  {
    if ts == [] then "" else Render(ts[0]) + RenderAll(ts[1..])
  }

  // Following the machine through a piece of text.

  lemma AtChar(input: Source, pos: nat, s: string)
    requires At(input, pos, s) && s != ""
    ensures Char(input, pos) == s[0] == input[pos] != '\0'
    ensures At(input, pos + 1, s[1..])
  {
    assert s == [s[0]] + s[1..];
    AtParts(input, pos, [s[0]], s[1..]);
    assert s[0] == input[pos..pos + |s|][0];
  }

  lemma Walk(input: Source, m: Machine, n: Machine)
    requires Good(input, m)
    requires Step(input, m) == More(n)
    ensures Good(input, n) && Next(input, m) == Next(input, n)
  {
    hide Step;
    StepSound(input, m);
  }

  /** States that gather a run of characters into one field of the token. */
  predicate Absorbs(s: State, c: char) {
    match s
    case TagName => NameChar(c)
    case DoctypeName => c != '\0' && !IsSpace(c) && c != '>' && Lower(c) == c
    case AttributeName => NameChar(c) && c != '='
    case ValueDoubleQuoted => c != '\0' && c != '"' && c != '&'
    case _ => false
  }

  function Field(s: State, t: Token): string
    requires s.AttributeName? || s.ValueDoubleQuoted? ==> t.attrs != []
  {
    match s
    case AttributeName => t.attrs[|t.attrs| - 1].name
    case ValueDoubleQuoted => t.attrs[|t.attrs| - 1].value
    case _ => t.name
  }

  function WithField(s: State, t: Token, text: string): Token
    requires s.AttributeName? || s.ValueDoubleQuoted? ==> t.attrs != []
  {
    var last := |t.attrs| - 1;
    match s
    case AttributeName => t.(attrs := t.attrs[last := t.attrs[last].(name := text)])
    case ValueDoubleQuoted => t.(attrs := t.attrs[last := t.attrs[last].(value := text)])
    case _ => t.(name := text)
  }

  function Limit(s: State): nat {
    if s.ValueDoubleQuoted? then TEXT_LIMIT else NAME_LIMIT
  }

  lemma ScanOne(input: Source, m: Machine, c: char)
    requires Good(input, m) && m.current.Building? && Char(input, m.pos) == c && Absorbs(m.state, c)
    requires m.state.AttributeName? || m.state.ValueDoubleQuoted? ==> m.current.token.attrs != []
    requires |Field(m.state, m.current.token)| < Limit(m.state)
    ensures Step(input, m) == Go(Build(m, WithField(m.state, m.current.token, Field(m.state, m.current.token) + [c])), m.state)
  {
  }

  lemma FieldOfWith(s: State, t: Token, text: string, more: string)
    requires s.AttributeName? || s.ValueDoubleQuoted? ==> t.attrs != []
    ensures Field(s, WithField(s, t, text)) == text
    ensures WithField(s, WithField(s, t, text), more) == WithField(s, t, more)
    ensures WithField(s, t, Field(s, t)) == t
    ensures |WithField(s, t, text).attrs| == |t.attrs|
  {
    if s.AttributeName? || s.ValueDoubleQuoted? {
      assert WithField(s, WithField(s, t, text), more).attrs == WithField(s, t, more).attrs;
      assert WithField(s, t, Field(s, t)).attrs == t.attrs;
    }
  }

  lemma {:induction false} Scan(input: Source, m: Machine, s: string)
    requires Good(input, m) && m.current.Building? && At(input, m.pos, s)
    requires m.state.AttributeName? || m.state.ValueDoubleQuoted? ==> m.current.token.attrs != []
    requires forall c <- s :: Absorbs(m.state, c)
    requires |Field(m.state, m.current.token)| + |s| <= Limit(m.state)
    ensures
      var t := m.current.token;
      var n := m.(pos := m.pos + |s|, current := Building(WithField(m.state, t, Field(m.state, t) + s)));
      Good(input, n) && Next(input, m) == Next(input, n)
    decreases |s|
  {
    hide Step, Field, WithField, Good, Absorbs, Next, Char;
    var t := m.current.token;
    var text := Field(m.state, t);
    if s == "" {
      assert text + s == text;
      FieldOfWith(m.state, t, text, text);
    } else {
      AtChar(input, m.pos, s);
      ScanOne(input, m, s[0]);
      var next := WithField(m.state, t, text + [s[0]]);
      var n := m.(pos := m.pos + 1, current := Building(next));
      Walk(input, m, n);
      FieldOfWith(m.state, t, text + [s[0]], text + s);
      Scan(input, n, s[1..]);
      assert text + [s[0]] + s[1..] == text + s;
    }
  }

  predicate AfterPart(s: State) {
    s.TagName? || s.AfterValueQuoted?
  }

  lemma EnterAttr(input: Source, m: Machine, first: char)
    requires Good(input, m) && m.current.Building? && AfterPart(m.state)
    requires |m.current.token.attrs| < ATTR_LIMIT
    requires Char(input, m.pos) == ' ' && Char(input, m.pos + 1) == first && NameChar(first)
    ensures
      var t := m.current.token;
      var n := m.(pos := m.pos + 1, state := AttributeName, current := Building(t.(attrs := t.attrs + [Attr("", "")])));
      Good(input, n) && Next(input, m) == Next(input, n)
  {
    hide Next, Good;
    assert Step(input, m) == Go(m, BeforeAttributeName);
    var n := m.(pos := m.pos + 1, state := BeforeAttributeName);
    Walk(input, m, n);
    var k := n.(state := AttributeName, current := Building(AddAttr(n.current.token)));
    assert Step(input, n) == More(k);
    Walk(input, n, k);
  }

  /** From the end of an attribute's name to the start of its quoted value. */
  lemma EnterValue(input: Source, m: Machine)
    requires Good(input, m) && m.current.Building? && m.state.AttributeName?
    requires Char(input, m.pos) == '=' && Char(input, m.pos + 1) == '"'
    ensures
      var n := m.(pos := m.pos + 2, state := ValueDoubleQuoted);
      Good(input, n) && Next(input, m) == Next(input, n)
  {
    hide Next, Good;
    var n := m.(pos := m.pos + 1, state := BeforeAttributeValue);
    assert Step(input, m) == More(n);
    Walk(input, m, n);
    assert Step(input, n) == More(m.(pos := m.pos + 2, state := ValueDoubleQuoted));
    Walk(input, n, m.(pos := m.pos + 2, state := ValueDoubleQuoted));
  }

  lemma LeaveValue(input: Source, m: Machine)
    requires Good(input, m) && m.current.Building? && m.state.ValueDoubleQuoted? && Char(input, m.pos) == '"'
    ensures
      var n := m.(pos := m.pos + 1, state := AfterValueQuoted);
      Good(input, n) && Next(input, m) == Next(input, n)
  {
    Walk(input, m, m.(pos := m.pos + 1, state := AfterValueQuoted));
  }

  lemma AttrText(a: Attr)
    ensures RenderAttr(a) == " " + (a.name + ("=\"" + (a.value + "\"")))
  {
    Regroup(" " + a.name + "=\"", a.value, "\"");
    Regroup(" " + a.name, "=\"", a.value + "\"");
    Regroup(" ", a.name, "=\"" + (a.value + "\""));
  }

  lemma AttrParts(input: Source, pos: nat, a: Attr)
    requires At(input, pos, RenderAttr(a))
    ensures At(input, pos, " ") && At(input, pos + 1, a.name)
    ensures At(input, pos + 1 + |a.name|, "=\"")
    ensures At(input, pos + 3 + |a.name|, a.value)
    ensures At(input, pos + 3 + |a.name| + |a.value|, "\"")
    ensures |RenderAttr(a)| == 4 + |a.name| + |a.value|
  {
    hide At, RenderAttr;
    AttrText(a);
    AtParts(input, pos, " ", a.name + ("=\"" + (a.value + "\"")));
    AtParts(input, pos + 1, a.name, "=\"" + (a.value + "\""));
    AtParts(input, pos + 1 + |a.name|, "=\"", a.value + "\"");
    AtParts(input, pos + 3 + |a.name|, a.value, "\"");
  }

  lemma AttrMarks(input: Source, pos: nat, a: Attr)
    requires At(input, pos, RenderAttr(a)) && IsAttrName(a.name)
    ensures Char(input, pos) == ' ' && Char(input, pos + 1) == a.name[0]
    ensures Char(input, pos + 1 + |a.name|) == '=' && Char(input, pos + 2 + |a.name|) == '"'
    ensures Char(input, pos + 3 + |a.name| + |a.value|) == '"'
  {
    hide At, RenderAttr, Char;
    AttrParts(input, pos, a);
    AtChar(input, pos, " ");
    AtChar(input, pos + 1, a.name);
    AtChar(input, pos + 1 + |a.name|, "=\"");
    AtChar(input, pos + 2 + |a.name|, "\"");
    AtChar(input, pos + 3 + |a.name| + |a.value|, "\"");
  }

  lemma ReadAttr(input: Source, m: Machine, a: Attr)
    requires Good(input, m) && m.current.Building? && AfterPart(m.state)
    requires |m.current.token.attrs| < ATTR_LIMIT && IsAttrName(a.name) && IsValue(a.value)
    requires At(input, m.pos, RenderAttr(a))
    ensures
      var t := m.current.token;
      var n := m.(pos := m.pos + |RenderAttr(a)|, state := AfterValueQuoted, current := Building(t.(attrs := t.attrs + [a])));
      Good(input, n) && Next(input, m) == Next(input, n)
  {
    hide Next, Good, At, Char, Step;
    AttrParts(input, m.pos, a);
    AttrMarks(input, m.pos, a);
    var t := m.current.token;
    EnterAttr(input, m, a.name[0]);
    var t1 := t.(attrs := t.attrs + [Attr("", "")]);
    var m1 := m.(pos := m.pos + 1, state := AttributeName, current := Building(t1));
    Scan(input, m1, a.name);
    var t2 := t.(attrs := t.attrs + [Attr(a.name, "")]);
    assert WithField(AttributeName, t1, "" + a.name) == t2 by {
      assert "" + a.name == a.name;
      assert t1.attrs[|t.attrs| := Attr(a.name, "")] == t2.attrs;
    }
    var m2 := m1.(pos := m1.pos + |a.name|, current := Building(t2));
    EnterValue(input, m2);
    var m3 := m2.(pos := m2.pos + 2, state := ValueDoubleQuoted);
    Scan(input, m3, a.value);
    var t3 := t.(attrs := t.attrs + [a]);
    assert WithField(ValueDoubleQuoted, t2, "" + a.value) == t3 by {
      assert "" + a.value == a.value;
      assert t2.attrs[|t.attrs| := a] == t3.attrs;
    }
    LeaveValue(input, m3.(pos := m3.pos + |a.value|, current := Building(t3)));
  }

  lemma {:induction false} ReadAttrs(input: Source, m: Machine, attrs: seq<Attr>)
    requires Good(input, m) && m.current.Building? && AfterPart(m.state)
    requires |m.current.token.attrs| + |attrs| <= ATTR_LIMIT
    requires forall a <- attrs :: IsAttrName(a.name) && IsValue(a.value)
    requires At(input, m.pos, RenderAttrs(attrs))
    ensures
      var t := m.current.token;
      var n := m.(pos := m.pos + |RenderAttrs(attrs)|, state := if attrs == [] then m.state else AfterValueQuoted,
                  current := Building(t.(attrs := t.attrs + attrs)));
      Good(input, n) && Next(input, m) == Next(input, n)
    decreases |attrs|
  {
    hide Next, Good, At, RenderAttr;
    var t := m.current.token;
    if attrs == [] {
      assert t.attrs + attrs == t.attrs;
    } else {
      AtParts(input, m.pos, RenderAttr(attrs[0]), RenderAttrs(attrs[1..]));
      ReadAttr(input, m, attrs[0]);
      var n := m.(pos := m.pos + |RenderAttr(attrs[0])|, state := AfterValueQuoted,
                  current := Building(t.(attrs := t.attrs + [attrs[0]])));
      ReadAttrs(input, n, attrs[1..]);
      assert t.attrs + [attrs[0]] + attrs[1..] == t.attrs + attrs;
    }
  }

  /** Between tokens: reading text, with nothing under construction. */
  function Ready(pos: nat): Machine {
    Machine(pos, Data, Data, None)
  }

  lemma LeaveTag(input: Source, m: Machine, t: Token)
    requires Good(input, m) && m.current.Building? && AfterPart(m.state) && m.ret == Data
    requires m.current.token == t.(selfClosing := false)
    requires At(input, m.pos, TagEnd(t))
    ensures Next(input, m) == (t, Ready(m.pos + |TagEnd(t)|))
  {
    AtChar(input, m.pos, TagEnd(t));
    if t.selfClosing {
      AtChar(input, m.pos + 1, ">");
      Walk(input, m, m.(pos := m.pos + 1, state := SelfClosing));
    }
  }

  lemma EnterTag(input: Source, pos: nat, t: Token)
    requires t.kind.StartTag? || t.kind.EndTag?
    requires IsTagName(t.name) && At(input, pos, TagStart(t) + t.name)
    ensures
      var n := Machine(pos + |TagStart(t)|, TagName, Data, Building(NewToken(t.kind)));
      Good(input, n) && Next(input, Ready(pos)) == Next(input, n)
  {
    hide Next;
    AtChar(input, pos, TagStart(t) + t.name);
    var m := Ready(pos).(pos := pos + 1, state := TagOpen);
    Walk(input, Ready(pos), m);
    AtChar(input, pos + 1, (TagStart(t) + t.name)[1..]);
    if t.kind.EndTag? {
      assert (TagStart(t) + t.name)[1..][1..] == t.name;
      AtChar(input, pos + 2, t.name);
      var n := m.(pos := pos + 2, state := EndTagOpen);
      Walk(input, m, n);
      Walk(input, n, Machine(pos + 2, TagName, Data, Building(NewToken(EndTag))));
    } else {
      Walk(input, m, Machine(pos + 1, TagName, Data, Building(NewToken(StartTag))));
    }
  }

  lemma TagParts(input: Source, pos: nat, t: Token)
    requires t.kind.StartTag? || t.kind.EndTag?
    requires Writable(t) && At(input, pos, Render(t))
    ensures
      var p := pos + |TagStart(t) + t.name|;
      && At(input, pos, TagStart(t) + t.name) && At(input, pos + |TagStart(t)|, t.name)
      && At(input, p, RenderAttrs(t.attrs)) && At(input, p + |RenderAttrs(t.attrs)|, TagEnd(t))
      && p + |RenderAttrs(t.attrs)| + |TagEnd(t)| == pos + |Render(t)|
  {
    hide At, TagStart, TagEnd, RenderAttrs, Writable;
    var a, b, c := TagStart(t) + t.name, RenderAttrs(t.attrs), TagEnd(t);
    Regroup(a, b, c);
    AtParts(input, pos, a, b + c);
    AtParts(input, pos, TagStart(t), t.name);
    AtParts(input, pos + |a|, b, c);
  }

  lemma ReadTag(input: Source, pos: nat, t: Token)
    requires t.kind.StartTag? || t.kind.EndTag?
    requires Writable(t) && At(input, pos, Render(t))
    ensures Next(input, Ready(pos)) == (t, Ready(pos + |Render(t)|))
  {
    hide Next, Good, At, TagStart, TagEnd, RenderAttrs, Render;
    TagParts(input, pos, t);
    var p := pos + |TagStart(t) + t.name|;
    EnterTag(input, pos, t);
    var m := Machine(pos + |TagStart(t)|, TagName, Data, Building(NewToken(t.kind)));
    Scan(input, m, t.name);
    assert "" + t.name == t.name;
    var n := m.(pos := p, current := Building(NewToken(t.kind).(name := t.name)));
    ReadAttrs(input, n, t.attrs);
    assert [] + t.attrs == t.attrs;
    var k := n.(pos := p + |RenderAttrs(t.attrs)|, state := if t.attrs == [] then TagName else AfterValueQuoted,
                current := Building(t.(selfClosing := false)));
    LeaveTag(input, k, t);
  }

  lemma FirstChar(input: Source, pos: nat, s: string)
    requires s != ""
    ensures At(input, pos, s) ==> Char(input, pos) == s[0]
  {
    if At(input, pos, s) {
      assert s[0] == input[pos..pos + |s|][0];
    }
  }

  lemma ReadCharacter(input: Source, pos: nat, t: Token)
    requires t.kind.Character? && Writable(t) && At(input, pos, Render(t))
    ensures Next(input, Ready(pos)) == (t, Ready(pos + |Render(t)|))
  {
    AtChar(input, pos, Render(t));
    if t.data == "<" || t.data == "&" {
      var rest := Render(t)[1..];
      AtChar(input, pos + 1, rest);
      assert rest == if t.data == "<" then "lt;" else "amp;";
      var m := Machine(pos + 1, CharacterReference, Data, None);
      Walk(input, Ready(pos), m);
      var n := m.(state := NamedReference);
      Walk(input, m, n);
      assert Named(input, pos + 1) == (rest, t.data[0]) by {
        FirstChar(input, pos + 1, "lt;");
        FirstChar(input, pos + 1, "gt;");
      }
    }
  }

  lemma EnterComment(input: Source, pos: nat)
    requires At(input, pos, "<!--")
    ensures
      var n := Machine(pos + 4, InComment, Data, Building(NewToken(Comment)));
      Good(input, n) && Next(input, Ready(pos)) == Next(input, n)
  {
    hide Next;
    AtChar(input, pos, "<!--");
    AtChar(input, pos + 1, "!--");
    AtChar(input, pos + 2, "--");
    AtChar(input, pos + 3, "-");
    var m1 := Machine(pos + 1, TagOpen, Data, None);
    var m2 := Machine(pos + 2, CommentStart, Data, None);
    var m3 := Machine(pos + 3, CommentStartDash, Data, None);
    Walk(input, Ready(pos), m1);
    Walk(input, m1, m2);
    Walk(input, m2, m3);
    Walk(input, m3, Machine(pos + 4, InComment, Data, Building(NewToken(Comment))));
  }

  /** One character of a comment, or a dash with the character after it. */
  lemma ScanComment1(input: Source, m: Machine, s: string)
    requires Good(input, m) && m.current.Building? && m.state.InComment? && At(input, m.pos, s)
    requires if |s| == 1 then s[0] != '-' else |s| == 2 && s[0] == '-' && s[1] != '-'
    requires |m.current.token.data| + |s| <= TEXT_LIMIT
    ensures
      var t := m.current.token;
      var n := m.(pos := m.pos + |s|, current := Building(t.(data := t.data + s)));
      Good(input, n) && Next(input, m) == Next(input, n)
  {
    hide Next;
    var t := m.current.token;
    var n := m.(pos := m.pos + |s|, current := Building(t.(data := t.data + s)));
    AtChar(input, m.pos, s);
    if |s| == 1 {
      assert s == [s[0]];
      Walk(input, m, n);
    } else {
      AtChar(input, m.pos + 1, s[1..]);
      var d := m.(pos := m.pos + 1, state := CommentEndDash);
      Walk(input, m, d);
      assert s == ['-', s[1]];
      Walk(input, d, n);
    }
  }

  lemma {:induction false} ScanComment(input: Source, m: Machine, s: string)
    requires Good(input, m) && m.current.Building? && m.state.InComment? && At(input, m.pos, s)
    requires DashesSeparate(s) && |m.current.token.data| + |s| <= TEXT_LIMIT
    ensures
      var t := m.current.token;
      var n := m.(pos := m.pos + |s|, current := Building(t.(data := t.data + s)));
      Good(input, n) && Next(input, m) == Next(input, n)
    decreases |s|
  {
    hide Next, Good, At;
    var t := m.current.token;
    if s == "" {
      assert t.data + s == t.data;
    } else {
      var k := if s[0] == '-' then 2 else 1;
      assert s == s[..k] + s[k..];
      AtParts(input, m.pos, s[..k], s[k..]);
      ScanComment1(input, m, s[..k]);
      var n := m.(pos := m.pos + k, current := Building(t.(data := t.data + s[..k])));
      assert DashesSeparate(s[k..]) by {
        forall i | 0 <= i < |s[k..]| && s[k..][i] == '-' ensures i + 1 < |s[k..]| && s[k..][i + 1] != '-' {
          assert s[i + k] == '-';
        }
      }
      ScanComment(input, n, s[k..]);
      assert t.data + s[..k] + s[k..] == t.data + s;
    }
  }

  lemma CommentParts(input: Source, pos: nat, t: Token)
    requires t.kind.Comment? && Writable(t) && At(input, pos, Render(t))
    ensures At(input, pos, "<!--") && At(input, pos + 4, t.data) && At(input, pos + 4 + |t.data|, "-->")
    ensures |Render(t)| == |t.data| + 7
  {
    hide At, RenderAttrs, Writable;
    Regroup("<!--", t.data, "-->");
    AtParts(input, pos, "<!--", t.data + "-->");
    AtParts(input, pos + 4, t.data, "-->");
  }

  lemma ReadComment(input: Source, pos: nat, t: Token)
    requires t.kind.Comment? && Writable(t) && At(input, pos, Render(t))
    ensures Next(input, Ready(pos)) == (t, Ready(pos + |Render(t)|))
  {
    hide Good, At, Render, Next;
    CommentParts(input, pos, t);
    EnterComment(input, pos);
    var m := Machine(pos + 4, InComment, Data, Building(NewToken(Comment)));
    ScanComment(input, m, t.data);
    assert "" + t.data == t.data;
    LeaveComment(input, pos + 4 + |t.data|, t);
  }

  lemma LeaveComment(input: Source, pos: nat, t: Token)
    requires At(input, pos, "-->")
    requires Good(input, Machine(pos, InComment, Data, Building(t)))
    ensures Next(input, Machine(pos, InComment, Data, Building(t))) == (t, Ready(pos + 3))
  {
    var m := Machine(pos, InComment, Data, Building(t));
    AtChar(input, pos, "-->");
    AtChar(input, pos + 1, "->");
    AtChar(input, pos + 2, ">");
    Walk(input, m, m.(pos := pos + 1, state := CommentEndDash));
    Walk(input, m.(pos := pos + 1, state := CommentEndDash), m.(pos := pos + 2, state := CommentEnd));
  }

  lemma EnterDoctype(input: Source, pos: nat, next: char)
    requires At(input, pos, "<!DOCTYPE ") && Char(input, pos + 10) == next && next != '\0' && !IsSpace(next)
    ensures
      var n := Machine(pos + 10, DoctypeName, Data, Building(NewToken(Doctype)));
      Good(input, n) && Next(input, Ready(pos)) == Next(input, n)
  {
    hide Next;
    assert "<!DOCTYPE " == "<!" + ("DOCTYPE" + " ");
    AtParts(input, pos, "<!", "DOCTYPE" + " ");
    AtParts(input, pos + 2, "DOCTYPE", " ");
    AtChar(input, pos, "<!");
    AtChar(input, pos + 1, "!");
    AtChar(input, pos + 2, "DOCTYPE");
    AtChar(input, pos + 9, " ");
    var m1 := Machine(pos + 1, TagOpen, Data, None);
    var m2 := Machine(pos + 2, CommentStart, Data, None);
    var m3 := Machine(pos + 9, BeforeDoctype, Data, None);
    var m4 := Machine(pos + 10, BeforeDoctype, Data, None);
    Walk(input, Ready(pos), m1);
    Walk(input, m1, m2);
    Walk(input, m2, m3);
    Walk(input, m3, m4);
    Walk(input, m4, Machine(pos + 10, DoctypeName, Data, Building(NewToken(Doctype))));
  }

  lemma DoctypeParts(input: Source, pos: nat, t: Token)
    requires t.kind.Doctype? && Writable(t) && At(input, pos, Render(t))
    ensures At(input, pos, "<!DOCTYPE ") && At(input, pos + 10, t.name + ">")
    ensures At(input, pos + 10, t.name) && At(input, pos + 10 + |t.name|, ">")
    ensures |Render(t)| == |t.name| + 11
  {
    hide At, RenderAttrs, Writable;
    Regroup("<!DOCTYPE ", t.name, ">");
    AtParts(input, pos, "<!DOCTYPE ", t.name + ">");
    AtParts(input, pos + 10, t.name, ">");
  }

  lemma LeaveDoctype(input: Source, pos: nat, t: Token)
    requires At(input, pos, ">")
    requires Good(input, Machine(pos, DoctypeName, Data, Building(t)))
    ensures Next(input, Machine(pos, DoctypeName, Data, Building(t))) == (t, Ready(pos + 1))
  {
    AtChar(input, pos, ">");
  }

  lemma ReadDoctype(input: Source, pos: nat, t: Token)
    requires t.kind.Doctype? && Writable(t) && At(input, pos, Render(t))
    ensures Next(input, Ready(pos)) == (t, Ready(pos + |Render(t)|))
  {
    hide At, Render, Next;
    DoctypeParts(input, pos, t);
    AtChar(input, pos + 10, t.name + ">");
    EnterDoctype(input, pos, (t.name + ">")[0]);
    Scan(input, Machine(pos + 10, DoctypeName, Data, Building(NewToken(Doctype))), t.name);
    assert "" + t.name == t.name;
    LeaveDoctype(input, pos + 10 + |t.name|, t);
  }

  lemma ReadToken(input: Source, pos: nat, t: Token)
    requires Writable(t) && At(input, pos, Render(t))
    ensures Next(input, Ready(pos)) == (t, Ready(pos + |Render(t)|))
  {
    hide At, Render, Writable, Next;
    assert !t.kind.EndOfFile? by {
      Impossible(t);
    }
    match t.kind
    case Doctype => ReadDoctype(input, pos, t);
    case Comment => ReadComment(input, pos, t);
    case Character => ReadCharacter(input, pos, t);
    case StartTag => ReadTag(input, pos, t);
    case EndTag => ReadTag(input, pos, t);
    case EndOfFile =>
  }

  lemma Impossible(t: Token)
    requires Writable(t)
    ensures !t.kind.EndOfFile?
  {
  }

  lemma TokensOne(input: Source, pos: nat, t: Token, next: nat)
    requires pos <= |input| && next <= |input| && Next(input, Ready(pos)) == (t, Ready(next)) && !t.kind.EndOfFile?
    ensures Tokens(input, Ready(pos)) == [t] + Tokens(input, Ready(next))
  {
    hide Next;
  }

  /** Wherever the text of some tokens stands, tokenizing from there gives those tokens and goes on behind them. */
  lemma {:induction false} TokensRendered(input: Source, pos: nat, ts: seq<Token>)
    requires forall t <- ts :: Writable(t)
    requires At(input, pos, RenderAll(ts))
    ensures Tokens(input, Ready(pos)) == ts + Tokens(input, Ready(pos + |RenderAll(ts)|))
    decreases |ts|
  {
    hide At, Next, Render, Writable, Tokens;
    AtFits(input, pos, RenderAll(ts));
    if ts != [] {
      var text := Render(ts[0]);
      AtParts(input, pos, text, RenderAll(ts[1..]));
      ReadToken(input, pos, ts[0]);
      Impossible(ts[0]);
      TokensRendered(input, pos + |text|, ts[1..]);
      TokensOne(input, pos, ts[0], pos + |text|);
      assert [ts[0]] + (ts[1..] + Tokens(input, Ready(pos + |RenderAll(ts)|))) == ts + Tokens(input, Ready(pos + |RenderAll(ts)|));
    } else {
      assert ts + Tokens(input, Ready(pos)) == Tokens(input, Ready(pos));
    }
  }

  lemma {:induction false} AttrsHaveNoNul(attrs: seq<Attr>)
    requires forall a <- attrs :: IsAttrName(a.name) && IsValue(a.value)
    ensures '\0' !in RenderAttrs(attrs)
  {
    if attrs != [] {
      AttrsHaveNoNul(attrs[1..]);
    }
  }

  lemma TokenHasNoNul(t: Token)
    requires Writable(t)
    ensures '\0' !in Render(t)
  {
    hide RenderAttrs, DashesSeparate;
    if t.kind.StartTag? || t.kind.EndTag? {
      AttrsHaveNoNul(t.attrs);
    }
  }

  lemma {:induction false} TextHasNoNul(ts: seq<Token>)
    requires forall t <- ts :: Writable(t)
    ensures '\0' !in RenderAll(ts)
  {
    hide Render, Writable;
    if ts != [] {
      TokenHasNoNul(ts[0]);
      TextHasNoNul(ts[1..]);
    }
  }

  /** Tokenizing the text of any writable tokens gives exactly those tokens. */
  lemma RoundTrip(ts: seq<Token>)
    requires forall t <- ts :: Writable(t)
    ensures '\0' !in RenderAll(ts)
    ensures Tokenize(RenderAll(ts)) == ts
  {
    hide RenderAll, Render, Writable;
    TextHasNoNul(ts);
    var text: Source := RenderAll(ts);
    TokensRendered(text, 0, ts);
    assert Tokens(text, Ready(|text|)) == [];
    assert ts + [] == ts;
  }

  lemma {:induction false} NumericSwallows(input: Source, pos: nat)
    requires pos <= |input|
    ensures
      var m := Machine(pos, NumericReference, Data, None);
      Good(input, m) && Next(input, m) == (NewToken(EndOfFile), m.(pos := |input|))
    decreases |input| - pos
  {
    if pos < |input| {
      NumericSwallows(input, pos + 1);
    }
  }

  lemma HashEndsTokens(input: Source, pos: nat)
    requires At(input, pos, "&#")
    ensures Tokens(input, Ready(pos)) == []
  {
    AtChar(input, pos, "&#");
    AtChar(input, pos + 1, "#");
    Walk(input, Ready(pos), Machine(pos + 1, CharacterReference, Data, None));
    Walk(input, Machine(pos + 1, CharacterReference, Data, None), Machine(pos + 2, NumericReference, Data, None));
    NumericSwallows(input, pos + 2);
  }

  /** A numeric character reference is never finished: whatever follows its "&#" is lost. */
  lemma NumericReferenceLosesRest(ts: seq<Token>, rest: Source)
    requires forall t <- ts :: Writable(t)
    ensures '\0' !in RenderAll(ts) + "&#" + rest
    ensures Tokenize(RenderAll(ts) + "&#" + rest) == ts
  {
    hide Render, RenderAll, Writable, Tokens;
    TextHasNoNul(ts);
    var text: Source := RenderAll(ts) + "&#" + rest;
    TokensRendered(text, 0, ts);
    HashEndsTokens(text, |RenderAll(ts)|);
    assert ts + [] == ts;
  }
}
