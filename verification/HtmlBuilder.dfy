/** The HTML tree builder: how each token changes the document, the stack of open elements and the insertion mode. */
module HtmlBuilder {
  import opened HtmlTokens
  import opened HtmlDom

  datatype Mode =
    | Initial | BeforeHtml | BeforeHead | InHead | AfterHead | InBody | InText | AfterBody | AfterAfterBody

  datatype Builder = Builder(dom: Dom, open: seq<nat>, mode: Mode)

  /** The tokenizer state a token makes the tree builder set, if any. */
  datatype Switch = Keep | Set(state: State)

  datatype Effect = Effect(builder: Builder, switch: Switch)

  const STACK_LIMIT := 64

  /** The stack holds the document and below it a path of elements, each the parent of the next. */
  predicate StackGood(dom: Dom, open: seq<nat>) {
    && 0 < |open| <= STACK_LIMIT && open[0] == 0
    && (forall k | 0 <= k < |open| :: open[k] < |dom|)
    && (forall k | 1 <= k < |open| :: dom[open[k]].parent == To(open[k - 1]) && dom[open[k]].data.ElementData?)
  }

  predicate Ok(b: Builder) {
    && IsTree(b.dom) && b.dom[0].data.DocumentData?
    && StackGood(b.dom, b.open)
    && (b.mode.InHead? || b.mode.InText? ==> |b.open| >= 2)
  }

  function Begin(): (b: Builder)
    ensures Ok(b)
  {
    Builder(NewDom(), [0], Initial)
  }

  function Top(b: Builder): nat
    requires b.open != []
  {
    b.open[|b.open| - 1]
  }

  function Pop(b: Builder): Builder
    requires b.open != []
  {
    b.(open := b.open[..|b.open| - 1])
  }

  /** set_attribute: the first attribute of that name takes the value, else it is added at the end. */
  function SetAttr(attrs: seq<Attr>, a: Attr): seq<Attr> {
    if attrs == [] then [a]
    else if attrs[0].name == a.name then [a] + attrs[1..]
    else [attrs[0]] + SetAttr(attrs[1..], a)
  }

  function SetAttrs(attrs: seq<Attr>): seq<Attr> {
    if attrs == [] then [] else SetAttr(SetAttrs(attrs[..|attrs| - 1]), attrs[|attrs| - 1])
  }

  function InsertElement(b: Builder, name: string, attrs: seq<Attr>): Builder
    requires Ok(b)
  {
    var dom := AppendChild(b.dom, Top(b), ElementData(name, SetAttrs(attrs)));
    b.(dom := dom, open := if |b.open| < STACK_LIMIT then b.open + [|b.dom|] else b.open)
  }

  function InsertDoctype(b: Builder, name: string): Builder
    requires Ok(b)
  {
    b.(dom := AppendChild(b.dom, 0, DoctypeData(name)))
  }

  function InsertCharacter(b: Builder, c: char): Builder
    requires Ok(b)
  {
    var last := b.dom[Top(b)].last;
    if last.To? && last.id < |b.dom| && b.dom[last.id].data.TextData? then
      var text := b.dom[last.id];
      b.(dom := b.dom[last.id := text.(data := TextData(text.data.text + [c]))])
    else
      b.(dom := AppendChild(b.dom, Top(b), TextData([c])))
  }

  predicate HasTag(d: Data, name: string) {
    d.ElementData? && d.tag == name
  }

  /** The stack after an end tag in the body: popped up to and with the innermost element of that name, or down to
      the document if there is none. */
  function PopTo(dom: Dom, open: seq<nat>, name: string): (r: seq<nat>)
    requires StackGood(dom, open)
    ensures StackGood(dom, r) && r <= open
    decreases |open|
  {
    if |open| <= 1 then open
    else if HasTag(dom[open[|open| - 1]].data, name) then open[..|open| - 1]
    else PopTo(dom, open[..|open| - 1], name)
  }

  lemma PopStep(dom: Dom, open: seq<nat>, name: string)
    requires StackGood(dom, open)
    ensures PopTo(dom, open, name) ==
      if |open| <= 1 then open
      else if HasTag(dom[open[|open| - 1]].data, name) then open[..|open| - 1]
      else PopTo(dom, open[..|open| - 1], name)
  {
  }

  predicate InHeadStill(dom: Dom, open: seq<nat>)
    requires forall k | 0 <= k < |open| :: open[k] < |dom|
  {
    exists k :: 0 <= k < |open| && HasTag(dom[open[k]].data, "head")
  }

  predicate IsStart(t: Token, name: string) {
    t.kind.StartTag? && t.name == name
  }

  predicate IsEnd(t: Token, name: string) {
    t.kind.EndTag? && t.name == name
  }

  predicate IsBlank(t: Token)
    requires Sized(t)
  {
    t.kind.Character? && (t.data[0] == ' ' || t.data[0] == '\n')
  }

  predicate IsVoid(name: string) {
    name == "br" || name == "img" || name == "input" || name == "link" || name == "meta" || name == "hr"
  }

  predicate IsRaw(name: string) {
    name == "script" || name == "style"
  }

  function Stay(b: Builder): Effect {
    Effect(b, Keep)
  }

  function OnHead(b: Builder, t: Token): Effect
    requires Ok(b) && b.mode.InHead? && Sized(t)
    requires IsBlank(t) || IsEnd(t, "head") || IsStart(t, "title") || (t.kind.StartTag? && IsRaw(t.name)) || IsStart(t, "meta")
  {
    if IsBlank(t) then Stay(InsertCharacter(b, t.data[0]))
    else if IsEnd(t, "head") then Stay(Pop(b).(mode := AfterHead))
    else if IsStart(t, "title") then Effect(InsertElement(b, t.name, t.attrs).(mode := InText), Set(Rcdata))
    else if IsStart(t, "meta") then Stay(Pop(InsertElement(b, t.name, t.attrs)))
    else Effect(InsertElement(b, t.name, t.attrs).(mode := InText), Set(Rawtext))
  }

  function OnBody(b: Builder, t: Token): Effect
    requires Ok(b) && b.mode.InBody? && Sized(t)
  {
    match t.kind
    case Character => Stay(InsertCharacter(b, t.data[0]))
    case StartTag =>
      var inserted := InsertElement(b, t.name, t.attrs);
      if IsRaw(t.name) then Effect(inserted.(mode := InText), Set(Rawtext))
      else if IsVoid(t.name) then Stay(Pop(inserted))
      else Stay(inserted)
    case EndTag =>
      if t.name == "body" then Stay(b.(mode := AfterBody)) else Stay(b.(open := PopTo(b.dom, b.open, t.name)))
    case _ => Stay(b)
  }

  function OnInText(b: Builder, t: Token): Effect
    requires Ok(b) && b.mode.InText? && Sized(t)
  {
    match t.kind
    case Character => Stay(InsertCharacter(b, t.data[0]))
    case EndTag =>
      var popped := Pop(b);
      Effect(popped.(mode := if InHeadStill(b.dom, popped.open) then InHead else InBody), Set(Data))
    case _ => Stay(b)
  }

  /** The modes a token can still be handed on through. */
  function ModeRank(mode: Mode): nat {
    match mode
    case Initial => 5
    case BeforeHtml => 4
    case BeforeHead => 3
    case InHead => 2
    case AfterHead => 1
    case _ => 0
  }

  lemma InsertElementKeeps(b: Builder, name: string, attrs: seq<Attr>)
    requires Ok(b)
    ensures
      var r := InsertElement(b, name, attrs);
      && Ok(r.(mode := InText)) && Ok(r) && |r.open| >= 2 && r.mode == b.mode
      && |r.dom| == |b.dom| + 1
  {
    hide AppendChild, IsTree;
    AppendKeeps(b.dom, Top(b), ElementData(name, SetAttrs(attrs)));
    AppendFrame(b.dom, Top(b), ElementData(name, SetAttrs(attrs)));
  }

  lemma InsertDoctypeKeeps(b: Builder, name: string)
    requires Ok(b)
    ensures Ok(InsertDoctype(b, name))
  {
    hide AppendChild, IsTree;
    assert |b.dom| > 0 by {
      NotEmpty(b.dom);
    }
    AppendKeeps(b.dom, 0, DoctypeData(name));
    AppendFrame(b.dom, 0, DoctypeData(name));
  }

  lemma NotEmpty(dom: Dom)
    requires IsTree(dom)
    ensures |dom| > 0
  {
  }

  lemma InsertCharacterKeeps(b: Builder, c: char)
    requires Ok(b)
    ensures Ok(InsertCharacter(b, c))
  {
    hide AppendChild, IsTree;
    var last := b.dom[Top(b)].last;
    if last.To? && last.id < |b.dom| && b.dom[last.id].data.TextData? {
      SetDataKeeps(b.dom, last.id, TextData(b.dom[last.id].data.text + [c]));
    } else {
      AppendKeeps(b.dom, Top(b), TextData([c]));
      AppendFrame(b.dom, Top(b), TextData([c]));
    }
  }

  lemma PopKeeps(b: Builder)
    requires Ok(b) && |b.open| >= 2
    ensures Ok(Pop(b).(mode := AfterHead)) && Ok(Pop(b).(mode := InBody))
    ensures |b.open| >= 3 ==> Ok(Pop(b))
    ensures InHeadStill(b.dom, Pop(b).open) ==> Ok(Pop(b).(mode := InHead))
  {
    hide IsTree;
  }

  lemma HeadKeeps(b: Builder, t: Token)
    requires Ok(b) && b.mode.InHead? && Sized(t)
    requires IsBlank(t) || IsEnd(t, "head") || IsStart(t, "title") || (t.kind.StartTag? && IsRaw(t.name)) || IsStart(t, "meta")
    ensures Ok(OnHead(b, t).builder)
  {
    hide InsertElement, InsertCharacter, IsTree;
    PopKeeps(b);
    InsertElementKeeps(b, t.name, t.attrs);
    if IsBlank(t) {
      InsertCharacterKeeps(b, t.data[0]);
    } else if IsStart(t, "meta") {
      MetaDeep(b, t.name, t.attrs);
      PopKeeps(InsertElement(b, t.name, t.attrs));
    }
  }

  lemma MetaDeep(b: Builder, name: string, attrs: seq<Attr>)
    requires Ok(b) && |b.open| >= 2
    ensures |InsertElement(b, name, attrs).open| >= 3
  {
  }

  lemma BodyKeeps(b: Builder, t: Token)
    requires Ok(b) && b.mode.InBody? && Sized(t)
    ensures Ok(OnBody(b, t).builder)
  {
    hide InsertElement, InsertCharacter, IsTree, PopTo;
    if t.kind.Character? {
      InsertCharacterKeeps(b, t.data[0]);
    } else if t.kind.StartTag? {
      InsertElementKeeps(b, t.name, t.attrs);
      PopKeeps(InsertElement(b, t.name, t.attrs));
    }
  }

  lemma TextKeeps(b: Builder, t: Token)
    requires Ok(b) && b.mode.InText? && Sized(t)
    ensures Ok(OnInText(b, t).builder)
  {
    hide InsertCharacter, IsTree;
    PopKeeps(b);
    if t.kind.Character? {
      InsertCharacterKeeps(b, t.data[0]);
    }
  }

  /** process_token. The stack, the tree and its links survive every token, and handing a token on from mode to mode
      comes to an end. */
  function Process(b: Builder, t: Token): (r: Effect)
    requires Ok(b) && Sized(t)
    ensures Ok(r.builder)
    decreases ModeRank(b.mode)
  {
    match b.mode
    case Initial =>
      if IsBlank(t) then Stay(b)
      else if t.kind.Doctype? then
        InsertDoctypeKeeps(b, t.name);
        Stay(InsertDoctype(b, t.name).(mode := BeforeHtml))
      else Process(b.(mode := BeforeHtml), t)
    case BeforeHtml =>
      if IsBlank(t) then Stay(b)
      else if IsStart(t, "html") then
        InsertElementKeeps(b, t.name, t.attrs);
        Stay(InsertElement(b, t.name, t.attrs).(mode := BeforeHead))
      else
        InsertElementKeeps(b, "html", []);
        Process(InsertElement(b, "html", []).(mode := BeforeHead), t)
    case BeforeHead =>
      if IsBlank(t) then Stay(b)
      else if IsStart(t, "head") then
        InsertElementKeeps(b, t.name, t.attrs);
        Stay(InsertElement(b, t.name, t.attrs).(mode := InHead))
      else
        InsertElementKeeps(b, "head", []);
        Process(InsertElement(b, "head", []).(mode := InHead), t)
    case InHead =>
      if IsBlank(t) || IsEnd(t, "head") || IsStart(t, "title") || (t.kind.StartTag? && IsRaw(t.name)) || IsStart(t, "meta") then
        HeadKeeps(b, t);
        OnHead(b, t)
      else
        PopKeeps(b);
        Process(Pop(b).(mode := AfterHead), t)
    case AfterHead =>
      if IsBlank(t) then
        InsertCharacterKeeps(b, t.data[0]);
        Stay(InsertCharacter(b, t.data[0]))
      else if IsStart(t, "body") then
        InsertElementKeeps(b, t.name, t.attrs);
        Stay(InsertElement(b, t.name, t.attrs).(mode := InBody))
      else
        InsertElementKeeps(b, "body", []);
        Process(InsertElement(b, "body", []).(mode := InBody), t)
    case InBody => BodyKeeps(b, t); OnBody(b, t)
    case InText => TextKeeps(b, t); OnInText(b, t)
    case AfterBody => if IsEnd(t, "html") then Stay(b.(mode := AfterAfterBody)) else Stay(b)
    case AfterAfterBody => Stay(b)
  }

  /** A void element is closed at once, except where the stack is full: there its parent is closed instead. */
  lemma VoidLeavesStack(b: Builder, t: Token)
    requires Ok(b) && b.mode.InBody? && Sized(t) && t.kind.StartTag? && IsVoid(t.name)
    ensures Process(b, t).builder.open == b.open <==> |b.open| < STACK_LIMIT
    ensures |b.open| == STACK_LIMIT ==> Process(b, t).builder.open == b.open[..STACK_LIMIT - 1]
  {
    hide IsTree, Sized, AppendChild;
  }

  function SwitchTo(m: Machine, switch: Switch): Machine {
    match switch
    case Keep => m
    case Set(s) => m.(state := s)
  }

  /** Only tags make the builder set the tokenizer's state, and only to a text state. */
  lemma {:induction false} SwitchOnTags(b: Builder, t: Token)
    requires Ok(b) && Sized(t)
    ensures
      var s := Process(b, t).switch;
      s.Set? ==> (t.kind.StartTag? || t.kind.EndTag?) && (s.state.Data? || s.state.Rcdata? || s.state.Rawtext?)
    decreases ModeRank(b.mode)
  {
    hide InsertElement, InsertCharacter, InsertDoctype, IsTree, PopTo, StackGood;
    match b.mode
    case Initial => if !IsBlank(t) && !t.kind.Doctype? { SwitchOnTags(b.(mode := BeforeHtml), t); }
    case BeforeHtml =>
      InsertElementKeeps(b, "html", []);
      if !IsBlank(t) && !IsStart(t, "html") { SwitchOnTags(InsertElement(b, "html", []).(mode := BeforeHead), t); }
    case BeforeHead =>
      InsertElementKeeps(b, "head", []);
      if !IsBlank(t) && !IsStart(t, "head") { SwitchOnTags(InsertElement(b, "head", []).(mode := InHead), t); }
    case InHead =>
      PopKeeps(b);
      if !IsBlank(t) && !IsEnd(t, "head") && !t.kind.StartTag? { SwitchOnTags(Pop(b).(mode := AfterHead), t); }
      if t.kind.StartTag? { SwitchOnTags(Pop(b).(mode := AfterHead), t); }
      if t.kind.EndTag? { SwitchOnTags(Pop(b).(mode := AfterHead), t); }
    case AfterHead =>
      InsertElementKeeps(b, "body", []);
      if !IsBlank(t) && !IsStart(t, "body") { SwitchOnTags(InsertElement(b, "body", []).(mode := InBody), t); }
    case _ =>
  }

  /** parse: tokens are handed to the builder, which may set the tokenizer's state, up to the end of the file. */
  function ParseFrom(input: Source, m: Machine, b: Builder): (r: Builder)
    requires Good(input, m) && Ok(b)
    ensures Ok(r)
    decreases Budget(input, m)
  {
    var (t, n) := Next(input, m);
    if t.kind.EndOfFile? then b
    else
      var e := Process(b, t);
      SwitchOnTags(b, t);
      ParseFrom(input, SwitchTo(n, e.switch), e.builder)
  }

  function Parse(input: Source): (r: Dom)
    ensures IsTree(r)
  {
    ParseFrom(input, Start(), Begin()).dom
  }

  lemma OkParts(b: Builder)
    requires Ok(b)
    ensures IsTree(b.dom) && 0 < |b.open| <= STACK_LIMIT && Top(b) < |b.dom|
    ensures b.mode.InHead? || b.mode.InText? ==> |b.open| >= 2
  {
  }

  lemma {:induction false} SetAttrNew(attrs: seq<Attr>, a: Attr)
    requires forall x <- attrs :: x.name != a.name
    ensures SetAttr(attrs, a) == attrs + [a]
  {
    if attrs != [] {
      SetAttrNew(attrs[1..], a);
    }
  }
}
