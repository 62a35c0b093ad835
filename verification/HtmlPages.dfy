/** Parsing the text of a page gives back the page's tree. */
module HtmlPages {
  import opened Texts
  import opened HtmlTokens
  import opened HtmlRoundTrip
  import opened HtmlDom
  import opened HtmlBuilder

  // The pages that have a text: their trees and their tokens.

  predicate IsAttrs(attrs: seq<Attr>) {
    && |attrs| <= ATTR_LIMIT
    && (forall a <- attrs :: IsAttrName(a.name) && IsValue(a.value))
    && (forall i, j | 0 <= i < j < |attrs| :: attrs[i].name != attrs[j].name)
  }

  predicate IsText(s: string) {
    s != "" && '\0' !in s
  }

  /** A tree that room more levels of the stack of open elements can hold. */
  predicate Fits(t: Tree, room: nat)
    decreases t, 0
  {
    match t.data
    case TextData(text) => t.kids == [] && IsText(text)
    case ElementData(tag, attrs) =>
      && room > 0 && IsTagName(tag) && IsAttrs(attrs)
      && !IsRaw(tag) && tag != "body"
      && (IsVoid(tag) ==> t.kids == [])
      && AllFit(t.kids, room - 1)
    case _ => false
  }

  /** Trees side by side: no two texts are neighbours. */
  predicate AllFit(ts: seq<Tree>, room: nat)
    decreases ts, 1
  {
    && (forall i | 0 <= i < |ts| :: Fits(ts[i], room))
    && (forall i | 0 < i < |ts| :: ts[i].data.TextData? ==> !ts[i - 1].data.TextData?)
  }

  function Chars(s: string): seq<Token> {
    if s == "" then [] else [CharToken(s[0])] + Chars(s[1..])
  }

  function StartToken(tag: string, attrs: seq<Attr>): Token {
    Token(StartTag, tag, "", false, attrs)
  }

  function EndToken(tag: string): Token {
    Token(EndTag, tag, "", false, [])
  }

  function TokensOf(t: Tree): seq<Token>
    decreases t, 0
  {
    match t.data
    case TextData(text) => Chars(text)
    case ElementData(tag, attrs) =>
      if IsVoid(tag) then [StartToken(tag, attrs)]
      else [StartToken(tag, attrs)] + TokensOfAll(t.kids) + [EndToken(tag)]
    case _ => []
  }

  function TokensOfAll(ts: seq<Tree>): seq<Token>
    decreases ts, 1
  {
    if ts == [] then [] else TokensOf(ts[0]) + TokensOfAll(ts[1..])
  }

  // Feeding tokens to the builder.

  /** The builder goes from b to r over the tokens without setting the tokenizer's state. */
  predicate Feeds(b: Builder, ts: seq<Token>, r: Builder)
    requires Ok(b) && forall t <- ts :: Sized(t)
    decreases |ts|
  {
    if ts == [] then r == b
    else Process(b, ts[0]).switch.Keep? && Feeds(Process(b, ts[0]).builder, ts[1..], r)
  }

  lemma {:induction false} FeedsThen(b: Builder, s: seq<Token>, m: Builder, t: seq<Token>, r: Builder)
    requires Ok(b) && Ok(m) && (forall x <- s :: Sized(x)) && (forall x <- t :: Sized(x))
    requires Feeds(b, s, m) && Feeds(m, t, r)
    ensures Feeds(b, s + t, r)
    decreases |s|
  {
    hide Process, Ok, Sized;
    if s == [] {
      assert s + t == t;
    } else {
      FeedsThen(Process(b, s[0]).builder, s[1..], m, t, r);
      assert (s + t)[1..] == s[1..] + t && (s + t)[0] == s[0];
    }
  }

  lemma FeedsOne(b: Builder, t: Token)
    requires Ok(b) && Sized(t) && Process(b, t).switch.Keep?
    ensures Feeds(b, [t], Process(b, t).builder)
  {
    hide Process, Ok, Sized;
    assert [t][1..] == [];
  }

  /** Children are added to the node p, and everything that was there before stays. */
  predicate Extends(d: Dom, e: Dom, p: nat, roots: seq<nat>) {
    && p < |d| <= |e|
    && (forall i | 0 <= i < |d| :: e[i].data == d[i].data && (i != p ==> e[i].children == d[i].children))
    && e[p].children == d[p].children + roots
    && forall n <- roots :: |d| <= n < |e|
  }

  lemma ExtendsThen(d: Dom, e: Dom, f: Dom, p: nat, r: seq<nat>, s: seq<nat>)
    requires Extends(d, e, p, r) && Extends(e, f, p, s)
    ensures Extends(d, f, p, r + s)
  {
    assert d[p].children + r + s == d[p].children + (r + s);
  }

  /** What happens below a new child is, seen from above, just a new child. */
  lemma ExtendsBelow(d: Dom, e: Dom, f: Dom, p: nat, n: nat, s: seq<nat>)
    requires Extends(d, e, p, [n]) && Extends(e, f, n, s)
    ensures Extends(d, f, p, [n])
  {
    assert n in [n];
  }

  lemma {:induction false} ViewSame(d: Dom, e: Dom, i: nat)
    requires IsTree(d) && IsTree(e) && i < |d| <= |e|
    requires forall j | i <= j < |d| :: e[j].data == d[j].data && e[j].children == d[j].children
    ensures View(d, i) == View(e, i)
    decreases |d| - i, 1, 0
  {
    hide IsTree, Linked, Hangs;
    AtNode(d, i);
    Younger(d, i);
    Younger(e, i);
    ViewAllSame(d, e, i, d[i].children);
  }

  lemma Younger(d: Dom, i: nat)
    requires IsTree(d) && i < |d|
    ensures forall n <- d[i].children :: i < n < |d|
  {
    assert Linked(d, i);
    forall n | n in d[i].children ensures i < n < |d| {
      var k :| 0 <= k < |d[i].children| && d[i].children[k] == n;
      assert ChildLinked(d, i, k);
    }
  }

  lemma {:induction false} ViewAllSame(d: Dom, e: Dom, i: nat, ids: seq<nat>)
    requires IsTree(d) && IsTree(e) && i < |d| <= |e| && forall n <- ids :: i < n < |d|
    requires forall n <- ids, j | n <= j < |d| :: e[j].data == d[j].data && e[j].children == d[j].children
    ensures ViewAll(d, i, ids) == ViewAll(e, i, ids)
    decreases |d| - i, 0, |ids|
  {
    hide IsTree, View;
    if ids != [] {
      assert ids[0] in ids && forall n <- ids[1..] :: n in ids;
      ViewSame(d, e, ids[0]);
      ViewAllSame(d, e, i, ids[1..]);
    }
  }

  lemma BothBelow(i: nat, size: nat, r: seq<nat>, s: seq<nat>)
    requires (forall n <- r :: i < n < size) && forall n <- s :: i < n < size
    ensures forall n <- r + s :: i < n < size
  {
  }

  lemma BelowRest(i: nat, size: nat, r: seq<nat>)
    requires r != [] && forall n <- r :: i < n < size
    ensures (forall n <- r[1..] :: i < n < size) && i < r[0] < size
  {
    assert r[0] in r;
    forall n | n in r[1..] ensures i < n < size {
      assert n in r;
    }
  }

  lemma ViewNone(d: Dom, i: nat)
    requires IsTree(d) && i < |d|
    ensures ViewAll(d, i, []) == []
  {
    hide IsTree;
  }

  lemma ViewFirst(d: Dom, i: nat, r: seq<nat>)
    requires IsTree(d) && i < |d| && r != [] && forall n <- r :: i < n < |d|
    ensures (forall n <- r[1..] :: i < n < |d|) && i < r[0] < |d| && ViewAll(d, i, r) == [View(d, r[0])] + ViewAll(d, i, r[1..])
  {
    hide IsTree;
    BelowRest(i, |d|, r);
  }

  lemma {:induction false} ViewAllMore(d: Dom, i: nat, r: seq<nat>, s: seq<nat>)
    requires IsTree(d) && i < |d| && (forall n <- r :: i < n < |d|) && (forall n <- s :: i < n < |d|)
    ensures forall n <- r + s :: i < n < |d|
    ensures ViewAll(d, i, r + s) == ViewAll(d, i, r) + ViewAll(d, i, s)
    decreases |r|
  {
    hide IsTree, View, ViewAll;
    BothBelow(i, |d|, r, s);
    if r == [] {
      assert r + s == s;
      ViewNone(d, i);
    } else {
      BelowRest(i, |d|, r);
      ViewAllMore(d, i, r[1..], s);
      assert (r + s)[0] == r[0] && (r + s)[1..] == r[1..] + s;
      ViewFirst(d, i, r);
      ViewFirst(d, i, r + s);
    }
  }

  /** No text would be merged into the last child of p. */
  predicate TextSafe(d: Dom, p: nat)
    requires p < |d|
  {
    var ids := d[p].children;
    ids == [] || (ids[|ids| - 1] < |d| && !d[ids[|ids| - 1]].data.TextData?)
  }

  lemma LastLink(d: Dom, p: nat)
    requires IsTree(d) && p < |d|
    ensures d[p].last == LastOf(d[p].children)
    ensures d[p].last.To? ==> p < d[p].last.id < |d|
  {
    AtNode(d, p);
    if d[p].last.To? {
      LastChild(d, p);
    }
  }

  /** append_child of new data adds one root, a tree of its own without children. */
  lemma Appended(d: Dom, p: nat, data: Data)
    requires IsTree(d) && p < |d|
    ensures
      var e := AppendChild(d, p, data);
      && IsTree(e) && Extends(d, e, p, [|d|]) && e[|d|].data == data && e[|d|].children == []
      && View(e, |d|) == Tree(data, [])
  {
    hide AppendChild, IsTree, Linked, Hangs;
    AppendKeeps(d, p, data);
    AppendFrame(d, p, data);
  }

  // Text.

  function MoreText(b: Builder, n: nat, s: string): Builder
    requires n < |b.dom| && b.dom[n].data.TextData?
  {
    b.(dom := b.dom[n := b.dom[n].(data := TextData(b.dom[n].data.text + s))])
  }

  lemma TextStep(b: Builder, n: nat, c: char)
    requires Ok(b) && b.mode.InBody? && n < |b.dom|
    requires b.dom[Top(b)].last == To(n) && b.dom[n].data.TextData?
    ensures
      var m := MoreText(b, n, [c]);
      && Ok(m) && Process(b, CharToken(c)) == Stay(m) && m.dom[Top(m)].last == To(n)
  {
    hide IsTree, StackGood, Process;
    OkParts(b);
    InsertCharacterKeeps(b, c);
    CharInBody(b, c);
  }

  lemma CharInBody(b: Builder, c: char)
    requires Ok(b) && b.mode.InBody?
    ensures Process(b, CharToken(c)) == Stay(InsertCharacter(b, c))
  {
    hide IsTree, StackGood, InsertCharacter, InsertElement;
  }

  lemma NoMoreText(b: Builder, n: nat)
    requires n < |b.dom| && b.dom[n].data.TextData?
    ensures MoreText(b, n, "") == b
  {
    assert b.dom[n].data.text + "" == b.dom[n].data.text;
    assert MoreText(b, n, "").dom == b.dom;
  }

  lemma MoreTextThen(b: Builder, n: nat, s: string)
    requires n < |b.dom| && b.dom[n].data.TextData? && s != ""
    ensures
      var m := MoreText(b, n, [s[0]]);
      n < |m.dom| && m.dom[n].data.TextData? && m.mode == b.mode && MoreText(m, n, s[1..]) == MoreText(b, n, s)
  {
    var m := MoreText(b, n, [s[0]]);
    assert b.dom[n].data.text + [s[0]] + s[1..] == b.dom[n].data.text + s;
    assert MoreText(m, n, s[1..]).dom == MoreText(b, n, s).dom;
  }

  lemma {:induction false} TextMore(b: Builder, n: nat, s: string)
    requires Ok(b) && b.mode.InBody? && n < |b.dom|
    requires b.dom[Top(b)].last == To(n) && b.dom[n].data.TextData?
    requires forall t <- Chars(s) :: Sized(t)
    ensures Ok(MoreText(b, n, s)) && Feeds(b, Chars(s), MoreText(b, n, s))
    decreases |s|
  {
    hide Ok, IsTree, StackGood, Process, Sized;
    hide MoreText;
    if s == "" {
      NoMoreText(b, n);
    } else {
      var m := MoreText(b, n, [s[0]]);
      TextStep(b, n, s[0]);
      assert Chars(s)[0] == CharToken(s[0]) && Chars(s)[1..] == Chars(s[1..]);
      MoreTextThen(b, n, s);
      TextMore(m, n, s[1..]);
    }
  }

  lemma {:induction false} CharsSized(s: string)
    ensures forall t <- Chars(s) :: Sized(t)
    ensures '\0' !in s ==> forall t <- Chars(s) :: Writable(t)
  {
    if s != "" {
      CharsSized(s[1..]);
    }
  }

  /** The builder's stack and mode are as before, and the trees have become children of the current node. */
  predicate Grown(b: Builder, r: Builder, roots: seq<nat>, ts: seq<Tree>)
    requires Ok(b)
  {
    && Ok(r) && r.open == b.open && r.mode == b.mode
    && Extends(b.dom, r.dom, Top(b), roots)
    && (forall n <- roots :: Top(b) < n)
    && ViewAll(r.dom, Top(b), roots) == ts
  }

  lemma StartsText(b: Builder, c: char)
    requires Ok(b) && TextSafe(b.dom, Top(b))
    ensures InsertCharacter(b, c) == b.(dom := AppendChild(b.dom, Top(b), TextData([c])))
  {
    hide IsTree, StackGood, AppendChild, Linked, Hangs;
    OkParts(b);
    LastLink(b.dom, Top(b));
  }

  lemma TextStarts(b: Builder, c: char)
    requires Ok(b) && b.mode.InBody? && TextSafe(b.dom, Top(b))
    ensures
      var m := b.(dom := AppendChild(b.dom, Top(b), TextData([c])));
      && Process(b, CharToken(c)) == Stay(m) && Ok(m) && m.dom[Top(b)].last == To(|b.dom|)
  {
    hide Ok, IsTree, StackGood, AppendChild, Linked, Hangs, TextSafe, InsertCharacter;
    OkParts(b);
    StartsText(b, c);
    InsertCharacterKeeps(b, c);
    AppendFrame(b.dom, Top(b), TextData([c]));
  }

  lemma GrowText(b: Builder, t: Tree) returns (r: Builder, n: nat)
    requires Ok(b) && b.mode.InBody? && t.data.TextData? && t.kids == [] && IsText(t.data.text) && TextSafe(b.dom, Top(b))
    ensures forall x <- TokensOf(t) :: Sized(x)
    ensures Grown(b, r, [n], [t]) && n < |r.dom| && r.dom[n].data == t.data && Feeds(b, TokensOf(t), r)
  {
    hide IsTree, StackGood, AppendChild, Linked, Hangs, Ok, Process, Sized, View;
    var s := t.data.text;
    CharsSized(s);
    n := |b.dom|;
    OkParts(b);
    var p := Top(b);
    TextStarts(b, s[0]);
    var m := b.(dom := AppendChild(b.dom, p, TextData([s[0]])));
    Appended(b.dom, p, TextData([s[0]]));
    assert Chars(s)[0] == CharToken(s[0]) && Chars(s)[1..] == Chars(s[1..]);
    TextMore(m, n, s[1..]);
    r := MoreText(m, n, s[1..]);
    assert [s[0]] + s[1..] == s;
    OkParts(r);
    LeafView(r.dom, n);
    assert ViewAll(r.dom, p, [n]) == [t];
  }

  lemma LeafView(d: Dom, n: nat)
    requires IsTree(d) && n < |d| && d[n].children == []
    ensures View(d, n) == Tree(d[n].data, [])
  {
  }

  // Elements.

  lemma {:induction false} SetAttrsDistinct(attrs: seq<Attr>)
    requires forall i, j | 0 <= i < j < |attrs| :: attrs[i].name != attrs[j].name
    ensures SetAttrs(attrs) == attrs
  {
    if attrs != [] {
      var init := attrs[..|attrs| - 1];
      SetAttrsDistinct(init);
      SetAttrNew(init, attrs[|attrs| - 1]);
      assert init + [attrs[|attrs| - 1]] == attrs;
    }
  }

  lemma Inserted(b: Builder, tag: string, attrs: seq<Attr>)
    requires Ok(b) && |b.open| < STACK_LIMIT && IsAttrs(attrs)
    ensures
      var r := InsertElement(b, tag, attrs);
      var n := |b.dom|;
      && Ok(r) && r.mode == b.mode && r.open == b.open + [n] && Top(r) == n && Pop(r).open == b.open && |r.dom| == n + 1
      && Extends(b.dom, r.dom, Top(b), [n])
      && r.dom[n].data == ElementData(tag, attrs) && r.dom[n].children == []
      && View(r.dom, n) == Tree(ElementData(tag, attrs), [])
  {
    hide IsTree, StackGood, AppendChild, Linked, Hangs;
    OkParts(b);
    SetAttrsDistinct(attrs);
    InsertElementKeeps(b, tag, attrs);
    Appended(b.dom, Top(b), ElementData(tag, attrs));
  }

  lemma GrowVoid(b: Builder, t: Tree) returns (r: Builder, n: nat)
    requires Ok(b) && b.mode.InBody? && |b.open| < STACK_LIMIT
    requires t.data.ElementData? && IsVoid(t.data.tag) && Fits(t, STACK_LIMIT - |b.open|)
    ensures forall x <- TokensOf(t) :: Sized(x)
    ensures Grown(b, r, [n], [t]) && n < |r.dom| && r.dom[n].data == t.data && Feeds(b, TokensOf(t), r)
  {
    hide IsTree, StackGood, AppendChild, Linked, Hangs, InsertElement, Ok;
    OkParts(b);
    var start := StartToken(t.data.tag, t.data.attrs);
    Inserted(b, t.data.tag, t.data.attrs);
    assert TokensOf(t) == [start];
    n := |b.dom|;
    r := Pop(InsertElement(b, t.data.tag, t.data.attrs));
    assert n in [n];
    assert Process(b, start) == Stay(r);
    FeedsOne(b, start);
    OkParts(r);
    assert ViewAll(r.dom, Top(b), [n]) == [t];
  }

  lemma PopsOwn(b: Builder, tag: string)
    requires Ok(b) && b.mode.InBody? && |b.open| >= 2 && HasTag(b.dom[Top(b)].data, tag) && tag != "body"
    requires Sized(EndToken(tag))
    ensures Process(b, EndToken(tag)) == Stay(Pop(b)) && Ok(Pop(b))
  {
    hide IsTree, Sized, StackGood;
    OwnOnTop(b.dom, b.open, tag);
    PopKeeps(b);
    assert b.(mode := InBody) == b;
  }

  lemma OwnOnTop(d: Dom, open: seq<nat>, tag: string)
    requires StackGood(d, open) && |open| >= 2 && HasTag(d[open[|open| - 1]].data, tag)
    ensures PopTo(d, open, tag) == open[..|open| - 1]
  {
  }

  lemma GrowElement(b: Builder, t: Tree) returns (r: Builder, n: nat)
    requires Ok(b) && b.mode.InBody? && |b.open| < STACK_LIMIT
    requires t.data.ElementData? && !IsVoid(t.data.tag) && Fits(t, STACK_LIMIT - |b.open|)
    ensures forall x <- TokensOf(t) :: Sized(x)
    ensures Grown(b, r, [n], [t]) && n < |r.dom| && r.dom[n].data == t.data && Feeds(b, TokensOf(t), r)
    decreases t, 0
  {
    hide IsTree, StackGood, AppendChild, Linked, Hangs, InsertElement, Ok, AllFit, PopTo, View;
    OkParts(b);
    var tag, attrs := t.data.tag, t.data.attrs;
    var start := StartToken(tag, attrs);
    n := |b.dom|;
    Inserted(b, tag, attrs);
    var m := InsertElement(b, tag, attrs);
    assert Process(b, start) == Stay(m);
    FeedsOne(b, start);
    var k, roots := GrowAll(m, t.kids);
    assert TokensOf(t) == [start] + TokensOfAll(t.kids) + [EndToken(tag)];
    FeedsThen(b, [start], m, TokensOfAll(t.kids), k);
    assert k.dom[n].data == t.data && k.dom[n].children == roots by {
      assert [] + roots == roots;
    }
    PopsOwn(k, tag);
    r := Pop(k);
    FeedsOne(k, EndToken(tag));
    FeedsThen(b, [start] + TokensOfAll(t.kids), k, [EndToken(tag)], r);
    ExtendsBelow(b.dom, m.dom, k.dom, Top(b), n, roots);
    OkParts(k);
    Opened(k.dom, n);
    assert ViewAll(r.dom, Top(b), [n]) == [t];
  }

  lemma Opened(d: Dom, n: nat)
    requires IsTree(d) && n < |d|
    ensures (forall c <- d[n].children :: n < c < |d|) && View(d, n) == Tree(d[n].data, ViewAll(d, n, d[n].children))
  {
    Younger(d, n);
  }

  lemma GrowTree(b: Builder, t: Tree) returns (r: Builder, n: nat)
    requires Ok(b) && b.mode.InBody?
    requires Fits(t, STACK_LIMIT - |b.open|) && (t.data.TextData? ==> TextSafe(b.dom, Top(b)))
    ensures forall x <- TokensOf(t) :: Sized(x)
    ensures Grown(b, r, [n], [t]) && n < |r.dom| && r.dom[n].data == t.data && Feeds(b, TokensOf(t), r)
    decreases t, 1
  {
    hide TokensOf, Grown, Feeds, Ok, TextSafe, AllFit;
    if t.data.TextData? {
      r, n := GrowText(b, t);
    } else if IsVoid(t.data.tag) {
      r, n := GrowVoid(b, t);
    } else {
      r, n := GrowElement(b, t);
    }
  }

  lemma GrowAll(b: Builder, ts: seq<Tree>) returns (r: Builder, roots: seq<nat>)
    requires Ok(b) && b.mode.InBody?
    requires AllFit(ts, STACK_LIMIT - |b.open|) && (ts != [] && ts[0].data.TextData? ==> TextSafe(b.dom, Top(b)))
    ensures forall x <- TokensOfAll(ts) :: Sized(x)
    ensures Grown(b, r, roots, ts) && Feeds(b, TokensOfAll(ts), r)
    decreases ts, 2
  {
    hide TokensOf, Feeds, Ok, Fits, IsTree, View, Sized, StackGood;
    OkParts(b);
    if ts == [] {
      r, roots := b, [];
      assert Extends(b.dom, b.dom, Top(b), []) by {
        assert b.dom[Top(b)].children + [] == b.dom[Top(b)].children;
      }
      FeedsNothing(b);
    } else {
      var m, n := GrowTree(b, ts[0]);
      var rest := ts[1..];
      assert forall i :: 0 <= i < |rest| ==> rest[i] == ts[i + 1];
      assert m.dom[Top(m)].children == b.dom[Top(b)].children + [n];
      var s;
      r, s := GrowAll(m, rest);
      roots := [n] + s;
      FeedsThen(b, TokensOf(ts[0]), m, TokensOfAll(rest), r);
      GrownThen(b, m, r, n, s, ts[0], rest);
      assert [ts[0]] + rest == ts;
    }
  }

  lemma FeedsNothing(b: Builder)
    requires Ok(b)
    ensures Feeds(b, [], b)
  {
  }

  lemma GrownThen(b: Builder, m: Builder, r: Builder, n: nat, s: seq<nat>, t: Tree, rest: seq<Tree>)
    requires Ok(b) && Ok(m) && Grown(b, m, [n], [t]) && Grown(m, r, s, rest)
    ensures Grown(b, r, [n] + s, [t] + rest)
  {
    hide View, IsTree, StackGood;
    OkParts(b);
    var p := Top(b);
    ExtendsThen(b.dom, m.dom, r.dom, p, [n], s);
    assert n in [n];
    ViewAllSame(m.dom, r.dom, p, [n]);
    ViewAllMore(r.dom, p, [n], s);
  }

  // Whole pages.

  datatype Heading = Plain | Doctyped(name: string)

  datatype Page = Page(heading: Heading, html: seq<Attr>, head: seq<Attr>, metas: seq<seq<Attr>>, body: seq<Attr>, content: seq<Tree>)

  /** The document, html and body elements take three places on the stack of open elements. */
  predicate IsPage(p: Page) {
    && (p.heading.Doctyped? ==> IsDoctypeName(p.heading.name))
    && IsAttrs(p.html) && IsAttrs(p.head) && IsAttrs(p.body)
    && (forall m <- p.metas :: IsAttrs(m))
    && AllFit(p.content, STACK_LIMIT - 3)
  }

  function HeadingTokens(h: Heading): seq<Token> {
    match h
    case Plain => []
    case Doctyped(name) => [NewToken(Doctype).(name := name)]
  }

  function HeadingTrees(h: Heading): seq<Tree> {
    match h
    case Plain => []
    case Doctyped(name) => [Tree(DoctypeData(name), [])]
  }

  function MetaTrees(metas: seq<seq<Attr>>): seq<Tree> {
    if metas == [] then [] else [Tree(ElementData("meta", metas[0]), [])] + MetaTrees(metas[1..])
  }

  function MetaTokens(metas: seq<seq<Attr>>): seq<Token> {
    if metas == [] then [] else [StartToken("meta", metas[0])] + MetaTokens(metas[1..])
  }

  function PageTokens(p: Page): seq<Token> {
    HeadingTokens(p.heading)
    + [StartToken("html", p.html), StartToken("head", p.head)] + MetaTokens(p.metas) + [EndToken("head")]
    + [StartToken("body", p.body)] + TokensOfAll(p.content) + [EndToken("body"), EndToken("html")]
  }

  function PageTree(p: Page): Tree {
    Tree(DocumentData, HeadingTrees(p.heading) + [
      Tree(ElementData("html", p.html), [
        Tree(ElementData("head", p.head), MetaTrees(p.metas)),
        Tree(ElementData("body", p.body), p.content)])])
  }

  lemma GrowMeta(b: Builder, attrs: seq<Attr>) returns (r: Builder, n: nat)
    requires Ok(b) && b.mode.InHead? && |b.open| < STACK_LIMIT && IsAttrs(attrs)
    ensures Sized(StartToken("meta", attrs))
    ensures Grown(b, r, [n], [Tree(ElementData("meta", attrs), [])]) && Feeds(b, [StartToken("meta", attrs)], r)
  {
    hide IsTree, StackGood, AppendChild, Linked, Hangs, InsertElement, Ok;
    OkParts(b);
    var start := StartToken("meta", attrs);
    Inserted(b, "meta", attrs);
    n := |b.dom|;
    r := Pop(InsertElement(b, "meta", attrs));
    assert n in [n];
    assert Process(b, start) == Stay(r);
    FeedsOne(b, start);
    OkParts(r);
    assert ViewAll(r.dom, Top(b), [n]) == [Tree(ElementData("meta", attrs), [])];
  }

  lemma {:induction false} GrowMetas(b: Builder, metas: seq<seq<Attr>>) returns (r: Builder, roots: seq<nat>)
    requires Ok(b) && b.mode.InHead? && |b.open| < STACK_LIMIT && forall m <- metas :: IsAttrs(m)
    ensures forall x <- MetaTokens(metas) :: Sized(x)
    ensures Grown(b, r, roots, MetaTrees(metas)) && Feeds(b, MetaTokens(metas), r)
    decreases |metas|
  {
    hide Feeds, Ok, IsTree, View, Sized, StackGood, IsAttrs;
    OkParts(b);
    if metas == [] {
      r, roots := b, [];
      assert b.dom[Top(b)].children + [] == b.dom[Top(b)].children;
      FeedsNothing(b);
    } else {
      var m, n := GrowMeta(b, metas[0]);
      var s;
      r, s := GrowMetas(m, metas[1..]);
      roots := [n] + s;
      FeedsThen(b, [StartToken("meta", metas[0])], m, MetaTokens(metas[1..]), r);
      GrownThen(b, m, r, n, s, Tree(ElementData("meta", metas[0]), []), MetaTrees(metas[1..]));
    }
  }

  /** The builder before the html tag: the document, with the doctype below it if there is one. */
  lemma Opening(h: Heading) returns (b: Builder, roots: seq<nat>)
    requires h.Doctyped? ==> IsDoctypeName(h.name)
    ensures forall x <- HeadingTokens(h) :: Sized(x)
    ensures Ok(b) && Feeds(Begin(), HeadingTokens(h), b) && b.open == [0] && (b.mode.Initial? || b.mode.BeforeHtml?)
    ensures b.dom[0].data == DocumentData && b.dom[0].children == roots && |b.dom| == |roots| + 1
    ensures (forall n <- roots :: 0 < n < |b.dom|) && ViewAll(b.dom, 0, roots) == HeadingTrees(h)
  {
    b, roots := Begin(), [];
    FeedsNothing(b);
    if h.Doctyped? {
      var t := NewToken(Doctype).(name := h.name);
      hide IsTree, Linked, Hangs, AppendChild, StackGood, Ok;
      OkParts(Begin());
      Appended(Begin().dom, 0, DoctypeData(h.name));
      var m := InsertDoctype(Begin(), h.name).(mode := BeforeHtml);
      assert Process(Begin(), t) == Stay(m);
      FeedsOne(Begin(), t);
      b, roots := m, [1];
      OkParts(b);
      Younger(b.dom, 0);
      assert ViewAll(b.dom, 0, [1]) == HeadingTrees(h);
    }
  }

  /** html or head or body is inserted by its own start tag in the mode that waits for it. */
  lemma EnterHtml(b: Builder, attrs: seq<Attr>)
    requires Ok(b) && (b.mode.Initial? || b.mode.BeforeHtml?) && b.open == [0] && IsAttrs(attrs)
    ensures Sized(StartToken("html", attrs))
    ensures Process(b, StartToken("html", attrs)) == Stay(InsertElement(b, "html", attrs).(mode := BeforeHead))
  {
    hide IsTree, StackGood, InsertElement, IsAttrs, Sized;
    StartSized("html", attrs);
    var t := StartToken("html", attrs);
    if b.mode.Initial? {
      assert Process(b, t) == Process(b.(mode := BeforeHtml), t);
    }
    assert InsertElement(b.(mode := BeforeHtml), "html", attrs).(mode := BeforeHead) == InsertElement(b, "html", attrs).(mode := BeforeHead) by {
      SameInsert(b, BeforeHtml, attrs);
    }
  }

  lemma SameInsert(b: Builder, mode: Mode, attrs: seq<Attr>)
    requires Ok(b) && Ok(b.(mode := mode))
    ensures InsertElement(b.(mode := mode), "html", attrs) == InsertElement(b, "html", attrs).(mode := mode)
  {
    hide IsTree, StackGood, AppendChild, SetAttrs;
  }

  lemma StartSized(tag: string, attrs: seq<Attr>)
    requires IsAttrs(attrs) && |tag| <= NAME_LIMIT
    ensures Sized(StartToken(tag, attrs))
  {
  }

  lemma EnterHead(b: Builder, attrs: seq<Attr>)
    requires Ok(b) && b.mode.BeforeHead? && IsAttrs(attrs)
    ensures Sized(StartToken("head", attrs))
    ensures Process(b, StartToken("head", attrs)) == Stay(InsertElement(b, "head", attrs).(mode := InHead))
  {
    hide IsTree, StackGood, InsertElement, IsAttrs, Sized, Ok;
    StartSized("head", attrs);
  }

  lemma LeaveHead(b: Builder)
    requires Ok(b) && b.mode.InHead?
    ensures Sized(EndToken("head")) && Process(b, EndToken("head")) == Stay(Pop(b).(mode := AfterHead))
  {
    hide IsTree, StackGood;
  }

  lemma EnterBody(b: Builder, attrs: seq<Attr>)
    requires Ok(b) && b.mode.AfterHead? && IsAttrs(attrs)
    ensures Sized(StartToken("body", attrs))
    ensures Process(b, StartToken("body", attrs)) == Stay(InsertElement(b, "body", attrs).(mode := InBody))
  {
    hide IsTree, StackGood, InsertElement, IsAttrs, Sized, Ok;
    StartSized("body", attrs);
  }

  lemma LeaveBody(b: Builder)
    requires Ok(b) && b.mode.InBody?
    ensures Sized(EndToken("body")) && Sized(EndToken("html")) && Ok(b.(mode := AfterAfterBody))
    ensures Feeds(b, [EndToken("body"), EndToken("html")], b.(mode := AfterAfterBody))
  {
    hide IsTree, StackGood;
    var m := b.(mode := AfterBody);
    assert Process(b, EndToken("body")) == Stay(m) && Process(m, EndToken("html")) == Stay(b.(mode := AfterAfterBody));
    FeedsOne(b, EndToken("body"));
    FeedsOne(m, EndToken("html"));
    FeedsThen(b, [EndToken("body")], m, [EndToken("html")], b.(mode := AfterAfterBody));
    assert [EndToken("body")] + [EndToken("html")] == [EndToken("body"), EndToken("html")];
  }

  lemma HeadChain(b: Builder, s: Token, b1: Builder, t: Token, b2: Builder, us: seq<Token>, b3: Builder, v: Token)
    requires Ok(b) && Ok(b1) && Ok(b2) && Ok(b3) && Sized(s) && Sized(t) && Sized(v) && forall u <- us :: Sized(u)
    requires Process(b, s) == Stay(b1) && Process(b1, t) == Stay(b2) && Feeds(b2, us, b3) && Process(b3, v).switch.Keep?
    ensures forall x <- [s, t] + us + [v] :: Sized(x)
    ensures Feeds(b, [s, t] + us + [v], Process(b3, v).builder)
  {
    hide Ok, Sized, Process, Feeds;
    FeedsOne(b, s);
    FeedsOne(b1, t);
    FeedsOne(b3, v);
    FeedsThen(b, [s], b1, [t], b2);
    assert [s] + [t] == [s, t];
    FeedsThen(b, [s, t], b2, us, b3);
    FeedsThen(b, [s, t] + us, b3, [v], Process(b3, v).builder);
  }

  /** The tokens from <html> to </head>, with the builder they leave. */
  /** The tags of html and head. */
  lemma IntoHead(b: Builder, p: Page) returns (b1: Builder, b2: Builder)
    requires IsPage(p) && Ok(b) && (b.mode.Initial? || b.mode.BeforeHtml?) && b.open == [0]
    ensures Ok(b1) && Ok(b2) && b2.mode.InHead?
    ensures Sized(StartToken("html", p.html)) && Process(b, StartToken("html", p.html)) == Stay(b1)
    ensures Sized(StartToken("head", p.head)) && Process(b1, StartToken("head", p.head)) == Stay(b2)
    ensures
      var h := |b.dom|;
      && |b1.dom| == h + 1 && |b2.dom| == h + 2 && b2.open == [0, h, h + 1] && Top(b2) == h + 1 && Pop(b2).open == [0, h]
      && Extends(b.dom, b1.dom, 0, [h]) && Extends(b1.dom, b2.dom, h, [h + 1])
      && b2.dom[h].data == ElementData("html", p.html) && b2.dom[h].children == [h + 1]
      && b2.dom[h + 1].data == ElementData("head", p.head) && b2.dom[h + 1].children == []
  {
    hide IsTree, StackGood, InsertElement, Ok, Sized, Process, View, IsAttrs;
    var h := |b.dom|;
    OkParts(b);
    EnterHtml(b, p.html);
    Inserted(b, "html", p.html);
    b1 := InsertElement(b, "html", p.html).(mode := BeforeHead);
    OkParts(b1);
    EnterHead(b1, p.head);
    Inserted(b1, "head", p.head);
    b2 := InsertElement(b1, "head", p.head).(mode := InHead);
    OkParts(b2);
    assert [] + [h + 1] == [h + 1];
  }

  lemma ThroughHead(b: Builder, p: Page) returns (r: Builder, metas: seq<nat>)
    requires IsPage(p) && Ok(b) && (b.mode.Initial? || b.mode.BeforeHtml?) && b.open == [0]
    ensures
      var ts := [StartToken("html", p.html), StartToken("head", p.head)] + MetaTokens(p.metas) + [EndToken("head")];
      (forall x <- ts :: Sized(x)) && Feeds(b, ts, r)
    ensures
      var h := |b.dom|;
      && Ok(r) && r.mode.AfterHead? && r.open == [0, h]
      && Extends(b.dom, r.dom, 0, [h]) && h + 1 < |r.dom|
      && r.dom[h].data == ElementData("html", p.html) && r.dom[h].children == [h + 1]
      && r.dom[h + 1].data == ElementData("head", p.head) && r.dom[h + 1].children == metas
      && (forall n <- metas :: h + 1 < n < |r.dom|) && ViewAll(r.dom, h + 1, metas) == MetaTrees(p.metas)
  {
    hide IsTree, StackGood, InsertElement, Ok, Sized, Process, View, ViewAll, AllFit, IsAttrs, Feeds;
    var h := |b.dom|;
    OkParts(b);
    var b1, b2 := IntoHead(b, p);
    OkParts(b1);
    OkParts(b2);
    var b3;
    b3, metas := GrowMetas(b2, p.metas);
    OkParts(b3);
    LeaveHead(b3);
    r := Pop(b3).(mode := AfterHead);
    HeadChain(b, StartToken("html", p.html), b1, StartToken("head", p.head), b2, MetaTokens(p.metas), b3, EndToken("head"));
    ExtendsBelow(b.dom, b1.dom, b2.dom, 0, h, [h + 1]);
    assert [] + metas == metas;
  }

  /** The trees of the head and of the body hang where the page has them. */
  lemma PageShape(d: Dom, e: Dom, p: Page, dts: seq<nat>, metas: seq<nat>, bodies: seq<nat>)
    requires IsTree(d) && IsTree(e) && d[0].data == DocumentData
    requires
      var h := |dts| + 1;
      var bd := |d|;
      && h + 1 < bd < |e| && Extends(d, e, h, [bd])
      && d[0].children == dts + [h] && d[h].children == [h + 1] && d[h + 1].children == metas
      && d[h].data == ElementData("html", p.html) && d[h + 1].data == ElementData("head", p.head)
      && e[bd].data == ElementData("body", p.body) && e[bd].children == bodies
      && (forall n <- dts :: 0 < n < h) && (forall n <- metas :: h + 1 < n < bd) && (forall n <- bodies :: bd < n < |e|)
      && ViewAll(e, 0, dts) == HeadingTrees(p.heading)
      && ViewAll(d, h + 1, metas) == MetaTrees(p.metas) && ViewAll(e, bd, bodies) == p.content
    ensures View(e, 0) == PageTree(p)
  {
    hide IsTree, View;
    var h := |dts| + 1;
    var bd := |d|;
    ViewAllSame(d, e, h + 1, metas);
    Opened(e, h + 1);
    Opened(e, bd);
    assert bd in [bd];
    var html := Tree(ElementData("html", p.html), [
      Tree(ElementData("head", p.head), MetaTrees(p.metas)), Tree(ElementData("body", p.body), p.content)]);
    assert View(e, h) == html by {
      Opened(e, h);
      assert e[h].children == [h + 1, bd] && [h + 1, bd][1..] == [bd];
      assert ViewAll(e, h, [bd]) == [View(e, bd)];
      assert ViewAll(e, h, [h + 1, bd]) == [View(e, h + 1), View(e, bd)];
    }
    Opened(e, 0);
    ViewAllMore(e, 0, dts, [h]);
    assert ViewAll(e, 0, [h]) == [html];
  }

  /** The tokens of a page build the page's tree. */
  lemma PageBuilds(p: Page) returns (r: Builder)
    requires IsPage(p)
    ensures forall x <- PageTokens(p) :: Sized(x)
    ensures Ok(r) && Feeds(Begin(), PageTokens(p), r) && View(r.dom, 0) == PageTree(p)
  {
    hide IsTree, StackGood, InsertElement, Ok, Sized, Process, View, ViewAll, AllFit, IsAttrs, Feeds, TokensOfAll, MetaTokens;
    var b, dts := Opening(p.heading);
    OkParts(b);
    var h := |b.dom|;
    var c, metas := ThroughHead(b, p);
    OkParts(c);
    EnterBody(c, p.body);
    Inserted(c, "body", p.body);
    var bd := |c.dom|;
    var k := InsertElement(c, "body", p.body).(mode := InBody);
    OkParts(k);
    var f, bodies := GrowAll(k, p.content);
    OkParts(f);
    LeaveBody(f);
    r := f.(mode := AfterAfterBody);
    TokensChain(p, b, c, k, f);
    ExtendsBelow(c.dom, k.dom, f.dom, h, bd, bodies);
    assert [] + bodies == bodies;
    ViewAllSame(b.dom, f.dom, 0, dts);
    PageShape(c.dom, f.dom, p, dts, metas, bodies);
  }

  lemma TokensChain(p: Page, b: Builder, c: Builder, k: Builder, f: Builder)
    requires Ok(b) && Ok(c) && Ok(k) && Ok(f)
    requires forall x <- PageTokens(p) :: Sized(x)
    requires
      var head := [StartToken("html", p.html), StartToken("head", p.head)] + MetaTokens(p.metas) + [EndToken("head")];
      && (forall x <- HeadingTokens(p.heading) :: Sized(x)) && Feeds(Begin(), HeadingTokens(p.heading), b)
      && (forall x <- head :: Sized(x)) && Feeds(b, head, c)
    requires Sized(StartToken("body", p.body)) && Process(c, StartToken("body", p.body)) == Stay(k)
    requires (forall x <- TokensOfAll(p.content) :: Sized(x)) && Feeds(k, TokensOfAll(p.content), f)
    requires Sized(EndToken("body")) && Sized(EndToken("html"))
    requires Feeds(f, [EndToken("body"), EndToken("html")], f.(mode := AfterAfterBody))
    requires Ok(f.(mode := AfterAfterBody))
    ensures Feeds(Begin(), PageTokens(p), f.(mode := AfterAfterBody))
  {
    hide Ok, Sized, Process, Feeds, TokensOfAll, MetaTokens, HeadingTokens;
    var t0 := HeadingTokens(p.heading);
    var t1 := [StartToken("html", p.html), StartToken("head", p.head)] + MetaTokens(p.metas) + [EndToken("head")];
    var t2 := [StartToken("body", p.body)];
    var t3 := TokensOfAll(p.content);
    var t4 := [EndToken("body"), EndToken("html")];
    FeedsOne(c, StartToken("body", p.body));
    FeedsThen(Begin(), t0, b, t1, c);
    FeedsThen(Begin(), t0 + t1, c, t2, k);
    FeedsThen(Begin(), t0 + t1 + t2, k, t3, f);
    FeedsThen(Begin(), t0 + t1 + t2 + t3, f, t4, f.(mode := AfterAfterBody));
    assert PageTokens(p) == t0 + t1 + t2 + t3 + t4;
  }

  // From text to tree.

  lemma {:induction false} ParseFeeds(input: Source, pos: nat, b: Builder, ts: seq<Token>, r: Builder)
    requires Ok(b) && (forall t <- ts :: Sized(t) && Writable(t)) && Feeds(b, ts, r)
    requires At(input, pos, RenderAll(ts))
    ensures Ok(r) && ParseFrom(input, Ready(pos), b) == ParseFrom(input, Ready(pos + |RenderAll(ts)|), r)
    decreases |ts|
  {
    hide Next, Render, Writable, Process, Ok, Sized, Good;
    if ts != [] {
      var text := Render(ts[0]);
      AtParts(input, pos, text, RenderAll(ts[1..]));
      ReadToken(input, pos, ts[0]);
      Impossible(ts[0]);
      ParseFeeds(input, pos + |text|, Process(b, ts[0]).builder, ts[1..], r);
      ParseOne(input, pos, b, ts[0], pos + |text|);
    }
  }

  lemma ParseOne(input: Source, pos: nat, b: Builder, t: Token, then_: nat)
    requires Ok(b) && pos <= |input| && then_ <= |input| && Sized(t) && !t.kind.EndOfFile?
    requires Next(input, Ready(pos)) == (t, Ready(then_)) && Process(b, t).switch.Keep?
    ensures ParseFrom(input, Ready(pos), b) == ParseFrom(input, Ready(then_), Process(b, t).builder)
  {
    hide Process, Ok, Sized, Next;
  }

  lemma {:induction false} TreeWritable(t: Tree, room: nat)
    requires Fits(t, room)
    ensures forall x <- TokensOf(t) :: Writable(x)
    decreases t, 0
  {
    hide IsTagName;
    if t.data.TextData? {
      CharsSized(t.data.text);
    } else {
      TreesWritable(t.kids, room - 1);
    }
  }

  lemma {:induction false} TreesWritable(ts: seq<Tree>, room: nat)
    requires AllFit(ts, room)
    ensures forall x <- TokensOfAll(ts) :: Writable(x)
    decreases ts, 1
  {
    hide Fits, Writable, TokensOf;
    if ts != [] {
      TreeWritable(ts[0], room);
      assert forall i :: 0 <= i < |ts| - 1 ==> ts[1..][i] == ts[i + 1];
      TreesWritable(ts[1..], room);
    }
  }

  lemma StartWritable(tag: string, attrs: seq<Attr>)
    requires IsAttrs(attrs) && (tag == "html" || tag == "head" || tag == "body" || tag == "meta")
    ensures Writable(StartToken(tag, attrs))
  {
    assert IsTagName("html") && IsTagName("head") && IsTagName("body") && IsTagName("meta");
  }

  lemma {:induction false} MetasWritable(metas: seq<seq<Attr>>)
    requires forall m <- metas :: IsAttrs(m)
    ensures forall x <- MetaTokens(metas) :: Writable(x)
  {
    if metas != [] {
      StartWritable("meta", metas[0]);
      MetasWritable(metas[1..]);
    }
  }

  lemma EndsWritable()
    ensures Writable(EndToken("head")) && Writable(EndToken("body")) && Writable(EndToken("html"))
  {
  }

  lemma PageWritable(p: Page)
    requires IsPage(p)
    ensures forall x <- PageTokens(p) :: Writable(x)
  {
    hide AllFit, TokensOfAll, MetaTokens, IsAttrs;
    MetasWritable(p.metas);
    TreesWritable(p.content, STACK_LIMIT - 3);
    StartWritable("html", p.html);
    StartWritable("head", p.head);
    StartWritable("body", p.body);
    EndsWritable();
    assert forall x <- HeadingTokens(p.heading) :: Writable(x);
    hide Writable, HeadingTokens;
  }

  /** Parsing the HTML text of a page builds exactly that page, whatever its content. */
  lemma PageRoundTrip(p: Page)
    requires IsPage(p)
    ensures forall x <- PageTokens(p) :: Writable(x)
    ensures '\0' !in RenderAll(PageTokens(p))
    ensures View(Parse(RenderAll(PageTokens(p))), 0) == PageTree(p)
  {
    hide PageTokens, PageTree, IsPage, Ok, Sized, Writable, RenderAll, Feeds, View;
    PageWritable(p);
    TextHasNoNul(PageTokens(p));
    var text: Source := RenderAll(PageTokens(p));
    var r := PageBuilds(p);
    ParseFeeds(text, 0, Begin(), PageTokens(p), r);
    assert ParseFrom(text, Ready(|text|), r) == r;
  }
}
