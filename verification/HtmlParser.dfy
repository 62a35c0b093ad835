/** The HTML parser over linked nodes: DOM nodes with pointers, the array of open elements, and process_token. */
module HtmlParser {
  import opened HtmlTokens
  import opened HtmlTokenizer
  import opened HtmlDom
  import opened HtmlBuilder

  /** A node's data and pointers at one moment. */
  datatype Cell = Cell(data: Data, parent: Node?, prev: Node?, next: Node?, first: Node?, last: Node?)

  class Node {
    var data: Data
    var parent: Node?
    var prevSibling: Node?
    var nextSibling: Node?
    var firstChild: Node?
    var lastChild: Node?

    function Now(): Cell
      reads this
    {
      Cell(data, parent, prevSibling, nextSibling, firstChild, lastChild)
    }

    constructor (d: Data)
      ensures Now() == Cell(d, null, null, null, null, null)
    {
      data := d;
      parent, prevSibling, nextSibling, firstChild, lastChild := null, null, null, null, null;
    }

    method AppendChild(child: Node)
      requires child != this && lastChild != this && lastChild != child
      requires firstChild == null <==> lastChild == null
      modifies this, child, if lastChild == null then {} else {lastChild}
      ensures Now() == old(Now()).(first := if old(firstChild) == null then child else old(firstChild), last := child)
      ensures child.Now() == old(child.Now()).(parent := this, prev := if old(lastChild) == null then old(child.prevSibling) else old(lastChild))
      ensures old(lastChild) != null ==> old(lastChild).Now() == old(lastChild.Now()).(next := child)
    {
      child.parent := this;
      if firstChild == null {
        firstChild := child;
        lastChild := child;
      } else {
        lastChild.nextSibling := child;
        child.prevSibling := lastChild;
        lastChild := child;
      }
    }
  }

  function Pointer(nodes: seq<Node>, link: Link): Node? {
    if link.To? && link.id < |nodes| then nodes[link.id] else null
  }

  /** What a record of the DOM looks like in memory. */
  function InMemory(nodes: seq<Node>, r: Record): Cell {
    Cell(r.data, Pointer(nodes, r.parent), Pointer(nodes, r.prev), Pointer(nodes, r.next), Pointer(nodes, r.first), Pointer(nodes, r.last))
  }

  predicate Distinct(nodes: seq<Node>) {
    forall i, j | 0 <= i < j < |nodes| :: nodes[i] != nodes[j]
  }

  predicate Mirrors(nodes: seq<Node>, dom: Dom)
    reads nodes
    ensures Mirrors(nodes, dom) ==> |nodes| == |dom|
  {
    && |nodes| == |dom| && Distinct(nodes)
    && forall i | 0 <= i < |nodes| :: nodes[i].Now() == InMemory(nodes, dom[i])
  }

  function Cells(nodes: seq<Node>): (r: seq<Cell>)
    reads nodes
    ensures |r| == |nodes| && forall i | 0 <= i < |nodes| :: r[i] == nodes[i].Now()
  {
    if nodes == [] then [] else Cells(nodes[..|nodes| - 1]) + [nodes[|nodes| - 1].Now()]
  }

  lemma CellsMirror(nodes: seq<Node>, dom: Dom)
    requires Mirrors(nodes, dom)
    ensures forall i | 0 <= i < |nodes| :: Cells(nodes)[i] == InMemory(nodes, dom[i])
  {
  }

  /** The cells after the new node n has been appended to the node p, whose last child is given. */
  function AppendCell(nodes: seq<Node>, cells: seq<Cell>, n: Node, p: nat, last: Link, d: Data): (r: seq<Cell>)
    requires |nodes| == |cells| && p < |nodes| && (last.To? ==> last.id < |nodes|)
    ensures |r| == |nodes| + 1
  {
    var parent := cells[p].(first := if cells[p].first == null then n else cells[p].first, last := n);
    var with := cells[p := parent] + [Cell(d, nodes[p], Pointer(nodes, last), null, null, null)];
    if last.To? then with[last.id := with[last.id].(next := n)] else with
  }

  /** Which cells those are. */
  lemma AppendCells(nodes: seq<Node>, cells: seq<Cell>, n: Node, p: nat, last: Link, d: Data)
    requires |nodes| == |cells| && p < |nodes| && (last.To? ==> p < last.id < |nodes|)
    ensures
      var r := AppendCell(nodes, cells, n, p, last, d);
      && r[|nodes|] == Cell(d, nodes[p], Pointer(nodes, last), null, null, null)
      && r[p] == cells[p].(first := if cells[p].first == null then n else cells[p].first, last := n)
      && (last.To? ==> r[last.id] == cells[last.id].(next := n))
      && forall i | 0 <= i < |nodes| && i != p && (last.To? ==> i != last.id) :: r[i] == cells[i]
  {
  }

  lemma LastInMemory(nodes: seq<Node>, dom: Dom, p: nat)
    requires Mirrors(nodes, dom) && IsTree(dom) && p < |nodes|
    ensures
      var n := nodes[p];
      && n.lastChild == Pointer(nodes, dom[p].last) && (n.firstChild == null <==> n.lastChild == null)
      && (dom[p].last.To? ==> p < dom[p].last.id < |nodes| && n.lastChild == nodes[dom[p].last.id] != n)
  {
    LinksInRange(dom, p);
    assert nodes[p].Now() == InMemory(nodes, dom[p]);
  }

  predicate InRange(link: Link, n: nat) {
    link.To? ==> link.id < n
  }

  lemma InMemoryMore(nodes: seq<Node>, n: Node, r: Record)
    requires InRange(r.parent, |nodes|) && InRange(r.prev, |nodes|) && InRange(r.next, |nodes|)
    requires InRange(r.first, |nodes|) && InRange(r.last, |nodes|)
    ensures InMemory(nodes + [n], r) == InMemory(nodes, r)
  {
  }

  lemma AppendCellAt(nodes: seq<Node>, cells: seq<Cell>, n: Node, p: nat, last: Link, d: Data, i: nat)
    requires |nodes| == |cells| && p < |nodes| && i < |nodes| && (last.To? ==> p < last.id < |nodes|)
    ensures
      AppendCell(nodes, cells, n, p, last, d)[i] ==
      if i == p then cells[p].(first := if cells[p].first == null then n else cells[p].first, last := n)
      else if To(i) == last then cells[i].(next := n)
      else cells[i]
  {
  }

  lemma AppendedRecord(dom: Dom, p: nat, d: Data, i: nat)
    requires IsTree(dom) && p < |dom| && i < |dom| && (dom[p].last.To? ==> p < dom[p].last.id < |dom|)
    ensures
      HtmlDom.AppendChild(dom, p, d)[i].(children := []) ==
      if i == p then dom[p].(first := if dom[p].first.Null? then To(|dom|) else dom[p].first, last := To(|dom|), children := [])
      else if To(i) == dom[p].last then dom[i].(next := To(|dom|), children := [])
      else dom[i].(children := [])
  {
    hide IsTree, HtmlDom.AppendChild;
    AppendFrame(dom, p, d);
  }

  lemma AppendMirrorsAt(nodes: seq<Node>, dom: Dom, cells: seq<Cell>, n: Node, p: nat, d: Data, i: nat)
    requires IsTree(dom) && p < |dom| == |nodes| == |cells| && i < |dom|
    requires forall i | 0 <= i < |nodes| :: cells[i] == InMemory(nodes, dom[i])
    requires dom[p].last.To? ==> p < dom[p].last.id < |nodes|
    ensures
      AppendCell(nodes, cells, n, p, dom[p].last, d)[i] == InMemory(nodes + [n], HtmlDom.AppendChild(dom, p, d)[i])
  {
    hide IsTree, HtmlDom.AppendChild, AppendCell;
    AppendedRecord(dom, p, d, i);
    LinksInRange(dom, i);
    InMemoryMore(nodes, n, dom[i]);
    AppendCellAt(nodes, cells, n, p, dom[p].last, d, i);
    assert cells[i] == InMemory(nodes, dom[i]);
    assert Pointer(nodes + [n], To(|nodes|)) == n;
    var r := HtmlDom.AppendChild(dom, p, d)[i];
    assert InMemory(nodes + [n], r) == InMemory(nodes + [n], r.(children := []));
  }

  lemma AppendMirrorsNew(nodes: seq<Node>, dom: Dom, cells: seq<Cell>, n: Node, p: nat, d: Data)
    requires IsTree(dom) && p < |dom| == |nodes| == |cells|
    requires dom[p].last.To? ==> p < dom[p].last.id < |nodes|
    ensures
      AppendCell(nodes, cells, n, p, dom[p].last, d)[|nodes|] == InMemory(nodes + [n], HtmlDom.AppendChild(dom, p, d)[|nodes|])
  {
    hide IsTree, HtmlDom.AppendChild;
    AppendFrame(dom, p, d);
  }

  lemma AppendMirrors(nodes: seq<Node>, dom: Dom, cells: seq<Cell>, n: Node, p: nat, d: Data)
    requires IsTree(dom) && p < |dom| == |nodes| == |cells|
    requires forall i | 0 <= i < |nodes| :: cells[i] == InMemory(nodes, dom[i])
    requires dom[p].last.To? ==> p < dom[p].last.id < |nodes|
    ensures
      var dom' := HtmlDom.AppendChild(dom, p, d);
      var cells' := AppendCell(nodes, cells, n, p, dom[p].last, d);
      |dom'| == |cells'| && forall i | 0 <= i < |cells'| :: cells'[i] == InMemory(nodes + [n], dom'[i])
  {
    hide IsTree, HtmlDom.AppendChild, InMemory, AppendCell;
    var dom' := HtmlDom.AppendChild(dom, p, d);
    var cells' := AppendCell(nodes, cells, n, p, dom[p].last, d);
    forall i | 0 <= i < |cells'| ensures cells'[i] == InMemory(nodes + [n], dom'[i]) {
      if i < |dom| {
        AppendMirrorsAt(nodes, dom, cells, n, p, d, i);
      } else {
        AppendMirrorsNew(nodes, dom, cells, n, p, d);
      }
    }
  }

  /** Setting a text state between tokens adds nothing to what the tokenizer can still produce. */
  lemma SwitchCosts(input: Source, m: Machine, switch: Switch)
    requires Good(input, m)
    requires switch.Set? ==> m.current.None? && (switch.state.Data? || switch.state.Rcdata? || switch.state.Rawtext?)
    ensures Good(input, SwitchTo(m, switch)) && Budget(input, SwitchTo(m, switch)) <= Budget(input, m)
  {
  }

  lemma DataAt(nodes: seq<Node>, dom: Dom, i: nat)
    requires Mirrors(nodes, dom) && i < |dom|
    ensures nodes[i].data == dom[i].data
  {
    assert nodes[i].Now() == InMemory(nodes, dom[i]);
  }

  lemma OkStack(b: Builder)
    requires Ok(b)
    ensures StackGood(b.dom, b.open)
  {
  }

  /** The modes a builder may be put in. */
  lemma ModeKeeps(b: Builder)
    requires Ok(b)
    ensures Ok(b.(mode := BeforeHtml)) && Ok(b.(mode := BeforeHead)) && Ok(b.(mode := InBody)) && Ok(b.(mode := AfterAfterBody))
    ensures |b.open| >= 2 ==> Ok(b.(mode := InHead)) && Ok(Pop(b).(mode := AfterHead))
  {
  }

  lemma LinksInRange(dom: Dom, i: nat)
    requires IsTree(dom) && i < |dom|
    ensures dom[i].parent.To? ==> dom[i].parent.id < |dom|
    ensures dom[i].prev.To? ==> dom[i].prev.id < |dom|
    ensures dom[i].next.To? ==> dom[i].next.id < |dom|
    ensures dom[i].first.To? ==> dom[i].first.id < |dom|
    ensures dom[i].last.To? ==> i < dom[i].last.id < |dom|
    ensures dom[i].first.Null? <==> dom[i].last.Null?
  {
    AtNode(dom, i);
    if dom[i].children != [] {
      assert ChildLinked(dom, i, 0) && ChildLinked(dom, i, |dom[i].children| - 1);
    }
    if i > 0 {
      var p := dom[i].parent.id;
      AtNode(dom, p);
      var k :| 0 <= k < |dom[p].children| && dom[p].children[k] == i;
      assert ChildLinked(dom, p, k);
      if k > 0 {
        assert ChildLinked(dom, p, k - 1);
      }
      if k < |dom[p].children| - 1 {
        assert ChildLinked(dom, p, k + 1);
      }
    }
  }

  lemma SetAttrAt(attrs: seq<Attr>, i: nat, a: Attr)
    requires i < |attrs| && attrs[i].name == a.name && forall j | 0 <= j < i :: attrs[j].name != a.name
    ensures SetAttr(attrs, a) == attrs[i := a]
    decreases i
  {
    if i > 0 {
      SetAttrAt(attrs[1..], i - 1, a);
      assert [attrs[0]] + attrs[1..][i - 1 := a] == attrs[i := a];
    } else {
      assert [a] + attrs[1..] == attrs[0 := a];
    }
  }

  method SetAttribute(attrs: seq<Attr>, a: Attr) returns (r: seq<Attr>)
    ensures r == SetAttr(attrs, a)
  {
    for i := 0 to |attrs|
      invariant forall j | 0 <= j < i :: attrs[j].name != a.name
    {
      if attrs[i].name == a.name {
        SetAttrAt(attrs, i, a);
        return attrs[i := a];
      }
    }
    SetAttrNew(attrs, a);
    r := attrs + [a];
  }

  method SetAttributes(attrs: seq<Attr>) returns (r: seq<Attr>)
    ensures r == SetAttrs(attrs)
  {
    r := [];
    for i := 0 to |attrs|
      invariant r == SetAttrs(attrs[..i])
    {
      assert attrs[..i + 1][..i] == attrs[..i];
      r := SetAttribute(r, attrs[i]);
    }
    assert attrs[..|attrs|] == attrs;
  }

  class Parser {
    var document: Node?
    const openElements: array<Node?>
    var openCount: nat
    var mode: Mode
    /** The nodes made so far, and the builder state that the pointers stand for. */
    ghost var nodes: seq<Node>
    ghost var dom: Dom
    ghost var open: seq<nat>

    ghost function Snapshot(): Builder
      reads this
    {
      Builder(dom, open, mode)
    }

    ghost predicate OnStack()
      reads this, openElements
    {
      && openElements.Length == STACK_LIMIT && openCount == |open| <= STACK_LIMIT
      && forall k | 0 <= k < |open| :: open[k] < |nodes| && openElements[k] == nodes[open[k]]
    }

    ghost predicate Valid()
      reads this, openElements, nodes
    {
      Mirrors(nodes, dom) && Ok(Snapshot()) && OnStack() && nodes != [] && document == nodes[0]
    }

    constructor ()
      ensures openElements.Length == STACK_LIMIT && fresh(openElements)
    {
      document := null;
      openElements := new Node?[STACK_LIMIT](_ => null);
      openCount := 0;
      mode := Initial;
      nodes, dom, open := [], [], [];
    }

    method CurrentNode() returns (n: Node)
      requires Valid()
      ensures Top(Snapshot()) < |nodes| && n == nodes[Top(Snapshot())]
    {
      n := openElements[openCount - 1];
    }

    method PopElement()
      requires OnStack() && openCount > 0
      modifies `openCount, `open
      ensures OnStack() && Snapshot() == Pop(old(Snapshot()))
    {
      openCount := openCount - 1;
      open := open[..|open| - 1];
    }

    /** Appends a new node: only the cells of the parent and of its last child change. */
    method Link(parent: Node, n: Node, ghost p: nat, ghost last: Link)
      requires p < |nodes| && parent == nodes[p] && Distinct(nodes) && n !in nodes
      requires last.To? ==> p < last.id < |nodes|
      requires parent.lastChild == Pointer(nodes, last) && (parent.firstChild == null <==> parent.lastChild == null)
      requires n.Now() == Cell(n.data, null, null, null, null, null)
      modifies nodes, n
      ensures Cells(nodes + [n]) == AppendCell(nodes, old(Cells(nodes)), n, p, last, old(n.data))
    {
      ghost var cells := Cells(nodes);
      ghost var after := AppendCell(nodes, cells, n, p, last, n.data);
      AppendCells(nodes, cells, n, p, last, n.data);
      parent.AppendChild(n);
      hide AppendCell, Cells;
      forall i | 0 <= i < |nodes| + 1 ensures Cells(nodes + [n])[i] == after[i] {
        assert i < |nodes| ==> cells[i] == old(nodes[i].Now()) && (nodes + [n])[i] == nodes[i];
      }
    }

    /** Makes a node and appends it to the node p. */
    method Attach(parent: Node, ghost p: nat, d: Data) returns (n: Node)
      requires Mirrors(nodes, dom) && IsTree(dom) && p < |nodes| && parent == nodes[p]
      modifies `nodes, `dom, nodes
      ensures fresh(n) && nodes == old(nodes) + [n] && dom == HtmlDom.AppendChild(old(dom), p, d)
      ensures Mirrors(nodes, dom) && IsTree(dom)
    {
      hide IsTree, HtmlDom.AppendChild, InMemory, Cells, AppendCell;
      ghost var before, cells, was := nodes, Cells(nodes), dom;
      CellsMirror(nodes, dom);
      LastInMemory(nodes, dom, p);
      AppendKeeps(dom, p, d);
      n := new Node(d);
      Link(parent, n, p, dom[p].last);
      AppendMirrors(before, was, cells, n, p, d);
      nodes := nodes + [n];
      dom := HtmlDom.AppendChild(dom, p, d);
    }

    method InsertElement(name: string, attrs: seq<Attr>)
      requires Valid()
      modifies this, openElements, nodes
      ensures Valid() && Snapshot() == HtmlBuilder.InsertElement(old(Snapshot()), name, attrs)
      ensures old(nodes) <= nodes && forall i | |old(nodes)| <= i < |nodes| :: fresh(nodes[i])
    {
      hide IsTree, HtmlDom.AppendChild, Mirrors, Ok;
      InsertElementKeeps(Snapshot(), name, attrs);
      OkParts(Snapshot());
      var set_ := SetAttributes(attrs);
      var parent := CurrentNode();
      var n := Attach(parent, Top(Snapshot()), ElementData(name, set_));
      if openCount < STACK_LIMIT {
        openElements[openCount] := n;
        openCount := openCount + 1;
        open := open + [|nodes| - 1];
      }
    }

    method InsertDoctype(name: string)
      requires Valid()
      modifies this, nodes
      ensures Valid() && Snapshot() == HtmlBuilder.InsertDoctype(old(Snapshot()), name)
      ensures old(nodes) <= nodes && forall i | |old(nodes)| <= i < |nodes| :: fresh(nodes[i])
    {
      hide IsTree, HtmlDom.AppendChild, Mirrors;
      InsertDoctypeKeeps(Snapshot(), name);
      var n := Attach(document, 0, DoctypeData(name));
    }

    /** The last child of the current node, if it is a text. */
    method LastText() returns (text: Node?)
      requires Valid()
      ensures
        var last := dom[Top(Snapshot())].last;
        if last.To? && last.id < |dom| && dom[last.id].data.TextData?
        then text == nodes[last.id] && text.data == dom[last.id].data
        else text == null
    {
      hide IsTree;
      OkParts(Snapshot());
      var parent := CurrentNode();
      ghost var p := Top(Snapshot());
      LastInMemory(nodes, dom, p);
      if dom[p].last.To? {
        assert nodes[dom[p].last.id].Now() == InMemory(nodes, dom[dom[p].last.id]);
      }
      text := null;
      if parent.lastChild != null && parent.lastChild.data.TextData? {
        text := parent.lastChild;
      }
    }

    method ExtendText(text: Node, ghost i: nat, c: char)
      requires Mirrors(nodes, dom) && i < |dom| && text == nodes[i] && text.data.TextData?
      modifies `dom, nodes
      ensures old(dom[i].data.TextData?)
      ensures dom == old(dom)[i := old(dom[i]).(data := TextData(old(dom[i].data.text) + [c]))] && Mirrors(nodes, dom)
    {
      hide Pointer;
      assert text.Now() == InMemory(nodes, dom[i]);
      text.data := TextData(text.data.text + [c]);
      dom := dom[i := dom[i].(data := text.data)];
      forall j | 0 <= j < |nodes| ensures nodes[j].Now() == InMemory(nodes, dom[j]) {
        assert old(nodes[j].Now()) == InMemory(nodes, old(dom[j]));
      }
    }

    method InsertCharacter(c: char)
      requires Valid()
      modifies this, nodes
      ensures Valid() && Snapshot() == HtmlBuilder.InsertCharacter(old(Snapshot()), c)
      ensures old(nodes) <= nodes && forall i | |old(nodes)| <= i < |nodes| :: fresh(nodes[i])
    {
      hide IsTree, HtmlDom.AppendChild, Ok, Mirrors;
      InsertCharacterKeeps(Snapshot(), c);
      OkParts(Snapshot());
      var parent := CurrentNode();
      var text := LastText();
      if text != null {
        ExtendText(text, dom[Top(Snapshot())].last.id, c);
      } else {
        var n := Attach(parent, Top(Snapshot()), TextData([c]));
      }
    }

    /** Pops elements up to and with the innermost one of that name, or down to the document. */
    method PopToTag(name: string)
      requires OnStack() && Mirrors(nodes, dom) && StackGood(dom, open)
      modifies `openCount, `open
      ensures OnStack() && open == PopTo(dom, old(open), name)
    {
      hide Mirrors, PopTo;
      while openCount > 1
        invariant OnStack() && StackGood(dom, open)
        invariant PopTo(dom, open, name) == PopTo(dom, old(open), name)
        decreases openCount
      {
        ghost var i := open[openCount - 1];
        var n := openElements[openCount - 1];
        DataAt(nodes, dom, i);
        PopStep(dom, open, name);
        if n.data.ElementData? && n.data.tag == name {
          PopElement();
          return;
        }
        PopElement();
      }
      PopStep(dom, open, name);
    }

    method HeadOnStack() returns (found: bool)
      requires OnStack() && Mirrors(nodes, dom) && forall k | 0 <= k < |open| :: open[k] < |dom|
      ensures found == InHeadStill(dom, open)
    {
      hide Mirrors;
      for k := 0 to openCount
        invariant forall j | 0 <= j < k :: !HasTag(dom[open[j]].data, "head")
      {
        var n := openElements[k];
        DataAt(nodes, dom, open[k]);
        if n.data.ElementData? && n.data.tag == "head" {
          return true;
        }
      }
      found := false;
    }

    /** A tag leaves the tokenizer without a token under construction, so its state may be set. */
    ghost predicate CanSwitch(t: Token, tokenizer: Tokenizer)
      reads tokenizer
    {
      tokenizer.Valid() && (t.kind.StartTag? || t.kind.EndTag? ==> tokenizer.current.None?)
    }

    method HeadCase(t: Token, tokenizer: Tokenizer)
      requires Valid() && CanSwitch(t, tokenizer) && Sized(t) && mode.InHead?
      requires IsBlank(t) || IsEnd(t, "head") || IsStart(t, "title") || (t.kind.StartTag? && IsRaw(t.name)) || IsStart(t, "meta")
      modifies this, openElements, nodes, tokenizer`state
      ensures Valid() && tokenizer.Valid()
      ensures old(nodes) <= nodes && forall i | |old(nodes)| <= i < |nodes| :: fresh(nodes[i])
      ensures
        var e := OnHead(old(Snapshot()), t);
        Snapshot() == e.builder && tokenizer.Snapshot() == SwitchTo(old(tokenizer.Snapshot()), e.switch)
    {
      hide IsTree, Ok, Mirrors, HtmlBuilder.InsertElement, HtmlBuilder.InsertCharacter;
      HeadKeeps(Snapshot(), t);
      OkParts(Snapshot());
      if IsBlank(t) {
        InsertCharacter(t.data[0]);
      } else if t.kind.EndTag? {
        PopElement();
        mode := AfterHead;
      } else if t.name == "title" {
        InsertElement(t.name, t.attrs);
        tokenizer.SetState(Rcdata);
        mode := InText;
      } else if t.name == "meta" {
        InsertElement(t.name, t.attrs);
        OkParts(Snapshot());
        PopElement();
      } else {
        InsertElement(t.name, t.attrs);
        tokenizer.SetState(Rawtext);
        mode := InText;
      }
    }

    method BodyCase(t: Token, tokenizer: Tokenizer)
      requires Valid() && CanSwitch(t, tokenizer) && Sized(t) && mode.InBody?
      modifies this, openElements, nodes, tokenizer`state
      ensures Valid() && tokenizer.Valid()
      ensures old(nodes) <= nodes && forall i | |old(nodes)| <= i < |nodes| :: fresh(nodes[i])
      ensures
        var e := OnBody(old(Snapshot()), t);
        Snapshot() == e.builder && tokenizer.Snapshot() == SwitchTo(old(tokenizer.Snapshot()), e.switch)
    {
      hide IsTree, Ok, Mirrors, HtmlBuilder.InsertElement, HtmlBuilder.InsertCharacter;
      BodyKeeps(Snapshot(), t);
      OkParts(Snapshot());
      if t.kind.Character? {
        InsertCharacter(t.data[0]);
      } else if t.kind.StartTag? {
        InsertElement(t.name, t.attrs);
        if IsRaw(t.name) {
          tokenizer.SetState(Rawtext);
          mode := InText;
        } else if IsVoid(t.name) {
          OkParts(Snapshot());
          PopElement();
        }
      } else if t.kind.EndTag? {
        if t.name == "body" {
          mode := AfterBody;
        } else {
          OkStack(Snapshot());
          PopToTag(t.name);
        }
      }
    }

    method TextCase(t: Token, tokenizer: Tokenizer)
      requires Valid() && CanSwitch(t, tokenizer) && Sized(t) && mode.InText?
      modifies this, openElements, nodes, tokenizer`state
      ensures Valid() && tokenizer.Valid()
      ensures old(nodes) <= nodes && forall i | |old(nodes)| <= i < |nodes| :: fresh(nodes[i])
      ensures
        var e := OnInText(old(Snapshot()), t);
        Snapshot() == e.builder && tokenizer.Snapshot() == SwitchTo(old(tokenizer.Snapshot()), e.switch)
    {
      hide IsTree, Ok, Mirrors, HtmlBuilder.InsertCharacter;
      TextKeeps(Snapshot(), t);
      OkParts(Snapshot());
      OkStack(Snapshot());
      if t.kind.Character? {
        InsertCharacter(t.data[0]);
      } else if t.kind.EndTag? {
        PopElement();
        var inHead := HeadOnStack();
        mode := if inHead then InHead else InBody;
        tokenizer.SetState(Data);
      }
    }

    /** Inserts html, head or body and goes on to the mode inside it. */
    method Enter(name: string, attrs: seq<Attr>, m: Mode)
      requires Valid() && (m.BeforeHead? || m.InHead? || m.InBody?)
      modifies this, openElements, nodes
      ensures Valid() && Snapshot() == HtmlBuilder.InsertElement(old(Snapshot()), name, attrs).(mode := m)
      ensures old(nodes) <= nodes && forall i | |old(nodes)| <= i < |nodes| :: fresh(nodes[i])
    {
      hide IsTree, Ok, Mirrors, HtmlBuilder.InsertElement;
      InsertElementKeeps(Snapshot(), name, attrs);
      ModeKeeps(HtmlBuilder.InsertElement(Snapshot(), name, attrs));
      InsertElement(name, attrs);
      mode := m;
    }

    method EnterDoctype(name: string)
      requires Valid()
      modifies this, nodes
      ensures Valid() && Snapshot() == HtmlBuilder.InsertDoctype(old(Snapshot()), name).(mode := BeforeHtml)
      ensures old(nodes) <= nodes && forall i | |old(nodes)| <= i < |nodes| :: fresh(nodes[i])
    {
      hide IsTree, Ok, Mirrors, HtmlBuilder.InsertDoctype;
      InsertDoctype(name);
      ModeKeeps(Snapshot());
      mode := BeforeHtml;
    }

    method InHeadCase(t: Token, tokenizer: Tokenizer)
      requires Valid() && CanSwitch(t, tokenizer) && Sized(t) && mode.InHead?
      modifies this, openElements, nodes, tokenizer`state
      ensures Valid() && tokenizer.Valid()
      ensures old(nodes) <= nodes && forall i | |old(nodes)| <= i < |nodes| :: fresh(nodes[i])
      ensures
        var e := Process(old(Snapshot()), t);
        Snapshot() == e.builder && tokenizer.Snapshot() == SwitchTo(old(tokenizer.Snapshot()), e.switch)
      decreases ModeRank(mode), 0
    {
      hide IsTree, Ok, Mirrors, HtmlBuilder.InsertElement, HtmlBuilder.InsertCharacter, HtmlBuilder.InsertDoctype, OnHead, OnBody, OnInText;
      if IsBlank(t) || IsEnd(t, "head") || IsStart(t, "title") || (t.kind.StartTag? && IsRaw(t.name)) || IsStart(t, "meta") {
        HeadCase(t, tokenizer);
      } else {
        OkParts(Snapshot());
        ModeKeeps(Snapshot());
        PopElement();
        mode := AfterHead;
        ProcessToken(t, tokenizer);
      }
    }

    method AfterHeadCase(t: Token, tokenizer: Tokenizer)
      requires Valid() && CanSwitch(t, tokenizer) && Sized(t) && mode.AfterHead?
      modifies this, openElements, nodes, tokenizer`state
      ensures Valid() && tokenizer.Valid()
      ensures old(nodes) <= nodes && forall i | |old(nodes)| <= i < |nodes| :: fresh(nodes[i])
      ensures
        var e := Process(old(Snapshot()), t);
        Snapshot() == e.builder && tokenizer.Snapshot() == SwitchTo(old(tokenizer.Snapshot()), e.switch)
      decreases ModeRank(mode), 0
    {
      hide IsTree, Ok, Mirrors, HtmlBuilder.InsertElement, HtmlBuilder.InsertCharacter, HtmlBuilder.InsertDoctype, OnHead, OnBody, OnInText;
      if IsBlank(t) {
        InsertCharacter(t.data[0]);
      } else if IsStart(t, "body") {
        Enter(t.name, t.attrs, InBody);
      } else {
        Enter("body", [], InBody);
        ProcessToken(t, tokenizer);
      }
    }

    /** process_token. */
    method ProcessToken(t: Token, tokenizer: Tokenizer)
      requires Valid() && CanSwitch(t, tokenizer) && Sized(t)
      modifies this, openElements, nodes, tokenizer`state
      ensures Valid() && tokenizer.Valid()
      ensures old(nodes) <= nodes && forall i | |old(nodes)| <= i < |nodes| :: fresh(nodes[i])
      ensures
        var e := Process(old(Snapshot()), t);
        Snapshot() == e.builder && tokenizer.Snapshot() == SwitchTo(old(tokenizer.Snapshot()), e.switch)
      decreases ModeRank(mode), 1
    {
      hide IsTree, Ok, Mirrors, HtmlBuilder.InsertElement, HtmlBuilder.InsertCharacter, HtmlBuilder.InsertDoctype, OnHead, OnBody, OnInText, IsStart, IsEnd;
      match mode
      case Initial =>
        if !IsBlank(t) {
          ModeKeeps(Snapshot());
          if t.kind.Doctype? {
            EnterDoctype(t.name);
          } else {
            mode := BeforeHtml;
            ProcessToken(t, tokenizer);
          }
        }
      case BeforeHtml =>
        if !IsBlank(t) {
          if IsStart(t, "html") {
            Enter(t.name, t.attrs, BeforeHead);
          } else {
            Enter("html", [], BeforeHead);
            ProcessToken(t, tokenizer);
          }
        }
      case BeforeHead =>
        if !IsBlank(t) {
          if IsStart(t, "head") {
            Enter(t.name, t.attrs, InHead);
          } else {
            Enter("head", [], InHead);
            ProcessToken(t, tokenizer);
          }
        }
      case InHead => InHeadCase(t, tokenizer);
      case AfterHead => AfterHeadCase(t, tokenizer);
      case InBody => BodyCase(t, tokenizer);
      case InText => TextCase(t, tokenizer);
      case AfterBody =>
        ModeKeeps(Snapshot());
        if IsEnd(t, "html") {
          mode := AfterAfterBody;
        }
      case AfterAfterBody =>
    }

    /** A new document, alone on the stack. */
    method Reset()
      requires openElements.Length == STACK_LIMIT
      modifies this, openElements
      ensures Valid() && Snapshot() == Begin() && fresh(nodes[0]) && |nodes| == 1
    {
      var d := new Node(DocumentData);
      document := d;
      openElements[0] := d;
      openCount := 1;
      mode := Initial;
      nodes, dom, open := [d], NewDom(), [0];
    }

    /** parse: a new document, then token by token up to the end of the file. */
    method ParseText(html: Source) returns (root: Node)
      requires openElements.Length == STACK_LIMIT
      modifies this, openElements
      ensures Valid() && dom == HtmlBuilder.Parse(html) && root == nodes[0]
    {
      hide IsTree, Ok, Mirrors, Process, Next, Good;
      Reset();
      root := document;
      var tokenizer := new Tokenizer(html);
      while true
        invariant Valid() && tokenizer.Valid() && tokenizer.input == html
        invariant (forall i | 0 <= i < |nodes| :: fresh(nodes[i])) && nodes != [] && root == nodes[0]
        invariant ParseFrom(html, tokenizer.Snapshot(), Snapshot()) == ParseFrom(html, Start(), Begin())
        decreases Budget(html, tokenizer.Snapshot())
      {
        ghost var m, b := tokenizer.Snapshot(), Snapshot();
        var t := tokenizer.NextToken();
        if t.kind.EndOfFile? {
          break;
        }
        SwitchOnTags(b, t);
        ghost var n := tokenizer.Snapshot();
        ProcessToken(t, tokenizer);
        SwitchCosts(html, n, Process(b, t).switch);
      }
    }
  }
}
