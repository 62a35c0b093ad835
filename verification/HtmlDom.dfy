/** The DOM: nodes in creation order, each with its parent, sibling and child links, and the tree they spell. */
module HtmlDom {
  import opened HtmlTokens

  datatype Data =
    | DocumentData
    | DoctypeData(name: string)
    | ElementData(tag: string, attrs: seq<Attr>)
    | TextData(text: string)

  datatype Link = Null | To(id: nat)

  /** A node's data and its five pointers; children is the list the pointers are meant to spell. */
  datatype Record = Record(data: Data, parent: Link, prev: Link, next: Link, first: Link, last: Link, children: seq<nat>)

  type Dom = seq<Record>

  function FirstOf(ids: seq<nat>): Link {
    if ids == [] then Null else To(ids[0])
  }

  function LastOf(ids: seq<nat>): Link {
    if ids == [] then Null else To(ids[|ids| - 1])
  }

  /** The k-th child points at its parent and at the children next to it. */
  predicate ChildLinked(dom: Dom, i: nat, k: nat)
    requires i < |dom| && k < |dom[i].children|
  {
    var ids := dom[i].children;
    && i < ids[k] < |dom|
    && (k > 0 ==> ids[k - 1] < ids[k])
    && dom[ids[k]].parent == To(i)
    && dom[ids[k]].prev == (if k == 0 then Null else To(ids[k - 1]))
    && dom[ids[k]].next == (if k == |ids| - 1 then Null else To(ids[k + 1]))
  }

  /** A node's first, last and its children's sibling links spell its list of children. */
  predicate Linked(dom: Dom, i: nat)
    requires i < |dom|
  {
    && dom[i].first == FirstOf(dom[i].children)
    && dom[i].last == LastOf(dom[i].children)
    && forall k | 0 <= k < |dom[i].children| :: ChildLinked(dom, i, k)
  }

  /** Every node but the first hangs below one created before it, among that node's children. */
  predicate Hangs(dom: Dom, i: nat)
    requires i < |dom|
  {
    if i == 0 then dom[i].parent == Null && dom[i].prev == Null && dom[i].next == Null
    else dom[i].parent.To? && dom[i].parent.id < i && i in dom[dom[i].parent.id].children
  }

  predicate IsTree(dom: Dom) {
    && |dom| > 0
    && forall i | 0 <= i < |dom| :: Linked(dom, i) && Hangs(dom, i)
  }

  /** append_child of a new node. */
  function AppendChild(dom: Dom, p: nat, data: Data): (r: Dom)
    requires IsTree(dom) && p < |dom|
    ensures |r| == |dom| + 1
  {
    var n := |dom|;
    var child := Record(data, To(p), dom[p].last, Null, Null, Null, []);
    var parent := dom[p].(children := dom[p].children + [n], last := To(n), first := if dom[p].first.Null? then To(n) else dom[p].first);
    if dom[p].last.Null? then dom[p := parent] + [child]
    else
      LastChild(dom, p);
      var l := dom[p].last.id;
      dom[p := parent][l := dom[l].(next := To(n))] + [child]
  }

  lemma LastChild(dom: Dom, p: nat)
    requires IsTree(dom) && p < |dom| && dom[p].last.To?
    ensures p < dom[p].last.id < |dom|
    ensures dom[p].children != [] && dom[p].last.id == dom[p].children[|dom[p].children| - 1]
  {
    assert Linked(dom, p);
    assert ChildLinked(dom, p, |dom[p].children| - 1);
  }

  function NewDom(): Dom {
    [Record(DocumentData, Null, Null, Null, Null, Null, [])]
  }

  lemma OneParent(dom: Dom, i: nat, k: nat, j: nat, l: nat)
    requires IsTree(dom) && i < |dom| && j < |dom| && k < |dom[i].children| && l < |dom[j].children|
    requires dom[i].children[k] == dom[j].children[l]
    ensures i == j
  {
    assert Linked(dom, i) && Linked(dom, j);
    assert ChildLinked(dom, i, k) && ChildLinked(dom, j, l);
  }

  lemma Increasing(dom: Dom, i: nat, k: nat, l: nat)
    requires IsTree(dom) && i < |dom| && k <= l < |dom[i].children|
    ensures dom[i].children[k] <= dom[i].children[l]
    ensures k < l ==> dom[i].children[k] < dom[i].children[l]
    decreases l - k
  {
    assert Linked(dom, i);
    if k < l {
      Increasing(dom, i, k, l - 1);
      assert ChildLinked(dom, i, l);
    }
  }

  /** Appending changes the parent's child list, the last sibling's next link, and adds the node: nothing else. */
  lemma AppendFrame(dom: Dom, p: nat, data: Data)
    requires IsTree(dom) && p < |dom|
    ensures
      var d := AppendChild(dom, p, data);
      && |d| == |dom| + 1
      && (forall i | 0 <= i < |dom| :: d[i].data == dom[i].data && d[i].parent == dom[i].parent && d[i].prev == dom[i].prev)
      && (forall i | 0 <= i < |dom| && i != p :: d[i].children == dom[i].children && d[i].first == dom[i].first && d[i].last == dom[i].last)
      && (forall i | 0 <= i < |dom| && To(i) != dom[p].last :: d[i].next == dom[i].next)
      && d[p].children == dom[p].children + [|dom|] && d[p].last == To(|dom|)
      && d[p].first == (if dom[p].first.Null? then To(|dom|) else dom[p].first)
      && d[|dom|] == Record(data, To(p), dom[p].last, Null, Null, Null, [])
      && (dom[p].last.To? ==> dom[p].last.id < |dom| && d[dom[p].last.id].next == To(|dom|))
  {
    if dom[p].last.To? {
      LastChild(dom, p);
    }
  }

  lemma AppendKeepsLinked(dom: Dom, p: nat, data: Data, i: nat)
    requires IsTree(dom) && p < |dom| && i <= |dom|
    ensures
      var d := AppendChild(dom, p, data);
      |d| == |dom| + 1 && Linked(d, i) && Hangs(d, i)
  {
    hide AppendChild, IsTree, ChildLinked;
    var d := AppendChild(dom, p, data);
    AppendFrame(dom, p, data);
    if i < |dom| {
      assert Linked(dom, i) && Hangs(dom, i) && Linked(dom, p) by {
        AtNode(dom, i);
        AtNode(dom, p);
      }
      forall k | 0 <= k < |d[i].children| ensures ChildLinked(d, i, k) {
        AppendKeepsChild(dom, p, data, i, k);
      }
      if i == p && dom[p].first.To? {
        assert (dom[p].children + [|dom|])[0] == dom[p].children[0];
      }
      if dom[p].last.To? {
        LastChild(dom, p);
      }
      if i > 0 {
        var q := dom[i].parent.id;
        var k :| 0 <= k < |dom[q].children| && dom[q].children[k] == i;
        assert d[q].children[k] == i;
      }
    } else {
      assert d[p].children[|dom[p].children|] == i;
    }
  }

  lemma AtNode(dom: Dom, i: nat)
    requires IsTree(dom) && i < |dom|
    ensures Linked(dom, i) && Hangs(dom, i)
  {
  }

  /** A child's links stay right when its parent's list only grows and its next link follows the list. */
  lemma Relinked(dom: Dom, d: Dom, i: nat, k: nat)
    requires i < |dom| <= |d| && k < |dom[i].children| && ChildLinked(dom, i, k)
    requires dom[i].children <= d[i].children
    requires
      var c := dom[i].children[k];
      && d[c].parent == dom[c].parent && d[c].prev == dom[c].prev
      && d[c].next == (if k == |d[i].children| - 1 then Null else To(d[i].children[k + 1]))
    ensures ChildLinked(d, i, k)
  {
  }

  lemma NotLast(dom: Dom, p: nat, i: nat, k: nat)
    requires IsTree(dom) && p < |dom| && i < |dom| && k < |dom[i].children|
    ensures dom[p].last == LastOf(dom[p].children) && ChildLinked(dom, i, k)
    ensures To(dom[i].children[k]) == dom[p].last <==> i == p && k == |dom[p].children| - 1
  {
    hide IsTree, ChildLinked;
    AtNode(dom, i);
    AtNode(dom, p);
    LinkedParts(dom, i, k);
    LastIs(dom, p);
    if To(dom[i].children[k]) == dom[p].last {
      OneParent(dom, i, k, p, |dom[p].children| - 1);
      Increasing(dom, p, k, |dom[p].children| - 1);
    }
  }

  lemma NextFollows(dom: Dom, p: nat, data: Data, i: nat, k: nat)
    requires IsTree(dom) && p < |dom| && i < |dom| && k < |dom[i].children| && dom[i].children[k] < |dom|
    ensures
      var d := AppendChild(dom, p, data);
      && dom[i].children <= d[i].children
      && d[dom[i].children[k]].next == (if k == |d[i].children| - 1 then Null else To(d[i].children[k + 1]))
  {
    hide AppendChild, IsTree, Hangs, Linked;
    AppendFrame(dom, p, data);
    NotLast(dom, p, i, k);
  }

  lemma AppendKeepsOldChild(dom: Dom, p: nat, data: Data, i: nat, k: nat)
    requires IsTree(dom) && p < |dom| && i < |dom| && k < |dom[i].children|
    ensures k < |AppendChild(dom, p, data)[i].children| && ChildLinked(AppendChild(dom, p, data), i, k)
  {
    hide AppendChild, IsTree, Hangs, Linked;
    AppendFrame(dom, p, data);
    AtNode(dom, i);
    LinkedParts(dom, i, k);
    NextFollows(dom, p, data, i, k);
    Relinked(dom, AppendChild(dom, p, data), i, k);
  }

  lemma LinkedParts(dom: Dom, i: nat, k: nat)
    requires i < |dom| && Linked(dom, i) && k < |dom[i].children|
    ensures ChildLinked(dom, i, k)
  {
  }

  lemma LastIs(dom: Dom, i: nat)
    requires i < |dom| && Linked(dom, i)
    ensures dom[i].last == LastOf(dom[i].children)
  {
  }

  lemma AppendKeepsChild(dom: Dom, p: nat, data: Data, i: nat, k: nat)
    requires IsTree(dom) && p < |dom| && i < |dom|
    requires k < |AppendChild(dom, p, data)[i].children|
    ensures ChildLinked(AppendChild(dom, p, data), i, k)
  {
    hide AppendChild, IsTree, Hangs, Linked;
    var d := AppendChild(dom, p, data);
    AppendFrame(dom, p, data);
    if k < |dom[i].children| {
      AppendKeepsOldChild(dom, p, data, i, k);
    } else {
      assert i == p && k == |dom[p].children|;
      NewChildLinked(dom, p, data);
    }
  }

  lemma NewChildLinked(dom: Dom, p: nat, data: Data)
    requires IsTree(dom) && p < |dom|
    ensures var d := AppendChild(dom, p, data); var k := |dom[p].children|;
      p < |d| && k < |d[p].children| && ChildLinked(d, p, k)
  {
    hide AppendChild, IsTree, Hangs, Linked;
    AppendFrame(dom, p, data);
    AtNode(dom, p);
    LastIs(dom, p);
    var k := |dom[p].children|;
    if k > 0 {
      LinkedParts(dom, p, k - 1);
    }
  }

  /** append_child keeps the tree and its links. */
  lemma AppendKeeps(dom: Dom, p: nat, data: Data)
    requires IsTree(dom) && p < |dom|
    ensures IsTree(AppendChild(dom, p, data))
  {
    hide AppendChild, IsTree;
    var d := AppendChild(dom, p, data);
    AppendFrame(dom, p, data);
    forall i | 0 <= i < |d| ensures Linked(d, i) && Hangs(d, i) {
      AppendKeepsLinked(dom, p, data, i);
    }
    Collect(d);
  }

  lemma Collect(dom: Dom)
    requires |dom| > 0 && forall i | 0 <= i < |dom| :: Linked(dom, i) && Hangs(dom, i)
    ensures IsTree(dom)
  {
  }

  /** Replacing a node's data leaves the links alone. */
  lemma SetDataKeeps(dom: Dom, i: nat, data: Data)
    requires IsTree(dom) && i < |dom|
    ensures IsTree(dom[i := dom[i].(data := data)])
  {
    var d := dom[i := dom[i].(data := data)];
    forall j | 0 <= j < |d| ensures Linked(d, j) && Hangs(d, j) {
      assert Linked(dom, j) && Hangs(dom, j);
      forall k | 0 <= k < |d[j].children| ensures ChildLinked(d, j, k) {
        assert ChildLinked(dom, j, k);
      }
    }
  }

  // The tree a DOM spells.

  datatype Tree = Tree(data: Data, kids: seq<Tree>)

  function View(dom: Dom, i: nat): Tree
    requires IsTree(dom) && i < |dom|
    decreases |dom| - i, 1, 0
  {
    AtNode(dom, i);
    assert forall id <- dom[i].children :: exists k :: 0 <= k < |dom[i].children| && id == dom[i].children[k] && ChildLinked(dom, i, k);
    Tree(dom[i].data, ViewAll(dom, i, dom[i].children))
  }

  function ViewAll(dom: Dom, i: nat, ids: seq<nat>): (r: seq<Tree>)
    requires IsTree(dom) && i < |dom| && forall id <- ids :: i < id < |dom|
    decreases |dom| - i, 0, |ids|
  {
    if ids == [] then []
    else
      assert ids[0] in ids && forall id <- ids[1..] :: id in ids;
      [View(dom, ids[0])] + ViewAll(dom, i, ids[1..])
  }
}
