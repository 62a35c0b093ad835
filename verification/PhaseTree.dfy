/** The phase A directories as a tree: walking a path, adding an entry, and moving one with everything below it. */
module PhaseTree {
  datatype Entry = Entry(name: string, inode: nat)

  datatype Found = Missing | At(id: nat)

  /** The entries of every inode, in slot order; a file has none. */
  type Dirs = seq<seq<Entry>>

  type Path = seq<string>

  /** The slot of the first entry of that name, or the number of entries. */
  function Slot(es: seq<Entry>, name: string): (k: nat)
    ensures k <= |es| && (k < |es| ==> es[k].name == name)
    ensures forall j | 0 <= j < k :: es[j].name != name
  {
    if es == [] || es[0].name == name then 0
    else
      var k := Slot(es[1..], name);
      assert forall j | 0 < j < k + 1 :: es[j] == es[1..][j - 1];
      k + 1
  }

  function Find(es: seq<Entry>, name: string): Found {
    var k := Slot(es, name);
    if k < |es| then At(es[k].inode) else Missing
  }

  predicate NamesDiffer(es: seq<Entry>) {
    forall i, j | 0 <= i < j < |es| :: es[i].name != es[j].name
  }

  function Remove(es: seq<Entry>, k: nat): (r: seq<Entry>)
    requires k < |es|
    ensures |r| == |es| - 1 && forall j | 0 <= j < |r| :: r[j] == if j < k then es[j] else es[j + 1]
  {
    es[..k] + es[k + 1..]
  }

  lemma FindAt(es: seq<Entry>, k: nat)
    requires NamesDiffer(es) && k < |es|
    ensures Find(es, es[k].name) == At(es[k].inode)
  {
    var s := Slot(es, es[k].name);
    assert s == k;
  }

  lemma FindMissing(es: seq<Entry>, name: string)
    ensures Find(es, name).Missing? <==> forall j | 0 <= j < |es| :: es[j].name != name
  {
  }

  lemma FindAdded(es: seq<Entry>, e: Entry, name: string)
    requires NamesDiffer(es) && Find(es, e.name).Missing?
    ensures NamesDiffer(es + [e])
    ensures Find(es + [e], name) == if name == e.name then At(e.inode) else Find(es, name)
  {
    var more := es + [e];
    FindMissing(es, e.name);
    FindMissing(es, name);
    FindMissing(more, name);
    if name == e.name {
      FindAt(more, |es|);
    } else if Find(es, name).At? {
      var k := Slot(es, name);
      assert more[k] == es[k];
      FindAt(more, k);
    }
  }

  lemma FindRemoved(es: seq<Entry>, k: nat, name: string)
    requires NamesDiffer(es) && k < |es|
    ensures NamesDiffer(Remove(es, k))
    ensures Find(Remove(es, k), name) == if name == es[k].name then Missing else Find(es, name)
  {
    var less := Remove(es, k);
    FindMissing(es, name);
    FindMissing(less, name);
    if name != es[k].name && Find(es, name).At? {
      var s := Slot(es, name);
      var j := if s < k then s else s - 1;
      assert less[j] == es[s];
      FindAt(less, j);
    }
  }

  predicate InRange(dirs: Dirs) {
    |dirs| > 0 && forall i, k | 0 <= i < |dirs| && 0 <= k < |dirs[i]| :: dirs[i][k].inode < |dirs|
  }

  /** The inode a path leads to from the root, inode 0. */
  function Walk(dirs: Dirs, p: Path): (r: Found)
    requires InRange(dirs)
    ensures r.At? ==> r.id < |dirs|
    decreases |p|
  {
    if p == [] then At(0)
    else
      var above := Walk(dirs, p[..|p| - 1]);
      if above.Missing? then Missing else Find(dirs[above.id], p[|p| - 1])
  }

  /** No inode is reached by two paths. */
  ghost predicate OnePath(dirs: Dirs)
    requires InRange(dirs)
  {
    forall p, q :: Walk(dirs, p).At? && Walk(dirs, p) == Walk(dirs, q) ==> p == q
  }

  predicate AllNamesDiffer(dirs: Dirs) {
    forall i | 0 <= i < |dirs| :: NamesDiffer(dirs[i])
  }

  /** What can be reached from the root is a tree, and a directory's names differ. */
  ghost predicate IsTree(dirs: Dirs) {
    InRange(dirs) && AllNamesDiffer(dirs) && OnePath(dirs)
  }

  lemma WalkOn(dirs: Dirs, p: Path, c: string)
    requires InRange(dirs)
    ensures Walk(dirs, p + [c]) == if Walk(dirs, p).Missing? then Missing else Find(dirs[Walk(dirs, p).id], c)
  {
    assert (p + [c])[..|p|] == p;
  }

  /** Above an existing path everything exists. */
  lemma {:induction false} PrefixFound(dirs: Dirs, p: Path, q: Path)
    requires InRange(dirs) && p <= q && Walk(dirs, q).At?
    ensures Walk(dirs, p).At?
    decreases |q|
  {
    if p != q {
      PrefixFound(dirs, p, q[..|q| - 1]);
    }
  }

  lemma Same(dirs: Dirs, p: Path, q: Path)
    requires IsTree(dirs) && Walk(dirs, p).At? && Walk(dirs, p) == Walk(dirs, q)
    ensures p == q
  {
  }

  // Moving an entry.

  /** The entry of slot k of directory a under the name of another directory b: first added there, then removed. */
  function Moved(dirs: Dirs, a: nat, k: nat, b: nat, name: string): (r: Dirs)
    requires InRange(dirs) && a < |dirs| && b < |dirs| && k < |dirs[a]|
    ensures |r| == |dirs| && InRange(r)
  {
    var added := dirs[b := dirs[b] + [Entry(name, dirs[a][k].inode)]];
    var r := added[a := Remove(added[a], k)];
    assert forall i, j | 0 <= i < |r| && 0 <= j < |r[i]| :: r[i][j].inode < |r| by {
      assert forall i, j | 0 <= i < |added| && 0 <= j < |added[i]| :: added[i][j].inode < |dirs|;
    }
    r
  }

  lemma MovedFinds(dirs: Dirs, a: nat, k: nat, b: nat, name: string, i: nat, c: string)
    requires InRange(dirs) && AllNamesDiffer(dirs) && a < |dirs| && b < |dirs| && k < |dirs[a]| && i < |dirs|
    requires Find(dirs[b], name).Missing?
    ensures
      Find(Moved(dirs, a, k, b, name)[i], c) ==
      if i == b && c == name then At(dirs[a][k].inode)
      else if i == a && c == dirs[a][k].name then Missing
      else Find(dirs[i], c)
    ensures NamesDiffer(Moved(dirs, a, k, b, name)[i])
  {
    hide Find, Remove, InRange;
    var e := Entry(name, dirs[a][k].inode);
    if i == b {
      FindAdded(dirs[b], e, c);
      if a == b {
        FindMissingAt(dirs[b], k, name);
        FindRemoved(dirs[b] + [e], k, c);
      }
    } else if i == a {
      FindRemoved(dirs[a], k, c);
    }
  }

  lemma FindMissingAt(es: seq<Entry>, k: nat, name: string)
    requires k < |es| && Find(es, name).Missing?
    ensures es[k].name != name
  {
    FindMissing(es, name);
  }

  /** Where a path of the moved tree led before: below the new place, to the old one. */
  function Before(old_: Path, new_: Path, p: Path): Path {
    if new_ <= p then old_ + p[|new_|..] else p
  }

  /** The moved entry's two paths, and that the new place lies outside of what is moved. */
  ghost predicate CanMove(dirs: Dirs, x: Path, a: nat, k: nat, y: Path, b: nat)
  {
    && IsTree(dirs) && x != [] && y != []
    && a < |dirs| && b < |dirs| && k < |dirs[a]|
    && Walk(dirs, x[..|x| - 1]) == At(a) && dirs[a][k].name == x[|x| - 1]
    && Walk(dirs, y[..|y| - 1]) == At(b) && Walk(dirs, y).Missing?
    && !(x <= y)
  }

  lemma MoveEnds(dirs: Dirs, x: Path, a: nat, k: nat, y: Path, b: nat)
    requires CanMove(dirs, x, a, k, y, b)
    ensures Walk(dirs, x) == At(dirs[a][k].inode)
    ensures Find(dirs[b], y[|y| - 1]).Missing?
    ensures !(y <= x) && !(x <= y[..|y| - 1]) && !(y <= x[..|x| - 1])
  {
    FindAt(dirs[a], k);
    if y <= x {
      PrefixFound(dirs, y, x);
    }
    if y <= x[..|x| - 1] {
      PrefixFound(dirs, y, x[..|x| - 1]);
    }
  }

  /** The heart of renaming: at every path, the moved tree shows what was at that path before the move, what was below
      the old place appears below the new one, and nothing is left at the old place. */
  lemma {:induction false} MoveRelocates(dirs: Dirs, x: Path, a: nat, k: nat, y: Path, b: nat, p: Path)
    requires CanMove(dirs, x, a, k, y, b)
    ensures
      Walk(Moved(dirs, a, k, b, y[|y| - 1]), p) ==
      if y <= p then Walk(dirs, x + p[|y|..])
      else if x <= p then Missing
      else Walk(dirs, p)
    decreases |p|
  {
    hide Find, Moved, InRange, AllNamesDiffer, OnePath;
    var moved := Moved(dirs, a, k, b, y[|y| - 1]);
    MoveEnds(dirs, x, a, k, y, b);
    if p == [] {
      WalkRoot(dirs);
      WalkRoot(moved);
    } else {
      var q, c := p[..|p| - 1], p[|p| - 1];
      assert p == q + [c];
      MoveRelocates(dirs, x, a, k, y, b, q);
      WalkOn(moved, q, c);
      WalkOn(dirs, q, c);
      if y <= q {
        MoveBelow(dirs, x, a, k, y, b, q, c);
      } else if y == p {
        assert q == y[..|y| - 1] && x + p[|y|..] == x;
        MovedFinds(dirs, a, k, b, y[|y| - 1], b, c);
      } else if x <= q {
      } else if x == p {
        assert q == x[..|x| - 1];
        MovedFinds(dirs, a, k, b, y[|y| - 1], a, c);
        assert !(a == b && c == y[|y| - 1]);
      } else {
        MoveElsewhere(dirs, x, a, k, y, b, q, c);
      }
    }
  }

  lemma WalkRoot(dirs: Dirs)
    requires InRange(dirs)
    ensures Walk(dirs, []) == At(0)
  {
  }

  lemma MoveBelow(dirs: Dirs, x: Path, a: nat, k: nat, y: Path, b: nat, q: Path, c: string)
    requires CanMove(dirs, x, a, k, y, b) && y <= q
    requires Walk(Moved(dirs, a, k, b, y[|y| - 1]), q) == Walk(dirs, x + q[|y|..])
    ensures Walk(Moved(dirs, a, k, b, y[|y| - 1]), q + [c]) == Walk(dirs, x + (q + [c])[|y|..])
  {
    hide Find, Moved, InRange, AllNamesDiffer, OnePath, Walk;
    MoveEnds(dirs, x, a, k, y, b);
    var r := x + q[|y|..];
    assert x + (q + [c])[|y|..] == r + [c];
    WalkOn(dirs, r, c);
    WalkOn(Moved(dirs, a, k, b, y[|y| - 1]), q, c);
    if Walk(dirs, r).At? {
      var i := Walk(dirs, r).id;
      MovedFinds(dirs, a, k, b, y[|y| - 1], i, c);
      if i == a {
        Same(dirs, r, x[..|x| - 1]);
      }
      if i == b {
        Same(dirs, r, y[..|y| - 1]);
      }
    }
  }

  lemma MoveElsewhere(dirs: Dirs, x: Path, a: nat, k: nat, y: Path, b: nat, q: Path, c: string)
    requires CanMove(dirs, x, a, k, y, b) && !(y <= q + [c]) && !(x <= q + [c])
    requires Walk(Moved(dirs, a, k, b, y[|y| - 1]), q) == Walk(dirs, q)
    ensures Walk(Moved(dirs, a, k, b, y[|y| - 1]), q + [c]) == Walk(dirs, q + [c])
  {
    hide Find, Moved, InRange, AllNamesDiffer, OnePath, Walk;
    MoveEnds(dirs, x, a, k, y, b);
    WalkOn(dirs, q, c);
    WalkOn(Moved(dirs, a, k, b, y[|y| - 1]), q, c);
    if Walk(dirs, q).At? {
      var i := Walk(dirs, q).id;
      MovedFinds(dirs, a, k, b, y[|y| - 1], i, c);
      if i == a && c == x[|x| - 1] {
        Same(dirs, q, x[..|x| - 1]);
      }
      if i == b && c == y[|y| - 1] {
        Same(dirs, q, y[..|y| - 1]);
      }
    }
  }

  /** A move keeps the tree. */
  lemma MoveKeeps(dirs: Dirs, x: Path, a: nat, k: nat, y: Path, b: nat)
    requires CanMove(dirs, x, a, k, y, b)
    ensures IsTree(Moved(dirs, a, k, b, y[|y| - 1]))
  {
    hide Find, Moved, InRange, Walk;
    var moved := Moved(dirs, a, k, b, y[|y| - 1]);
    MoveEnds(dirs, x, a, k, y, b);
    forall i | 0 <= i < |moved| ensures NamesDiffer(moved[i]) {
      MovedFinds(dirs, a, k, b, y[|y| - 1], i, "");
    }
    forall p, q | Walk(moved, p).At? && Walk(moved, p) == Walk(moved, q) ensures p == q {
      MoveRelocates(dirs, x, a, k, y, b, p);
      MoveRelocates(dirs, x, a, k, y, b, q);
      Same(dirs, Before(x, y, p), Before(x, y, q));
      BeforeTells(x, y, p, q);
    }
  }

  lemma BeforeTells(x: Path, y: Path, p: Path, q: Path)
    requires Before(x, y, p) == Before(x, y, q)
    requires !(y <= p) ==> !(x <= p)
    requires !(y <= q) ==> !(x <= q)
    ensures p == q
  {
    if y <= p {
      assert x <= Before(x, y, p);
      assert Before(x, y, p)[|x|..] == p[|y|..] && p == y + p[|y|..];
    }
    if y <= q {
      assert x <= Before(x, y, q);
      assert Before(x, y, q)[|x|..] == q[|y|..] && q == y + q[|y|..];
    }
  }

  /** Moving back leads every path where it led at first. */
  lemma MoveBack(dirs: Dirs, x: Path, a: nat, k: nat, y: Path, b: nat, j: nat, p: Path)
    requires CanMove(dirs, x, a, k, y, b)
    requires
      var moved := Moved(dirs, a, k, b, y[|y| - 1]);
      j < |moved[b]| && moved[b][j].name == y[|y| - 1]
    ensures
      var moved := Moved(dirs, a, k, b, y[|y| - 1]);
      && CanMove(moved, y, b, j, x, a)
      && Walk(Moved(moved, b, j, a, x[|x| - 1]), p) == Walk(dirs, p)
  {
    hide Find, Moved, InRange, AllNamesDiffer, OnePath, Walk;
    var moved := Moved(dirs, a, k, b, y[|y| - 1]);
    MoveEnds(dirs, x, a, k, y, b);
    MoveKeeps(dirs, x, a, k, y, b);
    MoveRelocates(dirs, x, a, k, y, b, x);
    MoveRelocates(dirs, x, a, k, y, b, x[..|x| - 1]);
    MoveRelocates(dirs, x, a, k, y, b, y[..|y| - 1]);
    MoveRelocates(moved, y, b, j, x, a, p);
    if x <= p {
      var r := y + p[|x|..];
      MoveRelocates(dirs, x, a, k, y, b, r);
      assert r[|y|..] == p[|x|..] && x + p[|x|..] == p;
    } else {
      MoveRelocates(dirs, x, a, k, y, b, p);
      if y <= p {
        if Walk(dirs, p).At? {
          PrefixFound(dirs, y, p);
        }
      }
    }
  }

  /** Moving an entry to a place below itself cuts everything below it off: no path leads there any more. */
  lemma {:induction false} MoveInside(dirs: Dirs, x: Path, a: nat, k: nat, y: Path, b: nat, p: Path)
    requires IsTree(dirs) && x != [] && y != [] && a < |dirs| && b < |dirs| && k < |dirs[a]|
    requires Walk(dirs, x[..|x| - 1]) == At(a) && dirs[a][k].name == x[|x| - 1]
    requires Walk(dirs, y[..|y| - 1]) == At(b) && Walk(dirs, y).Missing?
    requires x <= y
    ensures Walk(Moved(dirs, a, k, b, y[|y| - 1]), p) == if x <= p then Missing else Walk(dirs, p)
    decreases |p|
  {
    hide Find, Moved, InRange, AllNamesDiffer, OnePath;
    var moved := Moved(dirs, a, k, b, y[|y| - 1]);
    DirNames(dirs, a);
    FindAt(dirs[a], k);
    WalkOn(dirs, y[..|y| - 1], y[|y| - 1]);
    assert y == y[..|y| - 1] + [y[|y| - 1]] && x == x[..|x| - 1] + [x[|x| - 1]];
    WalkOn(dirs, x[..|x| - 1], x[|x| - 1]);
    assert x != y;
    assert x <= y[..|y| - 1] by {
      assert y[..|y| - 1][..|x|] == y[..|x|] == x;
    }
    if a == b {
      Same(dirs, x[..|x| - 1], y[..|y| - 1]);
    }
    if p == [] {
      WalkRoot(dirs);
      WalkRoot(moved);
    } else {
      var q, c := p[..|p| - 1], p[|p| - 1];
      assert p == q + [c];
      MoveInside(dirs, x, a, k, y, b, q);
      WalkOn(moved, q, c);
      if !(x <= q) {
        MoveInsideStep(dirs, x, a, k, y, b, q, c);
      }
    }
  }

  lemma MoveInsideStep(dirs: Dirs, x: Path, a: nat, k: nat, y: Path, b: nat, q: Path, c: string)
    requires IsTree(dirs) && x != [] && y != [] && a < |dirs| && b < |dirs| && a != b && k < |dirs[a]|
    requires Walk(dirs, x[..|x| - 1]) == At(a) && dirs[a][k].name == x[|x| - 1]
    requires Walk(dirs, y[..|y| - 1]) == At(b) && Find(dirs[b], y[|y| - 1]).Missing?
    requires x <= y[..|y| - 1] && !(x <= q)
    requires Walk(Moved(dirs, a, k, b, y[|y| - 1]), q) == Walk(dirs, q)
    ensures Walk(Moved(dirs, a, k, b, y[|y| - 1]), q + [c]) == if x <= q + [c] then Missing else Walk(dirs, q + [c])
  {
    hide Find, Moved, InRange, AllNamesDiffer, OnePath, Walk;
    WalkOn(dirs, q, c);
    WalkOn(Moved(dirs, a, k, b, y[|y| - 1]), q, c);
    assert x == q + [c] ==> q == x[..|x| - 1] && c == x[|x| - 1];
    assert x <= q + [c] ==> x == q + [c];
    assert x == x[..|x| - 1] + [x[|x| - 1]];
    if Walk(dirs, q).At? {
      var i := Walk(dirs, q).id;
      MovedFinds(dirs, a, k, b, y[|y| - 1], i, c);
      if i == a {
        Same(dirs, q, x[..|x| - 1]);
      } else if i == b {
        Same(dirs, q, y[..|y| - 1]);
      }
    }
  }

  lemma MoveInsideKeeps(dirs: Dirs, x: Path, a: nat, k: nat, y: Path, b: nat)
    requires IsTree(dirs) && x != [] && y != [] && a < |dirs| && b < |dirs| && k < |dirs[a]|
    requires Walk(dirs, x[..|x| - 1]) == At(a) && dirs[a][k].name == x[|x| - 1]
    requires Walk(dirs, y[..|y| - 1]) == At(b) && Walk(dirs, y).Missing?
    requires x <= y
    ensures IsTree(Moved(dirs, a, k, b, y[|y| - 1]))
  {
    hide Find, Moved, InRange, Walk;
    var moved := Moved(dirs, a, k, b, y[|y| - 1]);
    assert y == y[..|y| - 1] + [y[|y| - 1]];
    WalkOn(dirs, y[..|y| - 1], y[|y| - 1]);
    forall i | 0 <= i < |moved| ensures NamesDiffer(moved[i]) {
      MovedFinds(dirs, a, k, b, y[|y| - 1], i, "");
    }
    forall p, q | Walk(moved, p).At? && Walk(moved, p) == Walk(moved, q) ensures p == q {
      MoveInside(dirs, x, a, k, y, b, p);
      MoveInside(dirs, x, a, k, y, b, q);
      Same(dirs, p, q);
    }
  }

  // Adding an entry for a new inode.

  function Added(dirs: Dirs, b: nat, name: string): (r: Dirs)
    requires InRange(dirs) && b < |dirs|
    ensures |r| == |dirs| + 1 && InRange(r)
  {
    dirs[b := dirs[b] + [Entry(name, |dirs|)]] + [[]]
  }

  /** Adding adds exactly one path, to the new inode. */
  lemma {:induction false} AddExtends(dirs: Dirs, y: Path, b: nat, p: Path)
    requires IsTree(dirs) && y != [] && b < |dirs|
    requires Walk(dirs, y[..|y| - 1]) == At(b) && Walk(dirs, y).Missing?
    ensures Walk(Added(dirs, b, y[|y| - 1]), p) == if p == y then At(|dirs|) else Walk(dirs, p)
    decreases |p|
  {
    hide Find, InRange, AllNamesDiffer, OnePath;
    var added := Added(dirs, b, y[|y| - 1]);
    assert y == y[..|y| - 1] + [y[|y| - 1]];
    WalkOn(dirs, y[..|y| - 1], y[|y| - 1]);
    if p == [] {
      WalkRoot(dirs);
      WalkRoot(added);
    } else {
      var q, c := p[..|p| - 1], p[|p| - 1];
      assert p == q + [c];
      AddExtends(dirs, y, b, q);
      WalkOn(added, q, c);
      WalkOn(dirs, q, c);
      if q == y {
        FindMissing([], c);
      } else if Walk(dirs, q).At? {
        var i := Walk(dirs, q).id;
        DirNames(dirs, i);
        if i == b {
          Same(dirs, q, y[..|y| - 1]);
          FindAdded(dirs[b], Entry(y[|y| - 1], |dirs|), c);
        }
      }
    }
  }

  lemma DirNames(dirs: Dirs, i: nat)
    requires AllNamesDiffer(dirs) && i < |dirs|
    ensures NamesDiffer(dirs[i])
  {
  }

  lemma AddKeeps(dirs: Dirs, y: Path, b: nat)
    requires IsTree(dirs) && y != [] && b < |dirs|
    requires Walk(dirs, y[..|y| - 1]) == At(b) && Walk(dirs, y).Missing?
    ensures IsTree(Added(dirs, b, y[|y| - 1]))
  {
    hide Find, InRange, Walk;
    var added := Added(dirs, b, y[|y| - 1]);
    assert y == y[..|y| - 1] + [y[|y| - 1]];
    WalkOn(dirs, y[..|y| - 1], y[|y| - 1]);
    forall i | 0 <= i < |added| ensures NamesDiffer(added[i]) {
      if i == b {
        FindAdded(dirs[b], Entry(y[|y| - 1], |dirs|), "");
      }
    }
    forall p, q | Walk(added, p).At? && Walk(added, p) == Walk(added, q) ensures p == q {
      AddExtends(dirs, y, b, p);
      AddExtends(dirs, y, b, q);
      WalkBound(dirs, p);
      WalkBound(dirs, q);
      if p != y && q != y {
        Same(dirs, p, q);
      }
    }
  }

  lemma WalkBound(dirs: Dirs, p: Path)
    requires InRange(dirs)
    ensures Walk(dirs, p).At? ==> Walk(dirs, p).id < |dirs|
  {
  }
}
