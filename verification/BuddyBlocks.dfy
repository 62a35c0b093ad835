/** Power-of-two blocks inside a range of `total` bytes, and the geometry that buddy coalescing relies on. */
module BuddyBlocks {
  import opened Bits

  const MIN_ORDER := 12
  const MAX_ORDER := 28

  /** A block of 2^order bytes, `off` bytes after the start of the pool. */
  datatype Block = Block(off: nat, order: nat)

  function Size(b: Block): nat {
    Pow2(b.order)
  }

  ghost predicate WellPlaced(b: Block) {
    MIN_ORDER <= b.order <= MAX_ORDER && b.off % Size(b) == 0
  }

  ghost predicate Covers(b: Block, x: nat) {
    b.off <= x < b.off + Size(b)
  }

  ghost predicate Within(b: Block, c: Block) {
    c.off <= b.off && b.off + Size(b) <= c.off + Size(c)
  }

  ghost predicate Apart(b: Block, c: Block) {
    b.off + Size(b) <= c.off || c.off + Size(c) <= b.off
  }

  ghost predicate Covered(s: set<Block>, x: nat) {
    exists b :: b in s && Covers(b, x)
  }

  ghost predicate AllPlaced(s: set<Block>) {
    forall b :: b in s ==> WellPlaced(b)
  }

  ghost predicate AllApart(s: set<Block>) {
    forall b, c :: b in s && c in s && b != c ==> Apart(b, c)
  }

  /** The blocks of `s` tile the bytes 0..total exactly: aligned, disjoint, inside, and nothing left over. */
  ghost predicate Tiles(s: set<Block>, total: nat) {
    && AllPlaced(s)
    && AllApart(s)
    && (forall b :: b in s ==> b.off + Size(b) <= total)
    && (forall x: nat :: x < total ==> Covered(s, x))
  }

  /** The block that coalesces with `b`: the address differs in the bit of the block size. */
  function BuddyOf(b: Block): Block {
    Block(Xor(b.off, Size(b)), b.order)
  }

  /** No free block below the top order has its buddy free too. */
  ghost predicate Coalesced(s: set<Block>) {
    forall b :: b in s && b.order < MAX_ORDER ==> BuddyOf(b) !in s
  }

  // ----- Geometry of aligned blocks -----

  lemma AlignedMultiple(b: Block) returns (i: nat)
    requires WellPlaced(b)
    ensures b.off == Size(b) * i
  {
    i := b.off / Size(b);
  }

  lemma MultipleAligned(b: Block, i: nat)
    requires MIN_ORDER <= b.order <= MAX_ORDER && b.off == Size(b) * i
    ensures WellPlaced(b)
  {
    DivideUnique(b.off, Size(b), i, 0);
  }

  lemma MulMonotone(p: nat, i: int, j: int)
    requires i <= j
    ensures p * i <= p * j
  {
    if i < j {
      MulStep(p, i, j);
    }
  }

  /** The i-th cell of width p and the j-th cell of width p * m are apart, or the first is inside the second. */
  lemma CellsNested(p: nat, m: nat, i: nat, j: nat)
    ensures
      || p * i + p <= p * (m * j)
      || p * (m * j) + p * m <= p * i
      || (p * (m * j) <= p * i && p * i + p <= p * (m * j) + p * m)
  {
    var n := m * j;
    assert p * (i + 1) == p * i + p && p * (n + m) == p * n + p * m;
    if i < n {
      MulMonotone(p, i + 1, n);
    } else if n + m <= i {
      MulMonotone(p, n + m, i);
    } else {
      MulMonotone(p, n, i);
      MulMonotone(p, i + 1, n + m);
    }
  }

  /** Two aligned blocks are apart or nested, the smaller inside the larger. */
  lemma Laminar(b: Block, c: Block)
    requires WellPlaced(b) && WellPlaced(c) && b.order <= c.order && !Apart(b, c)
    ensures Within(b, c)
    ensures b.order == c.order ==> b == c
  {
    var i := AlignedMultiple(b);
    var j := AlignedMultiple(c);
    LaminarCells(b, c, i, j);
  }

  lemma LaminarCells(b: Block, c: Block, i: nat, j: nat)
    requires b.off == Size(b) * i && c.off == Size(c) * j && b.order <= c.order && !Apart(b, c)
    ensures Within(b, c)
    ensures b.order == c.order ==> b == c
  {
    var p, m := Size(b), Pow2(c.order - b.order);
    Pow2Add(b.order, c.order - b.order);
    MulAssociative(p, m, j);
    CellsNested(p, m, i, j);
  }

  /** Flipping the lowest bit of the cell number i moves to the other half of a cell twice as wide. */
  lemma NeighbourCell(p: nat, i: nat) returns (i': nat, low: nat)
    ensures i' == Neighbour(i)
    ensures i' % 2 != i % 2
    ensures p * i' == if i % 2 == 0 then p * i + p else p * i - p
    ensures 2 * p * low == if i % 2 == 0 then p * i else p * i'
  {
    i' := Neighbour(i);
    low := i / 2;
    assert p * (i + 1) == p * i + p && p * (i - 1) == p * i - p;
    var k := if i % 2 == 0 then i else i';
    assert k == 2 * low;
    assert p * (2 * low) == 2 * p * low;
  }

  lemma XorAligned(b: Block, i: nat)
    requires b.off == Size(b) * i
    ensures Xor(b.off, Size(b)) == if i % 2 == 0 then b.off + Size(b) else b.off - Size(b)
  {
    XorMultiple(b.order, i);
    var i', low := NeighbourCell(Size(b), i);
  }

  /** The buddy of an aligned block is aligned, next to it, and is its buddy in turn; the two halve one aligned block. */
  lemma BuddyGeometry(b: Block)
    requires WellPlaced(b)
    ensures WellPlaced(BuddyOf(b))
    ensures BuddyOf(b) != b && BuddyOf(BuddyOf(b)) == b
    ensures BuddyOf(b).off == b.off + Size(b) || b.off == BuddyOf(b).off + Size(b)
    ensures Parent(b) == Parent(BuddyOf(b))
    ensures b.order < MAX_ORDER ==> WellPlaced(Parent(b))
  {
    var p := Size(b);
    var i := AlignedMultiple(b);
    var i', low := NeighbourCell(p, i);
    XorAligned(b, i);
    var c := BuddyOf(b);
    MultipleAligned(c, i');
    XorAligned(c, i');
    if b.order < MAX_ORDER {
      MultipleAligned(Parent(b), low);
    }
  }

  /** The block of the next order that a block and its buddy form: it starts at the lower of the two. */
  function Parent(b: Block): Block {
    var c := BuddyOf(b);
    Block(if c.off < b.off then c.off else b.off, b.order + 1)
  }

  /** A block of a smaller order that lies inside an aligned block has its buddy inside it too. */
  lemma BuddyStaysInside(b: Block, c: Block)
    requires WellPlaced(b) && WellPlaced(c) && b.order < c.order && Within(b, c)
    ensures Within(BuddyOf(b), c) && Within(Parent(b), c)
  {
    BuddyGeometry(b);
    var d := Parent(b);
    assert d.off + Size(d) == d.off + 2 * Size(b);
    Laminar(d, c);
  }

  // ----- Coalesced free space leaves no hole that a larger block could fill -----

  /** An aligned region whose bytes all belong to coalesced free blocks cannot be made of smaller blocks. */
  lemma {:induction false} NoSmallerInside(s: set<Block>, c: Block, b: Block)
    requires AllPlaced(s) && AllApart(s) && Coalesced(s)
    requires WellPlaced(c) && forall x: nat :: Covers(c, x) ==> Covered(s, x)
    requires b in s && b.order < c.order && Within(b, c)
    ensures false
    decreases b.order
  {
    hide Pow2, Xor, Parent;
    BuddyGeometry(b);
    BuddyStaysInside(b, c);
    var d := BuddyOf(b);
    assert Covers(d, d.off) && Covers(c, d.off);
    var e :| e in s && Covers(e, d.off);
    if e.order <= b.order {
      Laminar(e, d);
      if e.order < b.order {
        NoSmallerInside(s, d, e);
      }
    } else {
      Laminar(d, e);
      BuddyStaysInside(d, e);
    }
  }

  /** Coalesced free blocks that cover an aligned region contain it in one block. */
  lemma CoveredByOne(s: set<Block>, c: Block) returns (b: Block)
    requires AllPlaced(s) && AllApart(s) && Coalesced(s)
    requires WellPlaced(c) && forall x: nat :: Covers(c, x) ==> Covered(s, x)
    ensures b in s && Within(c, b) && b.order >= c.order
  {
    assert Covers(c, c.off);
    b :| b in s && Covers(b, c.off);
    if b.order < c.order {
      Laminar(b, c);
      NoSmallerInside(s, c, b);
    } else {
      Laminar(c, b);
    }
  }

  lemma TilingInside(s: set<Block>, t: set<Block>, total: nat)
    requires Tiles(s, total) && Coalesced(s)
    requires Tiles(t, total) && Coalesced(t)
    ensures s <= t
  {
    forall b | b in s ensures b in t {
      assert forall x: nat :: Covers(b, x) ==> Covered(t, x);
      var c := CoveredByOne(t, b);
      if c.order > b.order {
        assert forall x: nat :: Covers(c, x) ==> Covered(s, x);
        NoSmallerInside(s, c, b);
      }
      Laminar(b, c);
    }
  }

  /** Canonical form: a range has only one coalesced tiling. */
  lemma CanonicalTiling(s: set<Block>, t: set<Block>, total: nat)
    requires Tiles(s, total) && Coalesced(s)
    requires Tiles(t, total) && Coalesced(t)
    ensures s == t
  {
    TilingInside(s, t, total);
    TilingInside(t, s, total);
  }

  // ----- Splitting and merging keep a tiling -----

  function LowerHalf(b: Block): Block
    requires b.order > 0
  {
    Block(b.off, b.order - 1)
  }

  function UpperHalf(b: Block): Block
    requires b.order > 0
  {
    Block(b.off + Pow2(b.order - 1), b.order - 1)
  }

  ghost function Halves(b: Block): set<Block>
    requires b.order > 0
  {
    {LowerHalf(b), UpperHalf(b)}
  }

  lemma EvenBuddy(b: Block, i: nat)
    requires b.off == Size(b) * i && i % 2 == 0
    ensures BuddyOf(b) == Block(b.off + Size(b), b.order) && Parent(b) == Block(b.off, b.order + 1)
  {
    XorAligned(b, i);
  }

  lemma SplitPlacement(b: Block)
    requires WellPlaced(b) && b.order > MIN_ORDER
    ensures WellPlaced(LowerHalf(b)) && WellPlaced(UpperHalf(b))
    ensures BuddyOf(LowerHalf(b)) == UpperHalf(b) && BuddyOf(UpperHalf(b)) == LowerHalf(b)
    ensures Parent(LowerHalf(b)) == b
  {
    var n := EvenCell(b);
    LowerHalfPlacement(b, n);
    BuddyGeometry(LowerHalf(b));
  }

  lemma LowerHalfPlacement(b: Block, n: nat)
    requires MIN_ORDER < b.order <= MAX_ORDER && b.off == Size(LowerHalf(b)) * n && n % 2 == 0
    ensures WellPlaced(LowerHalf(b)) && BuddyOf(LowerHalf(b)) == UpperHalf(b) && Parent(LowerHalf(b)) == b
  {
    MultipleAligned(LowerHalf(b), n);
    EvenBuddy(LowerHalf(b), n);
  }

  lemma EvenCell(b: Block) returns (n: nat)
    requires WellPlaced(b) && b.order > 0
    ensures b.off == Pow2(b.order - 1) * n && n % 2 == 0
  {
    var i := AlignedMultiple(b);
    n := 2 * i;
    MulAssociative(Pow2(b.order - 1), 2, i);
  }

  lemma HalvesGeometry(b: Block)
    requires b.order > 0
    ensures Within(LowerHalf(b), b) && Within(UpperHalf(b), b) && Apart(LowerHalf(b), UpperHalf(b))
    ensures LowerHalf(b) != b && UpperHalf(b) != b
    ensures forall x :: Covers(b, x) ==> Covers(LowerHalf(b), x) || Covers(UpperHalf(b), x)
  {
  }

  lemma SplitTiling(s: set<Block>, b: Block, total: nat)
    requires Tiles(s, total) && b in s && b.order > MIN_ORDER
    ensures Tiles(s - {b} + Halves(b), total)
    ensures Halves(b) !! s
  {
    hide Pow2, Size, LowerHalf, UpperHalf;
    SplitPlacement(b);
    HalvesGeometry(b);
    InsideIsNew(s, b, LowerHalf(b));
    InsideIsNew(s, b, UpperHalf(b));
    SplitCovers(s, b, total);
  }

  lemma SplitCovers(s: set<Block>, b: Block, total: nat)
    requires b in s && b.order > 0 && forall x: nat :: x < total ==> Covered(s, x)
    ensures forall x: nat :: x < total ==> Covered(s - {b} + Halves(b), x)
  {
    hide Pow2, Size, Covers;
    HalvesGeometry(b);
    var t := s - {b} + Halves(b);
    forall x: nat | x < total ensures Covered(t, x) {
      assert Covered(s, x);
      var c :| c in s && Covers(c, x);
      var d := if c != b then c else if Covers(LowerHalf(b), x) then LowerHalf(b) else UpperHalf(b);
      assert d in t && Covers(d, x);
    }
  }

  /** A smaller block inside a block of the tiling is apart from all the others. */
  lemma InsideIsNew(s: set<Block>, b: Block, c: Block)
    requires AllApart(s) && b in s && Within(c, b) && c != b
    ensures c !in s && forall d :: d in s && d != b ==> Apart(d, c)
  {
    assert c in s ==> Apart(b, c);
  }

  lemma ParentGeometry(b: Block)
    requires WellPlaced(b)
    ensures Within(b, Parent(b)) && Within(BuddyOf(b), Parent(b)) && Parent(b) != b && Parent(b) != BuddyOf(b)
    ensures forall x :: Covers(Parent(b), x) <==> Covers(b, x) || Covers(BuddyOf(b), x)
    ensures forall e :: Apart(e, b) && Apart(e, BuddyOf(b)) ==> Apart(e, Parent(b))
  {
    hide Xor;
    BuddyGeometry(b);
  }

  lemma MergeTiling(s: set<Block>, b: Block, total: nat)
    requires Tiles(s, total) && b in s && BuddyOf(b) in s && b.order < MAX_ORDER
    ensures Tiles(s - {b, BuddyOf(b)} + {Parent(b)}, total)
    ensures Parent(b) !in s
  {
    hide Pow2, Size, Parent, BuddyOf, Covers, Apart;
    BuddyGeometry(b);
    ParentGeometry(b);
    var c, d := BuddyOf(b), Parent(b);
    AroundIsNew(s, b, d);
    ParentFits(b, total);
    MergeCovers(s, b, total);
    forall e | e in s && e != b && e != c ensures Apart(e, d) && Apart(d, e) {
      assert Apart(e, b) && Apart(e, c);
      ApartSymmetric(d, e);
    }
  }

  lemma ApartSymmetric(b: Block, c: Block)
    ensures Apart(b, c) <==> Apart(c, b)
  {
  }

  /** A larger block around a block of the tiling is not in it. */
  lemma AroundIsNew(s: set<Block>, b: Block, d: Block)
    requires AllApart(s) && b in s && Within(b, d) && d != b
    ensures d !in s
  {
    assert d in s ==> Apart(b, d);
  }

  lemma ParentFits(b: Block, total: nat)
    requires WellPlaced(b) && b.off + Size(b) <= total && BuddyOf(b).off + Size(BuddyOf(b)) <= total
    ensures Parent(b).off + Size(Parent(b)) <= total
  {
    hide Xor;
    BuddyGeometry(b);
  }

  lemma MergeCovers(s: set<Block>, b: Block, total: nat)
    requires WellPlaced(b) && forall x: nat :: x < total ==> Covered(s, x)
    ensures forall x: nat :: x < total ==> Covered(s - {b, BuddyOf(b)} + {Parent(b)}, x)
  {
    hide Pow2, Size, Parent, BuddyOf, Covers;
    ParentGeometry(b);
    var t := s - {b, BuddyOf(b)} + {Parent(b)};
    forall x: nat | x < total ensures Covered(t, x) {
      assert Covered(s, x);
      var e :| e in s && Covers(e, x);
      var f := if e == b || e == BuddyOf(b) then Parent(b) else e;
      assert f in t && Covers(f, x);
    }
  }
}
