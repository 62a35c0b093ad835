/** The free lists as sequences of block addresses: what allocation and release do to them, and the invariant both keep. */
module BuddyLists {
  import opened Bits
  import opened BuddyBlocks

  const NUM_ORDERS := MAX_ORDER - MIN_ORDER + 1

  /** One list of block addresses per order; index 0 is the smallest order. */
  type FreeLists = seq<seq<nat>>

  ghost predicate NoDuplicates(s: seq<nat>) {
    forall i, j :: 0 <= i < j < |s| ==> s[i] != s[j]
  }

  ghost predicate Shaped(lists: FreeLists, start: nat) {
    && |lists| == NUM_ORDERS
    && forall i :: 0 <= i < NUM_ORDERS ==> NoDuplicates(lists[i]) && forall a :: a in lists[i] ==> start <= a
  }

  ghost predicate IsFree(lists: FreeLists, start: nat, b: Block)
    requires |lists| == NUM_ORDERS
  {
    MIN_ORDER <= b.order <= MAX_ORDER && start + b.off in lists[b.order - MIN_ORDER]
  }

  ghost function FreeBlocks(lists: FreeLists, start: nat): (s: set<Block>)
    requires Shaped(lists, start)
    ensures forall b :: b in s <==> IsFree(lists, start, b)
  {
    set i, a | 0 <= i < NUM_ORDERS && a in lists[i] :: Block(a - start, i + MIN_ORDER)
  }

  /** Free and live blocks tile the pool, and no two free buddies are left apart. */
  ghost predicate Inv(lists: FreeLists, start: nat, total: nat, live: set<Block>) {
    && Shaped(lists, start)
    && FreeBlocks(lists, start) !! live
    && Tiles(FreeBlocks(lists, start) + live, total)
    && Coalesced(FreeBlocks(lists, start))
  }

  function Without(s: seq<nat>, a: nat): seq<nat> {
    if s == [] then [] else if s[0] == a then s[1..] else [s[0]] + Without(s[1..], a)
  }

  lemma {:induction false} WithoutMembers(s: seq<nat>, a: nat)
    requires NoDuplicates(s)
    ensures NoDuplicates(Without(s, a))
    ensures forall x :: x in Without(s, a) <==> x in s && x != a
  {
    if s != [] {
      var t := Without(s[1..], a);
      WithoutMembers(s[1..], a);
      assert s == [s[0]] + s[1..];
      assert s[0] !in s[1..];
      if s[0] != a {
        NoDuplicatesCons(s[0], t);
      }
    }
  }

  lemma NoDuplicatesCons(x: nat, s: seq<nat>)
    requires NoDuplicates(s) && x !in s
    ensures NoDuplicates([x] + s)
  {
  }

  // ----- Moving one block between the free lists and the hands of a caller -----

  function Take(lists: FreeLists, i: nat, a: nat): FreeLists
    requires i < |lists|
  {
    lists[i := Without(lists[i], a)]
  }

  function Put(lists: FreeLists, i: nat, a: nat): FreeLists
    requires i < |lists|
  {
    lists[i := [a] + lists[i]]
  }

  lemma TakeBlocks(lists: FreeLists, start: nat, b: Block)
    requires Shaped(lists, start) && IsFree(lists, start, b)
    ensures var lists' := Take(lists, b.order - MIN_ORDER, start + b.off);
      Shaped(lists', start) && FreeBlocks(lists', start) == FreeBlocks(lists, start) - {b}
  {
    var i, a := b.order - MIN_ORDER, start + b.off;
    WithoutMembers(lists[i], a);
    assert FreeBlocks(Take(lists, i, a), start) == FreeBlocks(lists, start) - {b};
  }

  lemma PutBlocks(lists: FreeLists, start: nat, b: Block)
    requires Shaped(lists, start) && MIN_ORDER <= b.order <= MAX_ORDER && !IsFree(lists, start, b)
    ensures var lists' := Put(lists, b.order - MIN_ORDER, start + b.off);
      Shaped(lists', start) && FreeBlocks(lists', start) == FreeBlocks(lists, start) + {b}
  {
    var i, a := b.order - MIN_ORDER, start + b.off;
    NoDuplicatesCons(a, lists[i]);
    assert FreeBlocks(Put(lists, i, a), start) == FreeBlocks(lists, start) + {b};
  }

  lemma TakeKeeps(lists: FreeLists, start: nat, total: nat, live: set<Block>, b: Block)
    requires Inv(lists, start, total, live) && b in FreeBlocks(lists, start)
    ensures var lists' := Take(lists, b.order - MIN_ORDER, start + b.off);
      Inv(lists', start, total, live + {b}) && FreeBlocks(lists', start) == FreeBlocks(lists, start) - {b}
  {
    TakeBlocks(lists, start, b);
    hide Tiles, Shaped, FreeBlocks;
    var free := FreeBlocks(lists, start);
    assert (free - {b}) + (live + {b}) == free + live;
  }

  lemma PutCoalesced(lists: FreeLists, start: nat, total: nat, live: set<Block>, b: Block)
    requires Inv(lists, start, total, live) && b in live
    requires b.order == MAX_ORDER || BuddyOf(b) !in FreeBlocks(lists, start)
    ensures Coalesced(FreeBlocks(lists, start) + {b})
  {
    hide Shaped, FreeBlocks, Coalesced;
    CoalescedWith(FreeBlocks(lists, start), live, b);
  }

  lemma PutKeeps(lists: FreeLists, start: nat, total: nat, live: set<Block>, b: Block)
    requires Inv(lists, start, total, live) && b in live
    requires b.order == MAX_ORDER || BuddyOf(b) !in FreeBlocks(lists, start)
    ensures MIN_ORDER <= b.order <= MAX_ORDER
    ensures var lists' := Put(lists, b.order - MIN_ORDER, start + b.off);
      Inv(lists', start, total, live - {b}) && FreeBlocks(lists', start) == FreeBlocks(lists, start) + {b}
  {
    hide Tiles, Shaped, FreeBlocks, Coalesced;
    var free := FreeBlocks(lists, start);
    LivePlaced(lists, start, total, live, b);
    PutBlocks(lists, start, b);
    PutCoalesced(lists, start, total, live, b);
    assert (free + {b}) + (live - {b}) == free + live;
  }

  lemma CoalescedWith(free: set<Block>, live: set<Block>, b: Block)
    requires Coalesced(free) && AllPlaced(free + live) && b in live
    requires b.order == MAX_ORDER || BuddyOf(b) !in free
    ensures Coalesced(free + {b})
  {
    hide Xor;
    BuddyGeometry(b);
    forall c | c in free + {b} && c.order < MAX_ORDER ensures BuddyOf(c) !in free + {b} {
      assert c in free + live;
      BuddyGeometry(c);
    }
  }

  lemma SplitKeeps(lists: FreeLists, start: nat, total: nat, live: set<Block>, b: Block)
    requires Inv(lists, start, total, live) && b in live && b.order > MIN_ORDER
    ensures Inv(lists, start, total, live - {b} + Halves(b))
    ensures Halves(b) !! live
  {
    var free := FreeBlocks(lists, start);
    SplitTiling(free + live, b, total);
    assert free + (live - {b} + Halves(b)) == (free + live) - {b} + Halves(b);
  }

  lemma MergeKeeps(lists: FreeLists, start: nat, total: nat, live: set<Block>, b: Block)
    requires Inv(lists, start, total, live) && b in live && BuddyOf(b) in live && b.order < MAX_ORDER
    ensures Inv(lists, start, total, live - {b, BuddyOf(b)} + {Parent(b)})
    ensures Parent(b) !in live
  {
    var free := FreeBlocks(lists, start);
    MergeTiling(free + live, b, total);
    assert free + (live - {b, BuddyOf(b)} + {Parent(b)}) == (free + live) - {b, BuddyOf(b)} + {Parent(b)};
  }

  // ----- Allocation -----

  /** The first list at or above i that is not empty; NUM_ORDERS when there is none. */
  function FirstUsable(lists: FreeLists, i: nat): (j: nat)
    requires i <= |lists|
    ensures i <= j <= |lists|
    ensures forall k :: i <= k < j ==> lists[k] == []
    ensures j < |lists| ==> lists[j] != []
    decreases |lists| - i
  {
    if i == |lists| || lists[i] != [] then i else FirstUsable(lists, i + 1)
  }

  /** Halve the block at `a` from list index j down to i, putting each upper half on its list. */
  function SplitDown(lists: FreeLists, a: nat, j: nat, i: nat): (r: FreeLists)
    requires i <= j < |lists|
    ensures |r| == |lists|
    decreases j
  {
    if j == i then lists
    else SplitDown(Put(lists, j - 1, a + Pow2(j - 1 + MIN_ORDER)), a, j - 1, i)
  }

  datatype Grant = NoMemory | Grant(addr: nat, lists: FreeLists)

  function Alloc(lists: FreeLists, i: nat): Grant
    requires i <= |lists|
  {
    var j := FirstUsable(lists, i);
    if j == |lists| then NoMemory
    else
      var a := lists[j][0];
      Grant(a, SplitDown(Take(lists, j, a), a, j, i))
  }

  lemma LivePlaced(lists: FreeLists, start: nat, total: nat, live: set<Block>, b: Block)
    requires Inv(lists, start, total, live) && b in live
    ensures WellPlaced(b) && MIN_ORDER <= b.order <= MAX_ORDER && b.off + Size(b) <= total
    ensures Shaped(lists, start) && |lists| == NUM_ORDERS && b !in FreeBlocks(lists, start)
  {
  }

  /** One halving: the lower half stays in hand, the upper half goes on its list. */
  lemma SplitStep(lists: FreeLists, start: nat, total: nat, live: set<Block>, b: Block)
    requires b !in live && Inv(lists, start, total, live + {b}) && b.order > MIN_ORDER
    ensures LowerHalf(b) !in live
    ensures |lists| == NUM_ORDERS && b.order <= MAX_ORDER
    ensures Inv(Put(lists, UpperHalf(b).order - MIN_ORDER, start + UpperHalf(b).off), start, total, live + {LowerHalf(b)})
  {
    hide Inv, WellPlaced, BuddyOf, Shaped, Put, Size, Pow2, Parent;
    var l, u := LowerHalf(b), UpperHalf(b);
    LivePlaced(lists, start, total, live + {b}, b);
    SplitKeeps(lists, start, total, live + {b}, b);
    SplitPlacement(b);
    assert live + {b} - {b} + Halves(b) == live + {l, u};
    LivePlaced(lists, start, total, live + {l, u}, l);
    LivePlaced(lists, start, total, live + {l, u}, u);
    PutKeeps(lists, start, total, live + {l, u}, u);
    assert l != u by {
      BuddyGeometry(l);
    }
    assert live + {l, u} - {u} == live + {l};
  }

  lemma {:induction false} SplitDownKeeps(lists: FreeLists, start: nat, total: nat, live: set<Block>, b: Block, i: nat)
    requires MIN_ORDER + i <= b.order <= MAX_ORDER && |lists| == NUM_ORDERS
    requires b !in live && Inv(lists, start, total, live + {b})
    ensures var c := Block(b.off, i + MIN_ORDER);
      c !in live && Inv(SplitDown(lists, start + b.off, b.order - MIN_ORDER, i), start, total, live + {c})
    decreases b.order
  {
    hide Inv;
    if b.order > MIN_ORDER + i {
      var u := UpperHalf(b);
      SplitStep(lists, start, total, live, b);
      SplitDownKeeps(Put(lists, u.order - MIN_ORDER, start + u.off), start, total, live, LowerHalf(b), i);
    }
  }

  /** A granted block is new, lies in the pool at a multiple of its size, and the invariant goes on with it among the live blocks. */
  lemma AllocKeeps(lists: FreeLists, start: nat, total: nat, live: set<Block>, i: nat)
    requires Inv(lists, start, total, live) && i < NUM_ORDERS
    ensures var g := Alloc(lists, i); g.Grant? ==>
      && g.addr >= start
      && var b := Block(g.addr - start, i + MIN_ORDER);
         b !in live && WellPlaced(b) && b.off + Size(b) <= total && Inv(g.lists, start, total, live + {b})
  {
    hide Inv, Take, SplitDown, Size, WellPlaced;
    InvLength(lists, start, total, live);
    var j := FirstUsable(lists, i);
    if j < NUM_ORDERS {
      HeadIsFree(lists, start, total, live, j);
      var b := Block(lists[j][0] - start, j + MIN_ORDER);
      var taken := Take(lists, j, lists[j][0]);
      TakeKeeps(lists, start, total, live, b);
      InvLength(taken, start, total, live + {b});
      SplitDownKeeps(taken, start, total, live, b, i);
      var c := Block(b.off, i + MIN_ORDER);
      LivePlaced(SplitDown(taken, start + b.off, j, i), start, total, live + {c}, c);
    }
  }

  lemma InvLength(lists: FreeLists, start: nat, total: nat, live: set<Block>)
    requires Inv(lists, start, total, live)
    ensures |lists| == NUM_ORDERS && Shaped(lists, start)
  {
  }

  /** An address on a list stands for a block that is aligned, not live, and apart from every other block. */
  lemma ListedBlock(lists: FreeLists, start: nat, total: nat, live: set<Block>, i: nat, a: nat)
    requires Inv(lists, start, total, live) && i < NUM_ORDERS && |lists| == NUM_ORDERS && a in lists[i]
    ensures Shaped(lists, start) && a >= start
    ensures var b := Block(a - start, i + MIN_ORDER);
      && b in FreeBlocks(lists, start) && b !in live
      && forall c :: c in FreeBlocks(lists, start) + live && c != b ==> Apart(b, c)
  {
    hide Pow2, Coalesced;
    assert IsFree(lists, start, Block(a - start, i + MIN_ORDER));
  }

  /** The head of a free list is a free block. */
  lemma HeadIsFree(lists: FreeLists, start: nat, total: nat, live: set<Block>, j: nat)
    requires Inv(lists, start, total, live) && j < NUM_ORDERS && |lists| == NUM_ORDERS && lists[j] != []
    ensures Shaped(lists, start) && lists[j][0] >= start
    ensures var b := Block(lists[j][0] - start, j + MIN_ORDER); b in FreeBlocks(lists, start) && b !in live
    ensures Take(lists, j, lists[j][0]) == lists[j := lists[j][1..]]
  {
    hide Inv, Shaped, FreeBlocks;
    assert lists[j][0] in lists[j];
    ListedBlock(lists, start, total, live, j, lists[j][0]);
  }

  /** Allocation fails exactly when every aligned place of that size in the pool meets a live block. */
  lemma AllocFailsOnlyWhenFull(lists: FreeLists, start: nat, total: nat, live: set<Block>, i: nat)
    requires Inv(lists, start, total, live) && i < NUM_ORDERS
    ensures Alloc(lists, i).NoMemory? <==>
      forall c: Block :: c.order == i + MIN_ORDER && WellPlaced(c) && c.off + Size(c) <= total ==>
        exists b :: b in live && !Apart(b, c)
  {
    if Alloc(lists, i).NoMemory? {
      forall c: Block | c.order == i + MIN_ORDER && WellPlaced(c) && c.off + Size(c) <= total
        ensures exists b :: b in live && !Apart(b, c)
      {
        if forall b :: b in live ==> Apart(b, c) {
          OpenPlaceIsGranted(lists, start, total, live, i, c);
        }
      }
    } else {
      AllocKeeps(lists, start, total, live, i);
      var c := Block(Alloc(lists, i).addr - start, i + MIN_ORDER);
      forall b | b in live ensures Apart(b, c) {
        assert b in live + {c};
      }
    }
  }

  lemma FreeSide(lists: FreeLists, start: nat, total: nat, live: set<Block>)
    requires Inv(lists, start, total, live)
    ensures var free := FreeBlocks(lists, start);
      AllPlaced(free) && AllApart(free) && Coalesced(free) && Tiles(free + live, total)
  {
  }

  lemma OpenPlaceIsGranted(lists: FreeLists, start: nat, total: nat, live: set<Block>, i: nat, c: Block)
    requires Inv(lists, start, total, live) && i < NUM_ORDERS
    requires c.order == i + MIN_ORDER && WellPlaced(c) && c.off + Size(c) <= total
    requires forall b :: b in live ==> Apart(b, c)
    ensures Alloc(lists, i).Grant?
  {
    hide Pow2, Tiles, Covered, Covers, Coalesced, Within;
    FreeSide(lists, start, total, live);
    var free := FreeBlocks(lists, start);
    UncoveredIsFree(free, live, total, c);
    var d := CoveredByOne(free, c);
    assert IsFree(lists, start, d);
    assert lists[d.order - MIN_ORDER] != [];
  }

  lemma UncoveredIsFree(free: set<Block>, live: set<Block>, total: nat, c: Block)
    requires Tiles(free + live, total) && c.off + Size(c) <= total
    requires forall b :: b in live ==> Apart(b, c)
    ensures forall x: nat :: Covers(c, x) ==> Covered(free, x)
  {
    forall x: nat | Covers(c, x) ensures Covered(free, x) {
      assert Covered(free + live, x);
      var b :| b in free + live && Covers(b, x);
      assert b in free;
    }
  }

  // ----- Release -----

  /** Where the release of the block at `a` ends: the free buddies it absorbs leave their lists, the result goes on top of its own. */
  function Free(lists: FreeLists, start: nat, a: nat, i: nat): FreeLists
    requires i < |lists|
    decreases |lists| - i
  {
    var buddy := Xor(if a < start then 0 else a - start, Pow2(i + MIN_ORDER)) + start;
    if i == |lists| - 1 || buddy !in lists[i] then Put(lists, i, a)
    else Free(Take(lists, i, buddy), start, if buddy < a then buddy else a, i + 1)
  }

  /** One turn of freeing. */
  lemma FreeStep(lists: FreeLists, start: nat, a: nat, i: nat)
    requires i < |lists| && a >= start
    ensures
      var buddy := Xor(a - start, Pow2(i + MIN_ORDER)) + start;
      Free(lists, start, a, i) ==
        if i == |lists| - 1 || buddy !in lists[i] then Put(lists, i, a)
        else Free(Take(lists, i, buddy), start, if buddy < a then buddy else a, i + 1)
  {
    hide Xor, Pow2, Put, Take;
  }

  /** One coalescing: a free buddy leaves its list and joins the block in hand. */
  lemma MergeStep(lists: FreeLists, start: nat, total: nat, live: set<Block>, b: Block)
    requires b !in live && Inv(lists, start, total, live + {b})
    requires b.order < MAX_ORDER
    requires Shaped(lists, start) && BuddyOf(b) in FreeBlocks(lists, start)
    ensures Parent(b) !in live
    ensures |lists| == NUM_ORDERS && b.order >= MIN_ORDER
    ensures Inv(Take(lists, b.order - MIN_ORDER, start + BuddyOf(b).off), start, total, live + {Parent(b)})
  {
    hide Inv, WellPlaced, Xor, Pow2, Shaped, Take, Tiles, Coalesced, FreeBlocks;
    var c := BuddyOf(b);
    LivePlaced(lists, start, total, live + {b}, b);
    BuddyGeometry(b);
    if c in live + {b} {
      LivePlaced(lists, start, total, live + {b}, c);
    }
    TakeKeeps(lists, start, total, live + {b}, c);
    var lists' := Take(lists, c.order - MIN_ORDER, start + c.off);
    MergeKeeps(lists', start, total, live + {b} + {c}, b);
    assert live + {b} + {c} - {b, c} == live;
  }

  /** Releasing a live block keeps the invariant, with exactly that block gone from the live ones. */
  lemma {:induction false} FreeKeeps(lists: FreeLists, start: nat, total: nat, live: set<Block>, b: Block)
    requires b !in live && Inv(lists, start, total, live + {b})
    ensures MIN_ORDER <= b.order <= MAX_ORDER && |lists| == NUM_ORDERS
    ensures Inv(Free(lists, start, start + b.off, b.order - MIN_ORDER), start, total, live)
    decreases MAX_ORDER - b.order
  {
    hide Inv, WellPlaced, Xor, Pow2, Shaped, Tiles, Coalesced, Without;
    LivePlaced(lists, start, total, live + {b}, b);
    BuddyGeometry(b);
    var c := BuddyOf(b);
    if b.order == MAX_ORDER || c !in FreeBlocks(lists, start) {
      PutKeeps(lists, start, total, live + {b}, b);
      assert live + {b} - {b} == live;
    } else {
      MergeStep(lists, start, total, live, b);
      FreeKeeps(Take(lists, c.order - MIN_ORDER, start + c.off), start, total, live, Parent(b));
    }
  }

  // ----- The initial free lists -----

  /** The greedy cover of the addresses cur..end: largest power-of-two blocks first. */
  function Cover(lists: FreeLists, cur: nat, end: nat): FreeLists
    requires |lists| == NUM_ORDERS && cur <= end
    decreases end - cur
  {
    var order := FloorOrder(end - cur);
    if order < MIN_ORDER then lists
    else Cover(Put(lists, order - MIN_ORDER, cur), cur + Pow2(order), end)
  }

  /** The largest order up to MAX_ORDER whose block fits in n bytes; 0 for no bytes. */
  function FloorOrder(n: nat): (k: nat)
    ensures k <= MAX_ORDER && (n > 0 ==> Pow2(k) <= n) && (n == 0 ==> k == 0)
    ensures k < MAX_ORDER ==> n < Pow2(k + 1)
  {
    FloorFrom(n, MAX_ORDER)
  }

  function FloorFrom(n: nat, k: nat): (r: nat)
    ensures r <= k && (n > 0 ==> Pow2(r) <= n) && (n == 0 ==> r == 0)
    ensures r < k ==> n < Pow2(r + 1)
  {
    if k == 0 || Pow2(k) <= n then k else FloorFrom(n, k - 1)
  }

  function Empty(): (lists: FreeLists)
    ensures |lists| == NUM_ORDERS && forall i :: 0 <= i < NUM_ORDERS ==> lists[i] == []
  {
    [[], [], [], [], [], [], [], [], [], [], [], [], [], [], [], [], []]
  }

  /** The part of a pool of n bytes that the blocks cover: the whole pages. */
  function Total(n: nat): nat {
    n - n % 4096
  }

  /** What holds while the greedy cover is under way: `done` bytes are tiled, at least n remain. */
  ghost predicate Covering(lists: FreeLists, start: nat, done: nat, n: nat) {
    && Shaped(lists, start)
    && Tiles(FreeBlocks(lists, start), done)
    && Coalesced(FreeBlocks(lists, start))
    && (forall b :: b in FreeBlocks(lists, start) ==> b.order == MAX_ORDER || b.order > FloorOrder(n))
    && done % 4096 == 0
    && done % Pow2(FloorOrder(n)) == 0
  }

  lemma EmptyIsCovering(start: nat, n: nat)
    ensures Covering(Empty(), start, 0, n)
  {
    assert FreeBlocks(Empty(), start) == {};
  }

  lemma MultipleOfSmaller(x: nat, k: nat, m: nat)
    requires m <= k && x % Pow2(k) == 0
    ensures x % Pow2(m) == 0
  {
    hide Pow2;
    var i := x / Pow2(k);
    assert x == Pow2(k) * i;
    Pow2Add(m, k - m);
    MultipleOfFactor(x, Pow2(m), Pow2(k - m), i);
  }

  lemma MultipleOfFactor(x: nat, p: nat, q: nat, i: nat)
    requires p > 0 && x == (p * q) * i
    ensures x % p == 0
  {
    MulAssociative(p, q, i);
    DivideUnique(x, p, q * i, 0);
  }

  lemma SumOfMultiples(x: nat, p: nat)
    requires p > 0 && x % p == 0
    ensures (x + p) % p == 0
  {
    var i := x / p;
    assert x + p == p * (i + 1);
    DivideUnique(x + p, p, i + 1, 0);
  }

  /** The next order of the greedy cover: the top order again, or a strictly smaller one. */
  lemma NextOrder(n: nat)
    requires FloorOrder(n) >= MIN_ORDER
    ensures Pow2(FloorOrder(n)) <= n
    ensures FloorOrder(n) == MAX_ORDER || FloorOrder(n - Pow2(FloorOrder(n))) < FloorOrder(n)
  {
    var k := FloorOrder(n);
    var m := FloorOrder(n - Pow2(k));
    if k < MAX_ORDER && n > Pow2(k) && m >= k {
      Pow2Monotone(k, m);
    }
  }

  lemma AppendTiling(s: set<Block>, b: Block, done: nat)
    requires Tiles(s, done) && b.off == done && WellPlaced(b)
    ensures Tiles(s + {b}, done + Size(b))
  {
    forall x: nat | x < done + Size(b) ensures Covered(s + {b}, x) {
      if x < done {
        assert Covered(s, x);
        var c :| c in s && Covers(c, x);
        assert c in s + {b};
      } else {
        assert b in s + {b} && Covers(b, x);
      }
    }
  }

  lemma AppendCoalesced(s: set<Block>, b: Block, done: nat)
    requires Tiles(s, done) && Coalesced(s) && WellPlaced(b)
    requires forall c :: c in s ==> c.order == MAX_ORDER || c.order > b.order
    ensures Coalesced(s + {b})
  {
    hide Xor;
    BuddyGeometry(b);
  }

  lemma CoverArithmetic(done: nat, n: nat)
    requires done % 4096 == 0 && done % Pow2(FloorOrder(n)) == 0 && FloorOrder(n) >= MIN_ORDER
    ensures var k := FloorOrder(n);
      && Pow2(k) <= n
      && WellPlaced(Block(done, k))
      && (done + Pow2(k)) % 4096 == 0
      && (done + Pow2(k)) % Pow2(FloorOrder(n - Pow2(k))) == 0
  {
    hide Pow2, FloorOrder;
    var k := FloorOrder(n);
    NextOrder(n);
    Pow2Values();
    SumOfMultiples(done, Pow2(k));
    MultipleOfSmaller(done + Pow2(k), k, FloorOrder(n - Pow2(k)));
    MultipleOfSmaller(done + Pow2(k), k, 12);
  }

  lemma CoverStep(lists: FreeLists, start: nat, done: nat, n: nat)
    requires |lists| == NUM_ORDERS && Covering(lists, start, done, n) && FloorOrder(n) >= MIN_ORDER
    ensures Pow2(FloorOrder(n)) <= n
    ensures var k := FloorOrder(n); Covering(Put(lists, k - MIN_ORDER, start + done), start, done + Pow2(k), n - Pow2(k))
  {
    hide Pow2, FloorOrder, Xor, Shaped, Put, Tiles, Coalesced, WellPlaced, FreeBlocks;
    var free, b := FreeBlocks(lists, start), Block(done, FloorOrder(n));
    CoverArithmetic(done, n);
    NextOrder(n);
    EndIsNew(free, b, done);
    PutBlocks(lists, start, b);
    AppendTiling(free, b, done);
    AppendCoalesced(free, b, done);
  }

  lemma EndIsNew(free: set<Block>, b: Block, done: nat)
    requires Tiles(free, done) && b.off >= done
    ensures b !in free
  {
  }

  lemma {:induction false} CoverKeeps(lists: FreeLists, start: nat, done: nat, n: nat)
    requires |lists| == NUM_ORDERS && Covering(lists, start, done, n)
    ensures Inv(Cover(lists, start + done, start + done + n), start, Total(done + n), {})
    decreases n
  {
    hide Covering, Tiles, Coalesced, Shaped, Pow2, FloorOrder, FreeBlocks;
    if FloorOrder(n) < MIN_ORDER {
      CoverEnds(lists, start, done, n);
    } else {
      var k := FloorOrder(n);
      CoverStep(lists, start, done, n);
      CoverKeeps(Put(lists, k - MIN_ORDER, start + done), start, done + Pow2(k), n - Pow2(k));
    }
  }

  lemma CoverEnds(lists: FreeLists, start: nat, done: nat, n: nat)
    requires Covering(lists, start, done, n) && FloorOrder(n) < MIN_ORDER
    ensures Inv(lists, start, Total(done + n), {})
  {
    hide FloorOrder, Pow2;
    assert n < 4096 by {
      Pow2Monotone(FloorOrder(n) + 1, 12);
      Pow2Values();
    }
    assert Total(done + n) == done;
    assert FreeBlocks(lists, start) + {} == FreeBlocks(lists, start);
  }

  /** The free lists of a fresh pool satisfy the invariant with no live block. */
  lemma InitialLists(start: nat, end: nat)
    requires start <= end
    ensures Inv(Cover(Empty(), start, end), start, Total(end - start), {})
  {
    hide Empty, Cover, Inv, Covering;
    EmptyIsCovering(start, end - start);
    CoverKeeps(Empty(), start, 0, end - start);
  }

  /** Canonical form: with every block released, the free lists hold exactly the blocks of a fresh pool, in whatever order. */
  lemma AllFreeIsInitial(lists: FreeLists, start: nat, end: nat)
    requires start <= end
    requires Inv(lists, start, Total(end - start), {})
    ensures Shaped(Cover(Empty(), start, end), start)
    ensures FreeBlocks(lists, start) == FreeBlocks(Cover(Empty(), start, end), start)
  {
    var first := Cover(Empty(), start, end);
    InitialLists(start, end);
    hide Tiles, Coalesced, Shaped, FreeBlocks, Cover;
    assert FreeBlocks(lists, start) + {} == FreeBlocks(lists, start);
    assert FreeBlocks(first, start) + {} == FreeBlocks(first, start);
    CanonicalTiling(FreeBlocks(lists, start), FreeBlocks(first, start), Total(end - start));
  }
}
