/** The user heap's blocks in list order: they tile the memory obtained so far, and no two free ones are neighbours. */
module UserBlocks {
  /** The bytes of a block header. */
  const HEADER := 20
  const PAGE := 4096

  datatype Block = Block(addr: nat, size: nat, free: bool)

  type Blocks = seq<Block>

  function End(b: Block): nat {
    b.addr + HEADER + b.size
  }

  /** Where the bytes handed out start. */
  function Payload(b: Block): nat {
    b.addr + HEADER
  }

  /** Each block begins where the one before it ends. */
  predicate Tiles(bs: Blocks, base: nat, end: nat) {
    && bs != [] && bs[0].addr == base && End(bs[|bs| - 1]) == end
    && forall i | 0 < i < |bs| :: bs[i].addr == End(bs[i - 1])
  }

  predicate FreeApart(bs: Blocks) {
    forall i | 0 < i < |bs| :: !(bs[i - 1].free && bs[i].free)
  }

  ghost predicate HeapOk(bs: Blocks, base: nat, end: nat) {
    Tiles(bs, base, end) && FreeApart(bs)
  }

  /** The blocks in use. */
  function Live(bs: Blocks): set<Block> {
    set b | b in bs && !b.free
  }

  lemma {:induction false} Ordered(bs: Blocks, base: nat, end: nat, i: nat, j: nat)
    requires Tiles(bs, base, end) && i < j < |bs|
    ensures End(bs[i]) <= bs[j].addr && base <= bs[i].addr && End(bs[j]) <= end
    decreases j - i, |bs| - j + i
  {
    InsideHeap(bs, base, end, i);
    InsideHeap(bs, base, end, j);
    if i + 1 < j {
      Ordered(bs, base, end, i, j - 1);
    }
  }

  lemma {:induction false} InsideHeap(bs: Blocks, base: nat, end: nat, i: nat)
    requires Tiles(bs, base, end) && i < |bs|
    ensures base <= bs[i].addr && End(bs[i]) <= end
    decreases |bs|
  {
    var k := i;
    while k > 0
      invariant 0 <= k <= i && bs[k].addr <= bs[i].addr
    {
      k := k - 1;
    }
    k := i;
    while k < |bs| - 1
      invariant i <= k < |bs| && End(bs[i]) <= End(bs[k])
    {
      k := k + 1;
    }
  }

  /** Payloads in use do not overlap each other, nor any header. */
  lemma PayloadsApart(bs: Blocks, base: nat, end: nat, b: Block, c: Block)
    requires Tiles(bs, base, end) && b in bs && c in bs && b != c
    ensures End(b) <= c.addr || End(c) <= b.addr
  {
    var i :| 0 <= i < |bs| && bs[i] == b;
    var j :| 0 <= j < |bs| && bs[j] == c;
    if i < j {
      Ordered(bs, base, end, i, j);
    } else {
      Ordered(bs, base, end, j, i);
    }
  }

  // malloc.

  /** The first free block that is large enough, or the number of blocks. */
  function FirstFit(bs: Blocks, size: nat): (k: nat)
    ensures k <= |bs| && (k < |bs| ==> bs[k].free && bs[k].size >= size)
    ensures forall j | 0 <= j < k :: !(bs[j].free && bs[j].size >= size)
  {
    if bs == [] || (bs[0].free && bs[0].size >= size) then 0
    else
      var k := FirstFit(bs[1..], size);
      assert forall j | 0 < j < k + 1 :: bs[j] == bs[1..][j - 1];
      k + 1
  }

  lemma FitIs(bs: Blocks, size: nat, k: nat)
    requires k <= |bs| && (k < |bs| ==> bs[k].free && bs[k].size >= size)
    requires forall j | 0 <= j < k :: !(bs[j].free && bs[j].size >= size)
    ensures FirstFit(bs, size) == k
  {
  }

  /** A block is split when more than a header and 16 bytes would be left over. */
  predicate Splits(b: Block, size: nat) {
    b.size > size + HEADER + 16
  }

  function Taken(b: Block, size: nat): Block {
    if Splits(b, size) then Block(b.addr, size, false) else b.(free := false)
  }

  function Rest(b: Block, size: nat): Block
    requires Splits(b, size)
  {
    Block(b.addr + HEADER + size, b.size - size - HEADER, true)
  }

  function Take(bs: Blocks, k: nat, size: nat): Blocks
    requires k < |bs| && bs[k].size >= size
  {
    if Splits(bs[k], size) then bs[..k] + [Taken(bs[k], size), Rest(bs[k], size)] + bs[k + 1..]
    else bs[k := Taken(bs[k], size)]
  }

  /** A new free block at the end. */
  function Extend(bs: Blocks, end: nat, need: nat): Blocks
    requires need >= HEADER
  {
    bs + [Block(end, need - HEADER, true)]
  }

  lemma TakeKeeps(bs: Blocks, base: nat, end: nat, k: nat, size: nat)
    requires Tiles(bs, base, end) && k < |bs| && bs[k].free && bs[k].size >= size
    requires forall i | 0 < i < |bs| && i != k :: !(bs[i - 1].free && bs[i].free)
    ensures HeapOk(Take(bs, k, size), base, end)
    ensures Live(Take(bs, k, size)) == Live(bs) + {Taken(bs[k], size)}
    ensures Taken(bs[k], size) !in Live(bs)
  {
    var r := Take(bs, k, size);
    TakeTiles(bs, base, end, k, size);
    forall b ensures b in r && !b.free <==> (b in bs && !b.free) || b == Taken(bs[k], size) {
      TakeMembers(bs, k, size, b);
    }
    if Taken(bs[k], size) in bs {
      var j :| 0 <= j < |bs| && bs[j] == Taken(bs[k], size);
      if j < k {
        Ordered(bs, base, end, j, k);
      } else if j > k {
        Ordered(bs, base, end, k, j);
      }
    }
  }

  lemma TakeTiles(bs: Blocks, base: nat, end: nat, k: nat, size: nat)
    requires Tiles(bs, base, end) && k < |bs| && bs[k].free && bs[k].size >= size
    requires forall i | 0 < i < |bs| && i != k :: !(bs[i - 1].free && bs[i].free)
    ensures HeapOk(Take(bs, k, size), base, end)
  {
    var r := Take(bs, k, size);
    if Splits(bs[k], size) {
      assert |r| == |bs| + 1 && forall i | 0 <= i < |r| ::
        r[i] == if i < k then bs[i] else if i == k then Taken(bs[k], size) else if i == k + 1 then Rest(bs[k], size) else bs[i - 1];
      forall i | 0 < i < |r| ensures r[i].addr == End(r[i - 1]) && !(r[i - 1].free && r[i].free) {
        if i > k + 1 {
          assert bs[i - 1].addr == End(bs[i - 2]);
          assert i - 1 != k ==> !(bs[i - 2].free && bs[i - 1].free);
        }
      }
    }
  }

  lemma TakeMembers(bs: Blocks, k: nat, size: nat, b: Block)
    requires k < |bs| && bs[k].free && bs[k].size >= size
    ensures b in Take(bs, k, size) && !b.free <==> (b in bs && !b.free) || b == Taken(bs[k], size)
  {
    var r := Take(bs, k, size);
    if b in bs && !b.free {
      var j :| 0 <= j < |bs| && bs[j] == b;
      assert r[if j > k && Splits(bs[k], size) then j + 1 else j] == b;
    }
    assert r[k] == Taken(bs[k], size);
    if b in r && !b.free {
      var j :| 0 <= j < |r| && r[j] == b;
      if Splits(bs[k], size) && j > k + 1 {
        assert bs[j - 1] == b;
      }
    }
  }

  /** Room for the request in whole pages. */
  function Need(size: nat): (n: nat)
    ensures n >= size + HEADER && n % PAGE == 0 && n < size + HEADER + PAGE
  {
    (size + HEADER + PAGE - 1) / PAGE * PAGE
  }

  /** Extending and taking: the block just added is large enough, so memory is obtained once at most. */
  lemma ExtendKeeps(bs: Blocks, base: nat, end: nat, size: nat)
    requires HeapOk(bs, base, end) && FirstFit(bs, size) == |bs|
    ensures
      var more := Extend(bs, end, Need(size));
      && Tiles(more, base, end + Need(size)) && FirstFit(more, size) == |bs| && more[|bs|].size >= size
      && Live(more) == Live(bs)
      && forall i | 0 < i < |more| && i != |bs| :: !(more[i - 1].free && more[i].free)
  {
    var more := Extend(bs, end, Need(size));
    FitIs(more, size, |bs|);
    forall b ensures b in more && !b.free <==> b in bs && !b.free {
      if b in bs {
        var j :| 0 <= j < |bs| && bs[j] == b;
        assert more[j] == b;
      }
    }
  }

  // free.

  function Join(a: Block, b: Block): Block {
    Block(a.addr, a.size + HEADER + b.size, true)
  }

  /** Two neighbours replaced by one block. */
  function Fuse(bs: Blocks, j: nat): (r: Blocks)
    requires j + 1 < |bs|
    ensures |r| == |bs| - 1
    ensures forall i | 0 <= i < |r| :: r[i] == if i < j then bs[i] else if i == j then Join(bs[j], bs[j + 1]) else bs[i + 1]
  {
    bs[..j] + [Join(bs[j], bs[j + 1])] + bs[j + 2..]
  }

  /** The k-th block freed and joined with the next block if that is free. */
  function JoinNext(bs: Blocks, k: nat): (r: Blocks)
    requires k < |bs|
    ensures k < |r|
  {
    if k + 1 < |bs| && bs[k + 1].free then Fuse(bs, k) else bs[k := bs[k].(free := true)]
  }

  function JoinPrev(bs: Blocks, k: nat): Blocks
    requires k < |bs|
  {
    if k > 0 && bs[k - 1].free then Fuse(bs, k - 1) else bs
  }

  function Freed(bs: Blocks, k: nat): Blocks
    requires k < |bs|
  {
    JoinPrev(JoinNext(bs, k), k)
  }

  predicate Distinct(bs: Blocks) {
    forall i, j | 0 <= i < j < |bs| :: bs[i] != bs[j]
  }

  lemma BlocksDiffer(bs: Blocks, base: nat, end: nat)
    requires Tiles(bs, base, end)
    ensures Distinct(bs)
  {
    forall i, j | 0 <= i < j < |bs| ensures bs[i] != bs[j] {
      Ordered(bs, base, end, i, j);
    }
  }

  lemma FuseTiles(bs: Blocks, base: nat, end: nat, j: nat)
    requires Tiles(bs, base, end) && j + 1 < |bs|
    ensures Tiles(Fuse(bs, j), base, end)
  {
    var r := Fuse(bs, j);
    forall i | 0 < i < |r| ensures r[i].addr == End(r[i - 1]) {
      assert i > j ==> bs[i + 1].addr == End(bs[i]);
    }
  }

  /** A pair of neighbours after fusing was a pair of neighbours before, or has the fused block in it. */
  lemma FuseApart(bs: Blocks, j: nat, i: nat)
    requires j + 1 < |bs| && 0 < i < |Fuse(bs, j)|
    ensures i < j ==> Fuse(bs, j)[i - 1] == bs[i - 1] && Fuse(bs, j)[i] == bs[i]
    ensures i > j + 1 ==> Fuse(bs, j)[i - 1] == bs[i] && Fuse(bs, j)[i] == bs[i + 1]
    ensures i == j ==> Fuse(bs, j)[i - 1] == bs[j - 1]
    ensures i == j + 1 ==> Fuse(bs, j)[i] == bs[j + 2]
  {
  }

  lemma FuseMember(bs: Blocks, j: nat, b: Block)
    requires j + 1 < |bs| && Distinct(bs) && !b.free
    ensures b in Fuse(bs, j) <==> b in bs && b != bs[j] && b != bs[j + 1]
  {
    var r := Fuse(bs, j);
    if b in bs && b != bs[j] && b != bs[j + 1] {
      var i :| 0 <= i < |bs| && bs[i] == b;
      assert r[if i > j then i - 1 else i] == b;
    }
    if b in r {
      var i :| 0 <= i < |r| && r[i] == b;
      assert bs[if i > j then i + 1 else i] == b;
    }
  }

  lemma FuseLive(bs: Blocks, j: nat)
    requires j + 1 < |bs| && Distinct(bs)
    ensures Live(Fuse(bs, j)) == Live(bs) - {bs[j], bs[j + 1]}
  {
    forall b: Block | !b.free ensures b in Fuse(bs, j) <==> b in bs && b != bs[j] && b != bs[j + 1] {
      FuseMember(bs, j, b);
    }
  }

  lemma UpdateLive(bs: Blocks, k: nat)
    requires k < |bs| && Distinct(bs)
    ensures Live(bs[k := bs[k].(free := true)]) == Live(bs) - {bs[k]}
  {
    var r := bs[k := bs[k].(free := true)];
    forall b: Block | !b.free ensures b in r <==> b in bs && b != bs[k] {
      if b in bs && b != bs[k] {
        var i :| 0 <= i < |bs| && bs[i] == b;
        assert r[i] == b;
      }
      if b in r {
        var i :| 0 <= i < |r| && r[i] == b;
        assert bs[i] == b;
      }
    }
  }

  lemma JoinNextKeeps(bs: Blocks, base: nat, end: nat, k: nat)
    requires HeapOk(bs, base, end) && k < |bs| && !bs[k].free
    ensures
      var r := JoinNext(bs, k);
      && Tiles(r, base, end) && r[k].free && Live(r) == Live(bs) - {bs[k]}
      && (forall i | 0 < i < |r| && i != k :: !(r[i - 1].free && r[i].free))
  {
    hide Distinct, Live;
    var r := JoinNext(bs, k);
    BlocksDiffer(bs, base, end);
    if k + 1 < |bs| && bs[k + 1].free {
      FuseTiles(bs, base, end, k);
      FuseLive(bs, k);
      FreeNotLive(bs, bs[k + 1]);
      assert Live(bs) - {bs[k], bs[k + 1]} == Live(bs) - {bs[k]};
      forall i | 0 < i < |r| && i != k ensures !(r[i - 1].free && r[i].free) {
        FuseApart(bs, k, i);
        assert i == k + 1 ==> !(bs[k + 1].free && bs[k + 2].free);
        assert i > k + 1 ==> !(bs[i].free && bs[i + 1].free);
      }
    } else {
      UpdateLive(bs, k);
    }
  }

  lemma FreeNotLive(bs: Blocks, b: Block)
    requires b.free
    ensures b !in Live(bs)
  {
  }

  lemma JoinPrevKeeps(bs: Blocks, base: nat, end: nat, k: nat)
    requires Tiles(bs, base, end) && k < |bs| && bs[k].free
    requires forall i | 0 < i < |bs| && i != k :: !(bs[i - 1].free && bs[i].free)
    ensures HeapOk(JoinPrev(bs, k), base, end) && Live(JoinPrev(bs, k)) == Live(bs)
  {
    hide Distinct, Live;
    var r := JoinPrev(bs, k);
    if k > 0 && bs[k - 1].free {
      BlocksDiffer(bs, base, end);
      FuseTiles(bs, base, end, k - 1);
      FuseLive(bs, k - 1);
      FreeNotLive(bs, bs[k - 1]);
      FreeNotLive(bs, bs[k]);
      assert Live(bs) - {bs[k - 1], bs[k]} == Live(bs);
      forall i | 0 < i < |r| ensures !(r[i - 1].free && r[i].free) {
        FuseApart(bs, k - 1, i);
        assert i == k - 1 ==> !bs[i - 1].free;
        assert i >= k ==> !(bs[i].free && bs[i + 1].free);
      }
    }
  }

  /** Freeing gives back exactly that block, keeps the tiling, and leaves no two free neighbours. */
  lemma FreeKeeps(bs: Blocks, base: nat, end: nat, k: nat)
    requires HeapOk(bs, base, end) && k < |bs| && !bs[k].free
    ensures HeapOk(Freed(bs, k), base, end) && Live(Freed(bs, k)) == Live(bs) - {bs[k]}
  {
    JoinNextKeeps(bs, base, end, k);
    JoinPrevKeeps(JoinNext(bs, k), base, end, k);
  }

  /** Freeing what malloc has just cut off restores the list. */
  lemma TakeFreeRestores(bs: Blocks, base: nat, end: nat, k: nat, size: nat)
    requires HeapOk(bs, base, end) && k < |bs| && bs[k].free && bs[k].size >= size
    ensures k < |Take(bs, k, size)| && Freed(Take(bs, k, size), k) == bs
  {
    var r := Take(bs, k, size);
    if Splits(bs[k], size) {
      assert r[..k] == bs[..k] && r[k + 2..] == bs[k + 1..];
      assert JoinNext(r, k) == bs[..k] + [bs[k]] + bs[k + 1..] == bs;
    } else {
      assert k + 1 < |bs| ==> r[k + 1] == bs[k + 1];
      assert JoinNext(r, k) == bs;
    }
  }

  /** When everything has been freed, one free block covers all the memory. */
  lemma AllFree(bs: Blocks, base: nat, end: nat)
    requires HeapOk(bs, base, end) && Live(bs) == {}
    ensures |bs| == 1 && bs[0].free && bs[0].addr == base && End(bs[0]) == end
  {
    NotLive(bs, 0);
    if |bs| > 1 {
      NotLive(bs, 1);
    }
  }

  lemma NotLive(bs: Blocks, i: nat)
    requires i < |bs|
    ensures bs[i] !in Live(bs) ==> bs[i].free
  {
  }
}
