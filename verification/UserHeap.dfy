/** The user heap as linked block headers in memory: heap_init, malloc, free and realloc. */
module UserHeap {
  import opened UserBlocks

  const MAGIC := 0xDEADBEEF
  const WORD := 0x1_0000_0000

  datatype Header = Header(magic: nat, size: nat, free: bool, next: nat, prev: nat)

  /** The address of a list element, or the null pointer outside the list. */
  function AddrAt(bs: Blocks, i: int): nat {
    if 0 <= i < |bs| then bs[i].addr else 0
  }

  function HeaderOf(bs: Blocks, i: nat): Header
    requires i < |bs|
  {
    Header(MAGIC, bs[i].size, bs[i].free, AddrAt(bs, i + 1), AddrAt(bs, i - 1))
  }

  /** The headers in memory are a doubly linked list of the blocks. */
  predicate Links(headers: map<nat, Header>, bs: Blocks) {
    forall i | 0 <= i < |bs| :: bs[i].addr in headers && headers[bs[i].addr] == HeaderOf(bs, i)
  }

  /** Rounding up to a multiple of 8 in 32 bits. */
  function Round8(size: nat): nat {
    (size + 7) % WORD / 8 * 8
  }

  /** Sizes up to this are rounded up to pages without wrapping around. */
  const SIZE_LIMIT := 0xFFFF_EFE8

  lemma Rounded(size: nat)
    ensures size <= SIZE_LIMIT ==> size <= Round8(size) < size + 8 && Round8(size) % 8 == 0 && Round8(size) + HEADER + PAGE - 1 < WORD
    ensures SIZE_LIMIT < size < WORD ==> Round8(size) < size || Round8(size) + HEADER + PAGE - 1 >= WORD
  {
  }

  /** Requests whose rounding to whole pages stays within 32 bits: all but a page's worth of them. */
  predicate Roundable(size: nat) {
    size < WORD && Round8(size) + HEADER + PAGE - 1 < WORD
  }

  lemma RoundableExactly(size: nat)
    ensures Roundable(size) <==> size <= SIZE_LIMIT || WORD - 8 < size < WORD
    ensures WORD - 8 < size < WORD ==> Round8(size) == 0
  {
    Rounded(size);
  }

  lemma LinkAt(headers: map<nat, Header>, bs: Blocks, i: nat)
    requires Links(headers, bs) && i < |bs|
    ensures bs[i].addr in headers && headers[bs[i].addr] == HeaderOf(bs, i)
  {
  }

  lemma AddressesDiffer(bs: Blocks, base: nat, end: nat, i: nat, j: nat)
    requires Tiles(bs, base, end) && i < |bs| && j < |bs| && i != j
    ensures bs[i].addr != bs[j].addr
  {
    if i < j {
      Ordered(bs, base, end, i, j);
    } else {
      Ordered(bs, base, end, j, i);
    }
  }

  // What malloc and free write, as functions of the headers in memory.

  function SplitHeaders(headers: map<nat, Header>, bs: Blocks, k: nat, size: nat): map<nat, Header>
    requires k < |bs| && bs[k].size >= size + HEADER
  {
    var a := bs[k].addr;
    var n := a + HEADER + size;
    var h1 := headers[n := Header(MAGIC, bs[k].size - size - HEADER, true, AddrAt(bs, k + 1), a)];
    var h2 := if k + 1 < |bs| then h1[bs[k + 1].addr := HeaderOf(bs, k + 1).(prev := n)] else h1;
    h2[a := Header(MAGIC, size, false, n, AddrAt(bs, k - 1))]
  }

  lemma TakeAddr(bs: Blocks, k: nat, size: nat, i: int)
    requires k < |bs| && Splits(bs[k], size)
    ensures
      AddrAt(Take(bs, k, size), i) ==
      if i <= k then AddrAt(bs, i) else if i == k + 1 then bs[k].addr + HEADER + size else AddrAt(bs, i - 1)
  {
  }

  lemma TakeAt(bs: Blocks, k: nat, size: nat, i: nat)
    requires k < |bs| && Splits(bs[k], size) && i <= |bs|
    ensures |Take(bs, k, size)| == |bs| + 1
    ensures
      Take(bs, k, size)[i] ==
      if i < k then bs[i] else if i == k then Taken(bs[k], size) else if i == k + 1 then Rest(bs[k], size) else bs[i - 1]
  {
  }

  /** The address of the split-off block is new. */
  lemma RestIsNew(bs: Blocks, base: nat, end: nat, k: nat, size: nat, i: nat)
    requires Tiles(bs, base, end) && k < |bs| && Splits(bs[k], size) && i < |bs|
    ensures bs[i].addr != bs[k].addr + HEADER + size
  {
    if i < k {
      Ordered(bs, base, end, i, k);
    } else if i > k {
      Ordered(bs, base, end, k, i);
    }
  }

  lemma SplitLink(headers: map<nat, Header>, bs: Blocks, base: nat, end: nat, k: nat, size: nat, i: nat)
    requires Tiles(bs, base, end) && Links(headers, bs) && k < |bs| && Splits(bs[k], size) && i <= |bs|
    ensures
      var r := Take(bs, k, size);
      i < |r| && r[i].addr in SplitHeaders(headers, bs, k, size) && SplitHeaders(headers, bs, k, size)[r[i].addr] == HeaderOf(r, i)
  {
    hide Links, Tiles, Take, AddrAt;
    TakeAt(bs, k, size, i);
    TakeAddr(bs, k, size, i - 1);
    TakeAddr(bs, k, size, i + 1);
    RestIsNew(bs, base, end, k, size, k);
    if k + 1 < |bs| {
      RestIsNew(bs, base, end, k, size, k + 1);
      AddressesDiffer(bs, base, end, k, k + 1);
    }
    AddrIs(bs, k);
    if i < k || i > k + 1 {
      var j := if i < k then i else i - 1;
      LinkAt(headers, bs, j);
      RestIsNew(bs, base, end, k, size, j);
      AddressesDiffer(bs, base, end, j, k);
      if k + 1 < |bs| && j != k + 1 {
        AddressesDiffer(bs, base, end, j, k + 1);
      }
    }
  }

  lemma AddrIs(bs: Blocks, i: nat)
    requires i < |bs|
    ensures AddrAt(bs, i) == bs[i].addr
  {
  }

  lemma SplitLinks(headers: map<nat, Header>, bs: Blocks, base: nat, end: nat, k: nat, size: nat)
    requires Tiles(bs, base, end) && Links(headers, bs) && k < |bs| && Splits(bs[k], size)
    ensures Links(SplitHeaders(headers, bs, k, size), Take(bs, k, size))
  {
    hide Take, HeaderOf, SplitHeaders;
    TakeAt(bs, k, size, 0);
    forall i | 0 <= i < |Take(bs, k, size)|
      ensures
        var r := Take(bs, k, size);
        r[i].addr in SplitHeaders(headers, bs, k, size) && SplitHeaders(headers, bs, k, size)[r[i].addr] == HeaderOf(r, i)
    {
      SplitLink(headers, bs, base, end, k, size, i);
    }
  }

  lemma UseLinks(headers: map<nat, Header>, bs: Blocks, base: nat, end: nat, k: nat, free: bool)
    requires Tiles(bs, base, end) && Links(headers, bs) && k < |bs|
    ensures Links(headers[bs[k].addr := HeaderOf(bs, k).(free := free)], bs[k := bs[k].(free := free)])
  {
    hide HeaderOf;
    var r := bs[k := bs[k].(free := free)];
    var h := headers[bs[k].addr := HeaderOf(bs, k).(free := free)];
    forall i | 0 <= i < |bs| ensures r[i].addr in h && h[r[i].addr] == HeaderOf(r, i) {
      UseLink(headers, bs, base, end, k, free, i);
    }
  }

  lemma UseLink(headers: map<nat, Header>, bs: Blocks, base: nat, end: nat, k: nat, free: bool, i: nat)
    requires Tiles(bs, base, end) && Links(headers, bs) && k < |bs| && i < |bs|
    ensures
      var r := bs[k := bs[k].(free := free)];
      var h := headers[bs[k].addr := HeaderOf(bs, k).(free := free)];
      r[i].addr in h && h[r[i].addr] == HeaderOf(r, i)
  {
    hide Links, Tiles;
    LinkAt(headers, bs, i);
    if i != k {
      AddressesDiffer(bs, base, end, i, k);
    }
  }

  function ExtendHeaders(headers: map<nat, Header>, bs: Blocks, end: nat, need: nat): map<nat, Header>
    requires bs != [] && need >= HEADER
  {
    var last := |bs| - 1;
    headers[end := Header(MAGIC, need - HEADER, true, 0, bs[last].addr)][bs[last].addr := HeaderOf(bs, last).(next := end)]
  }

  lemma ExtendLink(headers: map<nat, Header>, bs: Blocks, base: nat, end: nat, need: nat, i: nat)
    requires Tiles(bs, base, end) && Links(headers, bs) && need >= HEADER && i <= |bs|
    ensures
      var r, h := Extend(bs, end, need), ExtendHeaders(headers, bs, end, need);
      r[i].addr in h && h[r[i].addr] == HeaderOf(r, i)
  {
    hide Links, Tiles;
    var last := |bs| - 1;
    LastEnds(bs, base, end);
    if i < |bs| {
      LinkAt(headers, bs, i);
      InsideHeap(bs, base, end, i);
      if i != last {
        AddressesDiffer(bs, base, end, i, last);
      }
    }
  }

  lemma LastEnds(bs: Blocks, base: nat, end: nat)
    requires Tiles(bs, base, end)
    ensures bs != [] && bs[|bs| - 1].addr < end
  {
  }

  lemma ExtendLinks(headers: map<nat, Header>, bs: Blocks, base: nat, end: nat, need: nat)
    requires Tiles(bs, base, end) && Links(headers, bs) && need >= HEADER
    ensures Links(ExtendHeaders(headers, bs, end, need), Extend(bs, end, need))
  {
    hide HeaderOf, ExtendHeaders;
    var r, h := Extend(bs, end, need), ExtendHeaders(headers, bs, end, need);
    forall i | 0 <= i < |r| ensures r[i].addr in h && h[r[i].addr] == HeaderOf(r, i) {
      ExtendLink(headers, bs, base, end, need, i);
    }
  }

  function FuseHeaders(headers: map<nat, Header>, bs: Blocks, j: nat): map<nat, Header>
    requires j + 1 < |bs|
  {
    var a := bs[j].addr;
    var h := headers[a := Header(MAGIC, bs[j].size + HEADER + bs[j + 1].size, true, AddrAt(bs, j + 2), AddrAt(bs, j - 1))];
    if j + 2 < |bs| then h[bs[j + 2].addr := HeaderOf(bs, j + 2).(prev := a)] else h
  }

  lemma FuseAddr(bs: Blocks, j: nat, i: int)
    requires j + 1 < |bs|
    ensures AddrAt(Fuse(bs, j), i) == if i <= j then AddrAt(bs, i) else AddrAt(bs, i + 1)
  {
  }

  lemma FuseAt(bs: Blocks, j: nat, i: nat)
    requires j + 1 < |bs| && i < |bs| - 1
    ensures i < |Fuse(bs, j)|
    ensures Fuse(bs, j)[i] == if i < j then bs[i] else if i == j then Join(bs[j], bs[j + 1]) else bs[i + 1]
  {
  }

  lemma FuseLink(headers: map<nat, Header>, bs: Blocks, base: nat, end: nat, j: nat, i: nat)
    requires Tiles(bs, base, end) && Links(headers, bs) && j + 1 < |bs| && i < |bs| - 1
    ensures
      var r := Fuse(bs, j);
      i < |r| && r[i].addr in FuseHeaders(headers, bs, j) && FuseHeaders(headers, bs, j)[r[i].addr] == HeaderOf(r, i)
  {
    hide Links, Tiles, Fuse, AddrAt;
    FuseAt(bs, j, i);
    FuseAddr(bs, j, i - 1);
    FuseAddr(bs, j, i + 1);
    AddrIs(bs, j);
    if j + 2 < |bs| {
      AddressesDiffer(bs, base, end, j, j + 2);
    }
    if i != j {
      var k := if i < j then i else i + 1;
      LinkAt(headers, bs, k);
      AddressesDiffer(bs, base, end, k, j);
      if j + 2 < |bs| && k != j + 2 {
        AddressesDiffer(bs, base, end, k, j + 2);
      }
    }
  }

  lemma FuseLinks(headers: map<nat, Header>, bs: Blocks, base: nat, end: nat, j: nat)
    requires Tiles(bs, base, end) && Links(headers, bs) && j + 1 < |bs|
    ensures Links(FuseHeaders(headers, bs, j), Fuse(bs, j))
  {
    hide Fuse, HeaderOf, FuseHeaders;
    forall i | 0 <= i < |Fuse(bs, j)|
      ensures
        var r := Fuse(bs, j);
        r[i].addr in FuseHeaders(headers, bs, j) && FuseHeaders(headers, bs, j)[r[i].addr] == HeaderOf(r, i)
    {
      FuseLink(headers, bs, base, end, j, i);
    }
  }

  /** Header writes stay out of the payloads of some blocks. */
  predicate Spares(written: set<nat>, live: set<Block>) {
    forall a, b | a in written && b in live :: a + HEADER <= Payload(b) || End(b) <= a
  }

  function Addresses(bs: Blocks): set<nat> {
    set i | 0 <= i < |bs| :: bs[i].addr
  }

  /** Every address written is the address of a block in the list. */
  predicate AmongBlocks(written: set<nat>, bs: Blocks) {
    written <= Addresses(bs)
  }

  lemma AmongOne(bs: Blocks, i: nat)
    requires i < |bs|
    ensures AmongBlocks({bs[i].addr}, bs)
  {
  }

  /** Headers of blocks are outside every payload of the same tiling. */
  lemma HeadersSpare(bs: Blocks, base: nat, end: nat, written: set<nat>, live: set<Block>)
    requires Tiles(bs, base, end) && live <= Live(bs)
    requires AmongBlocks(written, bs)
    ensures Spares(written, live)
  {
    forall a, b | a in written && b in live ensures a + HEADER <= Payload(b) || End(b) <= a {
      assert a in Addresses(bs);
      var i :| 0 <= i < |bs| && bs[i].addr == a;
      assert b in Live(bs);
      if bs[i] != b {
        PayloadsApart(bs, base, end, bs[i], b);
      }
    }
  }

  /** What a malloc of a rounded size does, given whether the system grants more memory. */
  datatype Outcome = Outcome(blocks: Blocks, end: nat, payload: nat)

  function Served(bs: Blocks, end: nat, size: nat, grant: bool): Outcome {
    var k := FirstFit(bs, size);
    if k < |bs| then Outcome(Take(bs, k, size), end, Payload(bs[k]))
    else if !grant then Outcome(bs, end, 0)
    else
      FitIs(Extend(bs, end, Need(size)), size, |bs|);
      Outcome(Take(Extend(bs, end, Need(size)), |bs|, size), end + Need(size), end + HEADER)
  }

  /** malloc hands out a new block of at least the size asked for, keeps every block in use, the tiling and the free
      blocks apart; it fails only when no free block is large enough and no memory is granted. */
  lemma MallocKeeps(bs: Blocks, base: nat, end: nat, size: nat, grant: bool)
    requires HeapOk(bs, base, end) && base > 0
    ensures
      var o := Served(bs, end, size, grant);
      && HeapOk(o.blocks, base, o.end)
      && (o.payload == 0 <==> FirstFit(bs, size) == |bs| && !grant)
      && (o.payload == 0 ==> o.blocks == bs && o.end == end)
      && (o.payload != 0 ==> exists b ::
        && Payload(b) == o.payload && b.size >= size && !b.free && b !in Live(bs) && Live(o.blocks) == Live(bs) + {b})
  {
    hide Live;
    var k := FirstFit(bs, size);
    if k < |bs| {
      TakeKeeps(bs, base, end, k, size);
      assert Payload(Taken(bs[k], size)) == Served(bs, end, size, grant).payload;
    } else if grant {
      ExtendKeeps(bs, base, end, size);
      var more := Extend(bs, end, Need(size));
      TakeKeeps(more, base, end + Need(size), |bs|, size);
      assert Payload(Taken(more[|bs|], size)) == Served(bs, end, size, grant).payload;
      InsideHeap(bs, base, end, 0);
    }
  }

  /** A request that rounds to nothing is served all the same, with a block that is too small. */
  lemma WrapsToNothing(bs: Blocks, base: nat, end: nat, request: nat, grant: bool)
    requires HeapOk(bs, base, end) && base > 0 && WORD - 8 < request < WORD && end + PAGE <= WORD
    ensures Roundable(request)
    ensures
      var o := Served(bs, end, Round8(request), grant);
      o.payload != 0 ==> exists b :: b in Live(o.blocks) && b !in Live(bs) && Payload(b) == o.payload && b.size < request
  {
    hide FirstFit, Take, Extend, Need;
    RoundableExactly(request);
    var o := Served(bs, end, 0, grant);
    MallocKeeps(bs, base, end, 0, grant);
    if o.payload != 0 {
      ServedEnd(bs, end, 0, grant);
      var b :| Payload(b) == o.payload && b.size >= 0 && !b.free && b !in Live(bs) && Live(o.blocks) == Live(bs) + {b};
      assert b in Live(o.blocks);
      var i :| 0 <= i < |o.blocks| && o.blocks[i] == b;
      InsideHeap(o.blocks, base, o.end, i);
    }
  }

  lemma ServedEnd(bs: Blocks, end: nat, size: nat, grant: bool)
    ensures Served(bs, end, size, grant).end <= end + Need(size)
    ensures size == 0 ==> Need(size) == PAGE
  {
    hide Take, FirstFit;
  }

  lemma AmongTake(written: set<nat>, bs: Blocks, k: nat, size: nat)
    requires AmongBlocks(written, bs) && k < |bs| && bs[k].size >= size
    ensures AmongBlocks(written, Take(bs, k, size))
    ensures AmongBlocks({bs[k].addr}, Take(bs, k, size))
    ensures k + 1 < |bs| ==> AmongBlocks({bs[k + 1].addr}, Take(bs, k, size))
    ensures Splits(bs[k], size) ==> AmongBlocks({bs[k].addr + HEADER + size}, Take(bs, k, size))
  {
    var r := Take(bs, k, size);
    assert r[k].addr == bs[k].addr;
    if Splits(bs[k], size) {
      assert r[k + 1].addr == bs[k].addr + HEADER + size;
    }
    forall i | 0 <= i < |bs| ensures bs[i].addr in Addresses(r) {
      assert r[if i > k && Splits(bs[k], size) then i + 1 else i].addr == bs[i].addr;
    }
  }

  lemma AmongExtend(written: set<nat>, bs: Blocks, end: nat, need: nat)
    requires AmongBlocks(written, bs) && need >= HEADER && bs != []
    ensures AmongBlocks(written + {end, bs[|bs| - 1].addr}, Extend(bs, end, need))
  {
    var r := Extend(bs, end, need);
    assert r[|bs|].addr == end;
    forall i | 0 <= i < |bs| ensures bs[i].addr in Addresses(r) {
      assert r[i] == bs[i];
    }
  }

  lemma AmongUnion(a: set<nat>, b: set<nat>, bs: Blocks)
    requires AmongBlocks(a, bs) && AmongBlocks(b, bs)
    ensures AmongBlocks(a + b, bs)
  {
  }

  class Heap {
    /** Where sbrk first gives memory; later grants continue at endAddr. */
    const base: nat
    var headers: map<nat, Header>
    var start: nat
    var endAddr: nat
    /** The bytes outside the headers. */
    var memory: map<nat, nat>
    /** The list the headers spell, and the addresses of the headers the current call has written. */
    ghost var blocks: Blocks
    ghost var written: set<nat>

    ghost predicate Valid()
      reads this
    {
      && base > 0
      && if start == 0 then blocks == [] else start == base && HeapOk(blocks, base, endAddr) && Links(headers, blocks)
    }

    /** The blocks as malloc finds them: heap_init has made the first one. */
    ghost function Found(): Blocks
      reads this
    {
      if start == 0 then [Block(base, PAGE - HEADER, true)] else blocks
    }

    ghost function FoundEnd(): nat
      reads this
    {
      if start == 0 then base + PAGE else endAddr
    }

    constructor (firstBreak: nat)
      requires firstBreak > 0
      ensures Valid() && start == 0 && base == firstBreak
    {
      base, headers, start, endAddr, memory, blocks, written := firstBreak, map[], 0, 0, map[], [], {};
    }

    method Set(a: nat, h: Header)
      modifies `headers, `written
      ensures headers == old(headers)[a := h] && written == old(written) + {a}
    {
      headers := headers[a := h];
      written := written + {a};
    }

    method Init()
      requires Valid()
      modifies `headers, `start, `endAddr, `blocks, `written
      ensures Valid() && start != 0 && blocks == old(Found()) && endAddr == old(FoundEnd())
      ensures start == old(start) || start == base
      ensures AmongBlocks(old(written), old(blocks)) ==> AmongBlocks(written, blocks)
    {
      if start == 0 {
        endAddr := base;
        start := endAddr;
        Set(start, Header(MAGIC, PAGE - HEADER, true, 0, 0));
        endAddr := endAddr + PAGE;
        blocks := [Block(base, PAGE - HEADER, true)];
        assert blocks[0].addr == base;
        assert Tiles(blocks, base, endAddr) && FreeApart(blocks) && Links(headers, blocks);
      }
    }

    method Split(block: nat, ghost k: nat, size: nat)
      requires Links(headers, blocks) && Tiles(blocks, base, endAddr) && base > 0
      requires k < |blocks| && block == blocks[k].addr && blocks[k].free && Splits(blocks[k], size)
      modifies `headers, `written
      ensures headers == SplitHeaders(old(headers), blocks, k, size)
      ensures written == old(written) + {block + HEADER + size, block} + (if k + 1 < |blocks| then {blocks[k + 1].addr} else {})
    {
      hide Links, Tiles;
      LinkAt(headers, blocks, k);
      NextIs(headers, blocks, base, endAddr, k);
      var h := headers[block];
      var n := block + HEADER + size;
      RestIsNew(blocks, base, endAddr, k, size, k);
      Set(n, Header(MAGIC, h.size - size - HEADER, true, h.next, block));
      if h.next != 0 {
        LinkAt(old(headers), blocks, k + 1);
        RestIsNew(blocks, base, endAddr, k, size, k + 1);
        AddressesDiffer(blocks, base, endAddr, k, k + 1);
        Set(h.next, headers[h.next].(prev := n));
      }
      Set(block, headers[block].(next := n, size := size, free := false));
    }

    /** Takes the k-th block, or its front part, out of use as free memory. */
    method Use(block: nat, ghost k: nat, size: nat)
      requires Links(headers, blocks) && Tiles(blocks, base, endAddr) && base > 0
      requires k < |blocks| && block == blocks[k].addr && blocks[k].free && blocks[k].size >= size
      requires AmongBlocks(written, blocks)
      modifies `headers, `written, `blocks
      ensures blocks == Take(old(blocks), k, size) && Links(headers, blocks) && AmongBlocks(written, blocks)
    {
      hide Links, Tiles, AmongBlocks;
      LinkAt(headers, blocks, k);
      ghost var after, was := Take(blocks, k, size), written;
      AmongTake(was, blocks, k, size);
      AmongUnion(was, {block}, after);
      if headers[block].size > size + HEADER + 16 {
        SplitLinks(headers, blocks, base, endAddr, k, size);
        Split(block, k, size);
        ghost var n := block + HEADER + size;
        AmongUnion(was + {block}, {n}, after);
        if k + 1 < |blocks| {
          AmongUnion(was + {block} + {n}, {blocks[k + 1].addr}, after);
          assert written == was + {block} + {n} + {blocks[k + 1].addr};
        } else {
          assert written == was + {block} + {n};
        }
      } else {
        UseLinks(headers, blocks, base, endAddr, k, false);
        Set(block, headers[block].(free := false));
      }
      blocks := after;
    }

    /** Adds whole pages at the end of the memory. */
    method Grow(block: nat, need: nat)
      requires Links(headers, blocks) && Tiles(blocks, base, endAddr) && base > 0 && need >= HEADER
      requires block == blocks[|blocks| - 1].addr && AmongBlocks(written, blocks)
      modifies `headers, `written, `blocks, `endAddr
      ensures blocks == Extend(old(blocks), old(endAddr), need) && endAddr == old(endAddr) + need
      ensures Links(headers, blocks) && AmongBlocks(written, blocks)
    {
      hide Links, Tiles, AmongBlocks;
      LastEnds(blocks, base, endAddr);
      ExtendLinks(headers, blocks, base, endAddr, need);
      AmongExtend(written, blocks, endAddr, need);
      LinkAt(headers, blocks, |blocks| - 1);
      var new_ := endAddr;
      Set(new_, Header(MAGIC, need - HEADER, true, 0, block));
      Set(block, headers[block].(next := new_));
      endAddr := new_ + need;
      blocks := Extend(blocks, new_, need);
      assert written == old(written) + {new_, block};
    }

    /** The search of malloc, block by block, growing the heap when the last one is too small. */
    method Search(size: nat, grant: bool) returns (p: nat)
      requires Links(headers, blocks) && HeapOk(blocks, base, endAddr) && base > 0 && start == base
      requires AmongBlocks(written, blocks)
      modifies `headers, `written, `blocks, `endAddr
      ensures Links(headers, blocks) && AmongBlocks(written, blocks)
      ensures Outcome(blocks, endAddr, p) == Served(old(blocks), old(endAddr), size, grant)
    {
      hide Links, Tiles, AmongBlocks, FreeApart, Take, Need, HeaderOf;
      ghost var found, end := blocks, endAddr;
      HeapParts(found, base, end);
      p := 0;
      var block := start;
      ghost var k := 0;
      ghost var grown := false;
      while block != 0
        invariant k < |blocks| && block == blocks[k].addr != 0
        invariant Links(headers, blocks) && Tiles(blocks, base, endAddr) && AmongBlocks(written, blocks)
        invariant forall j | 0 <= j < k :: !(blocks[j].free && blocks[j].size >= size)
        invariant if grown
          then grant && k == |found| && blocks == Extend(found, end, Need(size)) && endAddr == end + Need(size) && FirstFit(found, size) == |found|
          else blocks == found && endAddr == end
        decreases |found| + 1 - k
      {
        LinkAt(headers, blocks, k);
        NextIs(headers, blocks, base, endAddr, k);
        LinkValues(blocks, k);
        if headers[block].free && headers[block].size >= size {
          FitIs(blocks, size, k);
          Use(block, k, size);
          return block + HEADER;
        }
        if headers[block].next == 0 {
          FitIs(found, size, |found|);
          NeedCovers(size);
          var need := (size + HEADER + PAGE - 1) / PAGE * PAGE;
          if !grant {
            return 0;
          }
          Grow(block, need);
          ExtendTiles(found, base, end, need);
          NextIs(headers, blocks, base, endAddr, k);
          grown := true;
        }
        InsideHeap(blocks, base, endAddr, k + 1);
        block := headers[block].next;
        k := k + 1;
      }
    }

    /** malloc: first fit, with one extension at most; the headers it writes lie outside every payload in use. */
    method Malloc(request: nat, grant: bool) returns (p: nat)
      requires Valid() && Roundable(request)
      modifies `headers, `start, `endAddr, `blocks, `written
      ensures Valid() && (request == 0 ==> p == 0 && blocks == old(blocks) && start == old(start))
      ensures request > 0 ==>
        && start != 0
        && Outcome(blocks, endAddr, p) == Served(old(Found()), old(FoundEnd()), Round8(request), grant)
      ensures Spares(written, old(Live(blocks)))
    {
      hide Links, Tiles, AmongBlocks, FreeApart, Live, Spares, Take;
      written := {};
      NothingWritten(old(Live(blocks)));
      Nothing(blocks);
      if request == 0 {
        return 0;
      }
      Init();
      ghost var found, end := blocks, endAddr;
      p := Search(Round8(request), grant);
      MallocKeeps(found, base, end, Round8(request), grant);
      LiveStays(old(blocks), found, blocks);
      HeadersSpare(blocks, base, endAddr, written, old(Live(blocks)));
    }

    /** The first half of free: the k-th block is free and takes in a free block behind it. */
    method TakeNext(block: nat, ghost k: nat)
      requires Links(headers, blocks) && Tiles(blocks, base, endAddr) && base > 0
      requires k < |blocks| && block == blocks[k].addr && AmongBlocks(written, blocks)
      modifies `headers, `written, `blocks
      ensures blocks == JoinNext(old(blocks), k) && Links(headers, blocks)
      ensures AmongBlocks(written, old(blocks))
    {
      hide Links, Tiles, Addresses;
      ghost var bs, h := blocks, headers;
      LinkAt(h, bs, k);
      NextIs(h, bs, base, endAddr, k);
      UseLinks(h, bs, base, endAddr, k, true);
      AmongOne(bs, k);
      Set(block, headers[block].(free := true));
      var next := headers[block].next;
      if next != 0 {
        LinkAt(h, bs, k + 1);
        AddressesDiffer(bs, base, endAddr, k, k + 1);
        if headers[next].free {
          JoinHeaders(block, next, bs, h, k);
          blocks := Fuse(bs, k);
          return;
        }
      }
      blocks := bs[k := bs[k].(free := true)];
    }

    /** A block swallows the block behind it. */
    method JoinHeaders(block: nat, next: nat, ghost bs: Blocks, ghost h: map<nat, Header>, ghost j: nat)
      requires Links(h, bs) && Tiles(bs, base, endAddr) && base > 0
      requires j + 1 < |bs| && block == bs[j].addr && next == bs[j + 1].addr
      requires headers == h[block := HeaderOf(bs, j).(free := true)] && AmongBlocks(written, bs)
      modifies `headers, `written
      ensures Links(headers, Fuse(bs, j)) && AmongBlocks(written, bs)
    {
      hide Links, Tiles, Addresses;
      LinkAt(h, bs, j + 1);
      AddressesDiffer(bs, base, endAddr, j, j + 1);
      NextIs(h, bs, base, endAddr, j + 1);
      FuseLinks(h, bs, base, endAddr, j);
      AmongOne(bs, j);
      Set(block, headers[block].(size := headers[block].size + HEADER + headers[next].size, next := headers[next].next));
      var after := headers[block].next;
      if after != 0 {
        LinkAt(h, bs, j + 2);
        AddressesDiffer(bs, base, endAddr, j, j + 2);
        AmongOne(bs, j + 2);
        Set(after, headers[after].(prev := block));
      }
      assert headers == FuseHeaders(h, bs, j);
    }

    /** The second half: a free block in front takes the k-th one in. */
    method GiveToPrev(block: nat, ghost k: nat)
      requires Links(headers, blocks) && Tiles(blocks, base, endAddr) && base > 0
      requires k < |blocks| && block == blocks[k].addr && blocks[k].free
      modifies `headers, `written, `blocks
      ensures blocks == JoinPrev(old(blocks), k) && Links(headers, blocks)
      ensures written <= old(written) + Addresses(old(blocks))
    {
      hide Links, Tiles, Addresses;
      ghost var bs, h, was := blocks, headers, written;
      LinkAt(h, bs, k);
      NextIs(h, bs, base, endAddr, k);
      var prev := headers[block].prev;
      if prev != 0 {
        LinkAt(h, bs, k - 1);
        if headers[prev].free {
          written := {};
          assert headers == h[prev := HeaderOf(bs, k - 1).(free := true)];
          JoinHeaders(prev, block, bs, h, k - 1);
          written := was + written;
          blocks := Fuse(bs, k - 1);
        }
      }
    }

    /** free: gives back the block of a payload in use; null and blocks without the magic number are passed over. */
    method Free(p: nat, ghost k: nat)
      requires Valid() && (p != 0 ==> k < |blocks| && !blocks[k].free && p == Payload(blocks[k]))
      modifies `headers, `written, `blocks
      ensures Valid() && blocks == if p == 0 then old(blocks) else Freed(old(blocks), k)
      ensures p != 0 ==> Live(blocks) == old(Live(blocks)) - {old(blocks[k])} && Spares(written, Live(blocks))
    {
      hide Links, Tiles, FreeApart, Live, Spares, Addresses, JoinNext, JoinPrev;
      if p == 0 {
        return;
      }
      ghost var bs := blocks;
      written := {};
      Nothing(bs);
      var block := p - HEADER;
      LinkAt(headers, bs, k);
      HeapParts(bs, base, endAddr);
      FreeKeeps(bs, base, endAddr, k);
      JoinNextKeeps(bs, base, endAddr, k);
      JoinedAddr(bs, k);
      if headers[block].magic != MAGIC {
        return;
      }
      TakeNext(block, k);
      ghost var mid := blocks;
      GiveToPrev(block, k);
      AddressesShrink(bs, k, written);
      HeadersSpare(bs, base, endAddr, written, Live(blocks));
    }

    method CopyBytes(to: nat, from: nat, n: nat)
      requires to + n <= from || from + n <= to
      modifies `memory
      ensures Bytes(memory, to, n) == Bytes(old(memory), from, n)
      ensures forall a: nat | !(to <= a < to + n) :: ByteAt(memory, a) == ByteAt(old(memory), a)
    {
      for i := 0 to n
        invariant Bytes(memory, to, i) == Bytes(old(memory), from, i)
        invariant forall a: nat | !(to <= a < to + i) :: ByteAt(memory, a) == ByteAt(old(memory), a)
      {
        ghost var before := memory;
        memory := memory[to + i := ByteAt(memory, from + i)];
        BytesSame(before, memory, to, i);
      }
    }

    /** realloc: of null, malloc; to 0, free; else the block itself if it is large enough, or a new one with the old one's
        bytes in front, or null with nothing changed. */
    method Realloc(ptr: nat, ghost k: nat, size: nat, grant: bool) returns (p: nat)
      requires Valid() && size <= SIZE_LIMIT
      requires ptr != 0 ==> k < |blocks| && !blocks[k].free && ptr == Payload(blocks[k])
      modifies this
      ensures Valid()
      ensures ptr == 0 && size == 0 ==> p == 0 && blocks == old(blocks)
      ensures ptr == 0 && size > 0 ==> Outcome(blocks, endAddr, p) == Served(old(Found()), old(FoundEnd()), Round8(size), grant)
      ensures ptr != 0 && size == 0 ==> p == 0 && blocks == Freed(old(blocks), k) && memory == old(memory)
      ensures ptr != 0 && size > 0 ==>
        && (old(blocks[k].size) >= size ==> p == ptr && blocks == old(blocks) && memory == old(memory))
        && (p == 0 ==> blocks == old(blocks) && memory == old(memory))
        && (p != 0 && p != ptr ==>
          && Bytes(memory, p, old(blocks[k].size)) == Bytes(old(memory), ptr, old(blocks[k].size))
          && exists b :: Payload(b) == p && b.size >= size && b !in old(Live(blocks)) && Live(blocks) == old(Live(blocks)) - {old(blocks[k])} + {b})
        && forall b, a: nat | b in old(Live(blocks)) && b != old(blocks[k]) && Payload(b) <= a < End(b) :: ByteAt(memory, a) == ByteAt(old(memory), a)
    {
      hide Links, Tiles, AmongBlocks, FreeApart, Live, Spares, Addresses, Served, Freed, Bytes, ByteAt, Roundable;
      RoundableExactly(size);
      if ptr == 0 {
        p := Malloc(size, grant);
      } else if size == 0 {
        Free(ptr, k);
        p := 0;
      } else {
        p := Resize(ptr, k, size, grant);
      }
    }

    /** The last part of realloc, for a block in use and a size that is not 0. */
    method Resize(ptr: nat, ghost k: nat, size: nat, grant: bool) returns (p: nat)
      requires Valid() && 0 < size <= SIZE_LIMIT
      requires k < |blocks| && !blocks[k].free && ptr == Payload(blocks[k])
      modifies this
      ensures Valid() && start == old(start)
      ensures old(blocks[k].size) >= size ==> p == ptr && blocks == old(blocks) && memory == old(memory)
      ensures p == 0 ==> blocks == old(blocks) && memory == old(memory)
      ensures p != 0 && p != ptr ==>
        && Bytes(memory, p, old(blocks[k].size)) == Bytes(old(memory), ptr, old(blocks[k].size))
        && exists b :: Payload(b) == p && b.size >= size && b !in old(Live(blocks)) && Live(blocks) == old(Live(blocks)) - {old(blocks[k])} + {b}
      ensures forall b, a: nat | b in old(Live(blocks)) && b != old(blocks[k]) && Payload(b) <= a < End(b) :: ByteAt(memory, a) == ByteAt(old(memory), a)
    {
      hide Links, Tiles, AmongBlocks, FreeApart, Live, Spares, Addresses, Served, Freed;
      ghost var bs, end, own := blocks, endAddr, blocks[k];
      LinkAt(headers, bs, k);
      var block := ptr - HEADER;
      if headers[block].size >= size {
        return ptr;
      }
      Rounded(size);
      RoundableExactly(size);
      var oldSize := headers[block].size;
      MallocKeeps(bs, base, end, Round8(size), grant);
      p := Malloc(size, grant);
      if p != 0 {
        ghost var b :| Payload(b) == p && b.size >= Round8(size) && !b.free && b !in Live(bs) && Live(blocks) == Live(bs) + {b};
        BlocksOf(bs, blocks, base, endAddr, k, b);
        CopyBytes(p, ptr, oldSize);
        ghost var k2 :| 0 <= k2 < |blocks| && blocks[k2] == own;
        Free(ptr, k2);
        assert Live(bs) + {b} - {own} == Live(bs) - {own} + {b};
      }
    }
  }

  function ByteAt(memory: map<nat, nat>, a: nat): nat {
    if a in memory then memory[a] else 0
  }

  function Bytes(memory: map<nat, nat>, from: nat, n: nat): seq<nat> {
    if n == 0 then [] else Bytes(memory, from, n - 1) + [ByteAt(memory, from + n - 1)]
  }

  lemma {:induction false} BytesSame(m: map<nat, nat>, m': map<nat, nat>, from: nat, n: nat)
    requires forall a: nat | from <= a < from + n :: ByteAt(m', a) == ByteAt(m, a)
    ensures Bytes(m', from, n) == Bytes(m, from, n)
  {
    if n > 0 {
      BytesSame(m, m', from, n - 1);
    }
  }

  /** The new block is apart from every block that was in use, and those are still in the list. */
  lemma BlocksOf(bs: Blocks, after: Blocks, base: nat, end: nat, k: nat, b: Block)
    requires Tiles(after, base, end) && k < |bs| && !bs[k].free && !b.free && b !in Live(bs) && Live(after) == Live(bs) + {b}
    ensures bs[k] in after && bs[k] in Live(bs)
    ensures forall c <- Live(bs) :: End(b) <= c.addr || End(c) <= b.addr
  {
    assert bs[k] in Live(bs) && b in Live(after);
    forall c | c in Live(bs) ensures End(b) <= c.addr || End(c) <= b.addr {
      assert c in Live(after);
      PayloadsApart(after, base, end, b, c);
    }
    assert bs[k] in Live(after);
  }

  lemma JoinedAddr(bs: Blocks, k: nat)
    requires k < |bs|
    ensures JoinNext(bs, k)[k].addr == bs[k].addr
  {
  }

  lemma AddressesShrink(bs: Blocks, k: nat, written: set<nat>)
    requires k < |bs|
    requires written <= Addresses(bs) + Addresses(JoinNext(bs, k))
    ensures AmongBlocks(written, bs)
  {
    var r := JoinNext(bs, k);
    forall i | 0 <= i < |r| ensures r[i].addr in Addresses(bs) {
      assert r[i].addr == bs[if i <= k || !(k + 1 < |bs| && bs[k + 1].free) then i else i + 1].addr;
    }
  }

  lemma HeapParts(bs: Blocks, base: nat, end: nat)
    requires HeapOk(bs, base, end)
    ensures Tiles(bs, base, end) && bs != [] && bs[0].addr == base
  {
  }

  lemma LinkValues(bs: Blocks, k: nat)
    requires k < |bs|
    ensures HeaderOf(bs, k).free == bs[k].free && HeaderOf(bs, k).size == bs[k].size
  {
  }

  lemma NeedCovers(size: nat)
    ensures Need(size) == (size + HEADER + PAGE - 1) / PAGE * PAGE >= size + HEADER
  {
  }

  lemma ExtendTiles(bs: Blocks, base: nat, end: nat, need: nat)
    requires Tiles(bs, base, end) && need >= HEADER
    ensures Tiles(Extend(bs, end, need), base, end + need)
  {
  }

  lemma LiveStays(before: Blocks, found: Blocks, after: Blocks)
    requires before == found || (before == [] && forall b <- found :: b.free)
    requires Live(found) <= Live(after)
    ensures Live(before) <= Live(after)
  {
  }

  lemma Nothing(bs: Blocks)
    ensures AmongBlocks({}, bs)
  {
  }

  lemma NothingWritten(live: set<Block>)
    ensures Spares({}, live)
  {
  }

  /** A header's next pointer is null exactly at the end of the list. */
  lemma NextIs(headers: map<nat, Header>, bs: Blocks, base: nat, end: nat, k: nat)
    requires Links(headers, bs) && Tiles(bs, base, end) && base > 0 && k < |bs|
    ensures bs[k].addr in headers
    ensures headers[bs[k].addr].next == 0 <==> k + 1 == |bs|
    ensures k + 1 < |bs| ==> headers[bs[k].addr].next == bs[k + 1].addr
    ensures headers[bs[k].addr].prev == 0 <==> k == 0
    ensures k > 0 ==> headers[bs[k].addr].prev == bs[k - 1].addr
  {
    LinkAt(headers, bs, k);
    if k + 1 < |bs| {
      InsideHeap(bs, base, end, k + 1);
    }
    if k > 0 {
      InsideHeap(bs, base, end, k - 1);
    }
  }
}
