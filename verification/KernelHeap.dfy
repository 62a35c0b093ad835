/** kmalloc and kfree: a header and a hidden back pointer inside each buddy block. */
module KernelHeap {
  import opened Bits
  import opened BuddyBlocks
  import opened BuddyLists
  import opened KernelBuddy

  const HEADER_SIZE := 20
  const MAGIC_LIVE := 0xCAFEBABE
  const MAGIC_FREED := 0xBADB00B5

  /** What was asked for a payload: its size, the size passed to the buddy allocator, the block that holds it. */
  datatype Payload = Payload(size: nat, required: nat, block: nat)

  /** Header, back pointer, payload and, when aligning, a page to move within. */
  function Required(size: nat, align: bool): nat {
    size + HEADER_SIZE + 4 + if align then 4096 else 0
  }

  /** The 32-bit size the code computes holds header, back pointer and payload exactly when the sum does not wrap. */
  lemma RequiredHolds(size: uint32, align: bool)
    ensures Required(size as nat, align) % 0x1_0000_0000 >= size as nat + HEADER_SIZE + 4 <==> Required(size as nat, align) < 0x1_0000_0000
  {
  }

  function RoundUpToPage(a: nat): nat {
    (a + 0xFFF) - (a + 0xFFF) % 0x1000
  }

  function PayloadAddress(block: nat, align: bool): nat {
    var data := block + HEADER_SIZE;
    (if align && data % 0x1000 != 0 then RoundUpToPage(data) else data) + 4
  }

  /** The payload follows header and back pointer and ends inside the bytes asked of the buddy allocator. */
  lemma PayloadInside(block: nat, size: nat, align: bool)
    ensures block + HEADER_SIZE + 4 <= PayloadAddress(block, align)
    ensures PayloadAddress(block, align) + size <= block + Required(size, align)
  {
  }

  /** Everything the allocator wrote for the payload at `p` is in place inside a live block of its own size. */
  ghost predicate Intact(mem: Memory, start: nat, live: set<Block>, p: nat, g: Payload) {
    && start <= g.block && Holder(start, g) in live
    && 0 < g.required <= 0x8000_0000
    && g.block + HEADER_SIZE + 4 <= p && p + g.size <= g.block + g.required
    && Word(mem, p - 4) == g.block
    && Word(mem, g.block + 8) == g.required
    && Word(mem, g.block + 12) == 1
    && Word(mem, g.block + 16) == MAGIC_LIVE
  }

  /** The buddy block that holds a payload. */
  ghost function Holder(start: nat, g: Payload): Block
    requires start <= g.block
  {
    Block(g.block - start, OrderFor(g.required))
  }

  /** Header, back pointer and payload all lie in the holding block. */
  lemma HolderSpans(start: nat, g: Payload)
    requires start <= g.block
    ensures forall x :: g.block <= x < g.block + g.required ==> InBlock(start, Holder(start, g), x)
  {
  }

  lemma IntactFrame(mem: Memory, mem': Memory, start: nat, live: set<Block>, live': set<Block>, p: nat, g: Payload)
    requires Intact(mem, start, live, p, g) && SameInside(mem, mem', start, live') && Holder(start, g) in live'
    ensures Intact(mem', start, live', p, g)
  {
    hide OrderFor, Pow2;
    HolderSpans(start, g);
  }

  ghost predicate HeldBy(start: nat, grants: map<nat, Payload>, b: Block) {
    exists p :: p in grants && IsHolder(start, grants[p], b)
  }

  ghost predicate IsHolder(start: nat, g: Payload, b: Block) {
    start <= g.block && Holder(start, g) == b
  }

  ghost predicate AllIntact(mem: Memory, start: nat, live: set<Block>, grants: map<nat, Payload>) {
    forall p :: p in grants ==> Intact(mem, start, live, p, grants[p])
  }

  ghost predicate OwnBlocks(grants: map<nat, Payload>) {
    forall p, q :: p in grants && q in grants && grants[p].block == grants[q].block ==> p == q
  }

  /** Every payload is intact, each has a block of its own, and no block is live without a payload. */
  ghost predicate Books(mem: Memory, start: nat, live: set<Block>, grants: map<nat, Payload>) {
    && AllIntact(mem, start, live, grants)
    && OwnBlocks(grants)
    && forall b :: b in live ==> HeldBy(start, grants, b)
  }

  lemma IntactRest(mem: Memory, mem': Memory, start: nat, live: set<Block>, live': set<Block>, grants: map<nat, Payload>)
    requires AllIntact(mem, start, live, grants) && SameInside(mem, mem', start, live')
    requires forall q :: q in grants ==> start <= grants[q].block && Holder(start, grants[q]) in live'
    ensures AllIntact(mem', start, live', grants)
  {
    hide Intact, SameInside, Holder;
    forall q | q in grants ensures Intact(mem', start, live', q, grants[q]) {
      IntactFrame(mem, mem', start, live, live', q, grants[q]);
    }
  }

  lemma HoldersLive(mem: Memory, start: nat, live: set<Block>, grants: map<nat, Payload>)
    requires AllIntact(mem, start, live, grants)
    ensures forall q :: q in grants ==> start <= grants[q].block && Holder(start, grants[q]) in live
  {
  }

  lemma BooksWithout(mem: Memory, mem': Memory, start: nat, live: set<Block>, grants: map<nat, Payload>, p: nat)
    requires Books(mem, start, live, grants) && p in grants && start <= grants[p].block
    requires SameInside(mem, mem', start, live - {Holder(start, grants[p])})
    ensures Books(mem', start, live - {Holder(start, grants[p])}, grants - {p})
  {
    hide Intact, SameInside, OrderFor;
    var b := Holder(start, grants[p]);
    HoldersLive(mem, start, live, grants);
    IntactRest(mem, mem', start, live, live - {b}, grants - {p});
    forall c | c in live - {b} ensures HeldBy(start, grants - {p}, c) {
      assert HeldBy(start, grants, c);
      var q :| q in grants && IsHolder(start, grants[q], c);
      assert q in grants - {p};
    }
  }

  lemma BooksWith(mem: Memory, mem': Memory, start: nat, live: set<Block>, grants: map<nat, Payload>, p: nat, g: Payload)
    requires Books(mem, start, live, grants) && SameInside(mem, mem', start, live)
    requires start <= g.block && Intact(mem', start, live + {Holder(start, g)}, p, g)
    requires p !in grants && forall q :: q in grants ==> grants[q].block != g.block
    ensures Books(mem', start, live + {Holder(start, g)}, grants[p := g])
  {
    hide Intact, SameInside, OrderFor;
    var b := Holder(start, g);
    HoldersLive(mem, start, live, grants);
    IntactRest(mem, mem', start, live, live, grants);
    MoreLive(mem', start, live, live + {b}, grants);
    forall c | c in live + {b} ensures HeldBy(start, grants[p := g], c) {
      if c in live {
        assert HeldBy(start, grants, c);
        var q :| q in grants && IsHolder(start, grants[q], c);
        assert q in grants[p := g] && grants[p := g][q] == grants[q];
      } else {
        assert p in grants[p := g] && grants[p := g][p] == g;
      }
    }
  }

  lemma MoreLive(mem: Memory, start: nat, live: set<Block>, live': set<Block>, grants: map<nat, Payload>)
    requires AllIntact(mem, start, live, grants) && live <= live'
    ensures AllIntact(mem, start, live', grants)
  {
  }

  /** The bytes from the start of its header to the end of a payload, which belong to it alone. */
  ghost predicate Owns(p: nat, g: Payload, x: nat) {
    g.block <= x < g.block + HEADER_SIZE || p - 4 <= x < p + g.size
  }

  /** Live payloads, their headers and back pointers are pairwise disjoint. */
  lemma PayloadsApart(lists: FreeLists, mem: Memory, start: nat, total: nat, live: set<Block>, grants: map<nat, Payload>, p: nat, q: nat, x: nat)
    requires Inv(lists, start, total, live) && Books(mem, start, live, grants)
    requires p in grants && q in grants && Owns(p, grants[p], x) && Owns(q, grants[q], x)
    ensures p == q
  {
    var b, c := Holder(start, grants[p]), Holder(start, grants[q]);
    HolderSpans(start, grants[p]);
    HolderSpans(start, grants[q]);
    assert InBlock(start, b, x) && InBlock(start, c, x);
    LiveApart(lists, start, total, live);
  }

  class KHeap {
    const buddy: Buddy
    /** The payloads handed out and not yet freed, by address. */
    ghost var grants: map<nat, Payload>

    ghost predicate Valid()
      reads this, buddy, buddy.freeLists
    {
      && buddy.Valid() && buddy.startAddr % 4096 == 0
      && Books(buddy.mem, buddy.startAddr, buddy.live, grants)
    }

    /** A page-aligned range. */
    constructor (start: nat, end: nat, memory: Memory)
      requires 0 < start <= end && end - start < 0x8000_0000
      requires start % 4096 == 0 && end % 4096 == 0
      ensures Valid() && grants == map[] && fresh(buddy) && fresh(buddy.freeLists)
      ensures buddy.lists == Cover(Empty(), start, end)
    {
      buddy := new Buddy(start, end, memory);
      grants := map[];
    }

    /** Write the back pointer before the payload and the header at the start of its block. */
    method WriteHeader(ghost b: Block, block: nat, p: nat, required: uint32)
      requires buddy.Valid() && b in buddy.live && block == buddy.startAddr + b.off
      requires block + HEADER_SIZE + 4 <= p <= block + required as nat <= block + Size(b)
      modifies buddy
      ensures buddy.Valid() && buddy.lists == old(buddy.lists) && buddy.live == old(buddy.live)
      ensures Word(buddy.mem, p - 4) == block && Word(buddy.mem, block + 8) == required as nat
      ensures Word(buddy.mem, block + 12) == 1 && Word(buddy.mem, block + 16) == MAGIC_LIVE
      ensures forall x :: !InBlock(buddy.startAddr, b, x) ==> Word(buddy.mem, x) == Word(old(buddy.mem), x)
    {
      hide Inv;
      buddy.Store(b, p - 4, block);
      buddy.Store(b, block + 8, required as nat);
      buddy.Store(b, block + 12, 1);
      buddy.Store(b, block + 16, MAGIC_LIVE);
    }

    /** A payload of `size` bytes, or null for no bytes or no memory. */
    method Allocate(size: uint32, align: bool) returns (p: nat)
      requires Valid() && Required(size as nat, align) <= 0x8000_0000
      modifies this, buddy, buddy.freeLists
      ensures Valid()
      ensures p == 0 <==> size == 0 || AllocFor(old(buddy.lists), Required(size as nat, align)).NoMemory?
      ensures p == 0 ==> grants == old(grants) && buddy.lists == old(buddy.lists) && buddy.mem == old(buddy.mem)
      ensures p != 0 ==>
        && p !in old(grants)
        && AllocFor(old(buddy.lists), Required(size as nat, align)).Grant?
        && var block := AllocFor(old(buddy.lists), Required(size as nat, align)).addr;
           && p == PayloadAddress(block, align)
           && grants == old(grants)[p := Payload(size as nat, Required(size as nat, align), block)]
           && AllocFor(old(buddy.lists), Required(size as nat, align)).lists == buddy.lists
      ensures SameInside(old(buddy.mem), buddy.mem, buddy.startAddr, old(buddy.live))
    {
      hide Inv, Pow2, AllocFor, OrderFor, SameInside, Books;
      if size == 0 {
        SameItself(buddy.mem, buddy.startAddr, buddy.live);
        return 0;
      }
      var required: uint32 := size + 24;
      if align {
        required := required + 4096;
      }
      var block := buddy.Allocate(required);
      if block == 0 {
        return 0;
      }
      ghost var b := Block(block - buddy.startAddr, OrderFor(required as nat));
      p := PayloadAddress(block, align);
      PayloadInside(block, size as nat, align);
      ghost var mem := buddy.mem;
      WriteHeader(b, block, p, required);
      ghost var g := Payload(size as nat, required as nat, block);
      FinishGrant(buddy.lists, old(buddy.mem), mem, buddy.mem, buddy.startAddr, Total(buddy.endAddr - buddy.startAddr), old(buddy.live), grants, p, g);
      grants := grants[p := g];
    }

    /** What the guards of `Free` turn away: a back pointer outside the pool, or a block whose header is not live. */
    ghost predicate Refused(p: nat)
      reads buddy
    {
      && p >= 4
      && var block := Word(buddy.mem, p - 4);
         block < buddy.startAddr || block > buddy.endAddr || Word(buddy.mem, block + 16) != MAGIC_LIVE
    }

    /** Give a payload back. Its block returns to the buddy allocator at the order it came with, and a second `Free` of it is refused. */
    method Free(p: nat)
      requires Valid() && (p == 0 || p in grants || Refused(p))
      modifies this, buddy, buddy.freeLists
      ensures Valid()
      ensures p !in old(grants) ==> grants == old(grants) && buddy.lists == old(buddy.lists) && buddy.mem == old(buddy.mem)
      ensures p in old(grants) ==>
        && grants == old(grants) - {p}
        && old(grants[p].block) >= buddy.startAddr && MIN_ORDER <= OrderFor(old(grants[p].required)) <= MAX_ORDER
        && buddy.lists == KernelBuddy.BuddyLists.Free(old(buddy.lists), buddy.startAddr, old(grants[p].block), OrderFor(old(grants[p].required)) - MIN_ORDER)
        && Refused(p)
    {
      hide Inv, Intact, OrderFor, KernelBuddy.BuddyLists.Free, Pow2;
      GuardsPass(buddy.lists, buddy.mem, buddy.startAddr, Total(buddy.endAddr - buddy.startAddr), buddy.live, grants);
      if p == 0 {
        return;
      }
      var block := Word(buddy.mem, p - 4);
      if block < buddy.startAddr || block > buddy.endAddr {
        return;
      }
      if Word(buddy.mem, block + 16) != MAGIC_LIVE {
        return;
      }
      FreeLive(p, block);
    }

    /** The rest of `Free` for a payload that is live. */
    method FreeLive(p: nat, block: nat)
      requires Valid() && p in grants && p >= 4 && block == Word(buddy.mem, p - 4)
      modifies this, buddy, buddy.freeLists
      ensures Valid() && grants == old(grants) - {p}
      ensures old(grants[p].block) >= buddy.startAddr && MIN_ORDER <= OrderFor(old(grants[p].required)) <= MAX_ORDER
      ensures buddy.lists == KernelBuddy.BuddyLists.Free(old(buddy.lists), buddy.startAddr, old(grants[p].block), OrderFor(old(grants[p].required)) - MIN_ORDER)
      ensures Refused(p)
    {
      hide Inv, Intact, SameBeyond, Books, OrderFor, KernelBuddy.BuddyLists.Free, Pow2;
      ghost var start := buddy.startAddr;
      GrantWords(buddy.mem, start, buddy.live, grants, p);
      var size := Word(buddy.mem, block + 8) as uint32;
      MarkFreed(Holder(start, grants[p]), block);
      ghost var marked := buddy.mem;
      buddy.Release(block, size);
      FinishFree(old(buddy.lists), old(buddy.mem), marked, buddy.mem, start, Total(buddy.endAddr - start), old(buddy.live), grants, p);
      grants := grants - {p};
    }

    /** Clear the header's allocated byte and spoil its magic word. */
    method MarkFreed(ghost b: Block, block: nat)
      requires buddy.Valid() && b in buddy.live && block == buddy.startAddr + b.off && Size(b) >= HEADER_SIZE
      modifies buddy
      ensures buddy.Valid() && buddy.lists == old(buddy.lists) && buddy.live == old(buddy.live)
      ensures Word(buddy.mem, block + 16) == MAGIC_FREED
      ensures forall x :: x != block + 12 && x != block + 16 ==> Word(buddy.mem, x) == Word(old(buddy.mem), x)
    {
      hide Inv;
      buddy.Store(b, block + 12, 0);
      buddy.Store(b, block + 16, MAGIC_FREED);
    }

    /** The owner of a payload writes a word of it; nothing the allocator relies on changes. */
    method Poke(p: nat, a: nat, v: nat)
      requires Valid() && p in grants && p <= a < p + grants[p].size
      modifies buddy
      ensures Valid() && buddy.lists == old(buddy.lists) && buddy.mem == old(buddy.mem)[a := v]
    {
      hide Inv, Intact, Books, OrderFor;
      GrantWords(buddy.mem, buddy.startAddr, buddy.live, grants, p);
      buddy.Store(Holder(buddy.startAddr, grants[p]), a, v);
      PokeBooks(buddy.lists, old(buddy.mem), buddy.startAddr, Total(buddy.endAddr - buddy.startAddr), buddy.live, grants, p, a, v);
    }
  }

  /** The guards of `Free` let every live payload through. */
  lemma GuardsPass(lists: FreeLists, mem: Memory, start: nat, total: nat, live: set<Block>, grants: map<nat, Payload>)
    requires Inv(lists, start, total, live) && Books(mem, start, live, grants)
    ensures forall p :: p in grants ==> p >= 4
    ensures forall p :: p in grants ==> start <= Word(mem, p - 4) <= start + total && Word(mem, Word(mem, p - 4) + 16) == MAGIC_LIVE
  {
    hide Inv, OrderFor;
    forall p | p in grants ensures p >= 4 && start <= Word(mem, p - 4) <= start + total && Word(mem, Word(mem, p - 4) + 16) == MAGIC_LIVE {
      assert Intact(mem, start, live, p, grants[p]);
      LivePlaced(lists, start, total, live, Holder(start, grants[p]));
    }
  }

  lemma GrantWords(mem: Memory, start: nat, live: set<Block>, grants: map<nat, Payload>, p: nat)
    requires Books(mem, start, live, grants) && p in grants
    ensures var g := grants[p];
      && start <= g.block && Holder(start, g) in live && Size(Holder(start, g)) >= HEADER_SIZE
      && 0 < g.required <= 0x8000_0000 && p >= g.block + HEADER_SIZE + 4
      && Word(mem, p - 4) == g.block && Word(mem, g.block + 8) == g.required
      && forall x :: p <= x < p + g.size ==> InBlock(start, Holder(start, g), x)
  {
    hide OrderFor, Pow2;
    assert Intact(mem, start, live, p, grants[p]);
    HolderSpans(start, grants[p]);
  }

  lemma FinishFree(lists: FreeLists, m0: Memory, m1: Memory, m2: Memory, start: nat, total: nat, live: set<Block>, grants: map<nat, Payload>, p: nat)
    requires Inv(lists, start, total, live) && Books(m0, start, live, grants) && p in grants && start <= grants[p].block
    requires var g := grants[p]; Word(m1, g.block + 16) == MAGIC_FREED && forall x :: x != g.block + 12 && x != g.block + 16 ==> Word(m1, x) == Word(m0, x)
    requires SameBeyond(m1, m2, start, live, grants[p].block)
    ensures Books(m2, start, live - {Holder(start, grants[p])}, grants - {p})
    ensures p >= 4 && Word(m2, p - 4) == grants[p].block && Word(m2, grants[p].block + 16) == MAGIC_FREED
  {
    hide Inv, OrderFor, Pow2, InBlock, AllIntact, OwnBlocks;
    var g := grants[p];
    var b := Holder(start, g);
    GrantSpans(m0, start, live, grants, p);
    LiveApart(lists, start, total, live);
    forall c, x | c in live - {b} && InBlock(start, c, x) ensures Word(m0, x) == Word(m2, x) {
      assert !InBlock(start, b, x);
      assert x != g.block && x != g.block + 12 && x != g.block + 16;
    }
    hide SameInside, SameBeyond;
    BooksWithout(m0, m2, start, live, grants, p);
  }

  lemma GrantSpans(mem: Memory, start: nat, live: set<Block>, grants: map<nat, Payload>, p: nat)
    requires AllIntact(mem, start, live, grants) && p in grants
    ensures var g := grants[p];
      && start <= g.block && Holder(start, g) in live
      && p >= g.block + HEADER_SIZE + 4 && Word(mem, p - 4) == g.block
      && InBlock(start, Holder(start, g), p - 4) && InBlock(start, Holder(start, g), g.block)
      && InBlock(start, Holder(start, g), g.block + 12) && InBlock(start, Holder(start, g), g.block + 16)
  {
    hide OrderFor, Pow2, InBlock;
    assert Intact(mem, start, live, p, grants[p]);
    HolderSpans(start, grants[p]);
  }

  /** A word written inside a payload is none of the words the books depend on. */
  lemma PokeBooks(lists: FreeLists, m: Memory, start: nat, total: nat, live: set<Block>, grants: map<nat, Payload>, p: nat, a: nat, v: nat)
    requires Inv(lists, start, total, live) && Books(m, start, live, grants) && p in grants
    requires p <= a < p + grants[p].size
    ensures Books(m[a := v], start, live, grants)
  {
    hide Inv, Intact, Holder, Owns;
    forall q | q in grants ensures Intact(m[a := v], start, live, q, grants[q]) {
      if q != p {
        OthersUntouched(lists, m, start, total, live, grants, p, q, a);
      } else {
        BehindPayload(m, start, live, p, grants[p], a);
      }
      IntactPoke(m, start, live, q, grants[q], a, v);
    }
  }

  lemma BehindPayload(m: Memory, start: nat, live: set<Block>, p: nat, g: Payload, a: nat)
    requires Intact(m, start, live, p, g) && p <= a
    ensures p >= 4 && a != p - 4 && a != g.block + 8 && a != g.block + 12 && a != g.block + 16
  {
  }

  lemma IntactPoke(m: Memory, start: nat, live: set<Block>, q: nat, g: Payload, a: nat, v: nat)
    requires Intact(m, start, live, q, g)
    requires q >= 4 && a != q - 4 && a != g.block + 8 && a != g.block + 12 && a != g.block + 16
    ensures Intact(m[a := v], start, live, q, g)
  {
  }

  lemma OthersUntouched(lists: FreeLists, m: Memory, start: nat, total: nat, live: set<Block>, grants: map<nat, Payload>, p: nat, q: nat, a: nat)
    requires Inv(lists, start, total, live) && Books(m, start, live, grants) && p in grants && q in grants && p != q
    requires p <= a < p + grants[p].size && Intact(m, start, live, q, grants[q])
    ensures q >= 4 && a != q - 4 && a != grants[q].block + 8 && a != grants[q].block + 12 && a != grants[q].block + 16
  {
    hide Inv, OrderFor, Pow2, AllIntact, OwnBlocks;
    assert Owns(p, grants[p], a);
    if Owns(q, grants[q], a) {
      PayloadsApart(lists, m, start, total, live, grants, p, q, a);
    }
  }

  lemma SameItself(mem: Memory, start: nat, live: set<Block>)
    ensures SameInside(mem, mem, start, live)
  {
  }

  lemma FinishGrant(lists: FreeLists, m0: Memory, m1: Memory, m2: Memory, start: nat, total: nat, live: set<Block>, grants: map<nat, Payload>, p: nat, g: Payload)
    requires start <= g.block && Holder(start, g) !in live && Inv(lists, start, total, live + {Holder(start, g)})
    requires Books(m0, start, live, grants) && SameInside(m0, m1, start, live)
    requires forall x :: !InBlock(start, Holder(start, g), x) ==> Word(m2, x) == Word(m1, x)
    requires Intact(m2, start, live + {Holder(start, g)}, p, g)
    ensures SameInside(m0, m2, start, live)
    ensures p !in grants
    ensures Books(m2, start, live + {Holder(start, g)}, grants[p := g])
  {
    hide Inv, Pow2, OrderFor;
    LiveApart(lists, start, total, live + {Holder(start, g)});
    GrantIsNew(m0, m2, start, live, grants, p, g);
    BooksWith(m0, m2, start, live, grants, p, g);
  }

  lemma GrantIsNew(m0: Memory, m2: Memory, start: nat, live: set<Block>, grants: map<nat, Payload>, p: nat, g: Payload)
    requires start <= g.block && Holder(start, g) !in live && Books(m0, start, live, grants)
    requires Intact(m2, start, live + {Holder(start, g)}, p, g)
    requires forall b, c, x :: b in live && c == Holder(start, g) && InBlock(start, b, x) && InBlock(start, c, x) ==> b == c
    ensures p !in grants && forall q :: q in grants ==> grants[q].block != g.block
  {
    hide InBlock, OrderFor, Pow2;
    HolderSpans(start, g);
    var b := Holder(start, g);
    assert InBlock(start, b, g.block) && InBlock(start, b, p - 4);
    forall q | q in grants ensures grants[q].block != g.block && q != p {
      HolderSpans(start, grants[q]);
      assert InBlock(start, Holder(start, grants[q]), grants[q].block) && InBlock(start, Holder(start, grants[q]), q - 4);
    }
  }
}
