/** The kernel's buddy allocator: free lists threaded through the first word of every free block. */
module KernelBuddy {
  import opened Bits
  import opened BuddyBlocks
  import opened BuddyLists

  // ----- The order of a request -----

  /** The least order at or above k whose block holds n bytes. */
  function OrderFrom(n: nat, k: nat): (r: nat)
    ensures r >= k && Pow2(r) >= n
    ensures r > k ==> Pow2(r - 1) < n
    decreases n - Pow2(k)
  {
    if Pow2(k) >= n then k else OrderFrom(n, k + 1)
  }

  /** The order of the block a request of n bytes is served with. */
  function OrderFor(n: nat): (k: nat)
    ensures k >= MIN_ORDER && Pow2(k) >= n
  {
    OrderFrom(n, MIN_ORDER)
  }

  lemma {:induction false} OrderFromHigher(n: nat, k: nat, m: nat)
    requires k <= m
    ensures OrderFrom(n, m) == if OrderFrom(n, k) < m then m else OrderFrom(n, k)
    decreases m - k
  {
    if k < m {
      if Pow2(k) >= n {
        Pow2Monotone(k, m);
      } else {
        OrderFromHigher(n, k + 1, m);
      }
    }
  }

  /** What the lists grant for a request of n bytes. */
  function AllocFor(lists: FreeLists, n: nat): Grant
    requires |lists| == NUM_ORDERS
  {
    if OrderFor(n) > MAX_ORDER then NoMemory else Alloc(lists, OrderFor(n) - MIN_ORDER)
  }

  /** Repeated doubling of a 32-bit 1 wraps to 0, so the search for an order ends exactly for sizes up to 2^31. */
  lemma OrderSearchEnds(size: uint32)
    ensures (exists k: nat :: Doubled(k) >= size as nat) <==> size <= 0x8000_0000
  {
    WrappedDoubling(31);
    Pow2Values();
    forall k: nat ensures Doubled(k) <= 0x8000_0000 {
      WrappedDoubling(k);
    }
  }

  /** The 32-bit value 1 after k doublings. */
  ghost function Doubled(k: nat): nat {
    Pow2(k) % 0x1_0000_0000
  }

  /** Likewise the search for the largest order that fits ends exactly for ranges shorter than 2^31 bytes. */
  lemma FloorSearchEnds(n: uint32)
    ensures (exists k: nat :: k > 0 && Doubled(k) > n as nat) <==> n < 0x8000_0000
  {
    WrappedDoubling(31);
    Pow2Values();
    forall k: nat ensures Doubled(k) <= 0x8000_0000 {
      WrappedDoubling(k);
    }
  }

  lemma WrappedDoubling(k: nat)
    ensures Doubled(k) == if k < 32 then Pow2(k) else 0
    ensures k < 32 ==> Pow2(k) <= 0x8000_0000
  {
    Pow2Values();
    if k < 32 {
      Pow2Monotone(k, 31);
    } else {
      assert Pow2(32) == 0x1_0000_0000;
      Pow2Add(32, k - 32);
      DivideUnique(Pow2(k), 0x1_0000_0000, Pow2(k - 32), 0);
    }
  }

  method GetOrder(size: uint32) returns (order: nat)
    requires size <= 0x8000_0000
    ensures order == OrderFrom(size as nat, 0)
  {
    order := 0;
    var s: uint32 := 1;
    while s < size
      invariant s as nat == Pow2(order)
      invariant OrderFrom(size as nat, 0) == OrderFrom(size as nat, order)
      decreases 0x1_0000_0000 - s as int
    {
      s := s * 2;
      order := order + 1;
    }
  }

  method GetOrderFloor(n: uint32) returns (order: nat)
    requires 0 < n < 0x8000_0000
    ensures Pow2(order) <= n as nat < Pow2(order + 1)
  {
    order := 0;
    var s: uint32 := 1;
    while s * 2 <= n
      invariant s as nat == Pow2(order) && s <= n
      decreases n - s
    {
      s := s * 2;
      order := order + 1;
    }
  }

  // ----- Lists threaded through memory -----

  /** Memory by word address; a word never written reads as zero. */
  type Memory = map<nat, nat>

  function Word(mem: Memory, a: nat): nat {
    if a in mem then mem[a] else 0
  }

  function Cleared(mem: Memory, a: nat, n: nat): Memory {
    map x | x in mem :: if a <= x < a + n then 0 else mem[x]
  }

  /** Following the next words from `head` visits exactly the addresses of `s`, then reaches null. */
  ghost predicate Linked(mem: Memory, head: nat, s: seq<nat>)
    decreases s
  {
    if s == [] then head == 0
    else head == s[0] && head != 0 && Linked(mem, Word(mem, head), s[1..])
  }

  lemma {:induction false} LinkedFrame(mem: Memory, mem': Memory, head: nat, s: seq<nat>)
    requires Linked(mem, head, s)
    requires forall a :: a in s ==> Word(mem', a) == Word(mem, a)
    ensures Linked(mem', head, s)
    decreases s
  {
    if s != [] {
      LinkedFrame(mem, mem', Word(mem, head), s[1..]);
    }
  }

  lemma {:induction false} UnlinkAt(mem: Memory, head: nat, s: seq<nat>, n: nat)
    requires Linked(mem, head, s) && NoDuplicates(s) && 0 < n < |s|
    ensures Linked(mem[s[n - 1] := Word(mem, s[n])], head, s[..n] + s[n + 1..])
    decreases s
  {
    var mem' := mem[s[n - 1] := Word(mem, s[n])];
    var t := s[..n] + s[n + 1..];
    if n == 1 {
      LinkedFrame(mem, mem', Word(mem, s[1]), s[2..]);
      assert t[1..] == s[2..];
    } else {
      UnlinkAt(mem, Word(mem, head), s[1..], n - 1);
      assert t[1..] == s[1..][..n - 1] + s[1..][n..];
    }
  }

  lemma {:induction false} WithoutAt(s: seq<nat>, n: nat)
    requires NoDuplicates(s) && n < |s|
    ensures Without(s, s[n]) == s[..n] + s[n + 1..]
  {
    if n > 0 {
      WithoutAt(s[1..], n - 1);
    }
  }

  ghost predicate InBlock(start: nat, b: Block, x: nat) {
    start + b.off <= x < start + b.off + Size(b)
  }

  /** The two memories agree on every word of every block in `s`. */
  ghost predicate SameInside(m: Memory, m': Memory, start: nat, s: set<Block>) {
    forall b, x :: b in s && InBlock(start, b, x) ==> Word(m, x) == Word(m', x)
  }

  /** Likewise but for the word at `p`. */
  ghost predicate SameBeyond(m: Memory, m': Memory, start: nat, s: set<Block>, p: nat) {
    forall b, x :: b in s && InBlock(start, b, x) && x != p ==> Word(m, x) == Word(m', x)
  }

  ghost predicate Listed(lists: FreeLists, a: nat) {
    exists i :: 0 <= i < |lists| && a in lists[i]
  }

  lemma {:induction false} WithoutSubset(s: seq<nat>, a: nat)
    ensures forall x :: x in Without(s, a) ==> x in s
  {
    if s != [] {
      WithoutSubset(s[1..], a);
    }
  }

  lemma TakeListed(lists: FreeLists, i: nat, a: nat)
    requires i < |lists|
    ensures forall x :: Listed(Take(lists, i, a), x) ==> Listed(lists, x)
  {
    WithoutSubset(lists[i], a);
  }

  /** No free block starts inside a live one. */
  lemma FreeOutsideLive(lists: FreeLists, start: nat, total: nat, live: set<Block>, b: Block)
    requires Inv(lists, start, total, live) && b in live
    ensures |lists| == NUM_ORDERS
    ensures forall i, a :: 0 <= i < NUM_ORDERS && a in lists[i] ==> !InBlock(start, b, a)
  {
    LivePlaced(lists, start, total, live, b);
    forall i, a | 0 <= i < NUM_ORDERS && a in lists[i] ensures !InBlock(start, b, a) {
      OutsideLive(lists, start, total, live, b, i, a);
    }
  }

  lemma OutsideLive(lists: FreeLists, start: nat, total: nat, live: set<Block>, b: Block, i: nat, a: nat)
    requires Inv(lists, start, total, live) && b in live && i < NUM_ORDERS && |lists| == NUM_ORDERS && a in lists[i]
    ensures !InBlock(start, b, a)
  {
    hide Inv, FreeBlocks, Shaped, Pow2;
    ListedBlock(lists, start, total, live, i, a);
    assert b in FreeBlocks(lists, start) + live;
  }

  lemma AllFreeOutsideLive(lists: FreeLists, start: nat, total: nat, live: set<Block>)
    requires Inv(lists, start, total, live)
    ensures |lists| == NUM_ORDERS
    ensures forall b, a :: b in live && Listed(lists, a) ==> !InBlock(start, b, a)
  {
    forall b, a | b in live && Listed(lists, a) ensures !InBlock(start, b, a) {
      FreeOutsideLive(lists, start, total, live, b);
    }
  }

  /** Live blocks share no address. */
  lemma LiveApart(lists: FreeLists, start: nat, total: nat, live: set<Block>)
    requires Inv(lists, start, total, live)
    ensures forall b, c, x :: b in live && c in live && InBlock(start, b, x) && InBlock(start, c, x) ==> b == c
  {
    forall b, c, x | b in live && c in live && InBlock(start, b, x) && InBlock(start, c, x) ensures b == c {
      assert b != c ==> Apart(b, c);
    }
  }

  lemma UpperInside(start: nat, b: Block)
    requires b.order > MIN_ORDER
    ensures InBlock(start, b, start + b.off + Pow2(b.order - 1))
  {
  }

  lemma ListsApart(lists: FreeLists, start: nat, total: nat, live: set<Block>, i: nat)
    requires Inv(lists, start, total, live) && i < NUM_ORDERS
    ensures |lists| == NUM_ORDERS && NoDuplicates(lists[i])
    ensures forall k, x :: 0 <= k < NUM_ORDERS && k != i && x in lists[k] ==> x !in lists[i]
  {
    assert |lists| == NUM_ORDERS && NoDuplicates(lists[i]);
    hide Inv, Shaped, FreeBlocks;
    forall k, x | 0 <= k < NUM_ORDERS && k != i && x in lists[k] ensures x !in lists[i] {
      if x in lists[i] {
        ListedBlock(lists, start, total, live, i, x);
        ListedBlock(lists, start, total, live, k, x);
      }
    }
  }

  lemma MergeWhenListed(lists: FreeLists, start: nat, total: nat, rest: set<Block>, b: Block)
    requires b !in rest && Inv(lists, start, total, rest + {b}) && b.order < MAX_ORDER
    ensures |lists| == NUM_ORDERS && MIN_ORDER <= b.order
    ensures start + BuddyOf(b).off in lists[b.order - MIN_ORDER] ==>
      Parent(b) !in rest && Inv(Take(lists, b.order - MIN_ORDER, start + BuddyOf(b).off), start, total, rest + {Parent(b)})
  {
    hide Xor, Pow2, Take, Tiles, Coalesced;
    LivePlaced(lists, start, total, rest + {b}, b);
    if start + BuddyOf(b).off in lists[b.order - MIN_ORDER] {
      assert IsFree(lists, start, BuddyOf(b));
      MergeStep(lists, start, total, rest, b);
    }
  }

  lemma SplitDownOnce(lists: FreeLists, a: nat, k: nat, i: nat)
    requires i < k < |lists|
    ensures SplitDown(lists, a, k, i) == SplitDown(Put(lists, k - 1, a + Pow2(k - 1 + MIN_ORDER)), a, k - 1, i)
  {
  }

  lemma SplitDownDone(lists: FreeLists, a: nat, i: nat)
    requires i < |lists|
    ensures SplitDown(lists, a, i, i) == lists
  {
  }

  class Buddy {
    const startAddr: nat
    const endAddr: nat
    /** The head of each list; 0 is null. */
    const freeLists: array<nat>
    var mem: Memory
    ghost var lists: FreeLists
    ghost var live: set<Block>

    ghost predicate Valid()
      reads this, freeLists
    {
      && 0 < startAddr <= endAddr && endAddr - startAddr < 0x8000_0000
      && freeLists.Length == NUM_ORDERS
      && Inv(lists, startAddr, Total(endAddr - startAddr), live)
      && Threaded()
    }

    ghost predicate Threaded()
      reads this, freeLists
    {
      && freeLists.Length == |lists| == NUM_ORDERS
      && forall i :: 0 <= i < NUM_ORDERS ==> Linked(mem, freeLists[i], lists[i])
    }

    constructor (start: nat, end: nat, memory: Memory)
      requires 0 < start <= end && end - start < 0x8000_0000
      ensures Valid() && fresh(freeLists) && startAddr == start && endAddr == end
      ensures live == {} && lists == Cover(Empty(), start, end)
    {
      hide Inv, Cover, Total, Pow2;
      startAddr, endAddr := start, end;
      freeLists := new nat[NUM_ORDERS](_ => 0);
      mem := memory;
      lists, live := Empty(), {};
      new;
      AddRange();
      InitialLists(start, end);
    }

    /** Cover the whole range with free blocks, the largest first. */
    method AddRange()
      requires 0 < startAddr <= endAddr && endAddr - startAddr < 0x8000_0000
      requires Threaded() && lists == Empty()
      modifies this, freeLists
      ensures Threaded() && live == old(live)
      ensures lists == Cover(Empty(), startAddr, endAddr)
    {
      hide FloorOrder, Pow2, Linked, Empty;
      var current := startAddr;
      while current < endAddr
        invariant startAddr <= current <= endAddr
        invariant Threaded() && live == old(live)
        invariant forall i, a :: 0 <= i < NUM_ORDERS && a in lists[i] ==> a < current
        invariant Cover(lists, current, endAddr) == Cover(Empty(), startAddr, endAddr)
        decreases endAddr - current
      {
        var available := endAddr - current;
        var order := GetOrderFloor(available as uint32);
        FloorOrderIs(available, order);
        if order > MAX_ORDER {
          order := MAX_ORDER;
        }
        if order < MIN_ORDER {
          break;
        }
        PushBlock(order - MIN_ORDER, current);
        current := current + Pow2(order);
      }
    }

    /** Put the block at `a`, which is on no list, at the head of list i. */
    method PushBlock(i: nat, a: nat)
      requires Threaded() && i < NUM_ORDERS && a != 0
      requires forall k :: 0 <= k < NUM_ORDERS ==> a !in lists[k]
      modifies this, freeLists
      ensures Threaded() && lists == Put(old(lists), i, a) && live == old(live)
      ensures forall x :: x != a ==> Word(mem, x) == Word(old(mem), x)
    {
      mem := mem[a := freeLists[i]];
      forall k | 0 <= k < NUM_ORDERS ensures Linked(mem, freeLists[k], lists[k]) {
        LinkedFrame(old(mem), mem, freeLists[k], lists[k]);
      }
      freeLists[i] := a;
      lists := Put(lists, i, a);
    }

    /** Take the first block of list j and halve it down to list index i; the upper halves go on their lists. */
    method PopAndSplit(j: nat, i: nat) returns (block: nat)
      requires Valid() && i <= j < NUM_ORDERS && lists[j] != []
      modifies this, freeLists
      ensures Valid() && block >= startAddr && block == old(lists)[j][0]
      ensures lists == SplitDown(Take(old(lists), j, block), block, j, i)
      ensures Block(block - startAddr, i + MIN_ORDER) !in old(live)
      ensures live == old(live) + {Block(block - startAddr, i + MIN_ORDER)}
      ensures SameInside(old(mem), mem, startAddr, old(live))
    {
      hide Inv, Tiles, Coalesced, Size, Pow2, InBlock, SplitDown;
      ghost var total := Total(endAddr - startAddr);
      block := freeLists[j];
      HeadIsFree(lists, startAddr, total, live, j);
      TakeKeeps(lists, startAddr, total, live, Block(block - startAddr, j + MIN_ORDER));
      freeLists[j] := Word(mem, block);
      lists := Take(lists, j, block);
      live := live + {Block(block - startAddr, j + MIN_ORDER)};
      var k := j;
      while k > i
        invariant i <= k <= j
        invariant Threaded() && block == old(lists)[j][0]
        invariant Block(block - startAddr, k + MIN_ORDER) !in old(live)
        invariant live == old(live) + {Block(block - startAddr, k + MIN_ORDER)}
        invariant Inv(lists, startAddr, total, live)
        invariant SameInside(old(mem), mem, startAddr, old(live))
        invariant SplitDown(lists, block, k, i) == SplitDown(Take(old(lists), j, block), block, j, i)
      {
        ghost var b := Block(block - startAddr, k + MIN_ORDER);
        FreeOutsideLive(lists, startAddr, total, live, b);
        SplitStep(lists, startAddr, total, old(live), b);
        k := k - 1;
        UpperInside(startAddr, b);
        LiveApart(lists, startAddr, total, live);
        SplitDownOnce(lists, block, k + 1, i);
        PushBlock(k, block + Pow2(k + MIN_ORDER));
        live := old(live) + {LowerHalf(b)};
      }
      SplitDownDone(lists, block, i);
    }

    /** Zero the bytes of a live block. */
    method Clear(b: Block)
      requires Valid() && b in live
      modifies this
      ensures Valid() && lists == old(lists) && live == old(live)
      ensures mem == Cleared(old(mem), startAddr + b.off, Size(b))
    {
      hide Inv;
      FreeOutsideLive(lists, startAddr, Total(endAddr - startAddr), live, b);
      mem := Cleared(mem, startAddr + b.off, Size(b));
      assert forall x :: !InBlock(startAddr, b, x) ==> Word(mem, x) == Word(old(mem), x);
      forall k | 0 <= k < NUM_ORDERS ensures Linked(mem, freeLists[k], lists[k]) {
        assert forall x :: x in lists[k] ==> !InBlock(startAddr, b, x);
        LinkedFrame(old(mem), mem, freeLists[k], lists[k]);
      }
    }

    /** A word stored by the owner of a live block inside that block. */
    method Store(ghost b: Block, a: nat, v: nat)
      requires Valid() && b in live && InBlock(startAddr, b, a)
      modifies this
      ensures Valid() && lists == old(lists) && live == old(live)
      ensures mem == old(mem)[a := v]
    {
      hide Inv, InBlock;
      FreeOutsideLive(lists, startAddr, Total(endAddr - startAddr), live, b);
      mem := mem[a := v];
      forall k | 0 <= k < NUM_ORDERS ensures Linked(mem, freeLists[k], lists[k]) {
        LinkedFrame(old(mem), mem, freeLists[k], lists[k]);
      }
    }

    /** Search list i for the block at `a` and unlink it. */
    method Search(i: nat, a: nat) returns (found: bool)
      requires Threaded() && i < NUM_ORDERS && NoDuplicates(lists[i])
      requires forall k, x :: 0 <= k < NUM_ORDERS && k != i && x in lists[k] ==> x !in lists[i]
      modifies this, freeLists
      ensures Threaded() && live == old(live)
      ensures found <==> a in old(lists)[i]
      ensures lists == if found then Take(old(lists), i, a) else old(lists)
      ensures forall x :: !Listed(old(lists), x) ==> Word(mem, x) == Word(old(mem), x)
      ensures found ==> Listed(old(lists), a)
    {
      var prev, curr := 0, freeLists[i];
      ghost var n := 0;
      while curr != 0
        invariant n <= |lists[i]| && Linked(mem, curr, lists[i][n..])
        invariant if n == 0 then prev == 0 && curr == freeLists[i] else prev != 0 && prev == lists[i][n - 1]
        invariant a !in lists[i][..n]
        decreases |lists[i]| - n
      {
        if curr == a {
          WithoutAt(lists[i], n);
          if prev == 0 {
            freeLists[i] := Word(mem, curr);
          } else {
            UnlinkAt(mem, freeLists[i], lists[i], n);
            assert prev in lists[i];
            mem := mem[prev := Word(mem, curr)];
            forall k | 0 <= k < NUM_ORDERS && k != i ensures Linked(mem, freeLists[k], lists[k]) {
              LinkedFrame(old(mem), mem, freeLists[k], lists[k]);
            }
          }
          lists := Take(lists, i, a);
          return true;
        }
        prev := curr;
        curr := Word(mem, curr);
        n := n + 1;
      }
      found := false;
    }

    /** A block for `size` bytes, cleared, or null: exactly what the list specification grants. */
    method Allocate(size: uint32) returns (p: nat)
      requires Valid() && size <= 0x8000_0000
      modifies this, freeLists
      ensures Valid()
      ensures AllocFor(old(lists), size as nat).NoMemory? ==>
        p == 0 && lists == old(lists) && live == old(live) && mem == old(mem)
      ensures AllocFor(old(lists), size as nat).Grant? ==>
        && p >= startAddr
        && AllocFor(old(lists), size as nat) == Grant(p, lists)
        && Block(p - startAddr, OrderFor(size as nat)) !in old(live)
        && live == old(live) + {Block(p - startAddr, OrderFor(size as nat))}
        && forall x :: p <= x < p + Pow2(OrderFor(size as nat)) ==> Word(mem, x) == 0
      ensures SameInside(old(mem), mem, startAddr, old(live))
    {
      hide Inv, SplitDown, Take, OrderFrom, Pow2;
      var order := GetOrder(size);
      OrderFromHigher(size as nat, 0, MIN_ORDER);
      if order < MIN_ORDER {
        order := MIN_ORDER;
      }
      var listIdx := order - MIN_ORDER;
      if listIdx >= NUM_ORDERS {
        return 0;
      }
      var i := listIdx;
      while i < NUM_ORDERS
        invariant listIdx <= i <= NUM_ORDERS
        invariant FirstUsable(lists, listIdx) == FirstUsable(lists, i)
      {
        if freeLists[i] != 0 {
          p := PopAndSplit(i, listIdx);
          Clear(Block(p - startAddr, order));
          LiveApart(lists, startAddr, Total(endAddr - startAddr), live);
          return;
        }
        i := i + 1;
      }
      return 0;
    }

    /** Give back a live block under the size it was allocated with; null is ignored. */
    method Release(p: nat, size: uint32)
      requires Valid() && size <= 0x8000_0000
      requires p != 0 ==> p >= startAddr && Block(p - startAddr, OrderFor(size as nat)) in live
      modifies this, freeLists
      ensures Valid()
      ensures p == 0 ==> lists == old(lists) && live == old(live) && mem == old(mem)
      ensures p != 0 ==>
        && OrderFor(size as nat) <= MAX_ORDER
        && live == old(live) - {Block(p - startAddr, OrderFor(size as nat))}
        && lists == Free(old(lists), startAddr, p, OrderFor(size as nat) - MIN_ORDER)
        && SameBeyond(old(mem), mem, startAddr, old(live), p)
    {
      if p == 0 {
        return;
      }
      var order := GetOrder(size);
      OrderFromHigher(size as nat, 0, MIN_ORDER);
      if order < MIN_ORDER {
        order := MIN_ORDER;
      }
      Coalesce(p, order);
    }

    /** Join the block with its free buddies order by order, then put the result on its list. */
    method Coalesce(p: nat, o: nat)
      requires Valid() && p >= startAddr && Block(p - startAddr, o) in live
      modifies this, freeLists
      ensures Valid() && MIN_ORDER <= o <= MAX_ORDER
      ensures live == old(live) - {Block(p - startAddr, o)}
      ensures lists == Free(old(lists), startAddr, p, o - MIN_ORDER)
      ensures SameBeyond(old(mem), mem, startAddr, old(live), p)
    {
      hide Inv, Xor, Pow2, InBlock, Without, Listed, Linked, FreeBlocks, Free;
      ghost var total, first := Total(endAddr - startAddr), Block(p - startAddr, o);
      ghost var rest := live - {first};
      assert rest + {first} == live;
      FreeKeeps(lists, startAddr, total, rest, first);
      AllFreeOutsideLive(lists, startAddr, total, live);
      var addr, order := p, o;
      while order < MAX_ORDER
        invariant addr >= startAddr && MIN_ORDER <= order <= MAX_ORDER
        invariant Threaded() && Block(addr - startAddr, order) !in rest
        invariant live == rest + {Block(addr - startAddr, order)}
        invariant Inv(lists, startAddr, total, live)
        invariant Free(lists, startAddr, addr, order - MIN_ORDER) == Free(old(lists), startAddr, p, o - MIN_ORDER)
        invariant addr == p || Listed(old(lists), addr)
        invariant forall x :: Listed(lists, x) ==> Listed(old(lists), x)
        invariant SameBeyond(old(mem), mem, startAddr, old(live), p)
      {
        ghost var b := Block(addr - startAddr, order);
        var buddyAddr := Xor(addr - startAddr, Pow2(order)) + startAddr;
        ListsApart(lists, startAddr, total, live, order - MIN_ORDER);
        MergeWhenListed(lists, startAddr, total, rest, b);
        TakeListed(lists, order - MIN_ORDER, buddyAddr);
        FreeStep(lists, startAddr, addr, order - MIN_ORDER);
        var found := Search(order - MIN_ORDER, buddyAddr);
        if !found {
          break;
        }
        if buddyAddr < addr {
          addr := buddyAddr;
        }
        order := order + 1;
        live := rest + {Block(addr - startAddr, order)};
      }
      FreeStep(lists, startAddr, addr, order - MIN_ORDER);
      HandNotListed(lists, startAddr, total, live, Block(addr - startAddr, order));
      PushBlock(order - MIN_ORDER, addr);
      live := rest;
    }
  }

  lemma HandNotListed(lists: FreeLists, start: nat, total: nat, live: set<Block>, b: Block)
    requires Inv(lists, start, total, live) && b in live
    ensures |lists| == NUM_ORDERS && forall i :: 0 <= i < NUM_ORDERS ==> start + b.off !in lists[i]
  {
    FreeOutsideLive(lists, start, total, live, b);
    assert InBlock(start, b, start + b.off);
  }

  lemma FloorOrderIs(n: nat, k: nat)
    requires n > 0 && Pow2(k) <= n < Pow2(k + 1)
    ensures FloorOrder(n) == if k > MAX_ORDER then MAX_ORDER else k
  {
    var r := FloorOrder(n);
    if r < MAX_ORDER && r < k {
      Pow2Monotone(r + 1, k);
    }
    if k < r {
      Pow2Monotone(k + 1, r);
    }
  }
}
