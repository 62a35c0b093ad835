/** Whole runs of the buddy allocator: any sequence of requests served from a fresh pool. */
module BuddyRuns {
  import opened Bits
  import opened BuddyBlocks
  import opened BuddyLists

  datatype Request = Get(order: nat) | GiveBack(block: Block)

  datatype PoolState = PoolState(lists: FreeLists, live: set<Block>)

  function Serve(s: PoolState, start: nat, r: Request): PoolState
    requires |s.lists| == NUM_ORDERS
  {
    match r
    case Get(order) =>
      if !(MIN_ORDER <= order <= MAX_ORDER) then s
      else
        var g := Alloc(s.lists, order - MIN_ORDER);
        if g.NoMemory? then s
        else PoolState(g.lists, s.live + {Block(if g.addr < start then 0 else g.addr - start, order)})
    case GiveBack(b) =>
      if !(MIN_ORDER <= b.order <= MAX_ORDER) then s
      else PoolState(Free(s.lists, start, start + b.off, b.order - MIN_ORDER), s.live - {b})
  }

  /** `states` is a run of a fresh pool over start..end serving `requests` one after the other. */
  ghost predicate IsRun(states: seq<PoolState>, requests: seq<Request>, start: nat, end: nat)
    requires start <= end
  {
    && |states| == |requests| + 1
    && states[0] == PoolState(Cover(Empty(), start, end), {})
    && (forall i :: 0 <= i < |requests| ==> IsStep(states[i], start, requests[i], states[i + 1]))
  }

  /** Callers give back only blocks they hold. */
  ghost predicate IsStep(s: PoolState, start: nat, r: Request, s': PoolState) {
    && |s.lists| == NUM_ORDERS
    && (r.GiveBack? ==> r.block in s.live)
    && s' == Serve(s, start, r)
  }

  lemma ServeKeeps(s: PoolState, start: nat, total: nat, r: Request, s': PoolState)
    requires Inv(s.lists, start, total, s.live) && IsStep(s, start, r, s')
    ensures Inv(s'.lists, start, total, s'.live)
  {
    hide Inv, Free, Alloc, Pow2;
    match r {
      case Get(order) =>
        if MIN_ORDER <= order <= MAX_ORDER {
          AllocKeeps(s.lists, start, total, s.live, order - MIN_ORDER);
        }
      case GiveBack(b) =>
        assert s.live - {b} + {b} == s.live;
        FreeKeeps(s.lists, start, total, s.live - {b}, b);
    }
  }

  /** Over every run, free and live blocks tile the pool and the free ones stay coalesced. */
  lemma {:induction false} RunKeeps(states: seq<PoolState>, requests: seq<Request>, start: nat, end: nat, n: nat)
    requires start <= end && IsRun(states, requests, start, end) && n < |states|
    ensures Inv(states[n].lists, start, Total(end - start), states[n].live)
    decreases n
  {
    hide Inv, IsStep;
    if n == 0 {
      InitialLists(start, end);
    } else {
      RunKeeps(states, requests, start, end, n - 1);
      ServeKeeps(states[n - 1], start, Total(end - start), requests[n - 1], states[n]);
    }
  }

  /** Whatever was served before, once every block is back the free lists hold exactly the blocks the pool began with. */
  lemma RunRestores(states: seq<PoolState>, requests: seq<Request>, start: nat, end: nat, n: nat)
    requires start <= end && IsRun(states, requests, start, end) && n < |states| && states[n].live == {}
    ensures Shaped(states[n].lists, start) && Shaped(states[0].lists, start)
    ensures FreeBlocks(states[n].lists, start) == FreeBlocks(states[0].lists, start)
  {
    RunKeeps(states, requests, start, end, n);
    AllFreeIsInitial(states[n].lists, start, end);
  }
}
