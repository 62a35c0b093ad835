/** The scan for a free cluster, which looks at words behind the FAT too, and what it finds when the volume is full. */
module Fat16Scan {
  import opened Octets
  import opened Fat16Image
  import opened Fat16Chains
  import opened Fat16Growth

  /** What the scan gives: the first cluster whose word is zero, or 0 when there is none. */
  ghost predicate FirstFree(g: Geometry, img: Image, c: nat)
    requires Fits(g, img)
  {
    && (forall d :: 2 <= d < END_MARK && (c == 0 || d < c) ==> Entry(g, img, d) != 0)
    && (c != 0 ==> 2 <= c < END_MARK && Entry(g, img, c) == 0)
  }

  /** No word from the limit on looks free. */
  ghost predicate Fenced(g: Geometry, img: Image, limit: nat)
    requires Fits(g, img)
  {
    forall d :: limit <= d < END_MARK ==> Entry(g, img, d) != 0
  }

  /** What the driver relies on: a mirrored FAT, and sectors for every cluster below the limit. */
  ghost predicate Formatted(g: Geometry, limit: nat, img: Image) {
    && Fits(g, img) && Mirrored(g, img)
    && 2 <= limit <= g.Entries() && limit <= END_MARK
    && Roomy(Data(g, img), g.sectorsPerCluster, limit)
  }

  /** A chain after every free cluster has been put behind it. */
  ghost function Utmost(fat: seq<nat>, limit: nat, ch: seq<nat>): seq<nat>
    requires limit <= |fat|
  {
    ch + FreeList(fat, limit, 2)
  }

  /** Sector x of the data area comes at place q of the chain, and the buffer has a zero word where entry d is looked for. */
  ghost predicate ZeroWord(spc: nat, all: seq<nat>, buffer: seq<byte>, x: nat, d: nat, q: nat)
    requires spc >= 1 && q < |all|
  {
    var n := 512 * (spc * q) + 512 * (x % spc) + 2 * (d % 256);
    all[q] == x / spc + 2 && n + 1 < |buffer| && Get16(buffer[n], buffer[n + 1]) == 0
  }

  ghost predicate HasZeroWord(spc: nat, all: seq<nat>, buffer: seq<byte>, x: nat, d: nat)
    requires spc >= 1
  {
    exists q :: 0 <= q < |all| && ZeroWord(spc, all, buffer, x, d, q)
  }

  /** Whether the scan takes word d, behind the limit, for a free cluster once the buffer fills the whole volume. */
  ghost predicate LooksFree(g: Geometry, limit: nat, img: Image, ch: seq<nat>, buffer: seq<byte>, d: nat)
    requires Formatted(g, limit, img) && limit <= d < END_MARK
  {
    var all, spc, k := Utmost(Fat(g, img), limit, ch), g.sectorsPerCluster, g.reserved + d / 256;
    if k >= g.DataStart() && (k - g.DataStart()) / spc + 2 in all then
      HasZeroWord(spc, all, buffer, k - g.DataStart(), d)
    else
      Entry(g, img, d) == 0 && !(g.fats > 1 && g.Entries() + 2 <= d < g.Entries() + limit)
  }

  /** The write needs no more clusters than there are, or no word behind them looks free when they are used up. */
  ghost predicate StaysInside(g: Geometry, limit: nat, img: Image, ch: seq<nat>, buffer: seq<byte>)
    requires Formatted(g, limit, img)
  {
    || Room(Fat(g, img), limit, g.sectorsPerCluster, ch, |buffer|)
    || forall d :: limit <= d < END_MARK ==> !LooksFree(g, limit, img, ch, buffer, d)
  }

  /** The chain, extended by every free cluster, goes on outside of the volume. */
  ghost predicate Astray(g: Geometry, limit: nat, img: Image, all: seq<nat>, first: nat)
    requires Fits(g, img)
  {
    if all == [] then limit <= first < END_MARK
    else first == all[0] && all[|all| - 1] < g.Entries() && all[|all| - 1] < limit && limit <= Entry(g, img, all[|all| - 1]) < END_MARK
  }

  /** The image while a buffer is written and the chain has only taken clusters of the volume. */
  ghost predicate OnTrack(g: Geometry, limit: nat, img0: Image, img: Image, ch: seq<nat>, cur: seq<nat>, q: nat, buffer: seq<byte>, w: nat)
    requires Formatted(g, limit, img0)
  {
    && Formatted(g, limit, img) && Slots(g, img) == Slots(g, img0) && SameElsewhere(g, img0, img)
    && Grown(Fat(g, img0), Fat(g, img), limit, ch, cur)
    && cur + FreeList(Fat(g, img), limit, 2) == Utmost(Fat(g, img0), limit, ch)
    && SameOutside(Data(g, img0), Data(g, img), g.sectorsPerCluster, cur)
    && StoredIn(Data(g, img), g.sectorsPerCluster, limit, cur, q, buffer, w)
  }

  // ----- Words of the FAT, its copy, the directory and the data area when the volume is full -----

  lemma EntryInCopy(g: Geometry, img: Image, d: nat)
    requires Fits(g, img) && Mirrored(g, img) && g.fats > 1 && g.Entries() <= d < 2 * g.Entries() && d < 0x1_0000
    ensures Entry(g, img, d) == Entry(g, img, d - g.Entries())
  {
    var e, spf := d - g.Entries(), g.sectorsPerFat;
    assert d == e + 256 * spf;
    assert d / 256 == e / 256 + spf && d % 256 == e % 256;
    assert img[g.reserved + spf..g.reserved + 2 * spf][e / 256] == img[g.reserved..g.reserved + spf][e / 256];
  }

  lemma SectorCluster(spc: nat, x: nat)
    requires spc >= 1
    ensures x % spc < spc && SectorIndex(spc, x / spc + 2, x % spc) == x
  {
  }

  /** A word of the data area is one of the buffer where a full chain passes, else what it was. */
  lemma WordOfData(data0: seq<Sector>, data: seq<Sector>, spc: nat, limit: nat, cur: seq<nat>, buffer: seq<byte>, x: nat, d: nat)
    requires Roomy(data, spc, limit) && x < |data| && SameOutside(data0, data, spc, cur)
    requires StoredIn(data, spc, limit, cur, |cur|, buffer, 512 * (spc * |cur|))
    ensures |data0| == |data|
    ensures (x / spc + 2 !in cur ==> data[x] == data0[x])
    ensures x / spc + 2 in cur ==> (Get16(data[x][2 * (d % 256)], data[x][2 * (d % 256) + 1]) == 0 <==> HasZeroWord(spc, cur, buffer, x, d))
  {
    hide SectorIndex, ChainBytes, Get16;
    SectorCluster(spc, x);
    var c := x / spc + 2;
    if c !in cur {
      assert SameSectors(data0, data, spc, c, spc);
    }
    forall q | 0 <= q < |cur| && cur[q] == c
      ensures Get16(data[x][2 * (d % 256)], data[x][2 * (d % 256) + 1]) == 0 <==> ZeroWord(spc, cur, buffer, x, d, q)
    {
      WordOfChain(data, spc, limit, cur, buffer, x, d, q);
    }
  }

  lemma WordOfChain(data: seq<Sector>, spc: nat, limit: nat, cur: seq<nat>, buffer: seq<byte>, x: nat, d: nat, q: nat)
    requires spc >= 1 && x < |data| && q < |cur| && cur[q] == x / spc + 2
    requires StoredIn(data, spc, limit, cur, |cur|, buffer, 512 * (spc * |cur|))
    ensures Get16(data[x][2 * (d % 256)], data[x][2 * (d % 256) + 1]) == 0 <==> ZeroWord(spc, cur, buffer, x, d, q)
  {
    hide SectorIndex, ChainBytes, Get16, Roomy;
    SectorCluster(spc, x);
    ChainSector(data, spc, limit, cur, q, x % spc);
    var n, m := 512 * (spc * q) + 512 * (x % spc), 2 * (d % 256);
    var all := ChainBytes(data, spc, limit, cur);
    assert cur[..|cur|] == cur;
    assert all == buffer[..|all|];
    assert all[n..n + 512][m] == all[n + m] == buffer[n + m];
    assert all[n..n + 512][m + 1] == all[n + m + 1] == buffer[n + m + 1];
  }

  /** When the clusters are used up, exactly the words foreseen look free. */
  lemma WordWhenFull(g: Geometry, limit: nat, img0: Image, img: Image, ch: seq<nat>, cur: seq<nat>, buffer: seq<byte>, d: nat)
    requires Formatted(g, limit, img0) && OnTrack(g, limit, img0, img, ch, cur, |cur|, buffer, 512 * (g.sectorsPerCluster * |cur|))
    requires FreeSet(Fat(g, img), limit) == {} && limit <= d < END_MARK
    ensures Entry(g, img, d) == 0 <==> LooksFree(g, limit, img0, ch, buffer, d)
  {
    hide Get16, StoredIn, Roomy, SameOutside, FreeSet, IsChain, Mirrored, ZeroWord;
    var fat0, fat, k := Fat(g, img0), Fat(g, img), g.reserved + d / 256;
    FreeListEmpty(fat, limit, 2);
    assert cur + [] == cur;
    var all := Utmost(fat0, limit, ch);
    if k >= g.DataStart() {
      WordOfData(Data(g, img0), Data(g, img), g.sectorsPerCluster, limit, cur, buffer, k - g.DataStart(), d);
    } else if d < g.Entries() {
      BehindChain(fat, limit, cur, d);
    } else if g.fats > 1 && d < 2 * g.Entries() {
      EntryInCopy(g, img, d);
      EntryInCopy(g, img0, d);
      CopiedWord(g, limit, fat0, fat, cur, d - g.Entries());
    }
  }

  lemma CopiedWord(g: Geometry, limit: nat, fat0: seq<nat>, fat: seq<nat>, cur: seq<nat>, e: nat)
    requires |fat0| == |fat| && limit <= |fat| && e < |fat| && (cur == [] || IsChain(fat, limit, cur)) && FreeSet(fat, limit) == {}
    requires forall c :: 0 <= c < |fat| && c !in cur ==> fat[c] == fat0[c]
    ensures if 2 <= e < limit then fat[e] != 0 else fat[e] == fat0[e]
  {
    hide IsChain, FreeSet;
    BehindChain(fat, limit, cur, e);
    NotFree(fat, limit, e);
  }

  lemma BehindChain(fat: seq<nat>, limit: nat, cur: seq<nat>, d: nat)
    requires cur == [] || IsChain(fat, limit, cur)
    ensures d < 2 || limit <= d ==> d !in cur
  {
  }

  lemma NotFree(fat: seq<nat>, limit: nat, d: nat)
    requires limit <= |fat| && FreeSet(fat, limit) == {}
    ensures 2 <= d < limit ==> fat[d] != 0
  {
    assert d !in FreeSet(fat, limit);
  }

  // ----- The steps of a write -----

  lemma StartTrack(g: Geometry, limit: nat, img: Image, ch: seq<nat>, buffer: seq<byte>)
    requires Formatted(g, limit, img) && (ch == [] || IsChain(Fat(g, img), limit, ch))
    ensures OnTrack(g, limit, img, img, ch, ch, 0, buffer, 0)
  {
    hide SameSectors, FreeSet;
    StartGrown(Fat(g, img), limit, ch, Data(g, img), g.sectorsPerCluster);
    assert ch[..0] == [] && buffer[..0] == [];
  }

  /** The image after the first free cluster has been marked and put behind the chain. */
  function Taken(g: Geometry, img: Image, cur: seq<nat>, c: nat): Image
    requires Fits(g, img) && c < 0x1_0000 && (cur != [] ==> cur[|cur| - 1] < 0x1_0000)
  {
    WriteWord(g, img, c, LAST);
    var marked := SetEntry(g, img, c, LAST);
    if cur == [] then marked else SetEntry(g, marked, cur[|cur| - 1], c)
  }

  lemma SetOnVolume(g: Geometry, limit: nat, img0: Image, img: Image, c: nat, v: nat)
    requires Formatted(g, limit, img) && c < g.Entries() && c < 0x1_0000 && v < 0x1_0000
    requires Fits(g, img0) && SameElsewhere(g, img0, img)
    ensures var img' := SetEntry(g, img, c, v);
      && Formatted(g, limit, img') && SameElsewhere(g, img0, img')
      && Fat(g, img') == Fat(g, img)[c := v] && Slots(g, img') == Slots(g, img) && Data(g, img') == Data(g, img)
  {
    WriteEntry(g, img, c, v);
    WriteEntryMirrors(g, img, c, v);
    hide SetEntry, Fat, Slots, Data, Mirrored, Roomy;
  }

  lemma TakeCluster(g: Geometry, limit: nat, img0: Image, img: Image, ch: seq<nat>, cur: seq<nat>, q: nat, buffer: seq<byte>, w: nat, c: nat)
    requires Formatted(g, limit, img0) && OnTrack(g, limit, img0, img, ch, cur, q, buffer, w)
    requires FirstFree(g, img, c) && 2 <= c < limit
    ensures cur != [] ==> 2 <= cur[|cur| - 1] < limit
    ensures OnTrack(g, limit, img0, Taken(g, img, cur, c), ch, cur + [c], q, buffer, w)
  {
    hide Entry, Mirrored, Roomy, SetEntry, SameElsewhere, StoredIn, SameOutside, Data, Slots, FreeSet;
    ghost var fat := Fat(g, img);
    GrowMore(Fat(g, img0), fat, limit, ch, cur, c);
    SetOnVolume(g, limit, img0, img, c, LAST);
    if cur != [] {
      SetOnVolume(g, limit, img0, SetEntry(g, img, c, LAST), cur[|cur| - 1], c);
    }
    var img' := Taken(g, img, cur, c);
    assert Fat(g, img') == Linked(fat, cur, c);
    FreeListHead(fat, limit, 2, c, LAST);
    FreeListFrame(fat[c := LAST], Linked(fat, cur, c), limit, 2);
    assert (cur + [c]) + FreeList(Linked(fat, cur, c), limit, 2) == cur + ([c] + FreeList(Linked(fat, cur, c), limit, 2));
    OutsideMore(Data(g, img0), Data(g, img), g.sectorsPerCluster, cur, c);
    StoredLonger(Data(g, img), g.sectorsPerCluster, limit, cur, c, q, buffer, w);
  }

  /** When no cluster of the volume is left, the write stays inside exactly if the scan finds nothing. */
  lemma UsedUp(g: Geometry, limit: nat, img0: Image, img: Image, ch: seq<nat>, cur: seq<nat>, buffer: seq<byte>, w: nat, c: nat)
    requires Formatted(g, limit, img0) && OnTrack(g, limit, img0, img, ch, cur, |cur|, buffer, w)
    requires w == 512 * (g.sectorsPerCluster * |cur|) && (w < |buffer| || cur == [])
    requires FirstFree(g, img, c) && !(2 <= c < limit)
    ensures FreeSet(Fat(g, img), limit) == {} && cur == Utmost(Fat(g, img0), limit, ch)
    ensures !Room(Fat(g, img0), limit, g.sectorsPerCluster, ch, |buffer|)
    ensures StaysInside(g, limit, img0, ch, buffer) <==> c == 0
  {
    hide Entry, Mirrored, Roomy, StoredIn, SameOutside, SameElsewhere, Data, Slots, LooksFree, IsChain;
    var fat := Fat(g, img);
    forall d | 2 <= d < limit ensures fat[d] != 0 {
      assert Entry(g, img, d) != 0;
    }
    assert FreeSet(fat, limit) == {};
    FreeListEmpty(fat, limit, 2);
    assert cur + [] == cur;
    forall d | limit <= d < END_MARK ensures Entry(g, img, d) == 0 <==> LooksFree(g, limit, img0, ch, buffer, d) {
      WordWhenFull(g, limit, img0, img, ch, cur, buffer, d);
    }
  }

  /** A cluster written in full. */
  lemma ClusterWritten(g: Geometry, limit: nat, img0: Image, img: Image, img': Image, ch: seq<nat>, cur: seq<nat>, q: nat, buffer: seq<byte>, w: nat, w': nat)
    requires Formatted(g, limit, img0) && OnTrack(g, limit, img0, img, ch, cur, q, buffer, w)
    requires q < |cur| && w < |buffer|
    requires Formatted(g, limit, img') && SameElsewhere(g, img, img') && Fat(g, img') == Fat(g, img) && Slots(g, img') == Slots(g, img)
    requires Copied(Data(g, img'), g.sectorsPerCluster, cur[q], g.sectorsPerCluster, buffer, w, w')
    requires OnlyCluster(Data(g, img), Data(g, img'), g.sectorsPerCluster, cur[q])
    ensures OnTrack(g, limit, img0, img', ch, cur, q + 1, buffer, w') && w < w'
  {
    hide Mirrored, Roomy, StoredIn, SameOutside, Data, Slots, Fat, Copied, OnlyCluster, IsChain, FreeSet;
    StoreMore(Data(g, img0), Data(g, img), Data(g, img'), g.sectorsPerCluster, limit, Fat(g, img), cur, q, buffer, w, w');
  }

  // ----- Off the volume -----

  lemma GoesAstray(g: Geometry, limit: nat, img: Image, cur: seq<nat>, c: nat)
    requires Fits(g, img) && limit <= c < END_MARK && limit <= g.Entries()
    requires forall i :: 0 <= i < |cur| ==> cur[i] < limit
    ensures Fits(g, Taken(g, img, cur, c)) && Astray(g, limit, Taken(g, img, cur, c), cur, if cur == [] then c else cur[0])
  {
    hide Entry, SetEntry;
    WriteWord(g, img, c, LAST);
    if cur != [] {
      WriteWord(g, SetEntry(g, img, c, LAST), cur[|cur| - 1], c);
    }
  }

  /** Once astray, the chain stays astray: the entry it left the volume by is neither free nor an end. */
  lemma AdvanceAstray(g: Geometry, limit: nat, img: Image, all: seq<nat>, first: nat, cluster: nat, next: nat)
    requires Fits(g, img) && Astray(g, limit, img, all, first) && limit >= 1
    requires cluster < END_MARK && !(0 < Entry(g, img, cluster) < END_MARK) && FirstFree(g, img, next) && next != 0
    ensures Fits(g, Taken(g, img, [cluster], next)) && Astray(g, limit, Taken(g, img, [cluster], next), all, first)
  {
    hide Entry, SetEntry;
    WriteWord(g, img, next, LAST);
    WriteWord(g, SetEntry(g, img, next, LAST), cluster, next);
  }

  lemma WriteAstray(g: Geometry, limit: nat, img: Image, img': Image, all: seq<nat>, first: nat)
    requires Fits(g, img) && Astray(g, limit, img, all, first)
    requires OnlyData(g, img, img')
    ensures Fits(g, img') && Astray(g, limit, img', all, first)
  {
    hide Get16;
    if all != [] {
      var k := g.reserved + all[|all| - 1] / 256;
      assert img'[..g.DataStart()][k] == img[..g.DataStart()][k];
    }
  }

  // ----- Taking the first cluster, and going on from one to the next -----

  lemma TakeFirst(g: Geometry, limit: nat, img: Image, buffer: seq<byte>, c: nat)
    requires Formatted(g, limit, img) && FirstFree(g, img, c)
    ensures var now := SetEntry(g, img, c, LAST);
      if c == 0 then StaysInside(g, limit, img, [], buffer) && FreeSet(Fat(g, img), limit) == {} && !Room(Fat(g, img), limit, g.sectorsPerCluster, [], |buffer|)
      else if c < limit then OnTrack(g, limit, img, now, [], [c], 0, buffer, 0)
      else !StaysInside(g, limit, img, [], buffer) && Fits(g, now) && Astray(g, limit, now, Utmost(Fat(g, img), limit, []), c)
  {
    hide Entry, SetEntry, Formatted, OnTrack, StaysInside, Room, Astray;
    StartTrack(g, limit, img, [], buffer);
    if 2 <= c < limit {
      TakeCluster(g, limit, img, img, [], [], 0, buffer, 0, c);
      assert [] + [c] == [c];
    } else {
      UsedUp(g, limit, img, img, [], [], buffer, 0, c);
      if c != 0 {
        LimitInFat(g, limit, img);
        GoesAstray(g, limit, img, [], c);
      }
    }
  }

  lemma LimitInFat(g: Geometry, limit: nat, img: Image)
    requires Formatted(g, limit, img)
    ensures Fits(g, img) && 2 <= limit <= g.Entries()
  {
  }

  lemma ClustersInside(g: Geometry, limit: nat, img0: Image, img: Image, ch: seq<nat>, cur: seq<nat>, q: nat, buffer: seq<byte>, w: nat)
    requires Formatted(g, limit, img0) && OnTrack(g, limit, img0, img, ch, cur, q, buffer, w)
    ensures Formatted(g, limit, img) && q <= |cur| && w <= |buffer| && (w < |buffer| ==> w == 512 * (g.sectorsPerCluster * q))
    ensures cur != [] ==> IsChain(Fat(g, img), limit, cur)
    ensures forall i :: 0 <= i < |cur| ==> 2 <= cur[i] < limit <= END_MARK
  {
    hide Entry, Mirrored, FreeSet, SameOutside, SameElsewhere, Slots, Data, ChainBytes;
  }

  lemma NextInside(g: Geometry, limit: nat, img0: Image, img: Image, ch: seq<nat>, cur: seq<nat>, q: nat, buffer: seq<byte>, w: nat)
    requires Formatted(g, limit, img0) && OnTrack(g, limit, img0, img, ch, cur, q, buffer, w) && 0 < q <= |cur|
    ensures cur[q - 1] < END_MARK && Fits(g, img)
    ensures if q < |cur| then 0 < Entry(g, img, cur[q - 1]) == cur[q] < END_MARK else Entry(g, img, cur[q - 1]) >= END_MARK
  {
    hide Entry, Formatted, OnTrack, IsChain;
    ClustersInside(g, limit, img0, img, ch, cur, q, buffer, w);
    LimitInFat(g, limit, img);
    LinkInside(g, limit, img0, img, ch, cur, q, buffer, w, q - 1);
  }

  lemma LinkInside(g: Geometry, limit: nat, img0: Image, img: Image, ch: seq<nat>, cur: seq<nat>, q: nat, buffer: seq<byte>, w: nat, i: nat)
    requires Formatted(g, limit, img0) && OnTrack(g, limit, img0, img, ch, cur, q, buffer, w) && i < |cur|
    ensures Fits(g, img) && 2 <= cur[i] < END_MARK
    ensures if i + 1 < |cur| then Entry(g, img, cur[i]) == cur[i + 1] >= 2 && cur[i + 1] < END_MARK else Entry(g, img, cur[i]) >= END_MARK
  {
    hide Entry, Formatted, OnTrack, IsChain;
    ClustersInside(g, limit, img0, img, ch, cur, q, buffer, w);
    LimitInFat(g, limit, img);
    assert 2 <= cur[i] < limit <= END_MARK;
    ChainCluster(Fat(g, img), limit, cur, i);
  }

  /** What taking a cluster behind the last one of the chain comes to. */
  lemma AdvanceInside(g: Geometry, limit: nat, img0: Image, img: Image, ch: seq<nat>, cur: seq<nat>, q: nat, buffer: seq<byte>, w: nat, next: nat)
    requires Formatted(g, limit, img0) && OnTrack(g, limit, img0, img, ch, cur, q, buffer, w) && 0 < q <= |cur| && w < |buffer|
    requires cur[q - 1] < END_MARK && Fits(g, img)
    requires q == |cur| ==> FirstFree(g, img, next)
    ensures q == |cur| ==>
      var now := Taken(g, img, [cur[q - 1]], next);
      if next == 0 then StaysInside(g, limit, img0, ch, buffer) && !Room(Fat(g, img0), limit, g.sectorsPerCluster, ch, |buffer|)
      else if next < limit then OnTrack(g, limit, img0, now, ch, cur + [next], q, buffer, w)
      else !StaysInside(g, limit, img0, ch, buffer) && Fits(g, now) && Astray(g, limit, now, Utmost(Fat(g, img0), limit, ch), cur[0])
  {
    hide Entry, SetEntry, Formatted, OnTrack, StaysInside, Room, Astray, Utmost, IsChain;
    ClustersInside(g, limit, img0, img, ch, cur, q, buffer, w);
    LimitInFat(g, limit, img);
    if q == |cur| {
      if 2 <= next < limit {
        TakeCluster(g, limit, img0, img, ch, cur, q, buffer, w, next);
        assert Taken(g, img, cur, next) == Taken(g, img, [cur[q - 1]], next);
      } else {
        UsedUp(g, limit, img0, img, ch, cur, buffer, w, next);
        if next != 0 {
          GoesAstray(g, limit, img, cur, next);
          assert Taken(g, img, cur, next) == Taken(g, img, [cur[q - 1]], next);
        }
      }
    }
  }

  /** The whole buffer has been stored, so there was room. */
  lemma AllStored(g: Geometry, limit: nat, img0: Image, img: Image, ch: seq<nat>, cur: seq<nat>, q: nat, buffer: seq<byte>, w: nat)
    requires Formatted(g, limit, img0) && OnTrack(g, limit, img0, img, ch, cur, q, buffer, w) && cur != []
    ensures w == |buffer| ==> Room(Fat(g, img0), limit, g.sectorsPerCluster, ch, |buffer|) && StaysInside(g, limit, img0, ch, buffer)
    ensures Formatted(g, limit, img) && Slots(g, img) == Slots(g, img0) && Grown(Fat(g, img0), Fat(g, img), limit, ch, cur)
    ensures SameOutside(Data(g, img0), Data(g, img), g.sectorsPerCluster, cur)
    ensures Stored(Data(g, img), g.sectorsPerCluster, limit, cur, buffer, w)
  {
    hide Entry, Mirrored, FreeSet, SameOutside, SameElsewhere, Slots, Data, ChainBytes, Room, LooksFree;
    StoredAll(Data(g, img), g.sectorsPerCluster, limit, cur, q, buffer, w);
    if w == |buffer| {
      RoomWasThere(Fat(g, img0), Fat(g, img), limit, g.sectorsPerCluster, ch, cur, q, w);
    }
  }

  /** Writing sectors of the data area alone. */
  lemma DataWritten(g: Geometry, limit: nat, img: Image, img': Image)
    requires Formatted(g, limit, img) && OnlyData(g, img, img')
    ensures Formatted(g, limit, img') && Fat(g, img') == Fat(g, img) && Slots(g, img') == Slots(g, img) && SameElsewhere(g, img, img')
  {
    hide Get16, SlotIn, SectorIndex;
    assert forall k :: 0 <= k < g.DataStart() ==> img'[k] == img'[..g.DataStart()][k] == img[..g.DataStart()][k];
    assert Fits(g, img');
    var a, b, c, d := g.reserved, g.reserved + g.sectorsPerFat, g.reserved + 2 * g.sectorsPerFat, g.DataStart();
    if g.fats > 1 {
      assert img'[b..c] == img'[..d][b..c] == img[..d][b..c] == img[b..c];
      assert img'[a..b] == img'[..d][a..b] == img[..d][a..b] == img[a..b];
    }
    assert Roomy(Data(g, img'), g.sectorsPerCluster, limit);
  }

  /** A full volume with one FAT of one sector, and an empty root directory. */
  function FullVolume(): Image {
    seq(300, k requires 0 <= k < 300 => if k == 1 then seq(512, _ => 255) else seq(512, _ => 0))
  }

  const SMALL := Geometry(1, 1, 1, 16, 1)

  /** On it the scan takes the first entry of the root directory for a free cluster, and marks it. */
  lemma FullVolumeExample()
    ensures Formatted(SMALL, 256, FullVolume()) && FreeSet(Fat(SMALL, FullVolume()), 256) == {}
    ensures FirstFree(SMALL, FullVolume(), 256)
    ensures var img := SetEntry(SMALL, FullVolume(), 256, LAST);
      Fits(SMALL, img) && Slots(SMALL, FullVolume())[0][0] == 0 && Slots(SMALL, img)[0][0] == 255
  {
    var img := FullVolume();
    FullParts();
    hide FullVolume, SetEntry, Entry, Fits, Formatted, FreeSet, FirstFree, Slots, SlotAt;
    FullFormatted(img);
    FullScanned(img);
    RootMarked(img);
  }

  /** A FAT in use throughout, and nothing else on the disk. */
  predicate IsFull(img: Image) {
    && |img| == 300 && (forall i :: 0 <= i < 512 ==> img[1][i] == 255)
    && forall k, i :: 0 <= k < 300 && k != 1 && 0 <= i < 512 ==> img[k][i] == 0
  }

  lemma FullParts()
    ensures IsFull(FullVolume())
  {
  }

  lemma FullFormatted(img: Image)
    requires IsFull(img)
    ensures Formatted(SMALL, 256, img)
  {
    forall c, i | 2 <= c < 256 && 0 <= i < 1 ensures SectorIndex(1, c, i) == c - 2 {
    }
  }

  lemma FullScanned(img: Image)
    requires IsFull(img) && Fits(SMALL, img)
    ensures FreeSet(Fat(SMALL, img), 256) == {} && FirstFree(SMALL, img, 256)
  {
    hide Get16, Fits;
    forall c | 0 <= c < 256 ensures Entry(SMALL, img, c) == LAST {
      Word(img[1], c);
    }
    Word(img[2], 256);
  }

  lemma RootMarked(img: Image)
    requires IsFull(img) && Fits(SMALL, img)
    ensures var now := SetEntry(SMALL, img, 256, LAST);
      Fits(SMALL, now) && Slots(SMALL, img)[0][0] == 0 && Slots(SMALL, now)[0][0] == 255
  {
    hide PutEntry;
    var now := SetEntry(SMALL, img, 256, LAST);
    PutWord(img[2], 256);
    assert SlotAt(SMALL, img, 0)[0] == img[2][0] && SlotAt(SMALL, now, 0)[0] == now[2][0];
  }

  lemma Word(s: Sector, c: nat)
    ensures (forall i :: 0 <= i < 512 ==> s[i] == 255) ==> Get16(s[2 * (c % 256)], s[2 * (c % 256) + 1]) == LAST
    ensures (forall i :: 0 <= i < 512 ==> s[i] == 0) ==> Get16(s[2 * (c % 256)], s[2 * (c % 256) + 1]) == 0
  {
  }

  lemma PutWord(s: Sector, c: nat)
    requires c % 256 == 0
    ensures PutEntry(s, c, LAST)[0] == 255
  {
  }
}
