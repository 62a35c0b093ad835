/** Writing a buffer along a chain that grows by free clusters: what is stored where, and what stays as it was. */
module Fat16Growth {
  import opened Octets
  import opened Bits
  import opened Fat16Image
  import opened Fat16Chains

  // ----- Where a sector lies among the bytes of a chain -----

  lemma ClusterBytesNext(data: seq<Sector>, spc: nat, c: nat, i: nat)
    requires c >= 2 && forall j :: 0 <= j < i + 1 ==> SectorIndex(spc, c, j) < |data|
    ensures ClusterBytes(data, spc, c, i + 1) == ClusterBytes(data, spc, c, i) + data[SectorIndex(spc, c, i)]
  {
  }

  lemma SliceOfSlice(s: seq<byte>, a: nat, b: nat, c: nat, d: nat)
    requires a <= b <= |s| && c <= d <= b - a
    ensures s[a..b][c..d] == s[a + c..a + d]
  {
    var x, y := s[a..b][c..d], s[a + c..a + d];
    assert |x| == |y|;
    forall i | 0 <= i < |x| ensures x[i] == y[i] {
      assert x[i] == s[a..b][c + i];
    }
  }

  /** Where a sector's bytes are among those of its cluster. */
  lemma ClusterSector(data: seq<Sector>, spc: nat, c: nat, i: nat)
    requires c >= 2 && i < spc && forall j :: 0 <= j < spc ==> SectorIndex(spc, c, j) < |data|
    ensures ClusterBytes(data, spc, c, spc)[512 * i..512 * i + 512] == data[SectorIndex(spc, c, i)]
  {
    hide SectorIndex;
    ClusterBytesPrefix(data, spc, c, i + 1, spc);
    var all := ClusterBytes(data, spc, c, spc);
    var n := 512 * i;
    assert 512 * (i + 1) == n + 512;
    SliceOfSlice(all, 0, n + 512, n, n + 512);
    ClusterBytesNext(data, spc, c, i);
  }

  lemma ChainSplit(data: seq<Sector>, spc: nat, limit: nat, ch: seq<nat>, q: nat)
    requires Roomy(data, spc, limit) && (forall j :: 0 <= j < |ch| ==> 2 <= ch[j] < limit) && q < |ch|
    ensures forall j :: 0 <= j < spc ==> SectorIndex(spc, ch[q], j) < |data|
    ensures |ChainBytes(data, spc, limit, ch)| >= 512 * (spc * q) + 512 * spc
    ensures ChainBytes(data, spc, limit, ch)[512 * (spc * q)..512 * (spc * q) + 512 * spc] == ClusterBytes(data, spc, ch[q], spc)
  {
    hide SectorIndex, ClusterBytes;
    ClusterInData(data, spc, limit, ch[q]);
    ChainBytesPrefix(data, spc, limit, ch, q + 1);
    assert ch[..q + 1][..q] == ch[..q] && ch[..q + 1][q] == ch[q];
    var all, n := ChainBytes(data, spc, limit, ch), 512 * (spc * q);
    assert spc * (q + 1) == spc * q + spc;
    assert all[..n + 512 * spc][n..] == ClusterBytes(data, spc, ch[q], spc);
  }

  /** Where a sector's bytes are among those of a chain. */
  lemma ChainSector(data: seq<Sector>, spc: nat, limit: nat, ch: seq<nat>, q: nat, i: nat)
    requires Roomy(data, spc, limit) && (forall j :: 0 <= j < |ch| ==> 2 <= ch[j] < limit) && q < |ch| && i < spc
    ensures SectorIndex(spc, ch[q], i) < |data|
    ensures var n := 512 * (spc * q) + 512 * i;
      n + 512 <= |ChainBytes(data, spc, limit, ch)| && ChainBytes(data, spc, limit, ch)[n..n + 512] == data[SectorIndex(spc, ch[q], i)]
  {
    hide SectorIndex, Roomy, ClusterBytes, ChainBytes;
    ChainSplit(data, spc, limit, ch, q);
    ClusterSector(data, spc, ch[q], i);
    var all, m := ChainBytes(data, spc, limit, ch), 512 * (spc * q);
    assert 512 * i + 512 <= 512 * spc;
    SliceOfSlice(all, m, m + 512 * spc, 512 * i, 512 * i + 512);
  }

  lemma ClusterInData(data: seq<Sector>, spc: nat, limit: nat, c: nat)
    requires Roomy(data, spc, limit) && 2 <= c < limit
    ensures forall j :: 0 <= j < spc ==> SectorIndex(spc, c, j) < |data|
  {
  }

  // ----- Filling one cluster -----

  /** The first i sectors of a cluster hold the buffer from byte w0 to w; only the buffer's end may leave a sector partly filled. */
  ghost predicate Copied(data: seq<Sector>, spc: nat, c: nat, i: nat, buffer: seq<byte>, w0: nat, w: nat) {
    && c >= 2 && (forall j :: 0 <= j < spc ==> SectorIndex(spc, c, j) < |data|) && i <= spc
    && w0 <= |buffer| && w == (if |buffer| - w0 < 512 * i then |buffer| else w0 + 512 * i)
    && ClusterBytes(data, spc, c, i)[..w - w0] == buffer[w0..w]
  }

  /** Only sectors of cluster c differ. */
  ghost predicate OnlyCluster(data: seq<Sector>, data': seq<Sector>, spc: nat, c: nat) {
    |data'| == |data| && forall d :: d >= 2 && d != c ==> SameSectors(data, data', spc, d, spc)
  }

  lemma NothingCopied(data: seq<Sector>, spc: nat, limit: nat, c: nat, buffer: seq<byte>, w0: nat)
    requires 2 <= c < limit && w0 <= |buffer| && Roomy(data, spc, limit)
    ensures Copied(data, spc, c, 0, buffer, w0, w0) && OnlyCluster(data, data, spc, c)
  {
  }

  lemma OnlyClusterTwice(d0: seq<Sector>, d1: seq<Sector>, d2: seq<Sector>, spc: nat, c: nat)
    requires OnlyCluster(d0, d1, spc, c) && OnlyCluster(d1, d2, spc, c)
    ensures OnlyCluster(d0, d2, spc, c)
  {
    forall d | d >= 2 && d != c ensures SameSectors(d0, d2, spc, d, spc) {
      assert SameSectors(d0, d1, spc, d, spc) && SameSectors(d1, d2, spc, d, spc);
    }
  }

  lemma CopyMore(first: seq<Sector>, data: seq<Sector>, spc: nat, c: nat, i: nat, buffer: seq<byte>, w0: nat, w: nat, chunk: nat, s: Sector)
    requires Copied(data, spc, c, i, buffer, w0, w) && i < spc && w < |buffer| && OnlyCluster(first, data, spc, c)
    requires chunk == (if |buffer| - w > 512 then 512 else |buffer| - w) && s[..chunk] == buffer[w..w + chunk]
    ensures SectorIndex(spc, c, i) < |data|
    ensures var data' := data[SectorIndex(spc, c, i) := s];
      Copied(data', spc, c, i + 1, buffer, w0, w + chunk) && OnlyCluster(first, data', spc, c)
  {
    hide SectorIndex, ClusterBytes;
    var data' := data[SectorIndex(spc, c, i) := s];
    WriteSectorFrame(data, spc, c, i, s);
    OnlyClusterTwice(first, data, data', spc, c);
    ClusterBytesFrame(data, data', spc, c, i);
    ClusterBytesNext(data', spc, c, i);
    assert buffer[w0..w] + buffer[w..w + chunk] == buffer[w0..w + chunk];
  }

  lemma CopiedAll(data: seq<Sector>, spc: nat, c: nat, i: nat, buffer: seq<byte>, w0: nat, w: nat)
    requires Copied(data, spc, c, i, buffer, w0, w) && (w < |buffer| ==> i == spc)
    ensures Copied(data, spc, c, spc, buffer, w0, w)
  {
    ClusterBytesPrefix(data, spc, c, i, spc);
  }

  // ----- Growing a chain -----

  /** The free clusters and those of the chain together hold n bytes, and there is at least one. */
  ghost predicate Room(fat: seq<nat>, limit: nat, spc: nat, ch: seq<nat>, n: nat)
    requires limit <= |fat|
  {
    |FreeSet(fat, limit)| + |ch| >= 1 && 512 * (spc * (|FreeSet(fat, limit)| + |ch|)) >= n
  }

  /** `cur` continues `ch` with clusters that were free; nothing else in the FAT changed. */
  ghost predicate Grown(fat0: seq<nat>, fat: seq<nat>, limit: nat, ch: seq<nat>, cur: seq<nat>) {
    && |fat| == |fat0| && limit <= |fat|
    && (cur == [] || IsChain(fat, limit, cur))
    && ch <= cur
    && (forall i :: |ch| <= i < |cur| ==> 2 <= cur[i] < limit && fat0[cur[i]] == 0)
    && (forall c :: 0 <= c < |fat| && c !in cur ==> fat[c] == fat0[c])
    && |FreeSet(fat, limit)| + |cur| == |FreeSet(fat0, limit)| + |ch|
  }

  ghost predicate SameOutside(data0: seq<Sector>, data: seq<Sector>, spc: nat, cur: seq<nat>) {
    |data| == |data0| && forall c :: c >= 2 && c !in cur ==> SameSectors(data0, data, spc, c, spc)
  }

  /** The first q clusters of the chain hold the first w bytes of the buffer. */
  ghost predicate StoredIn(data: seq<Sector>, spc: nat, limit: nat, cur: seq<nat>, q: nat, buffer: seq<byte>, w: nat) {
    && Roomy(data, spc, limit) && (forall i :: 0 <= i < |cur| ==> 2 <= cur[i] < limit)
    && q <= |cur| && w <= |buffer| && w <= 512 * (spc * q) && (w < |buffer| ==> w == 512 * (spc * q))
    && ChainBytes(data, spc, limit, cur[..q])[..w] == buffer[..w]
  }

  ghost predicate Stored(data: seq<Sector>, spc: nat, limit: nat, cur: seq<nat>, buffer: seq<byte>, w: nat) {
    && Roomy(data, spc, limit) && (forall i :: 0 <= i < |cur| ==> 2 <= cur[i] < limit)
    && w <= |buffer| && w <= 512 * (spc * |cur|)
    && ChainBytes(data, spc, limit, cur)[..w] == buffer[..w]
  }

  lemma StartGrown(fat: seq<nat>, limit: nat, ch: seq<nat>, data: seq<Sector>, spc: nat)
    requires limit <= |fat| && (ch == [] || IsChain(fat, limit, ch))
    ensures Grown(fat, fat, limit, ch, ch) && SameOutside(data, data, spc, ch)
    ensures ch != [] ==> ch[0] >= 2
  {
  }

  lemma RoomWasThere(fat0: seq<nat>, fat: seq<nat>, limit: nat, spc: nat, ch: seq<nat>, cur: seq<nat>, q: nat, n: nat)
    requires limit <= |fat0| && Grown(fat0, fat, limit, ch, cur) && cur != [] && q <= |cur| && n <= 512 * (spc * q)
    ensures Room(fat0, limit, spc, ch, n)
  {
    hide FreeSet, IsChain;
    var m := |FreeSet(fat0, limit)| + |ch|;
    assert q <= m;
    if q < m {
      MulStep(spc, q, m);
    }
  }

  lemma ChainCluster(fat: seq<nat>, limit: nat, cur: seq<nat>, q: nat)
    requires IsChain(fat, limit, cur) && q < |cur| && limit <= END_MARK
    ensures 2 <= cur[q] < limit <= |fat|
    ensures if q < |cur| - 1 then fat[cur[q]] == cur[q + 1] && 2 <= cur[q + 1] < END_MARK else fat[cur[q]] >= END_MARK
  {
  }

  lemma GrowMore(fat0: seq<nat>, fat: seq<nat>, limit: nat, ch: seq<nat>, cur: seq<nat>, c: nat)
    requires Grown(fat0, fat, limit, ch, cur) && 2 <= c < limit <= END_MARK && fat[c] == 0
    requires cur == [] ==> ch == []
    ensures c !in cur && (cur != [] ==> cur[|cur| - 1] < |fat|)
    ensures Grown(fat0, Linked(fat, cur, c), limit, ch, cur + [c])
  {
    ExtendChain(fat, limit, cur, c);
    assert c in FreeSet(fat, limit);
    hide IsChain, FreeSet;
    var fat', cur' := Linked(fat, cur, c), cur + [c];
    forall d | 0 <= d < |fat| && d !in cur' ensures fat'[d] == fat0[d] {
      assert d !in cur;
      assert cur != [] ==> cur[|cur| - 1] in cur;
      assert c in cur';
    }
    assert fat0[c] == 0;
  }

  lemma OutsideMore(data0: seq<Sector>, data: seq<Sector>, spc: nat, cur: seq<nat>, c: nat)
    requires SameOutside(data0, data, spc, cur)
    ensures SameOutside(data0, data, spc, cur + [c])
  {
    hide SameSectors;
    forall d | d >= 2 && d !in cur + [c] ensures SameSectors(data0, data, spc, d, spc) {
      assert d !in cur;
    }
  }

  lemma StoreMore(data0: seq<Sector>, data: seq<Sector>, data': seq<Sector>, spc: nat, limit: nat, fat: seq<nat>, cur: seq<nat>, q: nat, buffer: seq<byte>, w0: nat, w: nat)
    requires StoredIn(data, spc, limit, cur, q, buffer, w0) && q < |cur| && w0 < |buffer| && IsChain(fat, limit, cur)
    requires Copied(data', spc, cur[q], spc, buffer, w0, w) && OnlyCluster(data, data', spc, cur[q]) && SameOutside(data0, data, spc, cur)
    ensures StoredIn(data', spc, limit, cur, q + 1, buffer, w) && SameOutside(data0, data', spc, cur) && w > w0
  {
    hide SameSectors, SectorIndex, ClusterBytes;
    var c := cur[q];
    forall d | d in cur[..q] ensures d >= 2 && SameSectors(data, data', spc, d, spc) {
    }
    ChainBytesFrame(data, data', spc, limit, cur[..q]);
    assert cur[..q + 1][..q] == cur[..q];
    assert ChainBytes(data', spc, limit, cur[..q + 1]) == ChainBytes(data', spc, limit, cur[..q]) + ClusterBytes(data', spc, c, spc);
    assert spc * (q + 1) == spc * q + spc;
    assert buffer[..w0] + buffer[w0..w] == buffer[..w];
    OutsideAfter(data0, data, data', spc, cur, c);
  }

  lemma OutsideAfter(data0: seq<Sector>, data: seq<Sector>, data': seq<Sector>, spc: nat, cur: seq<nat>, c: nat)
    requires SameOutside(data0, data, spc, cur) && OnlyCluster(data, data', spc, c) && c in cur
    ensures SameOutside(data0, data', spc, cur)
  {
    forall d | d >= 2 && d !in cur ensures SameSectors(data0, data', spc, d, spc) {
      assert SameSectors(data0, data, spc, d, spc) && SameSectors(data, data', spc, d, spc);
    }
  }

  lemma StoredLonger(data: seq<Sector>, spc: nat, limit: nat, cur: seq<nat>, c: nat, q: nat, buffer: seq<byte>, w: nat)
    requires StoredIn(data, spc, limit, cur, q, buffer, w) && 2 <= c < limit
    ensures StoredIn(data, spc, limit, cur + [c], q, buffer, w)
  {
    assert (cur + [c])[..q] == cur[..q];
  }

  lemma StoredAll(data: seq<Sector>, spc: nat, limit: nat, cur: seq<nat>, q: nat, buffer: seq<byte>, w: nat)
    requires StoredIn(data, spc, limit, cur, q, buffer, w)
    ensures Stored(data, spc, limit, cur, buffer, w)
  {
    ChainBytesPrefix(data, spc, limit, cur, q);
  }
}
