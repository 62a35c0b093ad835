/** Cluster chains in a FAT, the bytes stored along a chain, and the bookkeeping of a whole volume. */
module Fat16Chains {
  import opened Octets
  import opened Bits
  import opened Fat16Image

  const END_MARK := 0xFFF0
  const LAST := 0xFFFF

  ghost predicate Distinct(s: seq<nat>) {
    forall i, j :: 0 <= i < j < |s| ==> s[i] != s[j]
  }

  /** Clusters below `limit`, each entry naming the next, the last one an end mark; no cluster comes twice. */
  ghost predicate IsChain(fat: seq<nat>, limit: nat, ch: seq<nat>) {
    && ch != [] && Distinct(ch)
    && (forall i :: 0 <= i < |ch| ==> 2 <= ch[i] < limit <= |fat|)
    && (forall i :: 0 <= i < |ch| - 1 ==> fat[ch[i]] == ch[i + 1])
    && fat[ch[|ch| - 1]] >= END_MARK
  }

  ghost function FreeSet(fat: seq<nat>, limit: nat): set<nat>
    requires limit <= |fat|
  {
    set c | 2 <= c < limit && fat[c] == 0
  }

  /** The free clusters from a on, in the order in which the scan takes them. */
  ghost function FreeList(fat: seq<nat>, limit: nat, a: nat): seq<nat>
    requires limit <= |fat|
    decreases limit - a
  {
    if a >= limit then [] else (if fat[a] == 0 then [a] else []) + FreeList(fat, limit, a + 1)
  }

  lemma {:induction false} FreeListFrame(fat: seq<nat>, fat': seq<nat>, limit: nat, a: nat)
    requires limit <= |fat| == |fat'| && forall d :: a <= d < limit ==> (fat'[d] == 0 <==> fat[d] == 0)
    ensures FreeList(fat', limit, a) == FreeList(fat, limit, a)
    decreases limit - a
  {
    if a < limit {
      FreeListFrame(fat, fat', limit, a + 1);
      var here := if fat[a] == 0 then [a] else [];
      assert FreeList(fat, limit, a) == here + FreeList(fat, limit, a + 1);
      assert FreeList(fat', limit, a) == here + FreeList(fat', limit, a + 1);
    }
  }

  /** Taking the first free cluster takes the head of the list. */
  lemma {:induction false} FreeListHead(fat: seq<nat>, limit: nat, a: nat, c: nat, v: nat)
    requires a <= c < limit <= |fat| && fat[c] == 0 && v != 0 && forall d :: a <= d < c ==> fat[d] != 0
    ensures FreeList(fat, limit, a) == [c] + FreeList(fat[c := v], limit, a)
    decreases c - a
  {
    if a < c {
      FreeListHead(fat, limit, a + 1, c, v);
    } else {
      FreeListFrame(fat, fat[c := v], limit, a + 1);
    }
  }

  lemma {:induction false} FreeListEmpty(fat: seq<nat>, limit: nat, a: nat)
    requires 2 <= a && limit <= |fat| && FreeSet(fat, limit) == {}
    ensures FreeList(fat, limit, a) == []
    decreases limit - a
  {
    if a < limit {
      assert a !in FreeSet(fat, limit);
      FreeListEmpty(fat, limit, a + 1);
    }
  }

  /** The fat with a free cluster marked and linked behind the end of a chain, if there is one. */
  function Linked(fat: seq<nat>, ch: seq<nat>, c: nat): seq<nat>
    requires c < |fat| && (ch != [] ==> ch[|ch| - 1] < |fat|)
  {
    if ch == [] then fat[c := LAST] else fat[c := LAST][ch[|ch| - 1] := c]
  }

  lemma ExtendChain(fat: seq<nat>, limit: nat, ch: seq<nat>, c: nat)
    requires (ch == [] || IsChain(fat, limit, ch)) && 2 <= c < limit <= |fat| && limit <= END_MARK && fat[c] == 0
    ensures c !in ch && IsChain(Linked(fat, ch, c), limit, ch + [c])
    ensures FreeSet(Linked(fat, ch, c), limit) == FreeSet(fat, limit) - {c}
  {
    assert c !in ch by {
      forall i | 0 <= i < |ch| ensures ch[i] != c {
        assert i < |ch| - 1 ==> fat[ch[i]] == ch[i + 1] >= 2;
      }
    }
  }

  /** Changing entries outside a chain leaves it a chain. */
  lemma ChainFrame(fat: seq<nat>, fat': seq<nat>, limit: nat, ch: seq<nat>)
    requires IsChain(fat, limit, ch) && |fat'| == |fat|
    requires forall c :: c in ch ==> fat'[c] == fat[c]
    ensures IsChain(fat', limit, ch)
  {
  }

  // ----- Bytes along a chain -----

  /** The index in the data area of the i-th sector of a cluster. */
  function SectorIndex(spc: nat, c: nat, i: nat): nat
    requires c >= 2
  {
    (c - 2) * spc + i
  }

  lemma SectorsApart(spc: nat, c: nat, i: nat, d: nat, j: nat)
    requires c >= 2 && d >= 2 && i < spc && j < spc
    ensures SectorIndex(spc, c, i) == SectorIndex(spc, d, j) <==> c == d && i == j
  {
    if c < d {
      MulStep(spc, c - 2, d - 2);
    } else if d < c {
      MulStep(spc, d - 2, c - 2);
    }
    assert spc * (c - 2) == (c - 2) * spc && spc * (d - 2) == (d - 2) * spc;
  }

  /** The data area holds every cluster below the limit. */
  ghost predicate Roomy(data: seq<Sector>, spc: nat, limit: nat) {
    spc >= 1 && forall c, i :: 2 <= c < limit && 0 <= i < spc ==> SectorIndex(spc, c, i) < |data|
  }

  function ClusterBytes(data: seq<Sector>, spc: nat, c: nat, n: nat): (b: seq<byte>)
    requires c >= 2 && forall i :: 0 <= i < n ==> SectorIndex(spc, c, i) < |data|
    ensures |b| == 512 * n
  {
    if n == 0 then [] else ClusterBytes(data, spc, c, n - 1) + data[SectorIndex(spc, c, n - 1)]
  }

  function ChainBytes(data: seq<Sector>, spc: nat, limit: nat, ch: seq<nat>): (b: seq<byte>)
    requires Roomy(data, spc, limit) && forall i :: 0 <= i < |ch| ==> 2 <= ch[i] < limit
    ensures |b| == 512 * (spc * |ch|)
  {
    if ch == [] then []
    else
      assert spc * |ch| == spc * (|ch| - 1) + spc;
      ChainBytes(data, spc, limit, ch[..|ch| - 1]) + ClusterBytes(data, spc, ch[|ch| - 1], spc)
  }

  /** The bytes an entry of the given size stands for: those on its chain, as far as they reach. */
  ghost function Content(data: seq<Sector>, spc: nat, limit: nat, size: nat, ch: seq<nat>): seq<byte> {
    if Roomy(data, spc, limit) && forall i :: 0 <= i < |ch| ==> 2 <= ch[i] < limit then
      var bytes := ChainBytes(data, spc, limit, ch);
      if size < |bytes| then bytes[..size] else bytes
    else []
  }

  /** The first n sectors of a cluster are the same in both. */
  ghost predicate SameSectors(data: seq<Sector>, data': seq<Sector>, spc: nat, c: nat, n: nat)
    requires c >= 2 && |data| == |data'|
  {
    forall i :: 0 <= i < n && SectorIndex(spc, c, i) < |data| ==> data'[SectorIndex(spc, c, i)] == data[SectorIndex(spc, c, i)]
  }

  lemma {:induction false} ClusterBytesFrame(data: seq<Sector>, data': seq<Sector>, spc: nat, c: nat, n: nat)
    requires c >= 2 && |data| == |data'| && SameSectors(data, data', spc, c, n)
    requires forall i :: 0 <= i < n ==> SectorIndex(spc, c, i) < |data|
    ensures ClusterBytes(data', spc, c, n) == ClusterBytes(data, spc, c, n)
    decreases n
  {
    hide SectorIndex;
    if n > 0 {
      ClusterBytesFrame(data, data', spc, c, n - 1);
    }
  }

  lemma {:induction false} ChainBytesFrame(data: seq<Sector>, data': seq<Sector>, spc: nat, limit: nat, ch: seq<nat>)
    requires |data| == |data'| && Roomy(data, spc, limit) && forall i :: 0 <= i < |ch| ==> 2 <= ch[i] < limit
    requires forall c :: c in ch ==> c >= 2 && SameSectors(data, data', spc, c, spc)
    ensures Roomy(data', spc, limit) && ChainBytes(data', spc, limit, ch) == ChainBytes(data, spc, limit, ch)
    decreases ch
  {
    hide SectorIndex, SameSectors;
    if ch != [] {
      ChainBytesFrame(data, data', spc, limit, ch[..|ch| - 1]);
      assert ch[|ch| - 1] in ch;
      ClusterBytesFrame(data, data', spc, ch[|ch| - 1], spc);
    }
  }

  lemma {:induction false} ClusterBytesPrefix(data: seq<Sector>, spc: nat, c: nat, m: nat, n: nat)
    requires c >= 2 && m <= n && forall i :: 0 <= i < n ==> SectorIndex(spc, c, i) < |data|
    ensures ClusterBytes(data, spc, c, n)[..512 * m] == ClusterBytes(data, spc, c, m)
    decreases n
  {
    if m < n {
      ClusterBytesPrefix(data, spc, c, m, n - 1);
    }
  }

  lemma {:induction false} ChainBytesPrefix(data: seq<Sector>, spc: nat, limit: nat, ch: seq<nat>, n: nat)
    requires Roomy(data, spc, limit) && (forall i :: 0 <= i < |ch| ==> 2 <= ch[i] < limit) && n <= |ch|
    ensures spc * n <= spc * |ch| && ChainBytes(data, spc, limit, ch)[..512 * (spc * n)] == ChainBytes(data, spc, limit, ch[..n])
    decreases |ch| - n
  {
    if n < |ch| {
      ChainBytesPrefix(data, spc, limit, ch, n + 1);
      assert ch[..n + 1][..n] == ch[..n];
      assert spc * (n + 1) == spc * n + spc;
    } else {
      assert ch[..n] == ch;
    }
  }

  /** Writing one sector of a cluster leaves the others of that cluster and all other clusters as they were. */
  lemma WriteSectorFrame(data: seq<Sector>, spc: nat, c: nat, i: nat, s: Sector)
    requires c >= 2 && i < spc && SectorIndex(spc, c, i) < |data|
    ensures var data' := data[SectorIndex(spc, c, i) := s];
      && SameSectors(data, data', spc, c, i)
      && forall d :: d >= 2 && d != c ==> SameSectors(data, data', spc, d, spc)
  {
    var data' := data[SectorIndex(spc, c, i) := s];
    forall j | 0 <= j < i ensures SectorIndex(spc, c, j) != SectorIndex(spc, c, i) {
      SectorsApart(spc, c, i, c, j);
    }
    forall d | d >= 2 && d != c ensures SameSectors(data, data', spc, d, spc) {
      forall j | 0 <= j < spc ensures SectorIndex(spc, d, j) != SectorIndex(spc, c, i) {
        SectorsApart(spc, c, i, d, j);
      }
    }
  }
}
