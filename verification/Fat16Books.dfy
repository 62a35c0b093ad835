/** The bookkeeping of a volume: which clusters belong to which root-directory entry. */
module Fat16Books {
  import opened Fat16Image
  import opened Fat16Names
  import opened Fat16Chains

  type Chains = map<nat, seq<nat>>

  /** The chain an entry's first cluster leads to: none when it is zero. */
  ghost predicate ChainOf(fat: seq<nat>, limit: nat, s: Slot, ch: seq<nat>) {
    if ch == [] then ClusterOf(s) == 0 else IsChain(fat, limit, ch) && ClusterOf(s) == ch[0]
  }

  ghost predicate Owned(chains: Chains, c: nat) {
    exists k :: k in chains && c in chains[k]
  }

  ghost predicate Entries(slots: seq<Slot>, chains: Chains) {
    forall k :: k in chains <==> 0 <= k < |slots| && Live(slots[k])
  }

  ghost predicate AllChains(fat: seq<nat>, limit: nat, slots: seq<Slot>, chains: Chains)
    requires Entries(slots, chains)
  {
    forall k :: k in chains ==> ChainOf(fat, limit, slots[k], chains[k])
  }

  ghost predicate ChainsApart(chains: Chains) {
    forall j, k, c :: j in chains && k in chains && c in chains[j] && c in chains[k] ==> j == k
  }

  /** A cluster is free, or on exactly one chain, or lost. */
  ghost predicate Accounted(fat: seq<nat>, limit: nat, chains: Chains, lost: set<nat>) {
    && limit <= |fat|
    && (forall c :: c in lost ==> 2 <= c < limit && !Owned(chains, c))
    && forall c :: 2 <= c < limit ==> (fat[c] == 0 <==> c !in lost && !Owned(chains, c))
  }

  /** Live entries have chains that end, stay below the limit and share no cluster; every other cluster is free or lost. */
  ghost predicate Books(fat: seq<nat>, slots: seq<Slot>, limit: nat, chains: Chains, lost: set<nat>) {
    && Ended(slots)
    && Entries(slots, chains)
    && AllChains(fat, limit, slots, chains)
    && ChainsApart(chains)
    && Accounted(fat, limit, chains, lost)
  }

  /** The entry k's chain grew to `cur` by clusters that were free, and the entry names its first cluster. */
  ghost predicate Grew(fat: seq<nat>, fat': seq<nat>, slots: seq<Slot>, slots': seq<Slot>, limit: nat, chains: Chains, k: nat, cur: seq<nat>) {
    && k in chains && |fat'| == |fat| && limit <= |fat| && IsChain(fat', limit, cur) && chains[k] <= cur
    && (forall i :: |chains[k]| <= i < |cur| ==> 2 <= cur[i] < limit && fat[cur[i]] == 0)
    && (forall c :: 0 <= c < |fat| && c !in cur ==> fat'[c] == fat[c])
    && |slots'| == |slots| && k < |slots| && Live(slots'[k]) && ClusterOf(slots'[k]) == cur[0]
    && (forall j :: 0 <= j < |slots| && j != k ==> slots'[j] == slots[j])
  }

  /** A chain may grow by free clusters as long as the entry is told its first cluster. */
  lemma BooksGrown(fat: seq<nat>, fat': seq<nat>, slots: seq<Slot>, slots': seq<Slot>, limit: nat, chains: Chains, lost: set<nat>, k: nat, cur: seq<nat>)
    requires Books(fat, slots, limit, chains, lost) && Grew(fat, fat', slots, slots', limit, chains, k, cur)
    requires Ended(slots')
    ensures Books(fat', slots', limit, chains[k := cur], lost)
  {
    NewIsUnowned(fat, limit, chains, lost, k, cur);
    EntriesGrown(fat, fat', slots, slots', limit, chains, k, cur);
    ChainsGrown(fat, fat', slots, slots', limit, chains, k, cur);
    AccountedGrown(fat, fat', slots, slots', limit, chains, lost, k, cur);
    hide IsChain, ChainOf, Grew, Accounted, AllChains, Entries, Ended;
    assert ChainsApart(chains[k := cur]);
  }

  lemma EntriesGrown(fat: seq<nat>, fat': seq<nat>, slots: seq<Slot>, slots': seq<Slot>, limit: nat, chains: Chains, k: nat, cur: seq<nat>)
    requires Entries(slots, chains) && Grew(fat, fat', slots, slots', limit, chains, k, cur)
    ensures Entries(slots', chains[k := cur])
  {
    hide IsChain, Live;
    forall j ensures j in chains[k := cur] <==> 0 <= j < |slots'| && Live(slots'[j]) {
      assert j in chains <==> 0 <= j < |slots| && Live(slots[j]);
    }
  }

  lemma ChainsGrown(fat: seq<nat>, fat': seq<nat>, slots: seq<Slot>, slots': seq<Slot>, limit: nat, chains: Chains, k: nat, cur: seq<nat>)
    requires Entries(slots, chains) && AllChains(fat, limit, slots, chains) && Grew(fat, fat', slots, slots', limit, chains, k, cur)
    requires forall j, c :: j in chains && j != k && c in chains[j] ==> c !in cur
    requires Entries(slots', chains[k := cur])
    ensures AllChains(fat', limit, slots', chains[k := cur])
  {
    hide Live;
    forall j | j in chains[k := cur] ensures ChainOf(fat', limit, slots'[j], chains[k := cur][j]) {
      if j != k {
        assert j in chains && ChainOf(fat, limit, slots[j], chains[j]);
        ChainKept(fat, fat', limit, slots[j], chains[j], cur);
      }
    }
  }

  lemma ChainKept(fat: seq<nat>, fat': seq<nat>, limit: nat, s: Slot, ch: seq<nat>, cur: seq<nat>)
    requires ChainOf(fat, limit, s, ch) && |fat'| == |fat|
    requires forall c :: 0 <= c < |fat| && c !in cur ==> fat'[c] == fat[c]
    requires forall c :: c in ch ==> c !in cur
    ensures ChainOf(fat', limit, s, ch)
  {
    if ch != [] {
      ChainFrame(fat, fat', limit, ch);
    }
  }

  lemma AccountedGrown(fat: seq<nat>, fat': seq<nat>, slots: seq<Slot>, slots': seq<Slot>, limit: nat, chains: Chains, lost: set<nat>, k: nat, cur: seq<nat>)
    requires Accounted(fat, limit, chains, lost) && Grew(fat, fat', slots, slots', limit, chains, k, cur)
    requires forall c :: c in lost ==> c !in cur
    ensures Accounted(fat', limit, chains[k := cur], lost)
  {
    hide IsChain, Live, Owned;
    forall c ensures Owned(chains[k := cur], c) <==> Owned(chains, c) || c in cur {
      OwnedGrown(chains, k, cur, c);
    }
    forall c | c in cur ensures 2 <= c < limit && fat'[c] != 0 {
      ChainNotFree(fat', limit, cur, c);
    }
  }

  lemma ChainNotFree(fat: seq<nat>, limit: nat, ch: seq<nat>, c: nat)
    requires IsChain(fat, limit, ch) && c in ch
    ensures 2 <= c < limit && fat[c] != 0
  {
    var i :| 0 <= i < |ch| && ch[i] == c;
    assert i < |ch| - 1 ==> fat[ch[i]] == ch[i + 1];
  }

  /** The clusters of the grown chain are on no other chain and not lost. */
  lemma NewIsUnowned(fat: seq<nat>, limit: nat, chains: Chains, lost: set<nat>, k: nat, cur: seq<nat>)
    requires ChainsApart(chains) && Accounted(fat, limit, chains, lost) && k in chains && chains[k] <= cur
    requires forall i :: |chains[k]| <= i < |cur| ==> 2 <= cur[i] < limit && fat[cur[i]] == 0
    ensures forall j, c :: j in chains && j != k && c in chains[j] ==> c !in cur
    ensures forall c :: c in lost ==> c !in cur
  {
    forall i | 0 <= i < |cur| ensures (forall j :: j in chains && j != k ==> cur[i] !in chains[j]) && cur[i] !in lost {
      if i < |chains[k]| {
        assert cur[i] == chains[k][i] && cur[i] in chains[k];
        assert Owned(chains, cur[i]);
      } else {
        assert !Owned(chains, cur[i]);
      }
    }
  }

  lemma OwnedGrown(chains: Chains, k: nat, cur: seq<nat>, c: nat)
    requires k in chains && chains[k] <= cur
    ensures Owned(chains[k := cur], c) <==> Owned(chains, c) || c in cur
  {
    var chains' := chains[k := cur];
    if c in cur {
      assert k in chains' && c in chains'[k];
    }
    if Owned(chains, c) {
      var j :| j in chains && c in chains[j];
      assert j in chains' && c in chains'[j];
    }
    if Owned(chains', c) && c !in cur {
      var j :| j in chains' && c in chains'[j];
      assert j in chains && c in chains[j];
    }
  }

  /** An entry that appears without clusters, or an entry that becomes unusable. */
  lemma BooksAdded(fat: seq<nat>, slots: seq<Slot>, limit: nat, chains: Chains, lost: set<nat>, k: nat, s: Slot)
    requires Books(fat, slots, limit, chains, lost) && k < |slots| && k !in chains
    requires ClusterOf(s) == 0 && Ended(slots[k := s])
    ensures Books(fat, slots[k := s], limit, if Live(s) then chains[k := []] else chains, lost)
  {
    var chains' := if Live(s) then chains[k := []] else chains;
    forall c ensures Owned(chains', c) <==> Owned(chains, c) {
      if Owned(chains, c) {
        var j :| j in chains && c in chains[j];
        assert j in chains' && c in chains'[j];
      }
    }
  }

  /** A cluster taken for an entry that is then not told about it. */
  lemma BooksLost(fat: seq<nat>, slots: seq<Slot>, limit: nat, chains: Chains, lost: set<nat>, c: nat, v: nat)
    requires Books(fat, slots, limit, chains, lost) && 2 <= c < limit && fat[c] == 0 && v != 0
    ensures c !in lost
    ensures Books(fat[c := v], slots, limit, chains, lost + {c})
  {
    assert !Owned(chains, c);
    forall k | k in chains ensures ChainOf(fat[c := v], limit, slots[k], chains[k]) {
      assert ChainOf(fat, limit, slots[k], chains[k]);
      if chains[k] != [] {
        assert c !in chains[k];
        ChainFrame(fat, fat[c := v], limit, chains[k]);
      }
    }
  }

  /** The fat with the first i clusters of a chain freed. */
  ghost predicate Freed(fat: seq<nat>, fat': seq<nat>, ch: seq<nat>, i: nat)
    requires i <= |ch|
  {
    |fat'| == |fat| && forall c :: 0 <= c < |fat| ==> fat'[c] == if c in ch[..i] then 0 else fat[c]
  }

  /** Deleting an entry frees exactly the clusters of its chain. */
  lemma BooksRemoved(fat: seq<nat>, fat': seq<nat>, slots: seq<Slot>, limit: nat, chains: Chains, lost: set<nat>, k: nat, s: Slot)
    requires Books(fat, slots, limit, chains, lost) && k in chains
    requires Freed(fat, fat', chains[k], |chains[k]|) && s[0] == DELETED
    ensures Books(fat', slots[k := s], limit, chains - {k}, lost)
    ensures FreeSet(fat', limit) == FreeSet(fat, limit) + (set c | c in chains[k])
  {
    var ch, chains' := chains[k], chains - {k};
    assert ch[..|ch|] == ch;
    forall c | c in ch ensures 2 <= c < limit && fat[c] != 0 && c !in lost {
      assert ChainOf(fat, limit, slots[k], ch);
      ChainNotFree(fat, limit, ch, c);
      assert Owned(chains, c);
    }
    forall j | j in chains' ensures ChainOf(fat', limit, slots[k := s][j], chains'[j]) {
      assert ChainOf(fat, limit, slots[j], chains[j]);
      if chains[j] != [] {
        ChainFrame(fat, fat', limit, chains[j]);
      }
    }
    hide ChainOf;
    forall c ensures Owned(chains', c) <==> Owned(chains, c) && c !in ch {
      if Owned(chains, c) && c !in ch {
        var j :| j in chains && c in chains[j];
        assert j in chains' && c in chains'[j];
      }
    }
  }

  /** Which clusters are free follows from the chains and the lost clusters alone; an empty chain makes no difference. */
  lemma FreeFollows(fat: seq<nat>, slots: seq<Slot>, chains: Chains, fat': seq<nat>, slots': seq<Slot>, chains': Chains, limit: nat, lost: set<nat>, k: nat)
    requires Books(fat, slots, limit, chains, lost) && Books(fat', slots', limit, chains', lost)
    requires k in chains && chains[k] == [] && chains' == chains - {k}
    ensures FreeSet(fat', limit) == FreeSet(fat, limit)
  {
    hide AllChains, ChainsApart, Entries, Ended;
    forall c ensures Owned(chains', c) <==> Owned(chains, c) {
      if Owned(chains, c) {
        var j :| j in chains && c in chains[j];
        assert j in chains' && c in chains'[j];
      }
    }
  }
}
