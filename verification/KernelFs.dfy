/** The in-memory kernel filesystem: its block bitmap, inodes and directories, files of up to twelve direct blocks, and reads at an offset. */
module KernelFs {
  import opened Octets
  import opened KernelDirs

  const MAX_BLOCKS := 4096
  const MAX_INODES := 4096
  const DIRECT := 12

  datatype Kind = File | Dir

  datatype Node = Node(used: bool, kind: Kind, size: nat, blocks: seq<nat>, parent: nat)

  /** The free blocks among the first n. */
  function FreeTo(bitmap: seq<bool>, n: nat): (r: nat)
    requires n <= |bitmap|
    ensures r <= n
  {
    if n == 0 then 0 else FreeTo(bitmap, n - 1) + (if bitmap[n - 1] then 0 else 1)
  }

  function Free(bitmap: seq<bool>): nat {
    FreeTo(bitmap, |bitmap|)
  }

  lemma {:induction false} FreeSame(a: seq<bool>, b: seq<bool>, n: nat)
    requires n <= |a| && n <= |b| && a[..n] == b[..n]
    ensures FreeTo(a, n) == FreeTo(b, n)
  {
    if n > 0 {
      assert a[..n][..n - 1] == a[..n - 1] && b[..n][..n - 1] == b[..n - 1];
      assert a[n - 1] == a[..n][n - 1] == b[..n][n - 1];
      FreeSame(a, b, n - 1);
    }
  }

  /** Marking a free block leaves one free block less. */
  lemma {:induction false} FreeMarked(a: seq<bool>, i: nat, n: nat)
    requires i < n <= |a| && !a[i]
    ensures FreeTo(a[i := true], n) == FreeTo(a, n) - 1
  {
    if i == n - 1 {
      FreeSame(a, a[i := true], i);
    } else {
      FreeMarked(a, i, n - 1);
    }
  }

  lemma {:induction false} NoneFree(a: seq<bool>, n: nat)
    requires n <= |a|
    ensures FreeTo(a, n) == 0 <==> forall i | 0 <= i < n :: a[i]
  {
    if n > 0 {
      NoneFree(a, n - 1);
    }
  }

  lemma {:induction false} AllFree(a: seq<bool>, n: nat)
    requires n <= |a| && forall i | 0 <= i < n :: !a[i]
    ensures FreeTo(a, n) == n
  {
    if n > 0 {
      AllFree(a, n - 1);
    }
  }

  // Who owns which block.

  /** Blocks of files in use are marked, and no block is named twice. */
  predicate Owned(bitmap: seq<bool>, nodes: seq<Node>) {
    && (forall i, k | 0 <= i < |nodes| && nodes[i].used && 0 <= k < |nodes[i].blocks| ::
      nodes[i].blocks[k] < |bitmap| && bitmap[nodes[i].blocks[k]])
    && (forall i, k, j, l | 0 <= i < |nodes| && nodes[i].used && 0 <= k < |nodes[i].blocks|
        && 0 <= j < |nodes| && nodes[j].used && 0 <= l < |nodes[j].blocks| && (i != j || k != l) ::
      nodes[i].blocks[k] != nodes[j].blocks[l])
  }

  predicate NodeFits(n: Node) {
    |n.blocks| <= DIRECT && n.size <= BLOCK * |n.blocks|
  }

  predicate Books(bitmap: seq<bool>, nodes: seq<Node>, usedBlocks: nat) {
    && |bitmap| == MAX_BLOCKS && usedBlocks == MAX_BLOCKS - Free(bitmap)
    && Owned(bitmap, nodes) && forall i | 0 <= i < |nodes| :: NodeFits(nodes[i])
  }

  /** A file given one more block, which was free. */
  lemma OwnedMore(bitmap: seq<bool>, nodes: seq<Node>, i: nat, b: nat, size: nat)
    requires Owned(bitmap, nodes) && i < |nodes| && b < |bitmap| && !bitmap[b]
    ensures Owned(bitmap[b := true], nodes[i := nodes[i].(blocks := nodes[i].blocks + [b], size := size)])
  {
  }

  lemma OwnedLess(bitmap: seq<bool>, nodes: seq<Node>, i: nat, size: nat)
    requires Owned(bitmap, nodes) && i < |nodes|
    ensures Owned(bitmap, nodes[i := nodes[i].(blocks := [], size := size)])
  {
  }

  /** An inode that was not in use, put to use without blocks. */
  lemma OwnedNew(bitmap: seq<bool>, nodes: seq<Node>, i: nat, n: Node)
    requires Owned(bitmap, nodes) && i < |nodes| && n.blocks == []
    ensures Owned(bitmap, nodes[i := n])
  {
  }

  /** Which inodes are in use. */
  function Flags(nodes: seq<Node>): (r: seq<bool>)
    ensures |r| == |nodes| && forall i | 0 <= i < |r| :: r[i] == nodes[i].used
  {
    seq(|nodes|, i requires 0 <= i < |nodes| => nodes[i].used)
  }

  // The bytes of a file.

  predicate Formatted(disk: seq<seq<byte>>) {
    |disk| == MAX_BLOCKS && forall b | 0 <= b < |disk| :: |disk[b]| == BLOCK
  }

  predicate InDisk(blocks: seq<nat>) {
    forall k | 0 <= k < |blocks| :: blocks[k] < MAX_BLOCKS
  }

  /** All the bytes of some blocks, one after the other. */
  function Raw(disk: seq<seq<byte>>, blocks: seq<nat>): (r: seq<byte>)
    requires Formatted(disk) && InDisk(blocks)
    ensures |r| == BLOCK * |blocks|
  {
    if blocks == [] then [] else Raw(disk, blocks[..|blocks| - 1]) + disk[blocks[|blocks| - 1]]
  }

  function Content(disk: seq<seq<byte>>, n: Node): seq<byte>
    requires Formatted(disk) && InDisk(n.blocks) && NodeFits(n)
  {
    Raw(disk, n.blocks)[..n.size]
  }

  lemma {:induction false} RawSame(d: seq<seq<byte>>, e: seq<seq<byte>>, blocks: seq<nat>)
    requires Formatted(d) && Formatted(e) && InDisk(blocks)
    requires forall k | 0 <= k < |blocks| :: e[blocks[k]] == d[blocks[k]]
    ensures Raw(e, blocks) == Raw(d, blocks)
  {
    if blocks != [] {
      RawSame(d, e, blocks[..|blocks| - 1]);
    }
  }

  lemma {:induction false} RawAt(disk: seq<seq<byte>>, blocks: seq<nat>, k: nat)
    requires Formatted(disk) && InDisk(blocks) && k < |blocks|
    ensures BLOCK * k + BLOCK <= |Raw(disk, blocks)|
    ensures Raw(disk, blocks)[BLOCK * k..BLOCK * k + BLOCK] == disk[blocks[k]]
    decreases |blocks|
  {
    var init := blocks[..|blocks| - 1];
    var raw, part := Raw(disk, blocks), Raw(disk, init);
    if k < |blocks| - 1 {
      RawAt(disk, init, k);
      assert raw[BLOCK * k..BLOCK * k + BLOCK] == part[BLOCK * k..BLOCK * k + BLOCK];
    } else {
      assert raw[BLOCK * k..BLOCK * k + BLOCK] == disk[blocks[k]];
    }
  }

  /** Every other inode in use keeps its bytes. */
  ghost predicate Kept(nodes: seq<Node>, d: seq<seq<byte>>, e: seq<seq<byte>>, but: nat)
    requires Formatted(d) && Formatted(e)
  {
    forall i | 0 <= i < |nodes| && nodes[i].used && i != but :: InDisk(nodes[i].blocks) && Raw(e, nodes[i].blocks) == Raw(d, nodes[i].blocks)
  }

  // Directories.

  /** What a directory shows for a name: an inode, or -1. */
  function LookupIn(disk: seq<seq<byte>>, n: Node, name: seq<byte>): int
    requires Formatted(disk) && InDisk(n.blocks)
  {
    if n.kind != Dir || n.blocks == [] then -1 else LookupFrom(disk[n.blocks[0]], name, 0)
  }

  /** A directory has at most one block, with its entries at the beginning, and its size counts them. */
  ghost predicate DirSound(disk: seq<seq<byte>>, n: Node)
    requires Formatted(disk)
  {
    && |n.blocks| <= 1 && InDisk(n.blocks)
    && if n.blocks == [] then n.size == 0 else Packed(disk[n.blocks[0]]) && n.size == ENTRY * EmptyFrom(disk[n.blocks[0]], 0)
  }

  ghost predicate AllDirsSound(disk: seq<seq<byte>>, nodes: seq<Node>)
    requires Formatted(disk)
  {
    forall i | 0 <= i < |nodes| && nodes[i].used && nodes[i].kind.Dir? :: DirSound(disk, nodes[i])
  }

  /** A directory can take another entry. */
  predicate HasPlace(bitmap: seq<bool>, disk: seq<seq<byte>>, n: Node)
    requires Formatted(disk) && InDisk(n.blocks)
  {
    if n.blocks == [] then Free(bitmap) > 0 else EmptyFrom(disk[n.blocks[0]], 0) < ENTRIES
  }

  /** The same bytes show the same names. */
  lemma LookupKept(d: seq<seq<byte>>, e: seq<seq<byte>>, n: Node)
    requires Formatted(d) && Formatted(e) && InDisk(n.blocks) && Raw(e, n.blocks) == Raw(d, n.blocks)
    ensures n.blocks != [] ==> e[n.blocks[0]] == d[n.blocks[0]]
    ensures forall q :: LookupIn(e, n, q) == LookupIn(d, n, q)
    ensures DirSound(d, n) ==> DirSound(e, n)
  {
    if n.blocks != [] {
      RawAt(d, n.blocks, 0);
      RawAt(e, n.blocks, 0);
    }
  }

  /** A directory shows what it did, and one name more if it had a place for it and did not show that name before. */
  ghost predicate ShowsAlso(d: seq<seq<byte>>, n: Node, e: seq<seq<byte>>, m: Node, place: bool, name: seq<byte>, child: nat)
    requires Formatted(d) && Formatted(e) && InDisk(n.blocks) && InDisk(m.blocks)
  {
    forall q :: LookupIn(e, m, q) == if place && q == name && LookupIn(d, n, q) == -1 then child else LookupIn(d, n, q)
  }

  /** The other directories show what they did. */
  ghost predicate OthersShow(nodes: seq<Node>, d: seq<seq<byte>>, e: seq<seq<byte>>, but: nat)
    requires Formatted(d) && Formatted(e)
  {
    forall i, q | 0 <= i < |nodes| && nodes[i].used && i != but :: InDisk(nodes[i].blocks) && LookupIn(e, nodes[i], q) == LookupIn(d, nodes[i], q)
  }

  lemma KeptShows(nodes: seq<Node>, d: seq<seq<byte>>, e: seq<seq<byte>>, but: nat)
    requires Formatted(d) && Formatted(e) && Kept(nodes, d, e, but)
    ensures OthersShow(nodes, d, e, but)
  {
    hide Raw, LookupIn;
    forall i, q | 0 <= i < |nodes| && nodes[i].used && i != but ensures InDisk(nodes[i].blocks) && LookupIn(e, nodes[i], q) == LookupIn(d, nodes[i], q) {
      LookupKept(d, e, nodes[i]);
    }
  }

  lemma KeptFewer(nodes: seq<Node>, more: seq<Node>, d: seq<seq<byte>>, e: seq<seq<byte>>, but: nat, id: nat)
    requires Formatted(d) && Formatted(e) && Kept(more, d, e, but)
    requires id < |nodes| == |more| && !nodes[id].used && forall i | 0 <= i < |nodes| && i != id :: more[i] == nodes[i]
    ensures Kept(nodes, d, e, but)
  {
    hide Raw;
  }

  /** A new directory without a block is sound. */
  lemma DirsMore(d: seq<seq<byte>>, nodes: seq<Node>, id: nat, n: Node)
    requires Formatted(d) && AllDirsSound(d, nodes) && id < |nodes| && n.blocks == [] && n.size == 0
    ensures AllDirsSound(d, nodes[id := n])
  {
    hide Packed, EmptyFrom;
  }

  lemma DirAt(d: seq<seq<byte>>, nodes: seq<Node>, i: nat)
    requires Formatted(d) && AllDirsSound(d, nodes) && i < |nodes| && nodes[i].used && nodes[i].kind.Dir?
    ensures DirSound(d, nodes[i])
  {
  }

  lemma EmptyStep(b: seq<byte>, i: nat)
    requires |b| == BLOCK && i <= ENTRIES
    ensures EmptyFrom(b, i) == if i == ENTRIES || Ino(b, i) == 0 then i else EmptyFrom(b, i + 1)
  {
  }

  lemma NothingThere(b: seq<byte>)
    requires |b| == BLOCK && Packed(b) && EmptyFrom(b, 0) == 0
    ensures forall q :: LookupFrom(b, q, 0) == -1
  {
    hide Packed;
    forall q ensures LookupFrom(b, q, 0) == -1 {
      NothingBehind(b, q, 1);
    }
  }

  lemma KeptSelf(bitmap: seq<bool>, d: seq<seq<byte>>, nodes: seq<Node>, but: nat)
    requires Formatted(d) && |bitmap| == MAX_BLOCKS && Owned(bitmap, nodes)
    requires AllDirsSound(d, nodes) && but < |nodes| && nodes[but].used && nodes[but].kind.Dir?
    ensures Kept(nodes, d, d, but) && InDisk(nodes[but].blocks) && |nodes[but].blocks| <= 1 && ShowsAlso(d, nodes[but], d, nodes[but], false, [], 0)
    ensures nodes[but].blocks == [] ==> (HasPlace(bitmap, d, nodes[but]) <==> Free(bitmap) > 0)
  {
    hide Owned, Raw, Kept, AllDirsSound, LookupFrom, Packed, EmptyFrom;
    DirAt(d, nodes, but);
    OthersKeep(bitmap, d, bitmap, d, nodes, but);
  }

  lemma KeptThen(nodes: seq<Node>, after: seq<Node>, d: seq<seq<byte>>, e: seq<seq<byte>>, f: seq<seq<byte>>, but: nat)
    requires Formatted(d) && Formatted(e) && Formatted(f) && Kept(nodes, d, e, but) && Kept(after, e, f, but)
    requires |after| == |nodes| && forall i | 0 <= i < |nodes| && i != but :: after[i] == nodes[i]
    ensures Kept(nodes, d, f, but)
  {
    hide Raw;
  }

  /** A free block given to a directory without one. */
  lemma BlockGiven(bitmap: seq<bool>, d: seq<seq<byte>>, nodes: seq<Node>, dir: nat, b: nat, z: seq<byte>)
    requires |z| == BLOCK && Packed(z) && EmptyFrom(z, 0) == 0
    requires Formatted(d) && |bitmap| == MAX_BLOCKS && Owned(bitmap, nodes) && AllDirsSound(d, nodes)
    requires dir < |nodes| && nodes[dir].used && nodes[dir].kind.Dir? && nodes[dir].blocks == [] && b < MAX_BLOCKS && !bitmap[b]
    ensures
      var e, m := d[b := z], nodes[dir].(blocks := [b]);
      && Formatted(e) && NodeFits(m) && Owned(bitmap[b := true], nodes[dir := m]) && Free(bitmap[b := true]) == Free(bitmap) - 1
      && Kept(nodes, d, e, dir) && ShowsAlso(d, nodes[dir], e, m, false, [], 0) && AllDirsSound(e, nodes[dir := m])
      && HasPlace(bitmap[b := true], e, m)
  {
    hide Owned, Packed, EmptyFrom, LookupFrom, AllDirsSound, Raw, Free, Kept;
    var e, m := d[b := z], nodes[dir].(blocks := [b]);
    DirAt(d, nodes, dir);
    FreeOne(bitmap, b);
    OwnedMore(bitmap, nodes, dir, b, nodes[dir].size);
    assert nodes[dir].blocks + [b] == [b];
    NothingThere(z);
    OthersKeep(bitmap, d, bitmap[b := true], e, nodes, dir);
    DirsKept(d, e, nodes, nodes[dir := m], dir);
  }

  /** An entry written into a directory's block. */
  lemma EntryPut(bitmap: seq<bool>, d: seq<seq<byte>>, nodes: seq<Node>, dir: nat, child: nat, name: seq<byte>)
    requires Formatted(d) && |bitmap| == MAX_BLOCKS && Owned(bitmap, nodes) && AllDirsSound(d, nodes)
    requires dir < |nodes| && nodes[dir].used && nodes[dir].kind.Dir? && nodes[dir].blocks != [] && InDisk(nodes[dir].blocks)
    requires EmptyFrom(d[nodes[dir].blocks[0]], 0) < ENTRIES && 0 < child < WORD && 0 !in name
    ensures
      var n, b := nodes[dir], nodes[dir].blocks[0];
      var e, m := d[b := PutEntry(d[b], EmptyFrom(d[b], 0), child, name)], n.(size := n.size + ENTRY);
      && Formatted(e) && NodeFits(m) && Owned(bitmap, nodes[dir := m])
      && Kept(nodes, d, e, dir) && ShowsAlso(d, n, e, m, true, Short(name), child) && AllDirsSound(e, nodes[dir := m])
  {
    hide Owned, Packed, EmptyFrom, LookupFrom, PutEntry, Short, AllDirsSound, Raw;
    var n, b := nodes[dir], nodes[dir].blocks[0];
    var k := EmptyFrom(d[b], 0);
    var e, m := d[b := PutEntry(d[b], k, child, name)], n.(size := n.size + ENTRY);
    DirAt(d, nodes, dir);
    PutKeepsPacked(d[b], child, name);
    OwnedSize(bitmap, nodes, dir, n.size + ENTRY);
    forall i | 0 <= i < |nodes| && nodes[i].used && i != dir ensures InDisk(nodes[i].blocks) && Raw(e, nodes[i].blocks) == Raw(d, nodes[i].blocks) {
      MarkedBlocks(bitmap, nodes, i);
      OwnersDiffer(bitmap, nodes, i, dir);
      RawSame(d, e, nodes[i].blocks);
    }
    forall q ensures LookupIn(e, m, q) == if q == Short(name) && LookupIn(d, n, q) == -1 then child else LookupIn(d, n, q) {
      LookupAfterPut(d[b], child, name, q, 0);
    }
    DirsKept(d, e, nodes, nodes[dir := m], dir);
  }

  lemma OwnersDiffer(bitmap: seq<bool>, nodes: seq<Node>, i: nat, j: nat)
    requires Owned(bitmap, nodes) && i < |nodes| && j < |nodes| && i != j && nodes[i].used && nodes[j].used
    ensures forall k, l | 0 <= k < |nodes[i].blocks| && 0 <= l < |nodes[j].blocks| :: nodes[i].blocks[k] != nodes[j].blocks[l]
  {
  }

  lemma DirsKept(d: seq<seq<byte>>, e: seq<seq<byte>>, nodes: seq<Node>, after: seq<Node>, but: nat)
    requires Formatted(d) && Formatted(e) && AllDirsSound(d, nodes) && Kept(nodes, d, e, but)
    requires |after| == |nodes| && forall i | 0 <= i < |nodes| && i != but :: after[i] == nodes[i]
    requires but < |nodes| ==> after[but].kind.File? || DirSound(e, after[but])
    ensures AllDirsSound(e, after)
  {
    hide DirSound, Raw;
    forall i | 0 <= i < |after| && after[i].used && after[i].kind.Dir? ensures DirSound(e, after[i]) {
      if i != but {
        LookupKept(d, e, nodes[i]);
      }
    }
  }

  // Reading.

  /** What a read of a length at an offset gives: the sum of the two is formed in 32 bits. */
  function ReadOf(raw: seq<byte>, size: nat, len: nat, offset: nat): seq<byte>
    requires size <= |raw|
  {
    if offset >= size then []
    else
      var l := if (offset + len) % WORD > size then size - offset else len;
      if offset + l <= |raw| then raw[offset..offset + l] else raw[offset..]
  }

  function Slice(raw: seq<byte>, size: nat, len: nat, offset: nat): seq<byte>
    requires size <= |raw|
  {
    if offset >= size then [] else if offset + len <= size then raw[offset..offset + len] else raw[offset..size]
  }

  /** A read gives exactly that slice of the file, unless offset and length together wrap around 32 bits to no more than
      the size: then it goes on to the end of the last block. */
  lemma ReadExactly(raw: seq<byte>, size: nat, len: nat, offset: nat)
    requires size <= |raw| <= BLOCK * DIRECT && len < WORD && offset < WORD
    ensures
      ReadOf(raw, size, len, offset) == Slice(raw, size, len, offset) <==>
      offset >= size || offset + len < WORD || (offset + len) % WORD > size || size == |raw|
  {
    if offset < size {
      var l := if (offset + len) % WORD > size then size - offset else len;
      if offset + len >= WORD && (offset + len) % WORD <= size {
        assert ReadOf(raw, size, len, offset) == raw[offset..];
        assert |Slice(raw, size, len, offset)| == size - offset;
      }
    }
  }

  class FileSystem {
    const bitmap: array<bool>
    const disk: array<seq<byte>>
    const nodes: array<Node>
    var usedBlocks: nat
    var usedInodes: nat

    predicate Valid()
      reads this, bitmap, disk, nodes
    {
      && Formatted(disk[..]) && Books(bitmap[..], nodes[..], usedBlocks)
      && nodes.Length == MAX_INODES && usedInodes == MAX_INODES - Free(Flags(nodes[..]))
    }

    /** The root is inode 0, and every directory is sound. */
    ghost predicate DirsSound()
      requires Formatted(disk[..])
      reads disk, nodes
    {
      nodes.Length > 0 && nodes[0].used && AllDirsSound(disk[..], nodes[..])
    }

    /** The first steps of kernel_fs_init: an empty disk, and the root directory. */
    constructor ()
      ensures Valid() && DirsSound() && fresh(bitmap) && fresh(disk) && fresh(nodes)
      ensures usedBlocks == 0 && usedInodes == 1 && nodes[0] == Node(true, Dir, 0, [], 0)
    {
      bitmap := new bool[MAX_BLOCKS](_ => false);
      disk := new seq<byte>[MAX_BLOCKS](_ => Zeros(BLOCK));
      nodes := new Node[MAX_INODES](_ => Node(false, File, 0, [], 0));
      usedBlocks, usedInodes := 0, 0;
      new;
      AllFree(bitmap[..], MAX_BLOCKS);
      AllFree(Flags(nodes[..]), MAX_INODES);
      var root := AllocInode(Dir, 0);
    }

    /** alloc_inode: the first inode that is not in use, or -1. */
    method AllocInode(kind: Kind, parent: nat) returns (id: int)
      requires Valid()
      modifies nodes, `usedInodes
      ensures Valid()
      ensures id == -1 <==> forall i | 0 <= i < MAX_INODES :: old(nodes[..])[i].used
      ensures id == -1 ==> nodes[..] == old(nodes[..]) && usedInodes == old(usedInodes)
      ensures id != -1 ==>
        && 0 <= id < MAX_INODES && !old(nodes[..])[id].used && (forall i | 0 <= i < id :: old(nodes[..])[i].used)
        && nodes[..] == old(nodes[..])[id := Node(true, kind, 0, [], parent)] && usedInodes == old(usedInodes) + 1
    {
      hide Owned, Free;
      var i := 0;
      while i < MAX_INODES
        invariant 0 <= i <= MAX_INODES && forall j | 0 <= j < i :: nodes[j].used
        invariant Valid() && nodes[..] == old(nodes[..]) && usedInodes == old(usedInodes)
      {
        if !nodes[i].used {
          var n := Node(true, kind, 0, [], parent);
          ghost var before := nodes[..];
          OwnedNew(bitmap[..], before, i, n);
          FreeOne(Flags(before), i);
          nodes[i] := n;
          usedInodes := usedInodes + 1;
          assert nodes[..] == before[i := n];
          assert Flags(nodes[..]) == Flags(before)[i := true];
          return i;
        }
        i := i + 1;
      }
      id := -1;
    }

    /** alloc_block: the first free block, marked and cleared, or -1 when there is none. */
    method AllocBlock() returns (b: int)
      requires bitmap.Length == MAX_BLOCKS && Formatted(disk[..])
      modifies bitmap, disk, `usedBlocks
      ensures Formatted(disk[..])
      ensures b == -1 <==> Free(old(bitmap[..])) == 0
      ensures b == -1 ==> bitmap[..] == old(bitmap[..]) && disk[..] == old(disk[..]) && usedBlocks == old(usedBlocks)
      ensures b != -1 ==>
        && 0 <= b < MAX_BLOCKS && !old(bitmap[..])[b] && (forall i | 0 <= i < b :: old(bitmap[..])[i])
        && bitmap[..] == old(bitmap[..])[b := true] && disk[..] == old(disk[..])[b := disk[b]] && Blank(disk[b])
        && usedBlocks == old(usedBlocks) + 1
    {
      var i := 0;
      while i < MAX_BLOCKS
        invariant 0 <= i <= MAX_BLOCKS && forall j | 0 <= j < i :: bitmap[j]
        invariant bitmap[..] == old(bitmap[..]) && disk[..] == old(disk[..]) && usedBlocks == old(usedBlocks)
      {
        if !bitmap[i] {
          NoneFree(bitmap[..], MAX_BLOCKS);
          bitmap[i] := true;
          usedBlocks := usedBlocks + 1;
          disk[i] := Zeros(BLOCK);
          return i;
        }
        i := i + 1;
      }
      NoneFree(bitmap[..], MAX_BLOCKS);
      b := -1;
    }

    /** One turn of a write: a new block takes the next part of the data. */
    method AddBlock(id: nat, data: seq<byte>, written: nat) returns (more: nat, full: bool)
      requires Valid() && id < nodes.Length && written < |data| && Filling(disk[..], nodes[id], data, written)
      requires nodes[id].used && |nodes[id].blocks| < DIRECT
      modifies bitmap, disk, nodes, `usedBlocks
      ensures Valid() && Filling(disk[..], nodes[id], data, more)
      ensures full <==> Free(old(bitmap[..])) == 0
      ensures usedInodes == old(usedInodes)
      ensures full ==> more == written && nodes[..] == old(nodes[..]) && bitmap[..] == old(bitmap[..]) && disk[..] == old(disk[..])
      ensures !full ==>
        && more == (if |data| - written > BLOCK then written + BLOCK else |data|)
        && |nodes[id].blocks| == |old(nodes[id].blocks)| + 1 && Free(bitmap[..]) == Free(old(bitmap[..])) - 1
        && nodes[..] == old(nodes[..])[id := old(nodes[id]).(size := 0, blocks := nodes[id].blocks)]
      ensures Untouched(old(bitmap[..]), old(disk[..]), bitmap[..], disk[..])
    {
      hide Owned, Free, Raw;
      ghost var n, d, map_ := nodes[id], disk[..], bitmap[..];
      MarkedBlocks(map_, nodes[..], id);
      var b := AllocBlock();
      full, more := b == -1, written;
      if full {
        return;
      }
      FreeOne(map_, b);
      OwnedMore(map_, nodes[..], id, b, 0);
      ghost var all := nodes[..];
      nodes[id] := nodes[id].(blocks := nodes[id].blocks + [b]);
      SameFlags(all, nodes[..]);
      var toCopy := if |data| - written > BLOCK then BLOCK else |data| - written;
      ghost var z := disk[b];
      disk[b] := data[written..written + toCopy] + disk[b][toCopy..];
      more := written + toCopy;
      FillMore(d, disk[..], map_, n, b, data, written, toCopy, z);
    }

    /** fs_write_internal: the file's blocks are dropped and new ones filled from the start, as many as there are free up
        to twelve; every other file keeps its bytes. */
    method Write(id: nat, data: seq<byte>) returns (written: nat)
      requires Valid() && id < nodes.Length && nodes[id].used
      modifies bitmap, disk, nodes, `usedBlocks
      ensures Valid() && InDisk(nodes[id].blocks) && written == Capacity(|data|, Free(old(bitmap[..])))
      ensures nodes[..] == old(nodes[..])[id := old(nodes[id]).(size := written, blocks := nodes[id].blocks)]
      ensures Content(disk[..], nodes[id]) == data[..written]
      ensures Free(bitmap[..]) == Free(old(bitmap[..])) - |nodes[id].blocks|
      ensures Untouched(old(bitmap[..]), old(disk[..]), bitmap[..], disk[..])
      ensures Kept(old(nodes[..]), old(disk[..]), disk[..], id)
      ensures old(DirsSound()) && nodes[id].kind.File? ==> DirsSound()
    {
      hide Owned, Free, Raw, Filling, Untouched, AllDirsSound, Kept;
      ghost var before, map_, d := nodes[..], bitmap[..], disk[..];
      OwnedLess(map_, nodes[..], id, 0);
      nodes[id] := nodes[id].(blocks := [], size := 0);
      SameFlags(before, nodes[..]);
      written := 0;
      NothingFilled(d, nodes[id], data);
      StillUntouched(map_, d);
      while written < |data| && |nodes[id].blocks| < DIRECT
        invariant Valid() && nodes[..] == before[id := before[id].(size := 0, blocks := nodes[id].blocks)] && |nodes[id].blocks| <= DIRECT
        invariant Filling(disk[..], nodes[id], data, written)
        invariant written == (if |data| <= BLOCK * |nodes[id].blocks| then |data| else BLOCK * |nodes[id].blocks|)
        invariant nodes[id].blocks != [] ==> BLOCK * (|nodes[id].blocks| - 1) < |data|
        invariant Free(bitmap[..]) == Free(map_) - |nodes[id].blocks|
        invariant Untouched(map_, d, bitmap[..], disk[..])
        decreases |data| - written
      {
        ghost var map1, d1 := bitmap[..], disk[..];
        var full;
        written, full := AddBlock(id, data, written);
        UntouchedThen(map_, d, map1, d1, bitmap[..], disk[..]);
        if full {
          break;
        }
      }
      FilledFits(disk[..], nodes[id], data, written);
      OwnedSize(bitmap[..], nodes[..], id, written);
      nodes[id] := nodes[id].(size := written);
      SameFlags(before, nodes[..]);
      OthersKeep(map_, d, bitmap[..], disk[..], before, id);
      if old(DirsSound()) && nodes[id].kind.File? {
        DirsKept(d, disk[..], before, nodes[..], id);
      }
    }

    /** The first part of dir_add: a directory without a block is given one, if there is any. */
    method FirstBlock(dir: nat) returns (ok: bool)
      requires Valid() && DirsSound() && dir < MAX_INODES && nodes[dir].used && nodes[dir].kind.Dir?
      modifies bitmap, disk, nodes, `usedBlocks
      ensures Valid() && DirsSound() && InDisk(nodes[dir].blocks) && InDisk(old(nodes[dir]).blocks)
      ensures ok <==> old(nodes[dir]).blocks != [] || Free(old(bitmap[..])) > 0
      ensures ok ==> |nodes[dir].blocks| == 1
      ensures nodes[..] == old(nodes[..])[dir := old(nodes[dir]).(blocks := nodes[dir].blocks)]
      ensures Kept(old(nodes[..]), old(disk[..]), disk[..], dir)
      ensures ShowsAlso(old(disk[..]), old(nodes[dir]), disk[..], nodes[dir], false, [], 0)
      ensures ok ==> HasPlace(bitmap[..], disk[..], nodes[dir]) == old(HasPlace(bitmap[..], disk[..], nodes[dir]))
      ensures Free(bitmap[..]) == Free(old(bitmap[..])) - (if ok && old(nodes[dir]).blocks == [] then 1 else 0)
    {
      hide Owned, Free, AllDirsSound, Kept, ShowsAlso, HasPlace, Packed, EmptyFrom, Ino;
      ghost var before, map_, d := nodes[..], bitmap[..], disk[..];
      KeptSelf(map_, d, before, dir);
      ok := true;
      if |nodes[dir].blocks| == 0 {
        var b := AllocBlock();
        if b < 0 {
          return false;
        }
        EmptyBlock(disk[b]);
        BlockGiven(map_, d, before, dir, b, disk[b]);
        nodes[dir] := nodes[dir].(blocks := [b]);
        SameFlags(before, nodes[..]);
      }
    }

    /** dir_add: an entry in the first free place of a directory's block. */
    method DirAdd(dir: nat, child: nat, name: seq<byte>)
      requires Valid() && DirsSound() && dir < MAX_INODES && nodes[dir].used && nodes[dir].kind.Dir?
      requires 0 < child < WORD && 0 !in name
      modifies bitmap, disk, nodes, `usedBlocks
      ensures Valid() && DirsSound() && InDisk(nodes[dir].blocks) && InDisk(old(nodes[dir]).blocks)
      ensures
        var place := old(HasPlace(bitmap[..], disk[..], nodes[dir]));
        && nodes[..] == old(nodes[..])[dir := old(nodes[dir]).(blocks := nodes[dir].blocks, size := old(nodes[dir]).size + if place then ENTRY else 0)]
        && Free(bitmap[..]) == Free(old(bitmap[..])) - (if place && old(nodes[dir]).blocks == [] then 1 else 0)
        && ShowsAlso(old(disk[..]), old(nodes[dir]), disk[..], nodes[dir], place, Short(name), child)
      ensures Kept(old(nodes[..]), old(disk[..]), disk[..], dir)
    {
      hide Owned, Free, Raw, EmptyFrom, LookupFrom, Packed, AllDirsSound, Kept, PutEntry, Short, Ino;
      ghost var first, d0 := nodes[..], disk[..];
      var ok := FirstBlock(dir);
      if !ok {
        return;
      }
      ghost var before, d, map_ := nodes[..], disk[..], bitmap[..];
      DirAt(d, before, dir);
      var b := nodes[dir].blocks[0];
      var entries := disk[b];
      var i := 0;
      while i < ENTRIES
        invariant 0 <= i <= ENTRIES && EmptyFrom(entries, 0) == EmptyFrom(entries, i)
        invariant Valid() && nodes[..] == before && disk[..] == d && bitmap[..] == map_
      {
        EmptyStep(entries, i);
        if Ino(entries, i) == 0 {
          break;
        }
        i := i + 1;
      }
      EmptyStep(entries, i);
      if i < ENTRIES {
        EntryPut(bitmap[..], d, before, dir, child, name);
        disk[b] := PutEntry(entries, i, child, name);
        nodes[dir] := nodes[dir].(size := nodes[dir].size + ENTRY);
        SameFlags(before, nodes[..]);
        KeptThen(first, before, d0, d, disk[..], dir);
      }
    }

    /**
     * fs_create_internal: an inode without blocks, and an entry for it in the parent if there is a place: a name of which the
     * directory shows no entry yet is found from then on, as far as it was kept; nothing else changes for any directory.
     */
    method Create(parent: nat, name: seq<byte>, kind: Kind) returns (id: int)
      requires Valid() && DirsSound() && parent < MAX_INODES && nodes[parent].used && nodes[parent].kind.Dir? && 0 !in name
      modifies bitmap, disk, nodes, `usedBlocks, `usedInodes
      ensures Valid() && DirsSound() && InDisk(nodes[parent].blocks) && InDisk(old(nodes[parent]).blocks)
      ensures id == -1 <==> forall i | 0 <= i < MAX_INODES :: old(nodes[..])[i].used
      ensures id == -1 ==> nodes[..] == old(nodes[..]) && disk[..] == old(disk[..]) && bitmap[..] == old(bitmap[..])
      ensures id != -1 ==>
        var place, n := old(HasPlace(bitmap[..], disk[..], nodes[parent])), old(nodes[parent]);
        && 0 <= id < MAX_INODES && !old(nodes[..])[id].used
        && nodes[..] == old(nodes[..])[id := Node(true, kind, 0, [], parent)]
          [parent := n.(blocks := nodes[parent].blocks, size := n.size + if place then ENTRY else 0)]
        && Free(bitmap[..]) == Free(old(bitmap[..])) - (if place && n.blocks == [] then 1 else 0)
        && ShowsAlso(old(disk[..]), n, disk[..], nodes[parent], place, Short(name), id)
      ensures Kept(old(nodes[..]), old(disk[..]), disk[..], parent)
      ensures OthersShow(old(nodes[..]), old(disk[..]), disk[..], parent)
    {
      hide Owned, Free, Raw, EmptyFrom, LookupFrom, Packed, AllDirsSound, Kept, Short, ShowsAlso, OthersShow, HasPlace;
      ghost var before, d := nodes[..], disk[..];
      DirAt(d, before, parent);
      KeptSelf(bitmap[..], d, before, parent);
      id := AllocInode(kind, parent);
      if id >= 0 {
        ghost var more := nodes[..];
        DirsMore(d, before, id, more[id]);
        DirAdd(parent, id, name);
        KeptFewer(before, more, d, disk[..], parent, id);
      }
      KeptShows(before, d, disk[..], parent);
    }

    /** dir_lookup_internal */
    method DirLookup(dir: nat, name: seq<byte>) returns (r: int)
      requires Valid() && dir < MAX_INODES && InDisk(nodes[dir].blocks)
      ensures r == LookupIn(disk[..], nodes[dir], name)
    {
      hide Owned, Free, Ino, NameAt;
      if nodes[dir].kind != Dir || |nodes[dir].blocks| == 0 {
        return -1;
      }
      var entries := disk[nodes[dir].blocks[0]];
      var i := 0;
      while i < ENTRIES
        invariant 0 <= i <= ENTRIES && LookupFrom(entries, name, 0) == LookupFrom(entries, name, i)
      {
        if Ino(entries, i) != 0 && NameAt(entries, i) == name {
          return Ino(entries, i);
        }
        i := i + 1;
      }
      r := -1;
    }

    /** fs_read_internal: block by block, from the offset on. */
    method Read(id: nat, len: nat, offset: nat) returns (r: seq<byte>)
      requires Valid() && id < nodes.Length && InDisk(nodes[id].blocks) && len < WORD && offset < WORD
      ensures r == ReadOf(Raw(disk[..], nodes[id].blocks), nodes[id].size, len, offset)
    {
      hide Raw, Owned, Free;
      var n := nodes[id];
      ghost var raw := Raw(disk[..], n.blocks);
      if offset >= n.size {
        return [];
      }
      var l := if (offset + len) % WORD > n.size then n.size - offset else len;
      var pos := offset;
      r := [];
      while |r| < l
        invariant pos == offset + |r| <= |raw| && |r| <= l && r == raw[offset..pos]
        decreases l - |r|
      {
        var index, inside := pos / BLOCK, pos % BLOCK;
        if index >= |n.blocks| {
          break;
        }
        var toRead := if l - |r| < BLOCK - inside then l - |r| else BLOCK - inside;
        ReadPart(disk[..], n.blocks, offset, pos, toRead);
        r := r + disk[n.blocks[index]][inside..inside + toRead];
        pos := pos + toRead;
      }
    }

    /** Writing a file and reading any part of it gives that part of what was stored, unless the read wraps around 32 bits. */
    method StoreAndRead(id: nat, data: seq<byte>, len: nat, offset: nat) returns (written: nat, r: seq<byte>)
      requires Valid() && id < nodes.Length && nodes[id].used && len < WORD && offset < WORD
      modifies bitmap, disk, nodes, `usedBlocks
      ensures Valid() && written == Capacity(|data|, Free(old(bitmap[..])))
      ensures
        r == Slice(data[..written], written, len, offset) <==>
        offset >= written || offset + len < WORD || (offset + len) % WORD > written || written == BLOCK * |nodes[id].blocks|
    {
      hide Raw, Owned, Free;
      written := Write(id, data);
      r := Read(id, len, offset);
      ghost var raw := Raw(disk[..], nodes[id].blocks);
      ReadExactly(raw, written, len, offset);
      SliceOfPrefix(raw, data[..written], written, len, offset);
    }
  }

  lemma SliceOfPrefix(raw: seq<byte>, stored: seq<byte>, size: nat, len: nat, offset: nat)
    requires size <= |raw| && raw[..size] == stored && |stored| == size
    ensures Slice(raw, size, len, offset) == Slice(stored, size, len, offset)
  {
    if offset < size {
      var to := if offset + len <= size then offset + len else size;
      var x, y := raw[offset..to], stored[offset..to];
      forall j | 0 <= j < |x| ensures x[j] == y[j] {
        assert raw[..size][offset + j] == raw[offset + j];
      }
      assert x == y;
    }
  }

  /** The bytes that a number of free blocks can take, with twelve at most to a file. */
  function Capacity(size: nat, free: nat): nat {
    var room := BLOCK * (if free < DIRECT then free else DIRECT);
    if size < room then size else room
  }

  lemma PartOfBlock(raw: seq<byte>, block: seq<byte>, index: nat, inside: nat, k: nat)
    requires inside + k <= BLOCK == |block| && BLOCK * index + BLOCK <= |raw|
    requires raw[BLOCK * index..BLOCK * index + BLOCK] == block
    ensures raw[BLOCK * index + inside..BLOCK * index + inside + k] == block[inside..inside + k]
  {
    var a := BLOCK * index;
    var x, y := raw[a + inside..a + inside + k], block[inside..inside + k];
    forall j | 0 <= j < k ensures x[j] == y[j] {
      assert raw[a..a + BLOCK][inside + j] == raw[a + inside + j];
    }
    assert x == y;
  }

  lemma ReadPart(disk: seq<seq<byte>>, blocks: seq<nat>, offset: nat, pos: nat, k: nat)
    requires Formatted(disk) && InDisk(blocks) && offset <= pos && pos / BLOCK < |blocks| && pos % BLOCK + k <= BLOCK
    ensures
      var raw, inside := Raw(disk, blocks), pos % BLOCK;
      && pos + k <= |raw|
      && raw[offset..pos + k] == raw[offset..pos] + disk[blocks[pos / BLOCK]][inside..inside + k]
  {
    hide Raw;
    var raw := Raw(disk, blocks);
    RawAt(disk, blocks, pos / BLOCK);
    PartOfBlock(raw, disk[blocks[pos / BLOCK]], pos / BLOCK, pos % BLOCK, k);
    assert raw[offset..pos + k] == raw[offset..pos] + raw[pos..pos + k];
  }

  lemma NothingFilled(d: seq<seq<byte>>, n: Node, data: seq<byte>)
    requires Formatted(d) && n.blocks == [] && n.size == 0
    ensures Filling(d, n, data, 0)
  {
  }

  lemma StillUntouched(map_: seq<bool>, d: seq<seq<byte>>)
    requires |map_| <= |d|
    ensures Untouched(map_, d, map_, d)
  {
  }

  lemma UntouchedThen(m0: seq<bool>, d0: seq<seq<byte>>, m1: seq<bool>, d1: seq<seq<byte>>, m2: seq<bool>, d2: seq<seq<byte>>)
    requires |m0| == |m1| == |m2| <= |d0| == |d1| == |d2|
    requires Untouched(m0, d0, m1, d1) && Untouched(m1, d1, m2, d2)
    ensures Untouched(m0, d0, m2, d2)
  {
  }

  lemma FilledFits(d: seq<seq<byte>>, n: Node, data: seq<byte>, written: nat)
    requires Filling(d, n, data, written)
    ensures Formatted(d) && InDisk(n.blocks) && written <= |data| && written <= BLOCK * |n.blocks|
    ensures Raw(d, n.blocks)[..written] == data[..written]
  {
  }

  lemma OwnedSize(bitmap: seq<bool>, nodes: seq<Node>, i: nat, size: nat)
    requires Owned(bitmap, nodes) && i < |nodes|
    ensures Owned(bitmap, nodes[i := nodes[i].(size := size)])
  {
    var r := nodes[i := nodes[i].(size := size)];
    assert forall j | 0 <= j < |nodes| :: r[j].blocks == nodes[j].blocks && r[j].used == nodes[j].used;
  }

  /** The other files read as before. */
  lemma OthersKeep(map0: seq<bool>, d0: seq<seq<byte>>, map1: seq<bool>, d1: seq<seq<byte>>, nodes: seq<Node>, but: nat)
    requires Formatted(d0) && Formatted(d1) && |map0| == |map1| == MAX_BLOCKS && Owned(map0, nodes)
    requires Untouched(map0, d0, map1, d1)
    ensures Kept(nodes, d0, d1, but)
  {
    hide Owned, Raw;
    forall i | 0 <= i < |nodes| && nodes[i].used ensures InDisk(nodes[i].blocks) && Raw(d1, nodes[i].blocks) == Raw(d0, nodes[i].blocks) {
      MarkedBlocks(map0, nodes, i);
      RawSame(d0, d1, nodes[i].blocks);
    }
  }

  lemma SameFlags(a: seq<Node>, b: seq<Node>)
    requires |a| == |b| && forall i | 0 <= i < |a| :: a[i].used == b[i].used
    ensures Flags(a) == Flags(b)
  {
  }

  lemma MarkedBlocks(bitmap: seq<bool>, nodes: seq<Node>, i: nat)
    requires Owned(bitmap, nodes) && i < |nodes| && nodes[i].used
    ensures forall k | 0 <= k < |nodes[i].blocks| :: nodes[i].blocks[k] < |bitmap| && bitmap[nodes[i].blocks[k]]
  {
  }

  /** Blocks that were marked stay marked and keep their bytes. */
  predicate Untouched(map0: seq<bool>, d0: seq<seq<byte>>, map1: seq<bool>, d1: seq<seq<byte>>)
    requires |map0| <= |d0| == |d1| && |map1| == |map0|
  {
    forall b | 0 <= b < |map0| && map0[b] :: map1[b] && d1[b] == d0[b]
  }

  /** The blocks written so far hold the beginning of the data, the last one filled up with zeros. */
  predicate Filling(disk: seq<seq<byte>>, n: Node, data: seq<byte>, written: nat)
  {
    && Formatted(disk) && InDisk(n.blocks) && n.size == 0
    && written <= |data| && (written == BLOCK * |n.blocks| || (written == |data| <= BLOCK * |n.blocks|))
    && Raw(disk, n.blocks)[..written] == data[..written]
  }

  lemma FillMore(d: seq<seq<byte>>, e: seq<seq<byte>>, map_: seq<bool>, n: Node, b: nat, data: seq<byte>, written: nat, k: nat, z: seq<byte>)
    requires Formatted(d) && b < MAX_BLOCKS && |map_| == MAX_BLOCKS && !map_[b] && Filling(d, n, data, written) && written < |data|
    requires forall i | 0 <= i < |n.blocks| :: n.blocks[i] < |map_| && map_[n.blocks[i]]
    requires k == (if |data| - written > BLOCK then BLOCK else |data| - written)
    requires |z| == BLOCK && e == d[b := data[written..written + k] + z[k..]]
    ensures Filling(e, n.(blocks := n.blocks + [b]), data, written + k)
  {
    hide Raw;
    RawSame(d, e, n.blocks);
    RawSnoc(e, n.blocks, b);
    assert Formatted(e);
    assert written == BLOCK * |n.blocks|;
    assert (Raw(d, n.blocks) + e[b])[..written + k] == Raw(d, n.blocks)[..written] + e[b][..k];
    assert data[..written + k] == data[..written] + data[written..written + k];
  }

  lemma RawSnoc(disk: seq<seq<byte>>, blocks: seq<nat>, b: nat)
    requires Formatted(disk) && InDisk(blocks) && b < MAX_BLOCKS
    ensures InDisk(blocks + [b]) && Raw(disk, blocks + [b]) == Raw(disk, blocks) + disk[b]
  {
    assert (blocks + [b])[..|blocks|] == blocks;
  }

  lemma FreeOne(map_: seq<bool>, b: nat)
    requires b < |map_| && !map_[b]
    ensures Free(map_[b := true]) == Free(map_) - 1
  {
    FreeMarked(map_, b, |map_|);
  }
}
