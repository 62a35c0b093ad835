/** The phase A filesystem: its inode table and data blocks, and the operations that change them in place. */
module PhaseFs {
  import opened PhaseTree
  import opened PhasePaths

  datatype Kind = File | Dir

  datatype Inode = Inode(kind: Kind, size: nat, block: nat)

  datatype Fs = Fs(inodes: seq<Inode>, blocks: seq<seq<Entry>>, blockCount: nat)

  const MAX_PATH := 256
  const INODES := 256
  const BLOCKS := 64
  /** The directory entries of 68 bytes that fit a block of 4096. */
  const SLOTS := 60
  const EMPTY := Entry("", 0)

  predicate Shaped(fs: Fs) {
    && 0 < |fs.inodes| <= INODES && fs.inodes[0].kind.Dir?
    && |fs.blocks| == BLOCKS && fs.blockCount <= BLOCKS
    && (forall b | 0 <= b < BLOCKS :: |fs.blocks[b]| == SLOTS)
    && (forall i | 0 <= i < |fs.inodes| :: fs.inodes[i].block < BLOCKS && (fs.inodes[i].kind.Dir? ==> fs.inodes[i].size <= SLOTS))
  }

  /** The entries of an inode. */
  function List(fs: Fs, i: nat): seq<Entry>
    requires Shaped(fs) && i < |fs.inodes|
  {
    if fs.inodes[i].kind.Dir? then fs.blocks[fs.inodes[i].block][..fs.inodes[i].size] else []
  }

  function ListsTo(fs: Fs, n: nat): (r: Dirs)
    requires Shaped(fs) && n <= |fs.inodes|
    ensures |r| == n && forall i | 0 <= i < n :: r[i] == List(fs, i)
  {
    if n == 0 then [] else ListsTo(fs, n - 1) + [List(fs, n - 1)]
  }

  function DirsOf(fs: Fs): (r: Dirs)
    requires Shaped(fs)
    ensures |r| == |fs.inodes| && forall i | 0 <= i < |r| :: r[i] == List(fs, i)
  {
    ListsTo(fs, |fs.inodes|)
  }

  /** Directories have blocks of their own, handed out by the block counter. */
  predicate OwnBlocks(fs: Fs)
    requires Shaped(fs)
  {
    && fs.inodes[0].block == 0
    && (forall i | 0 <= i < |fs.inodes| && fs.inodes[i].kind.Dir? :: fs.inodes[i].block < fs.blockCount)
    && (forall i, j | 0 <= i < j < |fs.inodes| && fs.inodes[i].kind.Dir? && fs.inodes[j].kind.Dir? ::
      fs.inodes[i].block != fs.inodes[j].block)
  }

  ghost predicate Sound(fs: Fs) {
    Shaped(fs) && OwnBlocks(fs) && IsTree(DirsOf(fs))
  }

  /** A path from the root on which only the last name may be a file. */
  ghost predicate ThroughDirs(fs: Fs, p: Path)
    requires Shaped(fs) && InRange(DirsOf(fs))
  {
    forall k | 0 <= k < |p| :: Walk(DirsOf(fs), p[..k]).At? ==> fs.inodes[Walk(DirsOf(fs), p[..k]).id].kind.Dir?
  }

  /** An absolute path without a slash at its end, whose names fit their buffers. */
  predicate Plain(path: string) {
    path != "" && path[0] == '/' && path[|path| - 1] != '/' && |path| < MAX_PATH && forall c <- Names(path) :: |c| < MAX_NAME
  }

  /** An entry written behind a directory's last one. */
  function WithEntry(fs: Fs, i: nat, e: Entry): (r: Fs)
    requires Shaped(fs) && i < |fs.inodes| && fs.inodes[i].kind.Dir? && fs.inodes[i].size < SLOTS
    ensures Shaped(r)
  {
    var n := fs.inodes[i];
    fs.(blocks := fs.blocks[n.block := fs.blocks[n.block][n.size := e]], inodes := fs.inodes[i := n.(size := n.size + 1)])
  }

  /** The entries behind a slot moved down by one. */
  function WithoutEntry(fs: Fs, i: nat, k: nat): (r: Fs)
    requires Shaped(fs) && i < |fs.inodes| && fs.inodes[i].kind.Dir? && k < fs.inodes[i].size
    ensures Shaped(r)
  {
    var n := fs.inodes[i];
    fs.(blocks := fs.blocks[n.block := Shifted(fs.blocks[n.block], k, n.size - 1)], inodes := fs.inodes[i := n.(size := n.size - 1)])
  }

  function Shifted(block: seq<Entry>, k: nat, last: nat): (r: seq<Entry>)
    requires k <= last < |block|
    ensures |r| == |block|
    ensures forall j | 0 <= j < |r| :: r[j] == if k <= j < last then block[j + 1] else block[j]
  {
    block[..k] + block[k + 1..last + 1] + block[last..]
  }

  lemma WithEntryDirs(fs: Fs, i: nat, e: Entry)
    requires Shaped(fs) && OwnBlocks(fs) && i < |fs.inodes| && fs.inodes[i].kind.Dir? && fs.inodes[i].size < SLOTS
    ensures OwnBlocks(WithEntry(fs, i, e))
    ensures DirsOf(WithEntry(fs, i, e)) == DirsOf(fs)[i := List(fs, i) + [e]]
  {
    var r := WithEntry(fs, i, e);
    forall j | 0 <= j < |fs.inodes| ensures List(r, j) == if j == i then List(fs, i) + [e] else List(fs, j) {
      assert j != i && fs.inodes[j].kind.Dir? ==> fs.inodes[j].block != fs.inodes[i].block;
    }
  }

  lemma WithoutEntryDirs(fs: Fs, i: nat, k: nat)
    requires Shaped(fs) && OwnBlocks(fs) && i < |fs.inodes| && fs.inodes[i].kind.Dir? && k < fs.inodes[i].size
    ensures OwnBlocks(WithoutEntry(fs, i, k))
    ensures DirsOf(WithoutEntry(fs, i, k)) == DirsOf(fs)[i := Remove(List(fs, i), k)]
  {
    var r := WithoutEntry(fs, i, k);
    forall j | 0 <= j < |fs.inodes| ensures List(r, j) == if j == i then Remove(List(fs, i), k) else List(fs, j) {
      assert j != i && fs.inodes[j].kind.Dir? ==> fs.inodes[j].block != fs.inodes[i].block;
    }
  }

  lemma SlotIs(es: seq<Entry>, name: string, k: nat)
    requires k <= |es| && (k < |es| ==> es[k].name == name) && forall j | 0 <= j < k :: es[j].name != name
    ensures Slot(es, name) == k
  {
  }

  /** The names read so far begin the names of the whole path. */
  lemma {:induction false} ScanBegins(s: string, n: nat)
    requires n <= |s|
    ensures ScanTo(s, n).done <= Names(s)
    ensures n < |s| && s[n] == '/' && ScanTo(s, n).token != "" ==> ScanTo(s, n).done + [ScanTo(s, n).token] <= Names(s)
    decreases |s| - n
  {
    if n < |s| {
      ScanBegins(s, n + 1);
    }
  }

  class Disk {
    const inodeTable: array<Inode>
    var inodeCount: nat
    const blocks: array<seq<Entry>>
    var blockCount: nat

    predicate Formatted()
      reads this
    {
      inodeTable.Length == INODES && blocks.Length == BLOCKS && inodeCount <= INODES
    }

    function Snapshot(): Fs
      requires Formatted()
      reads this, inodeTable, blocks
    {
      Fs(inodeTable[..inodeCount], blocks[..], blockCount)
    }

    ghost predicate Valid()
      reads this, inodeTable, blocks
    {
      Formatted() && Sound(Snapshot())
    }

    /** The bootstrap's first step: a root directory without entries. */
    constructor ()
      ensures Valid() && DirsOf(Snapshot()) == [[]] && fresh(inodeTable) && fresh(blocks)
    {
      inodeTable := new Inode[INODES](_ => Inode(File, 0, 0));
      blocks := new seq<Entry>[BLOCKS](_ => Cleared());
      inodeCount, blockCount := 1, 1;
      new;
      inodeTable[0] := Inode(Dir, 0, 0);
      RootAlone(Snapshot());
    }

    /** The first slot of a directory with that name, or its size. */
    method FindSlot(i: nat, name: string) returns (k: nat)
      requires Formatted() && Shaped(Snapshot()) && i < inodeCount && inodeTable[i].kind.Dir?
      ensures k == Slot(List(Snapshot(), i), name)
    {
      var ents, size := blocks[inodeTable[i].block], inodeTable[i].size;
      k := 0;
      while k < size
        invariant k <= size && forall j | 0 <= j < k :: ents[j].name != name
      {
        if ents[k].name == name {
          break;
        }
        k := k + 1;
      }
      SlotIs(ents[..size], name, k);
    }

    /** phase_vfs_resolve: the inode at the end of an absolute path, read name by name. */
    method Resolve(path: string) returns (r: Found)
      requires Valid() && ThroughDirs(Snapshot(), Names(path))
      ensures r == if path == "" || path[0] != '/' then Missing else Walk(DirsOf(Snapshot()), Names(path))
    {
      hide IsTree, OwnBlocks, Find, Walk, Shaped;
      if path == "" || path[0] != '/' {
        return Missing;
      }
      ghost var fs, dirs := Snapshot(), DirsOf(Snapshot());
      RootFound(fs);
      if path == "/" {
        RootNames();
        return At(0);
      }
      var current: nat := 0;
      var token, i := "", 1;
      assert ScanTo(path, 1) == ScanChar(ScanTo(path, 0), '/');
      while true
        invariant 1 <= i <= |path| && current < |dirs|
        invariant ScanTo(path, i).token == token && Walk(dirs, ScanTo(path, i).done) == At(current)
        decreases |path| - i
      {
        ScanBegins(path, i);
        var end := i == |path|;
        if end || path[i] == '/' {
          if token != "" {
            ghost var done := ScanTo(path, i).done;
            NextIsDir(fs, path, done, token);
            var k := FindSlot(current, token);
            WalkOn(dirs, done, token);
            FoundAt(dirs[current], token);
            if k == inodeTable[current].size {
              if Walk(dirs, Names(path)).At? {
                PrefixFound(dirs, done + [token], Names(path));
              }
              return Missing;
            }
            WalkBound(dirs, done + [token]);
            current := blocks[inodeTable[current].block][k].inode;
            token := "";
          }
          if end {
            return At(current);
          }
        } else {
          token := token + [path[i]];
        }
        i := i + 1;
      }
    }

    method AddEntry(i: nat, e: Entry)
      requires Formatted() && Shaped(Snapshot()) && i < inodeCount && inodeTable[i].kind.Dir? && inodeTable[i].size < SLOTS
      modifies inodeTable, blocks
      ensures Formatted() && Snapshot() == WithEntry(old(Snapshot()), i, e)
    {
      var n := inodeTable[i];
      blocks[n.block] := blocks[n.block][n.size := e];
      inodeTable[i] := n.(size := n.size + 1);
    }

    method RemoveEntry(i: nat, k: nat)
      requires Formatted() && Shaped(Snapshot()) && i < inodeCount && inodeTable[i].kind.Dir? && k < inodeTable[i].size
      modifies inodeTable, blocks
      ensures Formatted() && Snapshot() == WithoutEntry(old(Snapshot()), i, k)
    {
      var n := inodeTable[i];
      assert Snapshot().inodes[i] == n && n.size <= SLOTS;
      ghost var block := blocks[n.block];
      hide Shaped;
      assert block == Shifted(block, k, k);
      for j := k to n.size - 1
        invariant blocks[..] == old(blocks[..])[n.block := Shifted(block, k, j)]
        modifies blocks
      {
        assert blocks[..][n.block] == Shifted(block, k, j);
        assert Shifted(block, k, j)[j := Shifted(block, k, j)[j + 1]] == Shifted(block, k, j + 1);
        blocks[n.block] := blocks[n.block][j := blocks[n.block][j + 1]];
      }
      inodeTable[i] := n.(size := n.size - 1);
    }

    /** The second half of a rename: the new entry is written, then the old one removed. */
    method MoveEntry(a: nat, k: nat, b: nat, name: string, ghost x: Path, ghost y: Path)
      requires Valid() && CanRename(Snapshot(), x, y) && name == y[|y| - 1]
      requires ThroughDirs(Snapshot(), x) && ThroughDirs(Snapshot(), y) && HasRoom(Snapshot(), Above(y))
      requires Walk(DirsOf(Snapshot()), Above(x)) == At(a) && Walk(DirsOf(Snapshot()), Above(y)) == At(b)
      requires k == Slot(List(Snapshot(), a), x[|x| - 1])
      modifies inodeTable, blocks
      ensures Valid() && inodeCount == old(inodeCount)
      ensures Snapshot() == Renamed(old(Snapshot()), x, y)
    {
      hide IsTree, Find, Walk, Shaped, OwnBlocks, Slot, ThroughDirs, HasRoom, CanRename;
      ghost var fs := Snapshot();
      RenameDirs(fs, x, y);
      RenameParts(fs, x, y, a, k, b);
      var target := blocks[inodeTable[a].block][k].inode;
      AddEntry(b, Entry(name, target));
      RemoveEntry(a, k);
    }

    /** phase_vfs_rename: refuses unless the old path exists, the new one does not and its directory does; otherwise
        moves the entry and nothing else. */
    method Rename(oldPath: string, newPath: string) returns (ok: bool)
      requires Valid() && Plain(oldPath) && Plain(newPath)
      requires ThroughDirs(Snapshot(), Names(oldPath)) && ThroughDirs(Snapshot(), Names(newPath))
      requires HasRoom(Snapshot(), Above(Names(newPath)))
      modifies inodeTable, blocks
      ensures Valid() && inodeCount == old(inodeCount)
      ensures ok <==> CanRename(old(Snapshot()), Names(oldPath), Names(newPath))
      ensures Snapshot() == if ok then Renamed(old(Snapshot()), Names(oldPath), Names(newPath)) else old(Snapshot())
    {
      hide IsTree, Find, Walk, Shaped, OwnBlocks, Slot, ThroughDirs, HasRoom;
      ghost var x, y := Names(oldPath), Names(newPath);
      var oldParent, oldName := SplitPath(oldPath);
      var newParent, newName := SplitPath(newPath);
      assert Above(x) == Names(oldParent) && Above(y) == Names(newParent);
      var oldDir, k := Locate(oldParent, oldName, x);
      var newDir, l := Locate(newParent, newName, y);
      if oldDir.Missing? || newDir.Missing? {
        return false;
      }
      if k == inodeTable[oldDir.id].size || l < inodeTable[newDir.id].size {
        return false;
      }
      MoveEntry(oldDir.id, k, newDir.id, newName, x, y);
      ok := true;
    }

    /** The directory above a path and the slot of the path's last name in it: past the entries if there is none. */
    method Locate(parent: string, name: string, ghost p: Path) returns (dir: Found, k: nat)
      requires Valid() && ThroughDirs(Snapshot(), p) && p == Names(parent) + [name] && parent != "" && parent[0] == '/'
      ensures dir == Walk(DirsOf(Snapshot()), Above(p))
      ensures dir.Missing? ==> Walk(DirsOf(Snapshot()), p).Missing?
      ensures dir.At? ==>
        && dir.id < inodeCount && inodeTable[dir.id].kind.Dir?
        && inodeTable[dir.id].block < BLOCKS && inodeTable[dir.id].size <= |blocks[inodeTable[dir.id].block]|
        && k == Slot(List(Snapshot(), dir.id), name) && |List(Snapshot(), dir.id)| == inodeTable[dir.id].size
        && (k == inodeTable[dir.id].size <==> Walk(DirsOf(Snapshot()), p).Missing?)
    {
      hide IsTree, Find, Walk, Shaped, OwnBlocks, Slot, ThroughDirs;
      ghost var fs, dirs := Snapshot(), DirsOf(Snapshot());
      RootFound(fs);
      AboveThrough(fs, p);
      assert Above(p) == Names(parent);
      dir := Resolve(parent);
      k := 0;
      WalkOn(dirs, Above(p), name);
      if dir.At? {
        FoundIsDir(fs, p);
        WalkBound(dirs, Above(p));
        k := FindSlot(dir.id, name);
        ListSize(fs, dir.id);
        FoundAt(dirs[dir.id], name);
      }
    }

    /** phase_alloc_block: the next block, or block 0 when there is none left. */
    method AllocBlock() returns (b: nat)
      requires Formatted() && blockCount <= BLOCKS
      modifies `blockCount
      ensures b == NextBlock(old(Snapshot())) && blockCount == CountAfter(old(Snapshot()))
    {
      if blockCount >= BLOCKS {
        return 0;
      }
      b := blockCount;
      blockCount := blockCount + 1;
    }

    method AllocInode(kind: Kind) returns (n: nat)
      requires Formatted() && inodeCount < INODES
      modifies `inodeCount, inodeTable
      ensures Formatted() && n == old(inodeCount)
      ensures Snapshot() == old(Snapshot()).(inodes := old(Snapshot()).inodes + [Inode(kind, 0, 0)])
    {
      n := inodeCount;
      inodeTable[n] := Inode(kind, 0, 0);
      inodeCount := inodeCount + 1;
    }

    /** An inode, a block for it, and the block cleared. */
    method AllocDir() returns (n: nat)
      requires Formatted() && Shaped(Snapshot()) && inodeCount < INODES
      modifies this, inodeTable, blocks
      ensures Formatted() && n == old(inodeCount) && Snapshot() == WithDir(old(Snapshot()))
    {
      ghost var fs := Snapshot();
      n := AllocInode(Dir);
      var b := AllocBlock();
      inodeTable[n] := inodeTable[n].(block := b);
      blocks[b] := Cleared();
      assert inodeTable[..inodeCount] == fs.inodes + [Inode(Dir, 0, b)];
    }

    method AllocFile() returns (n: nat)
      requires Formatted() && Shaped(Snapshot()) && inodeCount < INODES
      modifies this, inodeTable
      ensures Formatted() && n == old(inodeCount) && Snapshot() == WithFile(old(Snapshot()))
    {
      ghost var fs := Snapshot();
      n := AllocInode(File);
      var b := AllocBlock();
      inodeTable[n] := inodeTable[n].(block := b);
      assert inodeTable[..inodeCount] == fs.inodes + [Inode(File, 0, b)];
    }

    /** vfs_mkdir_phase_a. */
    method MakeDir(path: string) returns (ok: bool)
      requires Valid() && Plain(path) && ThroughDirs(Snapshot(), Names(path)) && HasRoom(Snapshot(), Above(Names(path)))
      modifies this, inodeTable, blocks
      ensures Formatted() && (old(blockCount) < BLOCKS ==> Valid())
      ensures ok <==> CanAdd(old(Snapshot()), Names(path))
      ensures Snapshot() == if ok then MadeDir(old(Snapshot()), Names(path)) else old(Snapshot())
    {
      hide IsTree, Find, Walk, Shaped, OwnBlocks, Slot, ThroughDirs, HasRoom;
      ghost var fs, y := Snapshot(), Names(path);
      var parent, name := SplitPath(path);
      var dir, k := Locate(parent, name, y);
      if dir.Missing? || k < inodeTable[dir.id].size || inodeCount >= INODES {
        return false;
      }
      AddParts(fs, y);
      if blockCount < BLOCKS {
        MakeDirDirs(fs, y);
      }
      var n := AllocDir();
      AddEntry(dir.id, Entry(name, n));
      ok := true;
    }

    /** vfs_create_file_phase_a: the new file's inode. */
    method CreateFile(path: string) returns (r: Found)
      requires Valid() && Plain(path) && ThroughDirs(Snapshot(), Names(path)) && HasRoom(Snapshot(), Above(Names(path)))
      modifies this, inodeTable, blocks
      ensures Valid()
      ensures r == if CanAdd(old(Snapshot()), Names(path)) then At(old(inodeCount)) else Missing
      ensures Snapshot() == if r.At? then MadeFile(old(Snapshot()), Names(path)) else old(Snapshot())
    {
      hide IsTree, Find, Walk, Shaped, OwnBlocks, Slot, ThroughDirs, HasRoom;
      ghost var fs, y := Snapshot(), Names(path);
      var parent, name := SplitPath(path);
      var dir, k := Locate(parent, name, y);
      if dir.Missing? || k < inodeTable[dir.id].size || inodeCount >= INODES {
        return Missing;
      }
      AddParts(fs, y);
      MakeFileDirs(fs, y);
      var n := AllocFile();
      AddEntry(dir.id, Entry(name, n));
      r := At(n);
    }
  }

  function NextBlock(fs: Fs): nat {
    if fs.blockCount >= BLOCKS then 0 else fs.blockCount
  }

  function CountAfter(fs: Fs): nat {
    if fs.blockCount >= BLOCKS then fs.blockCount else fs.blockCount + 1
  }

  ghost predicate CanAdd(fs: Fs, y: Path)
    requires Shaped(fs) && InRange(DirsOf(fs))
  {
    var dirs := DirsOf(fs);
    y != [] && Walk(dirs, Above(y)).At? && Walk(dirs, y).Missing? && |fs.inodes| < INODES
  }

  /** A new directory inode with a cleared block; the block is block 0 when the others are taken. */
  function WithDir(fs: Fs): (r: Fs)
    requires Shaped(fs) && |fs.inodes| < INODES
    ensures Shaped(r)
  {
    var b := NextBlock(fs);
    Fs(fs.inodes + [Inode(Dir, 0, b)], fs.blocks[b := Cleared()], CountAfter(fs))
  }

  function WithFile(fs: Fs): (r: Fs)
    requires Shaped(fs) && |fs.inodes| < INODES
    ensures Shaped(r)
  {
    Fs(fs.inodes + [Inode(File, 0, NextBlock(fs))], fs.blocks, CountAfter(fs))
  }

  lemma AddParts(fs: Fs, y: Path)
    requires Sound(fs) && ThroughDirs(fs, y) && HasRoom(fs, Above(y)) && CanAdd(fs, y)
    ensures
      var b := Walk(DirsOf(fs), Above(y));
      && b.At? && b.id < |fs.inodes| && fs.inodes[b.id].kind.Dir? && fs.inodes[b.id].size < SLOTS
      && |fs.inodes| < INODES && fs.blockCount <= BLOCKS && Shaped(fs)
  {
    FoundIsDir(fs, y);
  }

  /** The filesystem after a mkdir that goes through. */
  ghost function MadeDir(fs: Fs, y: Path): (r: Fs)
    requires Sound(fs) && ThroughDirs(fs, y) && HasRoom(fs, Above(y)) && CanAdd(fs, y)
    ensures Shaped(r)
  {
    AddParts(fs, y);
    WithEntry(WithDir(fs), Walk(DirsOf(fs), Above(y)).id, Entry(y[|y| - 1], |fs.inodes|))
  }

  ghost function MadeFile(fs: Fs, y: Path): (r: Fs)
    requires Sound(fs) && ThroughDirs(fs, y) && HasRoom(fs, Above(y)) && CanAdd(fs, y)
    ensures Shaped(r)
  {
    AddParts(fs, y);
    WithEntry(WithFile(fs), Walk(DirsOf(fs), Above(y)).id, Entry(y[|y| - 1], |fs.inodes|))
  }

  lemma WithDirDirs(fs: Fs)
    requires Shaped(fs) && OwnBlocks(fs) && |fs.inodes| < INODES
    ensures fs.blockCount < BLOCKS ==> OwnBlocks(WithDir(fs))
    ensures fs.blockCount < BLOCKS || List(fs, 0) == [] ==> DirsOf(WithDir(fs)) == DirsOf(fs) + [[]]
  {
    var r := WithDir(fs);
    if fs.blockCount < BLOCKS || List(fs, 0) == [] {
      forall j | 0 <= j < |r.inodes| ensures List(r, j) == if j < |fs.inodes| then List(fs, j) else [] {
        assert j < |fs.inodes| && fs.inodes[j].kind.Dir? && j > 0 ==> fs.inodes[j].block != fs.inodes[0].block;
      }
    }
  }

  lemma WithFileDirs(fs: Fs)
    requires Shaped(fs) && OwnBlocks(fs) && |fs.inodes| < INODES
    ensures OwnBlocks(WithFile(fs)) && DirsOf(WithFile(fs)) == DirsOf(fs) + [[]]
  {
    var r := WithFile(fs);
    forall j | 0 <= j < |r.inodes| ensures List(r, j) == if j < |fs.inodes| then List(fs, j) else [] {
    }
  }

  /** While there is a free block, mkdir adds the one entry to the tree. */
  lemma MakeDirDirs(fs: Fs, y: Path)
    requires Sound(fs) && ThroughDirs(fs, y) && HasRoom(fs, Above(y)) && CanAdd(fs, y) && fs.blockCount < BLOCKS
    ensures DirsOf(MadeDir(fs, y)) == Added(DirsOf(fs), Walk(DirsOf(fs), Above(y)).id, y[|y| - 1])
    ensures Sound(MadeDir(fs, y))
  {
    hide Find, Walk, Shaped, IsTree, OwnBlocks;
    RootFound(fs);
    AddParts(fs, y);
    WithDirDirs(fs);
    var b := Walk(DirsOf(fs), Above(y)).id;
    WithEntryDirs(WithDir(fs), b, Entry(y[|y| - 1], |fs.inodes|));
    assert DirsOf(MadeDir(fs, y)) == Added(DirsOf(fs), b, y[|y| - 1]);
    AddKeeps(DirsOf(fs), y, b);
  }

  lemma MakeFileDirs(fs: Fs, y: Path)
    requires Sound(fs) && ThroughDirs(fs, y) && HasRoom(fs, Above(y)) && CanAdd(fs, y)
    ensures DirsOf(MadeFile(fs, y)) == Added(DirsOf(fs), Walk(DirsOf(fs), Above(y)).id, y[|y| - 1])
    ensures Sound(MadeFile(fs, y))
  {
    hide Find, Walk, Shaped, IsTree, OwnBlocks;
    RootFound(fs);
    AddParts(fs, y);
    WithFileDirs(fs);
    var b := Walk(DirsOf(fs), Above(y)).id;
    WithEntryDirs(WithFile(fs), b, Entry(y[|y| - 1], |fs.inodes|));
    assert DirsOf(MadeFile(fs, y)) == Added(DirsOf(fs), b, y[|y| - 1]);
    AddKeeps(DirsOf(fs), y, b);
  }

  /** Creating a file adds exactly its path. */
  lemma CreateAddsPath(fs: Fs, y: Path, p: Path)
    requires Sound(fs) && ThroughDirs(fs, y) && HasRoom(fs, Above(y)) && CanAdd(fs, y)
    ensures Sound(MadeFile(fs, y))
    ensures Walk(DirsOf(MadeFile(fs, y)), p) == if p == y then At(|fs.inodes|) else Walk(DirsOf(fs), p)
  {
    hide Find, Walk, Shaped, IsTree, OwnBlocks;
    RootFound(fs);
    MakeFileDirs(fs, y);
    AddExtends(DirsOf(fs), y, Walk(DirsOf(fs), Above(y)).id, p);
  }

  /** What must hold for the directory lists to be walked. */
  lemma MadeDirWalks(fs: Fs, y: Path)
    requires Sound(fs) && ThroughDirs(fs, y) && HasRoom(fs, Above(y)) && CanAdd(fs, y)
    ensures InRange(DirsOf(MadeDir(fs, y)))
  {
    hide Walk, Slot;
    AddParts(fs, y);
    var made := MadeDir(fs, y);
    var dirs: seq<seq<Entry>> := DirsOf(fs);
    forall i: nat, k: nat | i < |made.inodes| && k < |List(made, i)| ensures List(made, i)[k].inode < |made.inodes| {
      if i < |fs.inodes| && fs.inodes[i].kind.Dir? && k < |List(fs, i)| {
        assert dirs[i][k].inode < |dirs|;
      }
    }
  }

  ghost predicate AddsPath(fs: Fs, y: Path, after: Fs)
    requires Shaped(fs) && InRange(DirsOf(fs)) && Shaped(after) && InRange(DirsOf(after))
  {
    forall p :: Walk(DirsOf(after), p) == if p == y then At(|fs.inodes|) else Walk(DirsOf(fs), p)
  }

  /** mkdir adds exactly its path as long as a block is free. With none left it takes block 0, which is the root's, and
      clears it: then every entry of the root is lost. */
  lemma MakeDirExactly(fs: Fs, y: Path)
    requires Sound(fs) && ThroughDirs(fs, y) && HasRoom(fs, Above(y)) && CanAdd(fs, y)
    ensures InRange(DirsOf(MadeDir(fs, y)))
    ensures AddsPath(fs, y, MadeDir(fs, y)) <==> fs.blockCount < BLOCKS || List(fs, 0) == []
  {
    hide Find, Walk, Shaped, IsTree, OwnBlocks, ThroughDirs, HasRoom;
    RootFound(fs);
    MadeDirWalks(fs, y);
    if fs.blockCount < BLOCKS || List(fs, 0) == [] {
      MadeDirIsAdded(fs, y);
      forall p ensures Walk(DirsOf(MadeDir(fs, y)), p) == if p == y then At(|fs.inodes|) else Walk(DirsOf(fs), p) {
        AddExtends(DirsOf(fs), y, Walk(DirsOf(fs), Above(y)).id, p);
      }
    } else {
      var c := List(fs, 0)[0].name;
      RootEntryLost(fs, y);
    }
  }

  lemma EmptyRootLists(fs: Fs, e: Entry)
    requires Shaped(fs) && OwnBlocks(fs) && |fs.inodes| < INODES && fs.inodes[0].size == 0 && fs.blockCount >= BLOCKS
    ensures DirsOf(WithEntry(WithDir(fs), 0, e)) == DirsOf(fs)[0 := [e]] + [[]]
  {
    var made := WithEntry(WithDir(fs), 0, e);
    forall i | 0 <= i < |made.inodes| ensures List(made, i) == if i == 0 then [e] else if i < |fs.inodes| then List(fs, i) else [] {
      assert i < |fs.inodes| && fs.inodes[i].kind.Dir? && i > 0 ==> fs.inodes[i].block != fs.inodes[0].block;
    }
  }

  lemma MadeDirIsAdded(fs: Fs, y: Path)
    requires Sound(fs) && ThroughDirs(fs, y) && HasRoom(fs, Above(y)) && CanAdd(fs, y)
    requires fs.blockCount < BLOCKS || List(fs, 0) == []
    ensures DirsOf(MadeDir(fs, y)) == Added(DirsOf(fs), Walk(DirsOf(fs), Above(y)).id, y[|y| - 1])
  {
    hide Find, Walk, Shaped, IsTree, OwnBlocks, ThroughDirs, HasRoom;
    RootFound(fs);
    if fs.blockCount < BLOCKS {
      MakeDirDirs(fs, y);
    } else {
      OnlyRoot(fs, y);
      AddParts(fs, y);
      ListSize(fs, 0);
      EmptyRootLists(fs, Entry(y[|y| - 1], |fs.inodes|));
      assert DirsOf(fs)[0] + [Entry(y[|y| - 1], |fs.inodes|)] == [Entry(y[|y| - 1], |fs.inodes|)];
    }
  }

  /** Below a root without entries there is nothing. */
  lemma OnlyRoot(fs: Fs, y: Path)
    requires Sound(fs) && CanAdd(fs, y) && List(fs, 0) == []
    ensures Walk(DirsOf(fs), Above(y)) == At(0)
  {
    var p := Above(y);
    if p != [] {
      assert [] + [p[0]] == [p[0]];
      WalkOn(DirsOf(fs), [], p[0]);
      FindMissing([], p[0]);
      PrefixFound(DirsOf(fs), [p[0]], p);
    }
  }

  lemma RootFirst(fs: Fs)
    requires Sound(fs) && List(fs, 0) != []
    ensures
      var e := List(fs, 0)[0];
      Walk(DirsOf(fs), [e.name]) == At(e.inode) && e.inode != 0
  {
    var dirs, e := DirsOf(fs), List(fs, 0)[0];
    WalkOn(dirs, [], e.name);
    assert [] + [e.name] == [e.name];
    DirNames(dirs, 0);
    FindAt(dirs[0], 0);
    if e.inode == 0 {
      Same(dirs, [], [e.name]);
    }
  }

  lemma RootEntryLost(fs: Fs, y: Path)
    requires Sound(fs) && ThroughDirs(fs, y) && HasRoom(fs, Above(y)) && CanAdd(fs, y)
    requires fs.blockCount >= BLOCKS && List(fs, 0) != [] && InRange(DirsOf(MadeDir(fs, y)))
    ensures
      var p := [List(fs, 0)[0].name];
      p != y && Walk(DirsOf(MadeDir(fs, y)), p) != Walk(DirsOf(fs), p)
  {
    hide Walk, IsTree, Slot;
    var dirs, made := DirsOf(fs), MadeDir(fs, y);
    var c := List(fs, 0)[0].name;
    RootFirst(fs);
    AddParts(fs, y);
    WalkOn(DirsOf(made), [], c);
    assert [] + [c] == [c];
    WalkRoot(DirsOf(made));
    var list := List(made, 0);
    assert forall j | 0 <= j < |List(fs, 0)| :: list[j] == EMPTY;
    FoundAt(list, c);
    if c == "" {
      assert list[0].name == c;
      SlotIs(list, c, 0);
    } else if Find(list, c).At? {
      assert Slot(list, c) == |List(fs, 0)|;
    }
  }

  function Above(p: Path): Path {
    if p == [] then [] else p[..|p| - 1]
  }

  /** The directory a path leads to has a free slot. */
  ghost predicate HasRoom(fs: Fs, p: Path)
    requires Shaped(fs) && InRange(DirsOf(fs))
  {
    var f := Walk(DirsOf(fs), p);
    f.At? ==> fs.inodes[f.id].size < SLOTS
  }

  ghost predicate CanRename(fs: Fs, x: Path, y: Path)
    requires Shaped(fs) && InRange(DirsOf(fs))
  {
    var dirs := DirsOf(fs);
    && x != [] && y != [] && Walk(dirs, x).At? && Walk(dirs, Above(y)).At? && Walk(dirs, y).Missing?
  }

  /** The filesystem after a rename that goes through. */
  ghost function Renamed(fs: Fs, x: Path, y: Path): Fs
    requires Sound(fs) && CanRename(fs, x, y) && ThroughDirs(fs, x) && ThroughDirs(fs, y) && HasRoom(fs, Above(y))
  {
    ParentFound(fs, x);
    FoundIsDir(fs, x);
    FoundIsDir(fs, y);
    var a, b := Walk(DirsOf(fs), Above(x)).id, Walk(DirsOf(fs), Above(y)).id;
    var k := Slot(List(fs, a), x[|x| - 1]);
    WithoutEntry(WithEntry(fs, b, Entry(y[|y| - 1], List(fs, a)[k].inode)), a, k)
  }

  lemma ListSize(fs: Fs, i: nat)
    requires Shaped(fs) && i < |fs.inodes| && fs.inodes[i].kind.Dir?
    ensures |List(fs, i)| == fs.inodes[i].size <= SLOTS && fs.inodes[i].block < BLOCKS == |fs.blocks|
    ensures |fs.blocks[fs.inodes[i].block]| == SLOTS
  {
  }

  lemma AboveThrough(fs: Fs, p: Path)
    requires Sound(fs) && ThroughDirs(fs, p)
    ensures ThroughDirs(fs, Above(p))
  {
    forall k | 0 <= k < |Above(p)| ensures Above(p)[..k] == p[..k] {
    }
  }

  lemma RenameParts(fs: Fs, x: Path, y: Path, a: nat, k: nat, b: nat)
    requires Sound(fs) && CanRename(fs, x, y) && ThroughDirs(fs, x) && ThroughDirs(fs, y) && HasRoom(fs, Above(y))
    requires Walk(DirsOf(fs), Above(x)) == At(a) && Walk(DirsOf(fs), Above(y)) == At(b)
    requires k == Slot(List(fs, a), x[|x| - 1])
    ensures a < |fs.inodes| && b < |fs.inodes| && fs.inodes[a].kind.Dir? && fs.inodes[b].kind.Dir?
    ensures fs.inodes[b].size < SLOTS && k < fs.inodes[a].size && fs.inodes[a].block < BLOCKS
    ensures k < |List(fs, a)| && k < |fs.blocks[fs.inodes[a].block]| && List(fs, a)[k] == fs.blocks[fs.inodes[a].block][k]
    ensures
      var e := Entry(y[|y| - 1], List(fs, a)[k].inode);
      k < WithEntry(fs, b, e).inodes[a].size && Renamed(fs, x, y) == WithoutEntry(WithEntry(fs, b, e), a, k)
  {
    hide Find, Walk, IsTree, OwnBlocks, Slot;
    RootFound(fs);
    ParentFound(fs, x);
    FoundIsDir(fs, x);
    FoundIsDir(fs, y);
    WalkBound(DirsOf(fs), Above(x));
    WalkBound(DirsOf(fs), Above(y));
    ListSize(fs, a);
  }

  lemma RoomAbove(fs: Fs, y: Path)
    requires Shaped(fs) && InRange(DirsOf(fs)) && HasRoom(fs, Above(y)) && Walk(DirsOf(fs), Above(y)).At?
    ensures fs.inodes[Walk(DirsOf(fs), Above(y)).id].size < SLOTS
  {
  }

  lemma FoundIsDir(fs: Fs, p: Path)
    requires Sound(fs) && ThroughDirs(fs, p) && p != []
    ensures Walk(DirsOf(fs), Above(p)).At? ==> fs.inodes[Walk(DirsOf(fs), Above(p)).id].kind.Dir?
  {
    assert Above(p) == p[..|p| - 1];
  }

  /** An existing path's last name is in a slot of its directory. */
  lemma ParentFound(fs: Fs, x: Path)
    requires Sound(fs) && x != [] && Walk(DirsOf(fs), x).At?
    ensures
      var f := Walk(DirsOf(fs), Above(x));
      && f.At? && Slot(List(fs, f.id), x[|x| - 1]) < |List(fs, f.id)|
      && Walk(DirsOf(fs), x) == At(List(fs, f.id)[Slot(List(fs, f.id), x[|x| - 1])].inode)
  {
    assert x == Above(x) + [x[|x| - 1]];
    WalkOn(DirsOf(fs), Above(x), x[|x| - 1]);
  }

  /** On the directories a rename is the move of one entry, and it keeps the filesystem sound. */
  lemma RenameDirs(fs: Fs, x: Path, y: Path)
    requires Sound(fs) && CanRename(fs, x, y) && ThroughDirs(fs, x) && ThroughDirs(fs, y) && HasRoom(fs, Above(y))
    ensures
      var dirs := DirsOf(fs);
      var a, b := Walk(dirs, Above(x)), Walk(dirs, Above(y));
      && a.At? && b.At? && Sound(Renamed(fs, x, y))
      && Slot(dirs[a.id], x[|x| - 1]) < |dirs[a.id]|
      && DirsOf(Renamed(fs, x, y)) == Moved(dirs, a.id, Slot(dirs[a.id], x[|x| - 1]), b.id, y[|y| - 1])
  {
    hide Find, Walk, Shaped, IsTree, OwnBlocks, Slot;
    RootFound(fs);
    ParentFound(fs, x);
    FoundIsDir(fs, x);
    FoundIsDir(fs, y);
    var dirs := DirsOf(fs);
    var a, b := Walk(dirs, Above(x)).id, Walk(dirs, Above(y)).id;
    var k := Slot(dirs[a], x[|x| - 1]);
    var e := Entry(y[|y| - 1], dirs[a][k].inode);
    ListSize(fs, a);
    WithEntryDirs(fs, b, e);
    ListSize(WithEntry(fs, b, e), a);
    WithoutEntryDirs(WithEntry(fs, b, e), a, k);
    if x <= y {
      MoveInsideKeeps(dirs, x, a, k, y, b);
    } else {
      MoveKeeps(dirs, x, a, k, y, b);
    }
  }

  function Cleared(): (r: seq<Entry>)
    ensures |r| == SLOTS && forall j | 0 <= j < SLOTS :: r[j] == EMPTY
  {
    ClearedTo(SLOTS)
  }

  function ClearedTo(n: nat): (r: seq<Entry>)
    ensures |r| == n && forall j | 0 <= j < n :: r[j] == EMPTY
  {
    if n == 0 then [] else ClearedTo(n - 1) + [EMPTY]
  }

  lemma RootAlone(fs: Fs)
    requires Shaped(fs) && fs.inodes == [Inode(Dir, 0, 0)] && fs.blockCount == 1
    ensures Sound(fs) && DirsOf(fs) == [[]]
  {
    var dirs := DirsOf(fs);
    assert dirs == [[]];
    forall p | Walk(dirs, p).At? ensures p == [] {
      if p != [] {
        FindMissing([], p[|p| - 1]);
      }
    }
  }

  lemma RootFound(fs: Fs)
    requires Sound(fs)
    ensures Shaped(fs) && InRange(DirsOf(fs)) && |DirsOf(fs)| > 0 && Walk(DirsOf(fs), []) == At(0)
  {
  }

  lemma FoundAt(es: seq<Entry>, name: string)
    ensures Find(es, name) == if Slot(es, name) < |es| then At(es[Slot(es, name)].inode) else Missing
  {
  }

  lemma NextIsDir(fs: Fs, path: string, done: Path, token: string)
    requires Sound(fs) && ThroughDirs(fs, Names(path)) && done + [token] <= Names(path)
    requires Walk(DirsOf(fs), done).At?
    ensures fs.inodes[Walk(DirsOf(fs), done).id].kind.Dir?
  {
    assert done == Names(path)[..|done|];
  }

  /** At every path a rename shows what was there before, except below the old place, where nothing is left, and below
      the new one, where all of it has gone; into a place below itself it goes out of reach. */
  lemma RenameShows(fs: Fs, x: Path, y: Path, p: Path)
    requires Sound(fs) && CanRename(fs, x, y) && ThroughDirs(fs, x) && ThroughDirs(fs, y) && HasRoom(fs, Above(y))
    ensures Sound(Renamed(fs, x, y))
    ensures
      Walk(DirsOf(Renamed(fs, x, y)), p) ==
      if y <= p && !(x <= y) then Walk(DirsOf(fs), x + p[|y|..])
      else if x <= p then Missing
      else Walk(DirsOf(fs), p)
  {
    hide Find, Walk, Shaped, IsTree, OwnBlocks, ThroughDirs, HasRoom, Slot;
    RootFound(fs);
    ParentFound(fs, x);
    RenameDirs(fs, x, y);
    var dirs := DirsOf(fs);
    var a, b := Walk(dirs, Above(x)).id, Walk(dirs, Above(y)).id;
    if x <= y {
      MoveInside(dirs, x, a, Slot(dirs[a], x[|x| - 1]), y, b, p);
      if y <= p {
        assert x <= p;
      }
    } else {
      MoveRelocates(dirs, x, a, Slot(dirs[a], x[|x| - 1]), y, b, p);
    }
  }

  /** A rename leaves every inode's kind, and the sizes of all but the two directories. */
  lemma RenameKinds(fs: Fs, x: Path, y: Path, i: nat)
    requires Sound(fs) && CanRename(fs, x, y) && ThroughDirs(fs, x) && ThroughDirs(fs, y) && HasRoom(fs, Above(y))
    requires i < |fs.inodes|
    ensures
      var r := Renamed(fs, x, y);
      && |r.inodes| == |fs.inodes| && r.inodes[i].kind == fs.inodes[i].kind
      && (At(i) == Walk(DirsOf(fs), Above(x)) ==> r.inodes[i].size < SLOTS)
  {
    hide Find, Walk, IsTree, OwnBlocks, ThroughDirs, HasRoom, Slot;
    RootFound(fs);
    ParentFound(fs, x);
    FoundIsDir(fs, x);
    FoundIsDir(fs, y);
    RoomAbove(fs, y);
  }
}
