/** Phase C: deleting into the recycle bin, the history of deletions, and undo. */
module PhaseHistory {
  import opened PhaseTree
  import opened PhasePaths
  import opened PhaseFs

  const RECYCLE := "/system/.recycle"
  const HISTORY := 64

  datatype Deletion = Deletion(src: string, dst: string)

  /** What a rename needs of the two paths, beyond what it checks itself. */
  ghost predicate CanTry(fs: Fs, x: Path, y: Path) {
    Sound(fs) && ThroughDirs(fs, x) && ThroughDirs(fs, y) && HasRoom(fs, Above(y))
  }

  /** A rename that may refuse. */
  ghost function TryRename(fs: Fs, x: Path, y: Path): (r: Fs)
    requires CanTry(fs, x, y)
    ensures Sound(r)
  {
    if CanRename(fs, x, y) then
      RenameDirs(fs, x, y);
      Renamed(fs, x, y)
    else fs
  }

  ghost predicate SamePaths(fs: Fs, g: Fs)
    requires Sound(fs) && Sound(g)
  {
    forall p :: Walk(DirsOf(g), p) == Walk(DirsOf(fs), p)
  }

  lemma StillThrough(fs: Fs, x: Path, y: Path, p: Path)
    requires CanTry(fs, x, y) && CanRename(fs, x, y) && ThroughDirs(fs, p) && (p == x || p == y)
    ensures Sound(Renamed(fs, x, y)) && ThroughDirs(Renamed(fs, x, y), p)
  {
    hide Find, Walk, Shaped, IsTree, OwnBlocks, HasRoom, Slot, Renamed;
    RenameDirs(fs, x, y);
    var r := Renamed(fs, x, y);
    RootFound(fs);
    RootFound(r);
    forall k | 0 <= k < |p| ensures Walk(DirsOf(r), p[..k]).At? ==> r.inodes[Walk(DirsOf(r), p[..k]).id].kind.Dir? {
      RenameShows(fs, x, y, p[..k]);
      if y <= p[..k] && !(x <= y) {
        assert p == x;
        PrefixFound(DirsOf(fs), y, x);
      } else if Walk(DirsOf(r), p[..k]).At? {
        WalkBound(DirsOf(fs), p[..k]);
        RenameKinds(fs, x, y, Walk(DirsOf(fs), p[..k]).id);
      }
    }
  }

  /** After a rename that went through, the way back can be tried. */
  lemma WayBack(fs: Fs, x: Path, y: Path)
    requires CanTry(fs, x, y) && CanRename(fs, x, y)
    ensures CanTry(Renamed(fs, x, y), y, x)
    ensures CanRename(Renamed(fs, x, y), y, x) <==> !(x <= y)
  {
    hide Find, Walk, Shaped, IsTree, OwnBlocks, Slot, Renamed, ThroughDirs;
    var r := Renamed(fs, x, y);
    StillThrough(fs, x, y, x);
    StillThrough(fs, x, y, y);
    RootFound(fs);
    RootFound(r);
    ParentFound(fs, x);
    RenameShows(fs, x, y, Above(x));
    RenameShows(fs, x, y, x);
    RenameShows(fs, x, y, y);
    var a := Walk(DirsOf(fs), Above(x)).id;
    WalkBound(DirsOf(fs), Above(x));
    RenameKinds(fs, x, y, a);
    assert !(x <= Above(x));
    if y <= Above(x) {
      PrefixFound(DirsOf(fs), y, Above(x));
    }
    if y <= x {
      PrefixFound(DirsOf(fs), y, x);
    }
    assert x + y[|y|..] == x;
  }

  /** Renaming there and back restores what every path leads to. */
  lemma BackAgain(fs: Fs, x: Path, y: Path)
    requires CanTry(fs, x, y) && CanRename(fs, x, y) && !(x <= y)
    requires CanTry(Renamed(fs, x, y), y, x) && CanRename(Renamed(fs, x, y), y, x)
    ensures Sound(Renamed(Renamed(fs, x, y), y, x)) && SamePaths(fs, Renamed(Renamed(fs, x, y), y, x))
  {
    hide Find, Walk, Shaped, IsTree, OwnBlocks, Slot, Renamed, ThroughDirs, HasRoom;
    var r := Renamed(fs, x, y);
    RootFound(fs);
    RenameDirs(fs, x, y);
    RootFound(r);
    RenameDirs(r, y, x);
    RootFound(Renamed(r, y, x));
    RenameShows(fs, x, y, Above(x));
    RenameShows(fs, x, y, Above(y));
    if y <= Above(x) {
      PrefixFound(DirsOf(fs), y, Above(x));
    }
    var dirs, a, b := DirsOf(fs), Walk(DirsOf(fs), Above(x)).id, Walk(DirsOf(fs), Above(y)).id;
    var k, j := Slot(dirs[a], x[|x| - 1]), Slot(DirsOf(r)[b], y[|y| - 1]);
    forall p ensures Walk(DirsOf(Renamed(r, y, x)), p) == Walk(dirs, p) {
      MoveBack(dirs, x, a, k, y, b, j, p);
    }
  }

  /** Where a deleted path's last name goes. */
  function BinPath(p: Path): Path {
    ["system", ".recycle", LastName(p)]
  }

  function LastName(p: Path): string {
    if p == [] then "" else p[|p| - 1]
  }

  /** Where the deleted inode is after the deletion: in the recycle bin alone, or nowhere. */
  lemma DeletedAt(fs: Fs, x: Path, y: Path, q: Path)
    requires CanTry(fs, x, y) && CanRename(fs, x, y)
    ensures Sound(Renamed(fs, x, y)) && Walk(DirsOf(Renamed(fs, x, y)), x).Missing?
    ensures Walk(DirsOf(Renamed(fs, x, y)), q) == Walk(DirsOf(fs), x) ==> q == y && !(x <= y)
  {
    hide Find, Walk, Shaped, OwnBlocks, Slot, Renamed, ThroughDirs, HasRoom;
    var r := Renamed(fs, x, y);
    RenameShows(fs, x, y, x);
    RenameShows(fs, x, y, q);
    RenameShows(fs, x, y, y);
    if y <= x {
      PrefixFound(DirsOf(fs), y, x);
    }
    assert x + y[|y|..] == x;
    if Walk(DirsOf(r), q) == Walk(DirsOf(fs), x) {
      if !(x <= y) {
        Same(DirsOf(r), q, y);
      }
    }
  }

  /** Undoing another deletion does not bring back what has just been deleted. */
  lemma OtherUndone(fs: Fs, x: Path, y: Path, x2: Path, y2: Path)
    requires CanTry(fs, x, y) && CanRename(fs, x, y) && CanTry(Renamed(fs, x, y), y2, x2)
    requires y == BinPath(x) && y2 == BinPath(x2) && x != x2
    ensures !SamePaths(fs, TryRename(Renamed(fs, x, y), y2, x2))
  {
    hide Find, Walk, Shaped, IsTree, OwnBlocks, Slot, Renamed, ThroughDirs, HasRoom, BinPath;
    var r := Renamed(fs, x, y);
    RootFound(fs);
    RootFound(r);
    DeletedAt(fs, x, y, y);
    if CanRename(r, y2, x2) {
      RenameShows(r, y2, x2, x);
      if x2 <= x && !(y2 <= x2) {
        var q := y2 + x[|x2|..];
        DeletedAt(fs, x, y, q);
        assert |y| == |y2| by {
          BinDepth(x);
          BinDepth(x2);
        }
        assert |q| == |y2| + |x| - |x2|;
        assert |x| == |x2| ==> x == x2;
      }
    }
  }

  lemma BinDepth(p: Path)
    ensures |BinPath(p)| == 3
  {
  }

  /** Deleting x and then undoing the deletion of x2 leads every path where it led before, exactly when the deletion went
      through to a place outside of what was deleted and is the one taken back, or failed and there is nothing in the
      recycle bin that undo would put back. */
  lemma DeleteUndoExactly(fs: Fs, x: Path, y: Path, x2: Path, y2: Path)
    requires CanTry(fs, x, y) && CanTry(TryRename(fs, x, y), y2, x2)
    requires y == BinPath(x) && y2 == BinPath(x2)
    ensures
      SamePaths(fs, TryRename(TryRename(fs, x, y), y2, x2)) <==>
      if CanRename(fs, x, y) then x == x2 && !(x <= y) else !CanRename(fs, y2, x2)
  {
    hide Find, Walk, Shaped, IsTree, OwnBlocks, Slot, Renamed, ThroughDirs, HasRoom, BinPath;
    RootFound(fs);
    if CanRename(fs, x, y) {
      if x != x2 {
        OtherUndone(fs, x, y, x2, y2);
      } else {
        WayBack(fs, x, y);
        if x <= y {
          RenameShows(fs, x, y, x);
        } else {
          BackAgain(fs, x, y);
        }
      }
    } else if CanRename(fs, y2, x2) {
      RenameShows(fs, y2, x2, x2);
      RenameShows(fs, y2, x2, y2);
      assert y2 + x2[|x2|..] == y2;
    }
  }

  // The two actions.

  /** What stands behind the last slash. */
  method BaseName(path: string) returns (name: string)
    requires Plain(path)
    ensures IsName(name) && Names(path) != [] && name == LastName(Names(path))
  {
    var i := |path| - 1;
    while i >= 0 && path[i] != '/'
      invariant 0 <= i < |path|
      invariant forall j | i < j < |path| :: path[j] != '/'
    {
      i := i - 1;
    }
    name := path[i + 1..];
    assert path == path[..i] + "/" + name;
    NamesJoin(path[..i], name);
  }

  function BinFile(path: string): string {
    RECYCLE + "/" + LastName(Names(path))
  }

  lemma BinNames(name: string)
    requires IsName(name)
    ensures Names(RECYCLE + "/" + name) == ["system", ".recycle", name]
  {
    NamesJoin(RECYCLE, name);
    NamesJoin("/system", ".recycle");
    NamesJoin("", "system");
    RootNames();
    assert "/system" + "/" + ".recycle" == RECYCLE && "" + "/" + "system" == "/system";
  }

  lemma PlainBin(name: string)
    requires IsName(name) && |name| < MAX_NAME
    ensures Plain(RECYCLE + "/" + name)
  {
    BinNames(name);
    var p := RECYCLE + "/" + name;
    assert p[|p| - 1] == name[|name| - 1];
  }

  class Desktop {
    const disk: Disk
    const history: array<Deletion>
    var top: nat

    ghost predicate Valid()
      reads this, history, disk, disk.inodeTable, disk.blocks
    {
      && disk.Valid() && history.Length == HISTORY && top <= HISTORY
      && AllPlain(Recorded())
    }

    constructor (d: Disk)
      requires d.Valid()
      ensures Valid() && disk == d && top == 0 && fresh(history)
    {
      disk := d;
      history := new Deletion[HISTORY](_ => Deletion("", ""));
      top := 0;
    }

    function Recorded(): seq<Deletion>
      requires top <= history.Length
      reads this, history
    {
      history[..top]
    }

    /** history_push: an entry that does not fit is dropped. */
    method Push(d: Deletion)
      requires history.Length == HISTORY && top <= HISTORY
      modifies `top, history
      ensures top <= HISTORY && Recorded() == PushOn(old(Recorded()), d)
    {
      if top >= HISTORY {
        return;
      }
      history[top] := d;
      top := top + 1;
    }

    /** ACT_DELETE: recorded first, whatever comes of it; then the rename into the recycle bin. */
    method Delete(path: string) returns (ok: bool)
      requires Valid() && Plain(path)
      requires CanTry(disk.Snapshot(), Names(path), BinPath(Names(path)))
      modifies `top, history, disk, disk.inodeTable, disk.blocks
      ensures Valid()
      ensures disk.Snapshot() == TryRename(old(disk.Snapshot()), Names(path), BinPath(Names(path)))
      ensures ok <==> CanRename(old(disk.Snapshot()), Names(path), BinPath(Names(path)))
      ensures Recorded() == PushOn(old(Recorded()), Deletion(path, BinFile(path)))
    {
      hide CanTry, CanRename, Renamed, Sound, Shaped, IsTree, OwnBlocks, ThroughDirs, HasRoom;
      var name := BaseName(path);
      var target := RECYCLE + "/" + name;
      DeletePaths(path, name, target);
      CanTryParts(disk.Snapshot(), Names(path), BinPath(Names(path)));
      Push(Deletion(path, target));
      RecordedPlain(old(Recorded()), Deletion(path, target));
      ok := disk.Rename(path, target);
    }

    /** ACT_UNDO: takes back the last recorded deletion by renaming the other way. */
    method Undo()
      requires Valid()
      requires top > 0 ==> CanTry(disk.Snapshot(), Names(history[top - 1].dst), Names(history[top - 1].src))
      modifies `top, disk, disk.inodeTable, disk.blocks
      ensures Valid()
      ensures old(top) == 0 ==> top == 0 && disk.Snapshot() == old(disk.Snapshot())
      ensures old(top) > 0 ==>
        && top == old(top) - 1
        && Recorded() == old(Recorded())[..top]
        && disk.Snapshot() == TryRename(old(disk.Snapshot()), Names(old(history[top - 1].dst)), Names(old(history[top - 1].src)))
    {
      hide CanTry, CanRename, Renamed, Sound, Shaped, IsTree, OwnBlocks, ThroughDirs, HasRoom;
      if top == 0 {
        return;
      }
      top := top - 1;
      var h := history[top];
      assert h == old(Recorded())[top] && Recorded() == old(Recorded())[..top];
      CanTryParts(disk.Snapshot(), Names(h.dst), Names(h.src));
      var ok := disk.Rename(h.dst, h.src);
    }
  }

  function PushOn(h: seq<Deletion>, d: Deletion): seq<Deletion> {
    if |h| < HISTORY then h + [d] else h
  }

  /** Deletions of plain paths into the recycle bin. */
  predicate AllPlain(h: seq<Deletion>) {
    forall d <- h :: Plain(d.src) && Plain(d.dst) && d.dst == BinFile(d.src)
  }

  lemma RecordedPlain(h: seq<Deletion>, d: Deletion)
    requires AllPlain(h) && Plain(d.src) && Plain(d.dst) && d.dst == BinFile(d.src)
    ensures AllPlain(PushOn(h, d))
  {
    hide Plain, BinFile;
  }

  lemma DeletePaths(path: string, name: string, target: string)
    requires Plain(path) && IsName(name) && Names(path) != [] && name == LastName(Names(path)) && target == RECYCLE + "/" + name
    ensures Plain(target) && Names(target) == BinPath(Names(path)) && target == BinFile(path)
  {
    assert name in Names(path);
    BinNames(name);
    PlainBin(name);
  }

  lemma CanTryParts(fs: Fs, x: Path, y: Path)
    requires CanTry(fs, x, y)
    ensures Sound(fs) && ThroughDirs(fs, x) && ThroughDirs(fs, y) && HasRoom(fs, Above(y))
  {
  }

  /** The deletion that undo takes back after this one: this one, unless the history was full already. */
  function TakenBack(h: seq<Deletion>, path: string): Deletion
    requires |h| <= HISTORY
  {
    if |h| < HISTORY then Deletion(path, BinFile(path)) else h[HISTORY - 1]
  }

  /** Deleting and at once undoing restores every path exactly when it should; with a full history that takes the last
      recorded deletion to be of the same path. */
  method DeleteThenUndo(desktop: Desktop, path: string) returns (ok: bool)
    requires desktop.Valid() && Plain(path)
    requires CanTry(desktop.disk.Snapshot(), Names(path), BinPath(Names(path)))
    requires
      var h := TakenBack(desktop.Recorded(), path);
      CanTry(TryRename(desktop.disk.Snapshot(), Names(path), BinPath(Names(path))), Names(h.dst), Names(h.src))
    modifies desktop, desktop.history, desktop.disk, desktop.disk.inodeTable, desktop.disk.blocks
    ensures desktop.Valid()
    ensures
      var x, y, fs := Names(path), BinPath(Names(path)), old(desktop.disk.Snapshot());
      var h := old(TakenBack(desktop.Recorded(), path));
      && (ok <==> CanRename(fs, x, y))
      && (SamePaths(fs, desktop.disk.Snapshot()) <==> if ok then x == Names(h.src) && !(x <= y) else !CanRename(fs, Names(h.dst), Names(h.src)))
  {
    hide CanTry, CanRename, Renamed, Sound, Shaped, IsTree, OwnBlocks, ThroughDirs, HasRoom, TryRename, SamePaths, BinPath, BinFile;
    ghost var fs := desktop.disk.Snapshot();
    ghost var before := desktop.Recorded();
    ghost var h := TakenBack(before, path);
    ok := desktop.Delete(path);
    ghost var recorded := desktop.Recorded();
    assert h == recorded[|recorded| - 1] && h in recorded;
    DeletedName(h.src);
    DeleteUndoExactly(fs, Names(path), BinPath(Names(path)), Names(h.src), Names(h.dst));
    desktop.Undo();
  }

  lemma DeletedName(path: string)
    requires Plain(path)
    ensures Names(BinFile(path)) == BinPath(Names(path))
  {
    EndsInName(path);
    NamesClean(path);
    BinNames(LastName(Names(path)));
  }

  /** A plain path has a last name. */
  lemma EndsInName(path: string)
    requires Plain(path)
    ensures Names(path) != [] && IsName(LastName(Names(path)))
  {
    NamesClean(path);
    assert ScanTo(path, |path|) == ScanChar(ScanTo(path, |path| - 1), path[|path| - 1]);
  }
}
