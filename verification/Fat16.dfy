/** The FAT16 driver on root-directory files. */
module Fat16 {
  import opened Octets
  import opened Fat16Image
  import opened Fat16Names
  import opened Fat16Chains
  import opened Fat16Books
  import opened Fat16Growth
  import opened Fat16Scan

  lemma EntryPosition(c: nat)
    ensures (c * 2) / 512 == c / 256 && (c * 2) % 512 == 2 * (c % 256)
  {
  }

  /** A sector with its beginning replaced. */
  function Overwritten(s: Sector, b: seq<byte>): (r: Sector)
    requires |b| <= 512
    ensures r[..|b|] == b
  {
    b + s[|b|..]
  }

  class Volume {
    const g: Geometry
    /** Clusters at or above the limit have no entry in the FAT or no sectors. */
    const limit: nat
    var img: Image
    /** The clusters of each live entry of the root directory, by slot. */
    ghost var chains: map<nat, seq<nat>>
    /** Clusters marked in use that no entry refers to. */
    ghost var lost: set<nat>

    ghost predicate OnDisk()
      reads this
    {
      Fits(g, img) && limit <= g.Entries() && limit <= END_MARK && g.sectorsPerCluster >= 1
    }

    ghost predicate Formatted()
      reads this
      ensures Formatted() ==> OnDisk()
    {
      Fat16Scan.Formatted(g, limit, img)
    }

    ghost function FatNow(): (fat: seq<nat>)
      requires OnDisk()
      reads this
      ensures |fat| == g.Entries()
    {
      Fat(g, img)
    }

    ghost function SlotsNow(): seq<Slot>
      requires OnDisk()
      reads this
    {
      Slots(g, img)
    }

    ghost function DataNow(): seq<Sector>
      requires OnDisk()
      reads this
    {
      Data(g, img)
    }

    /** Behind the end of the disk a read gives anything. */
    method ReadSector(lba: nat) returns (s: Sector)
      ensures lba < |img| ==> s == img[lba]
    {
      s := *;
      if lba < |img| {
        s := img[lba];
      }
    }

    /** Behind the end of the disk a write is lost. */
    method WriteSector(lba: nat, s: Sector)
      modifies `img
      ensures img == if lba < |old(img)| then old(img)[lba := s] else old(img)
    {
      if lba < |img| {
        img := img[lba := s];
      }
    }

    method GetFatEntry(cluster: nat) returns (v: nat)
      requires OnDisk() && cluster < END_MARK
      ensures v == Entry(g, img, cluster)
    {
      var fatOffset := cluster * 2;
      EntryPosition(cluster);
      var buffer := ReadSector(g.reserved + fatOffset / 512);
      v := Get16(buffer[fatOffset % 512], buffer[fatOffset % 512 + 1]);
    }

    method SetFatEntry(cluster: nat, value: nat)
      requires OnDisk() && cluster < END_MARK && value < 0x1_0000
      modifies `img
      ensures OnDisk() && img == SetEntry(g, old(img), cluster, value)
      ensures SameBefore(g, old(img), img)
    {
      var fatOffset := cluster * 2;
      EntryPosition(cluster);
      WriteWord(g, img, cluster, value);
      var fatSector, entryOffset := g.reserved + fatOffset / 512, fatOffset % 512;
      var buffer := ReadSector(fatSector);
      buffer := buffer[entryOffset := Low(value)][entryOffset + 1 := Low(value / 256)];
      WriteSector(fatSector, buffer);
      if g.fats > 1 {
        WriteSector(fatSector + g.sectorsPerFat, buffer);
      }
    }

    /**
     * The first cluster whose word is zero, marked as the end of a chain; 0 when there is none. The scan does not stop where
     * the volume does: it gives a free cluster of the volume, or 0 and changes nothing, exactly when the volume has a free
     * cluster or no word behind its clusters looks free.
     */
    method AllocCluster() returns (c: nat)
      requires OnDisk()
      modifies `img
      ensures OnDisk() && FirstFree(g, old(img), c) && (c == 0 || 2 <= c < END_MARK)
      ensures img == if c == 0 then old(img) else SetEntry(g, old(img), c, LAST)
      ensures SameBefore(g, old(img), img)
      ensures old(Formatted()) ==>
        (FreeSet(old(FatNow()), limit) != {} || Fenced(g, old(img), limit) <==>
          || (c == 0 && img == old(img))
          || (2 <= c < limit && Formatted() && FatNow() == old(FatNow())[c := LAST] && SlotsNow() == old(SlotsNow()) && DataNow() == old(DataNow())))
    {
      hide SetEntry, Entry, FreeSet, Fenced, Fat, Slots, Data, Mirrored, Roomy;
      var cluster := 2;
      while cluster < END_MARK
        invariant img == old(img)
        invariant 2 <= cluster <= END_MARK
        invariant forall d :: 2 <= d < cluster ==> Entry(g, img, d) != 0
      {
        var v := GetFatEntry(cluster);
        if v == 0 {
          SetFatEntry(cluster, LAST);
          if old(Formatted()) {
            Scanned(old(img), cluster);
          }
          return cluster;
        }
        cluster := cluster + 1;
      }
      if Formatted() {
        Scanned(img, 0);
      }
      return 0;
    }

    /** What the scan gives, seen from the volume. */
    lemma Scanned(was: Image, c: nat)
      requires Fat16Scan.Formatted(g, limit, was) && FirstFree(g, was, c)
      ensures FreeSet(Fat(g, was), limit) != {} || Fenced(g, was, limit) <==> c < limit
      ensures 2 <= c < limit ==>
        var now := SetEntry(g, was, c, LAST);
        Fat(g, was)[c] == 0 && Fat16Scan.Formatted(g, limit, now) && Fat(g, now) == Fat(g, was)[c := LAST] && Slots(g, now) == Slots(g, was) && Data(g, now) == Data(g, was)
    {
      hide SetEntry, Entry, Slots, Data, Mirrored, Roomy;
      if 2 <= c < limit {
        assert c in FreeSet(Fat(g, was), limit);
        SetOnVolume(g, limit, was, was, c, LAST);
      } else {
        assert forall d :: 2 <= d < limit ==> Fat(g, was)[d] == Entry(g, was, d) != 0;
        assert FreeSet(Fat(g, was), limit) == {};
      }
    }

    /** Write the i-th sector of a cluster. */
    method WriteDataSector(c: nat, i: nat, s: Sector)
      requires OnDisk() && 2 <= c
      modifies `img
      ensures OnDisk() && OnlyData(g, old(img), img)
      ensures DataNow() == if SectorIndex(g.sectorsPerCluster, c, i) < |old(DataNow())| then old(DataNow())[SectorIndex(g.sectorsPerCluster, c, i) := s] else old(DataNow())
    {
      hide Fits, Data;
      WriteData(g, img, SectorIndex(g.sectorsPerCluster, c, i), s);
      WriteSector(g.DataStart() + SectorIndex(g.sectorsPerCluster, c, i), s);
    }

    /**
     * Copy as much of the buffer as fits into one cluster, from byte w0 of the buffer on. Sectors before the data area stay as
     * they are even for a cluster outside of the volume.
     */
    method WriteCluster(c: nat, buffer: seq<byte>, w0: nat) returns (w: nat)
      requires OnDisk() && 2 <= c && w0 < |buffer|
      modifies `img
      ensures OnDisk() && OnlyData(g, old(img), img) && w0 < w <= |buffer|
      ensures old(Formatted()) && c < limit ==>
        && Formatted() && FatNow() == old(FatNow()) && SlotsNow() == old(SlotsNow()) && SameElsewhere(g, old(img), img)
        && Copied(DataNow(), g.sectorsPerCluster, c, g.sectorsPerCluster, buffer, w0, w)
        && OnlyCluster(old(DataNow()), DataNow(), g.sectorsPerCluster, c)
    {
      hide Overwritten, SectorIndex, Copied, OnlyCluster, OnlyData, Fits, Fat, Slots, Data, Fat16Scan.Formatted, SameElsewhere;
      ghost var spc, inside := g.sectorsPerCluster, Formatted() && c < limit;
      var i := 0;
      w := w0;
      OnlyDataTwice(g, img, img, img);
      if inside {
        RoomyNow();
        NothingCopied(DataNow(), spc, limit, c, buffer, w0);
      }
      while i < g.sectorsPerCluster && w < |buffer|
        invariant 0 <= i <= g.sectorsPerCluster && w0 <= w <= |buffer| && (w < |buffer| ==> w == w0 + 512 * i) && (i > 0 ==> w > w0)
        invariant OnDisk() && OnlyData(g, old(img), img)
        invariant inside ==> Copied(DataNow(), spc, c, i, buffer, w0, w) && OnlyCluster(old(DataNow()), DataNow(), spc, c)
        decreases g.sectorsPerCluster - i
      {
        var chunk := if |buffer| - w > 512 then 512 else |buffer| - w;
        var stored := ReadSector(g.DataStart() + SectorIndex(g.sectorsPerCluster, c, i));
        var secBuf := Overwritten(stored, buffer[w..w + chunk]);
        ghost var data, was := DataNow(), img;
        WriteDataSector(c, i, secBuf);
        OnlyDataTwice(g, old(img), was, img);
        if inside {
          CopyMore(old(DataNow()), data, spc, c, i, buffer, w0, w, chunk, secBuf);
        }
        i := i + 1;
        w := w + chunk;
      }
      if inside {
        CopiedAll(DataNow(), spc, c, i, buffer, w0, w);
        DataWritten(g, limit, old(img), img);
      }
    }

    lemma DataInImage(c: nat, i: nat)
      requires Formatted() && 2 <= c < limit && i < g.sectorsPerCluster
      ensures g.DataStart() + SectorIndex(g.sectorsPerCluster, c, i) < |img|
      ensures SectorIndex(g.sectorsPerCluster, c, i) < |DataNow()|
    {
      assert SectorIndex(g.sectorsPerCluster, c, i) < |DataNow()|;
    }

    /** The cluster behind the given one; behind the last one, a cluster taken from the scan. 0 when there is none. */
    method Advance(cluster: nat) returns (next: nat)
      requires OnDisk() && 2 <= cluster < END_MARK
      modifies `img
      ensures OnDisk() && SameBefore(g, old(img), img) && next < END_MARK
      ensures 0 < Entry(g, old(img), cluster) < END_MARK ==> next == Entry(g, old(img), cluster) && img == old(img)
      ensures !(0 < Entry(g, old(img), cluster) < END_MARK) ==>
        FirstFree(g, old(img), next) && img == if next == 0 then old(img) else Taken(g, old(img), [cluster], next)
    {
      hide SetEntry, Entry;
      next := GetFatEntry(cluster);
      if next >= END_MARK || next == 0 {
        next := AllocCluster();
        if next != 0 {
          SetFatEntry(cluster, next);
        }
      }
    }

    /**
     * Write the buffer from the start of a chain, extending the chain as needed; `cur` is the chain afterwards. The chain
     * grows within the volume exactly when there is room or nothing behind the volume looks free once it is full;
     * otherwise it goes on outside of it.
     */
    method WriteChain(impl: nat, buffer: seq<byte>, ghost ch: seq<nat>) returns (written: nat, first: nat, ghost cur: seq<nat>)
      requires Formatted() && (ch == [] || IsChain(FatNow(), limit, ch)) && impl == (if ch == [] then 0 else ch[0])
      modifies `img
      ensures OnDisk() && SameBefore(g, old(img), img) && first < END_MARK
      ensures written <= |buffer| && (written == 0 <==> buffer == [] || first == 0)
      ensures !old(StaysInside(g, limit, img, ch, buffer)) ==> Astray(g, limit, img, old(Utmost(FatNow(), limit, ch)), first)
      ensures old(StaysInside(g, limit, img, ch, buffer)) ==>
        && Formatted() && SlotsNow() == old(SlotsNow())
        && (cur == [] ==> ch == [] && written == 0 && first == 0 && img == old(img) && FreeSet(old(FatNow()), limit) == {})
        && (cur != [] ==> 2 <= first == cur[0] && Grown(old(FatNow()), FatNow(), limit, ch, cur))
        && SameOutside(old(DataNow()), DataNow(), g.sectorsPerCluster, cur)
        && (cur != [] ==> Stored(DataNow(), g.sectorsPerCluster, limit, cur, buffer, written))
        && (buffer != [] ==> (written == |buffer| <==> Room(old(FatNow()), limit, g.sectorsPerCluster, ch, |buffer|)))
        && (buffer == [] && ch != [] ==> cur == ch && img == old(img))
        && (buffer == [] && ch == [] && cur != [] ==>
          |cur| == 1 && 2 <= cur[0] < limit && old(FatNow())[cur[0]] == 0 && FatNow() == old(FatNow())[cur[0] := LAST] && DataNow() == old(DataNow()))
    {
      hide Fat16Scan.Formatted, OnTrack, StaysInside, Astray, Utmost, FirstFree, Taken, SetEntry, Entry, Fat, Slots, Data, IsChain, Room, Grown, FreeSet,
        SameOutside, Stored, SameElsewhere, Copied, OnlyCluster, SameBefore, OnlyData;
      ghost var img0, all := img, Utmost(FatNow(), limit, ch);
      LimitInFat(g, limit, img);
      StartGrown(FatNow(), limit, ch, DataNow(), g.sectorsPerCluster);
      SameBeforeTwice(g, img, img, img);
      if ch != [] {
        ChainCluster(FatNow(), limit, ch, 0);
      }
      written, cur := 0, ch;
      var cluster := impl;
      if cluster == 0 {
        cluster := AllocCluster();
        TakeFirst(g, limit, img0, buffer, cluster);
        Scanned(img0, cluster);
        if cluster == 0 {
          return 0, 0, [];
        }
        cur := if cluster < limit then [cluster] else [];
      } else {
        StartTrack(g, limit, img, ch, buffer);
      }
      first := cluster;
      ghost var img1, cur1, astray, q := img, cur, cluster >= limit, 0;
      while cluster >= 2 && written < |buffer|
        invariant OnDisk() && SameBefore(g, img0, img) && cluster < END_MARK
        invariant astray ==> !StaysInside(g, limit, img0, ch, buffer) && Astray(g, limit, img, all, first)
        invariant !astray ==> cur != [] && 2 <= first == cur[0] && OnTrack(g, limit, img0, img, ch, cur, q, buffer, written)
        invariant !astray && written < |buffer| && cluster != 0 ==> q < |cur| && cluster == cur[q]
        invariant !astray && written < |buffer| && cluster == 0 ==> StaysInside(g, limit, img0, ch, buffer) && !Room(Fat(g, img0), limit, g.sectorsPerCluster, ch, |buffer|)
        invariant !astray && buffer == [] ==> img == img1 && cur == cur1
        invariant written <= |buffer| && (written == 0 ==> cluster == first)
        decreases |buffer| - written
      {
        ghost var was, w0 := img, written;
        if !astray {
          ClustersInside(g, limit, img0, img, ch, cur, q, buffer, written);
        }
        written := WriteCluster(cluster, buffer, written);
        SameBeforeTwice(g, img0, was, img);
        if astray {
          WriteAstray(g, limit, was, img, all, first);
        } else {
          ClusterWritten(g, limit, img0, was, img, ch, cur, q, buffer, w0, written);
          q := q + 1;
          NextInside(g, limit, img0, img, ch, cur, q, buffer, written);
        }
        was := img;
        if written < |buffer| {
          var next := Advance(cluster);
          SameBeforeTwice(g, img0, was, img);
          if astray {
            if img != was {
              AdvanceAstray(g, limit, was, all, first, cluster, next);
            }
          } else {
            AdvanceInside(g, limit, img0, was, ch, cur, q, buffer, written, next);
            if q == |cur| && next != 0 {
              astray := next >= limit;
              cur := if astray then cur else cur + [next];
            }
          }
          cluster := next;
        }
      }
      if !astray {
        ClustersInside(g, limit, img0, img, ch, cur, q, buffer, written);
        AllStored(g, limit, img0, img, ch, cur, q, buffer, written);
      }
    }

    // ----- The root directory -----

    ghost predicate Valid()
      reads this
    {
      Formatted() && Books(FatNow(), SlotsNow(), limit, chains, lost)
    }

    /** The bytes of the file whose entry is in slot k. */
    ghost function FileBytes(k: nat): seq<byte>
      requires Formatted() && k in chains && k < |SlotsNow()|
      reads this
    {
      Content(DataNow(), g.sectorsPerCluster, limit, SizeOf(SlotsNow()[k]), chains[k])
    }

    method ReadSlot(k: nat) returns (s: Slot)
      requires OnDisk() && k < g.Slots()
      ensures s == SlotsNow()[k]
    {
      var buffer := ReadSector(g.RootStart() + k / 16);
      s := SlotIn(buffer, k % 16);
    }

    method WriteSlotAt(k: nat, s: Slot)
      requires OnDisk() && k < g.Slots()
      modifies `img
      ensures OnDisk() && FatNow() == old(FatNow()) && DataNow() == old(DataNow()) && (old(Formatted()) ==> Formatted())
      ensures SlotsNow() == old(SlotsNow())[k := s]
      ensures SameBefore(g, old(img), img)
    {
      WriteSlot(g, img, k, s);
      var buffer := ReadSector(g.RootStart() + k / 16);
      WriteSector(g.RootStart() + k / 16, PutSlot(buffer, k % 16, s));
    }

    /** Walk the root directory sector by sector until an entry matches or the directory ends. */
    method FindEntry(name: seq<byte>) returns (r: Found)
      requires OnDisk()
      ensures r == FindFrom(SlotsNow(), name, 0)
    {
      hide FindFrom, Matches, Fits, Mirrored, Roomy;
      var s := 0;
      while s < g.RootSectors()
        invariant 0 <= s <= g.RootSectors()
        invariant FindFrom(SlotsNow(), name, 0) == FindFrom(SlotsNow(), name, 16 * s)
      {
        var i := 0;
        while i < 16
          invariant 0 <= i <= 16
          invariant FindFrom(SlotsNow(), name, 0) == FindFrom(SlotsNow(), name, 16 * s + i)
        {
          var entry := ReadSlot(16 * s + i);
          FindStep(SlotsNow(), name, 16 * s + i);
          if entry[0] == 0 {
            return NotFound;
          }
          if entry[0] != DELETED && entry[11] != ATTR_LFN && Matches(entry, name) {
            return Found(16 * s + i);
          }
          i := i + 1;
        }
        s := s + 1;
      }
      FindStep(SlotsNow(), name, 16 * s);
      r := NotFound;
    }

    /** The first slot that is free. */
    method FindFree() returns (r: Found)
      requires Formatted()
      ensures r == FreeFrom(SlotsNow(), 0)
    {
      hide Fits, Mirrored, Roomy;
      var k := 0;
      while k < g.Slots()
        invariant 0 <= k <= g.Slots()
        invariant FreeFrom(SlotsNow(), 0) == FreeFrom(SlotsNow(), k)
      {
        var entry := ReadSlot(k);
        if entry[0] == 0 || entry[0] == DELETED {
          return Found(k);
        }
        k := k + 1;
      }
      r := NotFound;
    }

    /** Add an empty file to the root directory: 0, or -1 when the name exists, or -2 when the directory is full. */
    method CreateFile(name: seq<byte>) returns (r: int)
      requires Valid() && 0 !in name
      modifies this
      ensures Valid() && FatNow() == old(FatNow()) && DataNow() == old(DataNow()) && lost == old(lost)
      ensures r == if FindFrom(old(SlotsNow()), name, 0).Found? then -1 else if FreeFrom(old(SlotsNow()), 0).NotFound? then -2 else 0
      ensures r != 0 ==> img == old(img) && chains == old(chains)
      ensures r == 0 ==>
        var k := FreeFrom(old(SlotsNow()), 0).slot;
        var s := NewSlot(CopyAll(name).file, CopyAll(name).ext, ATTR_ARCHIVE, 0);
        && SlotsNow() == old(SlotsNow())[k := s] && k !in old(chains)
        && chains == if Live(s) then old(chains)[k := []] else old(chains)
    {
      hide Books, Fits, Mirrored, Roomy, FindFrom, FreeFrom, CopyAll, NewSlot, ClusterOf, SizeOf;
      var found := FindEntry(name);
      if found.Found? {
        return -1;
      }
      var free := FindFree();
      if free.NotFound? {
        return -2;
      }
      var file, ext := CopyName(name);
      var entry := NewSlot(file, ext, ATTR_ARCHIVE, 0);
      CreateBooks(FatNow(), SlotsNow(), limit, chains, lost, free.slot, name);
      WriteSlotAt(free.slot, entry);
      if Live(entry) {
        chains := chains[free.slot := []];
      }
      r := 0;
    }

    /** Whether writing the data to the file in slot k leaves the chains within the volume. */
    ghost predicate WriteStaysInside(k: nat, data: seq<byte>)
      requires Formatted() && k in chains
      reads this
    {
      StaysInside(g, limit, img, chains[k], data)
    }

    /**
     * What a write of r bytes to the file in slot k leaves, in terms of the volume before: valid books, in which only that
     * file's chain has grown; every name still found where it was; the other files with their bytes; the data, when it was
     * stored in full, which is when there is room; and one more lost cluster when nothing was written to an empty file.
     */
    ghost predicate Written(fat0: seq<nat>, slots0: seq<Slot>, data0: seq<Sector>, chains0: Chains, lost0: set<nat>, k: nat, data: seq<byte>, r: nat)
      requires OnDisk() && limit <= |fat0| && k in chains0
      reads this
    {
      var slots, data1, spc := SlotsNow(), DataNow(), g.sectorsPerCluster;
      && Valid() && chains.Keys == chains0.Keys && chains == chains0[k := chains[k]] && chains0[k] <= chains[k]
      && (forall q :: FindFrom(slots, q, 0) == FindFrom(slots0, q, 0))
      && |slots| == |slots0| && k < |slots0|
      && (forall j :: j in chains && j != k ==> 0 <= j < |slots0| && slots[j] == slots0[j])
      && (forall j, n :: j in chains && j != k ==> Content(data1, spc, limit, n, chains[j]) == Content(data0, spc, limit, n, chains0[j]))
      && (data != [] ==> (r == |data| <==> Room(fat0, limit, spc, chains0[k], |data|)))
      && (0 < r ==> SizeOf(slots[k]) == |data|)
      && (0 < r == |data| ==> Content(data1, spc, limit, |data|, chains[k]) == data)
      && (data != [] || chains0[k] != [] ==> lost == lost0)
      && (data == [] && chains0[k] == [] ==> chains == chains0 && |lost| == |lost0| + if FreeSet(fat0, limit) == {} then 0 else 1)
    }

    /** Size and first cluster have been recorded in the entry after its chain has grown. */
    lemma Recorded(fat0: seq<nat>, slots0: seq<Slot>, data0: seq<Sector>, chains0: Chains, k: nat, data: seq<byte>, r: nat, cur: seq<nat>, updated: Slot)
      requires Formatted() && |fat0| == g.Entries() && Books(fat0, slots0, limit, chains0, lost) && k in chains0 && k < |slots0|
      requires cur != [] && Grown(fat0, FatNow(), limit, chains0[k], cur) && chains == chains0[k := cur]
      requires Roomy(data0, g.sectorsPerCluster, limit) && SameOutside(data0, DataNow(), g.sectorsPerCluster, cur)
      requires updated[..26] == slots0[k][..26] && ClusterOf(updated) == cur[0] && SizeOf(updated) == |data|
      requires SlotsNow() == slots0[k := updated]
      requires Stored(DataNow(), g.sectorsPerCluster, limit, cur, data, r) && 0 < r <= |data|
      requires r == |data| <==> Room(fat0, limit, g.sectorsPerCluster, chains0[k], |data|)
      ensures Written(fat0, slots0, data0, chains0, lost, k, data, r)
    {
      hide Books, FindFrom, ClusterOf, SizeOf, SameOutside, Grown, Content, FreeSet, Room, Stored, Fat, Slots, Data, Fat16Scan.Formatted;
      UpdateBooks(fat0, FatNow(), slots0, updated, limit, chains0, lost, k, cur);
      EntriesInRange(fat0, slots0, limit, chains0, lost);
      KeptFiles(fat0, FatNow(), data0, DataNow(), slots0, limit, g.sectorsPerCluster, chains0, lost, k, cur);
      StoredIsContent(DataNow(), g.sectorsPerCluster, limit, cur, data, r);
      forall q ensures FindFrom(SlotsNow(), q, 0) == FindFrom(slots0, q, 0) {
        FindSameNames(slots0, k, updated, q, 0);
      }
    }

    /** Nothing has been recorded: the volume is full, or nothing was to be written. */
    lemma NotRecorded(fat0: seq<nat>, slots0: seq<Slot>, data0: seq<Sector>, lost0: set<nat>, k: nat, data: seq<byte>, cur: seq<nat>)
      requires Formatted() && |fat0| == g.Entries() && Books(fat0, slots0, limit, chains, lost0) && k in chains && k < |slots0|
      requires SlotsNow() == slots0 && DataNow() == data0
      requires data != [] ==> cur == [] && !Room(fat0, limit, g.sectorsPerCluster, chains[k], |data|)
      requires if chains[k] == [] && cur != [] then |cur| == 1 && 2 <= cur[0] < limit && fat0[cur[0]] == 0 && FatNow() == fat0[cur[0] := LAST] && lost == lost0 + {cur[0]} else FatNow() == fat0 && lost == lost0
      requires chains[k] == [] && cur == [] ==> FreeSet(fat0, limit) == {}
      ensures Written(fat0, slots0, data0, chains, lost0, k, data, 0)
    {
      hide Books, FindFrom, ClusterOf, SizeOf, Content, FreeSet, Room, Fat, Slots, Data, Fat16Scan.Formatted;
      EntriesInRange(fat0, slots0, limit, chains, lost0);
      if chains[k] == [] && cur != [] {
        BooksLost(fat0, slots0, limit, chains, lost0, cur[0], LAST);
        FreeNotEmpty(fat0, limit, cur[0]);
      }
    }

    /**
     * Write a root file from its start: -1 when there is none of that name, else the number of bytes stored.
     * A write that stores anything records the full size asked for and the first cluster. A write that does not stay inside
     * leaves the file on a chain that goes on behind the volume.
     */
    method WriteFile(name: seq<byte>, data: seq<byte>) returns (r: int)
      requires Valid() && |data| < 0x1_0000_0000
      modifies this
      ensures OnDisk() && SameBefore(g, old(img), img)
      ensures FindFrom(old(SlotsNow()), name, 0).NotFound? ==> r == -1 && img == old(img) && chains == old(chains) && lost == old(lost)
      ensures FindFrom(old(SlotsNow()), name, 0).Found? ==>
        var k := FindFrom(old(SlotsNow()), name, 0).slot;
        && 0 <= r <= |data| && k in old(chains)
        && if old(WriteStaysInside(k, data)) then
          Written(old(FatNow()), old(SlotsNow()), old(DataNow()), old(chains), old(lost), k, data, r)
        else
          var all := Utmost(old(FatNow()), limit, old(chains)[k]);
          all != [] ==> all[|all| - 1] < limit && limit <= FatNow()[all[|all| - 1]] < END_MARK
    {
      hide Books, StaysInside, FindFrom, ClusterOf, SizeOf, Stored, SameOutside, Grown, Room, Content, FreeSet, Utmost, Fat, Slots, Data, Fat16Scan.Formatted, Written;
      var found := FindEntry(name);
      if found.NotFound? {
        return -1;
      }
      var k := found.slot;
      FoundIsOwned(FatNow(), SlotsNow(), limit, chains, lost, k);
      var entry := ReadSlot(k);
      ghost var fat0, slots0, data0, chains0, lost0 := FatNow(), SlotsNow(), DataNow(), chains, lost;
      ghost var inside := WriteStaysInside(k, data);
      RoomyNow();
      var written, first, cur := WriteChain(ClusterOf(entry), data, chains[k]);
      if written > 0 {
        found := FindEntry(name);
        if found.Found? {
          entry := ReadSlot(found.slot);
          var updated := WithSizeAndCluster(entry, |data|, first);
          WriteSlotAt(found.slot, updated);
          if inside {
            chains := chains[k := cur];
            Recorded(fat0, slots0, data0, chains0, k, data, written, cur, updated);
          }
        }
      } else if inside {
        lost := if chains[k] == [] && cur != [] then lost + {cur[0]} else lost;
        NotRecorded(fat0, slots0, data0, lost0, k, data, cur);
      }
      return written;
    }

    lemma RoomyNow()
      requires Formatted()
      ensures Roomy(DataNow(), g.sectorsPerCluster, limit)
    {
    }

    /** Remove a root file: its clusters go back to the FAT, one after the other, and its entry is marked deleted. */
    method DeleteFile(name: seq<byte>) returns (r: int)
      requires Valid()
      modifies this
      ensures Valid() && DataNow() == old(DataNow()) && lost == old(lost)
      ensures FindFrom(old(SlotsNow()), name, 0).NotFound? ==> r == -1 && img == old(img) && chains == old(chains)
      ensures FindFrom(old(SlotsNow()), name, 0).Found? ==>
        var k := FindFrom(old(SlotsNow()), name, 0).slot;
        && r == 0 && k in old(chains) && chains == old(chains) - {k}
        && FreeSet(FatNow(), limit) == FreeSet(old(FatNow()), limit) + (set c | c in old(chains)[k])
        && (forall j :: 0 <= j < |SlotsNow()| && j != k ==> SlotsNow()[j] == old(SlotsNow())[j])
        && (forall j :: j in chains ==> 0 <= j < |SlotsNow()| && FileBytes(j) == old(FileBytes(j)))
    {
      hide Books, Fits, Mirrored, Roomy, FindFrom, ClusterOf, SizeOf, FreeSet, Content;
      var found := FindEntry(name);
      EntriesInRange(FatNow(), SlotsNow(), limit, chains, lost);
      if found.NotFound? {
        return -1;
      }
      var k := found.slot;
      var entry := ReadSlot(k);
      FoundIsOwned(FatNow(), SlotsNow(), limit, chains, lost, k);
      ghost var fat0, slots0 := FatNow(), SlotsNow();
      FreeChain(ClusterOf(entry), chains[k]);
      var removed := entry[0 := DELETED];
      BooksRemoved(fat0, FatNow(), slots0, limit, chains, lost, k, removed);
      WriteSlotAt(k, removed);
      chains := chains - {k};
      r := 0;
    }

    /** Zero the FAT entries along a chain. */
    method FreeChain(first: nat, ghost ch: seq<nat>)
      requires Formatted() && (if ch == [] then first == 0 else IsChain(FatNow(), limit, ch) && first == ch[0])
      modifies `img
      ensures Formatted() && SlotsNow() == old(SlotsNow()) && DataNow() == old(DataNow())
      ensures Freed(old(FatNow()), FatNow(), ch, |ch|)
    {
      hide Fat16Scan.Formatted, SetEntry, Entry, Freed, Fat, Slots, Data, IsChain;
      var cluster := first;
      ghost var i := 0;
      ghost var fat0 := FatNow();
      StartFreeing(fat0, limit, ch);
      while cluster >= 2 && cluster < END_MARK
        invariant Formatted() && SlotsNow() == old(SlotsNow()) && DataNow() == old(DataNow())
        invariant i <= |ch| && Freed(fat0, FatNow(), ch, i)
        invariant if i < |ch| then cluster == ch[i] && 2 <= cluster < limit else cluster == 0 || cluster >= END_MARK
        decreases |ch| - i
      {
        var next := GetFatEntry(cluster);
        FreeMore(fat0, FatNow(), limit, ch, i);
        LimitInFat(g, limit, img);
        SetOnVolume(g, limit, img, img, cluster, 0);
        SetFatEntry(cluster, 0);
        cluster := next;
        i := i + 1;
      }
    }

    /** Append the sectors of a cluster to the buffer until the size is reached. */
    method ReadCluster(c: nat, buffer0: seq<byte>, size: nat, ghost ch: seq<nat>, ghost q: nat) returns (buffer: seq<byte>, i: nat)
      requires Formatted() && 2 <= c < limit && q < |ch| && c == ch[q] && |buffer0| < size + 512
      requires ReadSoFar(DataNow(), g.sectorsPerCluster, limit, ch, q, 0, size, buffer0)
      ensures i <= g.sectorsPerCluster && |buffer| < size + 512 && (i == g.sectorsPerCluster || |buffer| >= size)
      ensures ReadSoFar(DataNow(), g.sectorsPerCluster, limit, ch, q, i, size, buffer)
    {
      hide Fits, Mirrored, SectorIndex, Roomy, ReadSoFar, Fat, Slots, Data;
      i, buffer := 0, buffer0;
      while i < g.sectorsPerCluster && |buffer| < size
        invariant 0 <= i <= g.sectorsPerCluster
        invariant |buffer| < size + 512
        invariant ReadSoFar(DataNow(), g.sectorsPerCluster, limit, ch, q, i, size, buffer)
        decreases g.sectorsPerCluster - i
      {
        DataInImage(c, i);
        var sector := ReadSector(g.DataStart() + SectorIndex(g.sectorsPerCluster, c, i));
        SectorInImage(c, i);
        ReadMore(DataNow(), g.sectorsPerCluster, limit, ch, q, i, size, buffer, sector);
        buffer := buffer + sector;
        i := i + 1;
      }
    }

    lemma SectorInImage(c: nat, i: nat)
      requires Formatted() && 2 <= c < limit && i < g.sectorsPerCluster
      ensures g.DataStart() + SectorIndex(g.sectorsPerCluster, c, i) < |img|
      ensures SectorIndex(g.sectorsPerCluster, c, i) < |DataNow()|
      ensures DataNow()[SectorIndex(g.sectorsPerCluster, c, i)] == img[g.DataStart() + SectorIndex(g.sectorsPerCluster, c, i)]
    {
      DataInImage(c, i);
    }

    /** Read whole sectors along the chain of an entry until its size is reached. */
    method ReadFile(k: nat) returns (buffer: seq<byte>)
      requires Valid() && k < |SlotsNow()| && k in chains
      ensures FileBytes(k) <= buffer
      ensures |buffer| < SizeOf(SlotsNow()[k]) + 512
    {
      hide Books, Fits, Mirrored, ClusterOf, SizeOf, Content, SectorIndex, Roomy, ReadSoFar;
      var entry := ReadSlot(k);
      ghost var ch, data, spc := chains[k], DataNow(), g.sectorsPerCluster;
      FoundChain(FatNow(), SlotsNow(), limit, chains, lost, k);
      var cluster, size := ClusterOf(entry), SizeOf(entry);
      buffer := [];
      ghost var q := 0;
      StartReading(data, spc, limit, ch, size);
      while cluster >= 2 && cluster < END_MARK && |buffer| < size
        invariant |buffer| < size + 512
        invariant ReadSoFar(data, spc, limit, ch, q, 0, size, buffer)
        invariant q <= |ch|
        invariant if q < |ch| then cluster == ch[q] && 2 <= cluster < limit else cluster == 0 || cluster >= END_MARK
        decreases |ch| - q
      {
        var i;
        buffer, i := ReadCluster(cluster, buffer, size, ch, q);
        NextCluster(data, spc, limit, FatNow(), ch, q, i, size, buffer);
        cluster := GetFatEntry(cluster);
        q := q + 1;
      }
      DoneReading(data, spc, limit, ch, q, size, buffer);
    }

    /** Create a file under a new valid 8.3 name and fill it; then it is found under that name in any case and reads back as written. */
    method StoreAndFetch(base: seq<byte>, ext: seq<byte>, query: seq<byte>, data: seq<byte>) returns (buffer: seq<byte>)
      requires Valid() && Valid83(base, ext) && UpperAll(query) == UpperAll(FullName(base, ext))
      requires FindFrom(SlotsNow(), FullName(base, ext), 0).NotFound? && FreeFrom(SlotsNow(), 0).Found?
      requires 0 < |data| < 0x1_0000_0000 && Room(FatNow(), limit, g.sectorsPerCluster, [], |data|)
      modifies this
      ensures Valid() && lost == old(lost)
      ensures FindFrom(SlotsNow(), query, 0) == FreeFrom(old(SlotsNow()), 0)
      ensures data <= buffer && |buffer| < |data| + 512
      ensures var k := FreeFrom(old(SlotsNow()), 0).slot;
        k !in old(chains) && k in chains && chains == old(chains)[k := chains[k]]
      ensures forall j :: j in old(chains) ==> j < |SlotsNow()| && j < |old(SlotsNow())| && FileBytes(j) == old(FileBytes(j))
    {
      hide Books, Fits, Mirrored, Roomy, FindFrom, FreeFrom, CopyAll, NewSlot, ClusterOf, SizeOf, Room, Content, FreeSet, UpperAll, Matches;
      var name := FullName(base, ext);
      ghost var slots0 := SlotsNow();
      NewNameFound(FatNow(), slots0, limit, chains, lost, base, ext, query);
      EntriesInRange(FatNow(), SlotsNow(), limit, chains, lost);
      var r := CreateFile(name);
      EntriesInRange(FatNow(), SlotsNow(), limit, chains, lost);
      ghost var k := FreeFrom(slots0, 0).slot;
      r := WriteFile(name, data);
      var found := FindEntry(query);
      EntriesInRange(FatNow(), SlotsNow(), limit, chains, lost);
      buffer := ReadFile(found.slot);
    }

    /** Filling an empty file and deleting it gives the FAT its free clusters back, whether or not the write stored everything, if it stayed inside. */
    method FillAndDelete(name: seq<byte>, data: seq<byte>)
      requires Valid() && 0 < |data| < 0x1_0000_0000 && FindFrom(SlotsNow(), name, 0).Found?
      requires FindFrom(SlotsNow(), name, 0).slot in chains && chains[FindFrom(SlotsNow(), name, 0).slot] == []
      requires WriteStaysInside(FindFrom(SlotsNow(), name, 0).slot, data)
      modifies this
      ensures Valid() && FreeSet(FatNow(), limit) == FreeSet(old(FatNow()), limit)
    {
      hide Books, Fits, Mirrored, Roomy, FindFrom, ClusterOf, SizeOf, Room, Content, FreeSet;
      ghost var k := FindFrom(SlotsNow(), name, 0).slot;
      ghost var fat0, slots0, chains0 := FatNow(), SlotsNow(), chains;
      var written := WriteFile(name, data);
      var r := DeleteFile(name);
      assert chains == chains0 - {k};
      FreeFollows(fat0, slots0, chains0, FatNow(), SlotsNow(), chains, limit, lost, k);
    }
  }

  /** In any case, the new name leads to the new entry. */
  lemma NewNameFound(fat: seq<nat>, slots: seq<Slot>, limit: nat, chains: Chains, lost: set<nat>, base: seq<byte>, ext: seq<byte>, query: seq<byte>)
    requires Books(fat, slots, limit, chains, lost) && Valid83(base, ext) && UpperAll(query) == UpperAll(FullName(base, ext))
    requires FindFrom(slots, FullName(base, ext), 0).NotFound? && FreeFrom(slots, 0).Found?
    ensures var k := FreeFrom(slots, 0).slot;
      var s := NewSlot(CopyAll(FullName(base, ext)).file, CopyAll(FullName(base, ext)).ext, ATTR_ARCHIVE, 0);
      && Live(s) && 0 !in FullName(base, ext)
      && FindFrom(slots[k := s], query, 0) == Found(k) && FindFrom(slots[k := s], FullName(base, ext), 0) == Found(k)
  {
    hide CopyAll, NewSlot, UpperAll, Matches, FreeFrom, FindFrom, AllChains, ChainsApart, Accounted;
    var name := FullName(base, ext);
    var k := FreeFrom(slots, 0).slot;
    var s := NewSlot(CopyAll(name).file, CopyAll(name).ext, ATTR_ARCHIVE, 0);
    NewSlotFields(CopyAll(name).file, CopyAll(name).ext, ATTR_ARCHIVE, 0);
    forall q ensures Matches(s, q) <==> UpperAll(q) == UpperAll(name) {
      NameRoundTrip(base, ext, s, q);
    }
    NameRoundTrip(base, ext, s, query);
    FindAfterAdd(slots, k, s, name, query, 0);
    FindAfterAdd(slots, k, s, name, name, 0);
  }

  lemma StartFreeing(fat: seq<nat>, limit: nat, ch: seq<nat>)
    requires ch == [] || IsChain(fat, limit, ch)
    ensures Freed(fat, fat, ch, 0)
    ensures ch != [] ==> 2 <= ch[0] < limit
  {
  }

  lemma FreeMore(fat0: seq<nat>, fat: seq<nat>, limit: nat, ch: seq<nat>, i: nat)
    requires IsChain(fat0, limit, ch) && i < |ch| && Freed(fat0, fat, ch, i)
    ensures ch[i] < |fat| && Freed(fat0, fat[ch[i] := 0], ch, i + 1)
    ensures fat[ch[i]] == fat0[ch[i]]
    ensures if i + 1 < |ch| then fat[ch[i]] == ch[i + 1] && 2 <= ch[i + 1] < limit else fat[ch[i]] >= END_MARK
  {
    assert ch[..i + 1] == ch[..i] + [ch[i]];
    assert ch[i] !in ch[..i];
  }

  lemma FoundChain(fat: seq<nat>, slots: seq<Slot>, limit: nat, chains: Chains, lost: set<nat>, k: nat)
    requires Books(fat, slots, limit, chains, lost) && k in chains
    ensures k < |slots| && ChainOf(fat, limit, slots[k], chains[k])
    ensures forall i :: 0 <= i < |chains[k]| ==> 2 <= chains[k][i] < limit
  {
  }

  /** The buffer is a prefix of the bytes on the chain; short of `size`, it ends behind sector i of cluster q. */
  ghost predicate ReadSoFar(data: seq<Sector>, spc: nat, limit: nat, ch: seq<nat>, q: nat, i: nat, size: nat, buffer: seq<byte>) {
    && Roomy(data, spc, limit) && (forall j :: 0 <= j < |ch| ==> 2 <= ch[j] < limit) && q <= |ch| && i <= spc
    && buffer <= ChainBytes(data, spc, limit, ch)
    && (|buffer| < size ==> |buffer| == 512 * (spc * q) + 512 * i)
  }

  lemma StartReading(data: seq<Sector>, spc: nat, limit: nat, ch: seq<nat>, size: nat)
    requires Roomy(data, spc, limit) && forall j :: 0 <= j < |ch| ==> 2 <= ch[j] < limit
    ensures ReadSoFar(data, spc, limit, ch, 0, 0, size, [])
  {
    assert [] <= ChainBytes(data, spc, limit, ch);
  }

  lemma ReadMore(data: seq<Sector>, spc: nat, limit: nat, ch: seq<nat>, q: nat, i: nat, size: nat, buffer: seq<byte>, s: Sector)
    requires ReadSoFar(data, spc, limit, ch, q, i, size, buffer) && q < |ch| && i < spc && |buffer| < size
    requires SectorIndex(spc, ch[q], i) < |data| && s == data[SectorIndex(spc, ch[q], i)]
    ensures ReadSoFar(data, spc, limit, ch, q, i + 1, size, buffer + s)
  {
    hide SectorIndex, Roomy, ChainBytes;
    var all := ChainBytes(data, spc, limit, ch);
    ChainSector(data, spc, limit, ch, q, i);
    assert all[..|buffer|] == buffer && all[..|buffer| + 512] == all[..|buffer|] + all[|buffer|..|buffer| + 512];
  }

  lemma NextCluster(data: seq<Sector>, spc: nat, limit: nat, fat: seq<nat>, ch: seq<nat>, q: nat, i: nat, size: nat, buffer: seq<byte>)
    requires ReadSoFar(data, spc, limit, ch, q, i, size, buffer) && q < |ch| && IsChain(fat, limit, ch) && (i == spc || |buffer| >= size)
    ensures ReadSoFar(data, spc, limit, ch, q + 1, 0, size, buffer)
    ensures if q + 1 < |ch| then fat[ch[q]] == ch[q + 1] && 2 <= ch[q + 1] < limit else fat[ch[q]] >= END_MARK
  {
    assert spc * (q + 1) == spc * q + spc;
  }

  lemma DoneReading(data: seq<Sector>, spc: nat, limit: nat, ch: seq<nat>, q: nat, size: nat, buffer: seq<byte>)
    requires ReadSoFar(data, spc, limit, ch, q, 0, size, buffer) && (q == |ch| || |buffer| >= size)
    ensures Content(data, spc, limit, size, ch) <= buffer
  {
  }

  lemma EntriesInRange(fat: seq<nat>, slots: seq<Slot>, limit: nat, chains: Chains, lost: set<nat>)
    requires Books(fat, slots, limit, chains, lost)
    ensures forall j :: j in chains ==> 0 <= j < |slots|
  {
  }

  lemma FreeNotEmpty(fat: seq<nat>, limit: nat, c: nat)
    requires 2 <= c < limit <= |fat| && fat[c] == 0
    ensures FreeSet(fat, limit) != {}
  {
    assert c in FreeSet(fat, limit);
  }

  lemma FoundIsOwned(fat: seq<nat>, slots: seq<Slot>, limit: nat, chains: Chains, lost: set<nat>, k: nat)
    requires Books(fat, slots, limit, chains, lost) && k < |slots| && Live(slots[k])
    ensures k in chains && ChainOf(fat, limit, slots[k], chains[k])
  {
  }

  lemma UpdateBooks(fat: seq<nat>, fat': seq<nat>, slots: seq<Slot>, s: Slot, limit: nat, chains: Chains, lost: set<nat>, k: nat, cur: seq<nat>)
    requires Books(fat, slots, limit, chains, lost) && k in chains && k < |slots| && cur != []
    requires Grown(fat, fat', limit, chains[k], cur)
    requires s[..26] == slots[k][..26] && ClusterOf(s) == cur[0]
    ensures Books(fat', slots[k := s], limit, chains[k := cur], lost)
    ensures s[..12] == slots[k][..12] && chains[k] <= cur
  {
    hide ClusterOf, AllChains, ChainsApart, Accounted, IsChain, FreeSet;
    assert s[..12] == s[..26][..12] && slots[k][..12] == slots[k][..26][..12];
    FindSameNames(slots, k, s, [], 0);
    SameName(slots[k], s, []);
    assert Ended(slots[k := s]);
    BooksGrown(fat, fat', slots, slots[k := s], limit, chains, lost, k, cur);
  }

  /** The bytes of every other file lie on clusters the write did not touch. */
  lemma KeptFiles(fat: seq<nat>, fat': seq<nat>, data: seq<Sector>, data': seq<Sector>, slots: seq<Slot>, limit: nat, spc: nat, chains: Chains, lost: set<nat>, k: nat, cur: seq<nat>)
    requires Books(fat, slots, limit, chains, lost) && k in chains && Grown(fat, fat', limit, chains[k], cur)
    requires Roomy(data, spc, limit) && SameOutside(data, data', spc, cur)
    ensures forall j, n :: j in chains && j != k ==> Content(data', spc, limit, n, chains[j]) == Content(data, spc, limit, n, chains[j])
  {
    hide Roomy, SameSectors, Live, Ended, IsChain, FreeSet;
    NewIsUnowned(fat, limit, chains, lost, k, cur);
    forall j, n | j in chains && j != k ensures Content(data', spc, limit, n, chains[j]) == Content(data, spc, limit, n, chains[j]) {
      assert ChainOf(fat, limit, slots[j], chains[j]);
      ChainBounds(fat, limit, slots[j], chains[j]);
      forall c | c in chains[j] ensures c >= 2 && SameSectors(data, data', spc, c, spc) {
      }
      ChainBytesFrame(data, data', spc, limit, chains[j]);
    }
  }

  lemma ChainBounds(fat: seq<nat>, limit: nat, s: Slot, ch: seq<nat>)
    requires ChainOf(fat, limit, s, ch)
    ensures forall i :: 0 <= i < |ch| ==> 2 <= ch[i] < limit
    ensures forall c :: c in ch ==> 2 <= c < limit
  {
  }

  lemma StoredIsContent(data: seq<Sector>, spc: nat, limit: nat, cur: seq<nat>, buffer: seq<byte>, w: nat)
    requires Stored(data, spc, limit, cur, buffer, w)
    ensures w == |buffer| ==> Content(data, spc, limit, |buffer|, cur) == buffer
  {
    if w == |buffer| {
      assert buffer[..w] == buffer;
      var bytes := ChainBytes(data, spc, limit, cur);
      assert w == |bytes| ==> bytes[..w] == bytes;
    }
  }

  lemma FindStep(slots: seq<Slot>, name: seq<byte>, k: nat)
    requires k <= |slots|
    ensures FindFrom(slots, name, k) ==
      if k == |slots| || slots[k][0] == 0 then NotFound
      else if slots[k][0] == DELETED || slots[k][11] == ATTR_LFN || !Matches(slots[k], name) then FindFrom(slots, name, k + 1)
      else Found(k)
  {
  }

  lemma CreateBooks(fat: seq<nat>, slots: seq<Slot>, limit: nat, chains: Chains, lost: set<nat>, k: nat, name: seq<byte>)
    requires Books(fat, slots, limit, chains, lost) && FreeFrom(slots, 0) == Found(k) && 0 !in name
    ensures var s := NewSlot(CopyAll(name).file, CopyAll(name).ext, ATTR_ARCHIVE, 0);
      k !in chains && Books(fat, slots[k := s], limit, if Live(s) then chains[k := []] else chains, lost)
  {
    hide AllChains, ChainsApart, Accounted, CopyAll, NewSlot, ClusterOf;
    var s := NewSlot(CopyAll(name).file, CopyAll(name).ext, ATTR_ARCHIVE, 0);
    NewSlotFields(CopyAll(name).file, CopyAll(name).ext, ATTR_ARCHIVE, 0);
    CopiedChars(name);
    assert s[0] == s[..8][0];
    assert Ended(slots[k := s]);
    BooksAdded(fat, slots, limit, chains, lost, k, s);
  }

}
