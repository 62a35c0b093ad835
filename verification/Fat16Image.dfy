/** A FAT16 volume as an array of 512-byte sectors, and the three regions the driver works on. */
module Fat16Image {
  import opened Octets

  type Sector = s: seq<byte> | |s| == 512 witness seq(512, _ => 0)

  const ENTRY_SIZE := 32

  /** The boot-sector fields the driver uses. */
  datatype Geometry = Geometry(
    reserved: nat,
    fats: nat,
    sectorsPerFat: nat,
    rootEntries: nat,
    sectorsPerCluster: nat)
  {
    function RootStart(): nat {
      reserved + fats * sectorsPerFat
    }

    function RootSectors(): nat {
      (rootEntries * 32 + 511) / 512
    }

    function DataStart(): nat {
      RootStart() + RootSectors()
    }

    /** The number of 16-bit entries in one FAT. */
    function Entries(): nat {
      sectorsPerFat * 256
    }

    function Slots(): nat {
      RootSectors() * 16
    }
  }

  type Image = seq<Sector>

  /** The sectors from one FAT to its copy, when there is one. */
  function CopyOffset(g: Geometry): nat {
    if g.fats > 1 then g.sectorsPerFat else 0
  }

  /** The regions are on the disk, and so is every sector where the driver may look for a 16-bit FAT entry. */
  ghost predicate Fits(g: Geometry, img: Image) {
    && g.fats >= 1 && g.DataStart() <= |img| && g.RootStart() >= g.reserved + g.sectorsPerFat + CopyOffset(g)
    && g.reserved + 256 + CopyOffset(g) <= |img|
  }

  // ----- The FAT -----

  /** The 16-bit word the driver takes for the entry of cluster c, whether or not the FAT reaches that far. */
  function Entry(g: Geometry, img: Image, c: nat): (v: nat)
    requires g.reserved + c / 256 < |img|
    ensures v < 0x1_0000
  {
    var s := img[g.reserved + c / 256];
    Get16(s[2 * (c % 256)], s[2 * (c % 256) + 1])
  }

  function PutEntry(s: Sector, c: nat, v: nat): Sector {
    s[2 * (c % 256) := Low(v)][2 * (c % 256) + 1 := Low(v / 256)]
  }

  ghost function Fat(g: Geometry, img: Image): (fat: seq<nat>)
    requires Fits(g, img)
    ensures |fat| == g.Entries() && forall c :: 0 <= c < |fat| ==> fat[c] == Entry(g, img, c)
  {
    seq(g.Entries(), c requires 0 <= c < g.Entries() => Entry(g, img, c))
  }

  // ----- The root directory -----

  type Slot = s: seq<byte> | |s| == ENTRY_SIZE witness seq(ENTRY_SIZE, _ => 0)

  function SlotAt(g: Geometry, img: Image, k: nat): Slot
    requires Fits(g, img) && k < g.Slots()
  {
    SlotIn(img[g.RootStart() + k / 16], k % 16)
  }

  function SlotIn(s: Sector, i: nat): Slot
    requires i < 16
  {
    s[32 * i..32 * i + 32]
  }

  function PutSlot(s: Sector, i: nat, slot: Slot): Sector
    requires i < 16
  {
    s[..32 * i] + slot + s[32 * i + 32..]
  }

  ghost function Slots(g: Geometry, img: Image): (slots: seq<Slot>)
    requires Fits(g, img)
    ensures |slots| == g.Slots() && forall k :: 0 <= k < |slots| ==> slots[k] == SlotAt(g, img, k)
  {
    seq(g.Slots(), k requires 0 <= k < g.Slots() => SlotAt(g, img, k))
  }

  // ----- The data area -----

  ghost function Data(g: Geometry, img: Image): seq<Sector>
    requires Fits(g, img)
  {
    img[g.DataStart()..]
  }

  /** The second FAT, when there is one, is a copy of the first. */
  ghost predicate Mirrored(g: Geometry, img: Image)
    requires Fits(g, img)
  {
    g.fats > 1 ==> img[g.reserved + g.sectorsPerFat..g.reserved + 2 * g.sectorsPerFat] == img[g.reserved..g.reserved + g.sectorsPerFat]
  }

  // ----- What writing one sector changes -----

  lemma PutEntryEntries(s: Sector, c: nat, v: nat, d: nat)
    requires v < 0x1_0000
    ensures var t := PutEntry(s, c, v);
      Get16(t[2 * (d % 256)], t[2 * (d % 256) + 1]) == if c % 256 == d % 256 then v else Get16(s[2 * (d % 256)], s[2 * (d % 256) + 1])
  {
    Get16Set(v);
  }

  function SetEntry(g: Geometry, img: Image, c: nat, v: nat): Image
    requires Fits(g, img) && c < 0x1_0000
  {
    var i := g.reserved + c / 256;
    var t := PutEntry(img[i], c, v);
    if g.fats > 1 then img[i := t][i + g.sectorsPerFat := t] else img[i := t]
  }

  /** The sectors outside of the FAT, its copy and the data area are the same in both. */
  ghost predicate SameElsewhere(g: Geometry, img: Image, img': Image)
    requires Fits(g, img)
  {
    && |img'| == |img|
    && forall k :: 0 <= k < g.DataStart() && !(g.reserved <= k < g.reserved + g.sectorsPerFat + CopyOffset(g)) ==> img'[k] == img[k]
  }

  /** The disks are of one size and have the same sectors before the FAT. */
  ghost predicate SameBefore(g: Geometry, img: Image, img': Image)
    requires Fits(g, img)
  {
    |img'| == |img| && img'[..g.reserved] == img[..g.reserved]
  }

  lemma SameBeforeTwice(g: Geometry, a: Image, b: Image, c: Image)
    requires Fits(g, a) && Fits(g, b)
    ensures SameBefore(g, a, b) && (SameBefore(g, b, c) || OnlyData(g, b, c)) ==> SameBefore(g, a, c)
    ensures SameBefore(g, a, a)
  {
    if OnlyData(g, b, c) {
      assert c[..g.reserved] == c[..g.DataStart()][..g.reserved];
      assert b[..g.reserved] == b[..g.DataStart()][..g.reserved];
    }
  }

  /** Setting any word the driver may take for an entry changes no other entry of the FAT, and nothing before it. */
  lemma WriteWord(g: Geometry, img: Image, c: nat, v: nat)
    requires Fits(g, img) && c < 0x1_0000 && v < 0x1_0000
    ensures var img' := SetEntry(g, img, c, v);
      && Fits(g, img') && SameBefore(g, img, img')
      && forall d :: 0 <= d < g.Entries() ==> Entry(g, img', d) == if d == c then v else Entry(g, img, d)
  {
    hide PutEntry, Get16;
    var i := g.reserved + c / 256;
    var img' := SetEntry(g, img, c, v);
    forall d | 0 <= d < g.Entries() ensures Entry(g, img', d) == if d == c then v else Entry(g, img, d) {
      PutEntryEntries(img[i], c, v, d);
      if d / 256 == c / 256 {
        assert d % 256 == c % 256 <==> d == c;
        assert img'[i] == PutEntry(img[i], c, v);
      } else {
        assert img'[g.reserved + d / 256] == img[g.reserved + d / 256];
      }
    }
  }

  lemma WriteEntry(g: Geometry, img: Image, c: nat, v: nat)
    requires Fits(g, img) && c < g.Entries() && c < 0x1_0000 && v < 0x1_0000
    ensures var img' := SetEntry(g, img, c, v);
      && Fits(g, img') && Fat(g, img') == Fat(g, img)[c := v]
      && Slots(g, img') == Slots(g, img) && Data(g, img') == Data(g, img) && SameElsewhere(g, img, img')
  {
    hide PutEntry, SlotIn, Get16, Entry;
    WriteWord(g, img, c, v);
  }

  lemma WriteEntryMirrors(g: Geometry, img: Image, c: nat, v: nat)
    requires Fits(g, img) && c < g.Entries() && c < 0x1_0000 && Mirrored(g, img)
    ensures Fits(g, SetEntry(g, img, c, v)) && Mirrored(g, SetEntry(g, img, c, v))
  {
    hide PutEntry;
  }

  function SetSlot(g: Geometry, img: Image, k: nat, slot: Slot): Image
    requires Fits(g, img) && k < g.Slots()
  {
    var i := g.RootStart() + k / 16;
    img[i := PutSlot(img[i], k % 16, slot)]
  }

  lemma WriteSlot(g: Geometry, img: Image, k: nat, slot: Slot)
    requires Fits(g, img) && k < g.Slots()
    ensures var img' := SetSlot(g, img, k, slot);
      && Fits(g, img') && Fat(g, img') == Fat(g, img) && Data(g, img') == Data(g, img)
      && Slots(g, img') == Slots(g, img)[k := slot]
      && (Mirrored(g, img) ==> Mirrored(g, img'))
  {
    hide SlotIn, PutSlot, Get16;
    var i := g.RootStart() + k / 16;
    var img' := SetSlot(g, img, k, slot);
    forall j | 0 <= j < g.Slots() ensures SlotAt(g, img', j) == if j == k then slot else SlotAt(g, img, j) {
      PutSlotSlots(img[i], k % 16, slot, j % 16);
    }
  }

  lemma PutSlotSlots(s: Sector, i: nat, slot: Slot, j: nat)
    requires i < 16 && j < 16
    ensures SlotIn(PutSlot(s, i, slot), j) == if i == j then slot else SlotIn(s, j)
  {
    assert i < j ==> 32 * i + 32 <= 32 * j;
    assert j < i ==> 32 * j + 32 <= 32 * i;
  }

  /** The disks are of one size and differ at most in the data area. */
  ghost predicate OnlyData(g: Geometry, img: Image, img': Image)
    requires Fits(g, img)
  {
    |img'| == |img| && img'[..g.DataStart()] == img[..g.DataStart()]
  }

  lemma OnlyDataTwice(g: Geometry, a: Image, b: Image, c: Image)
    requires Fits(g, a) && Fits(g, b)
    ensures OnlyData(g, a, b) && OnlyData(g, b, c) ==> OnlyData(g, a, c)
    ensures OnlyData(g, a, a)
  {
  }

  /** Writing the i-th sector of the data area, or a place behind the end of the disk. */
  lemma WriteData(g: Geometry, img: Image, i: nat, s: Sector)
    requires Fits(g, img)
    ensures var lba := g.DataStart() + i;
      var img' := if lba < |img| then img[lba := s] else img;
      && Fits(g, img') && OnlyData(g, img, img')
      && Data(g, img') == if i < |Data(g, img)| then Data(g, img)[i := s] else Data(g, img)
  {
  }
}
