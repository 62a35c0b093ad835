/** Root directory entries: 8.3 names, their comparison without regard to case, and the fields of an entry. */
module Fat16Names {
  import opened Octets
  import opened Fat16Image

  const SPACE: byte := 32
  const DOT: byte := 46
  const DELETED: byte := 0xE5
  const ATTR_LFN: byte := 0x0F
  const ATTR_ARCHIVE: byte := 0x20

  function Upper(ch: byte): byte {
    if 97 <= ch <= 122 then ch - 32 else ch
  }

  function UpperAll(s: seq<byte>): (r: seq<byte>)
    ensures |r| == |s| && forall i :: 0 <= i < |s| ==> r[i] == Upper(s[i])
  {
    if s == [] then [] else UpperAll(s[..|s| - 1]) + [Upper(s[|s| - 1])]
  }

  function Skim(s: seq<byte>): (r: seq<byte>)
    ensures |r| <= |s|
  {
    if s == [] then [] else Skim(s[..|s| - 1]) + if s[|s| - 1] == SPACE then [] else [s[|s| - 1]]
  }

  /** The readable name of an entry. */
  function EntryName(s: Slot): seq<byte> {
    CString(Skim(s[..8]) + if s[8] != SPACE then [DOT] + Skim(s[8..11]) else [])
  }

  predicate Matches(s: Slot, name: seq<byte>) {
    UpperAll(EntryName(s)) == UpperAll(name)
  }

  // ----- Writing a name into an entry -----

  /** The two name fields while a name is being copied in, with the next position in each. */
  datatype NameFields = NameFields(file: seq<byte>, fi: nat, ext: seq<byte>, ei: nat, inExt: bool)

  ghost predicate Sized(f: NameFields) {
    |f.file| == 8 && |f.ext| == 3 && f.fi <= 8 && f.ei <= 3
  }

  const BLANK := NameFields([SPACE, SPACE, SPACE, SPACE, SPACE, SPACE, SPACE, SPACE], 0, [SPACE, SPACE, SPACE], 0, false)

  function CopyChar(f: NameFields, c: byte): (r: NameFields)
    requires Sized(f)
    ensures Sized(r)
  {
    var ch := Upper(c);
    if ch == DOT then f.(inExt := true, ei := 0)
    else if f.inExt then if f.ei < 3 then f.(ext := f.ext[f.ei := ch], ei := f.ei + 1) else f
    else if f.fi < 8 then f.(file := f.file[f.fi := ch], fi := f.fi + 1) else f
  }

  function CopyAll(name: seq<byte>): (r: NameFields)
    ensures Sized(r)
  {
    if name == [] then BLANK else CopyChar(CopyAll(name[..|name| - 1]), name[|name| - 1])
  }

  /** The loop that copies a name into the fields of a new entry. */
  method CopyName(name: seq<byte>) returns (file: seq<byte>, ext: seq<byte>)
    ensures |file| == 8 && |ext| == 3
    ensures file == CopyAll(name).file && ext == CopyAll(name).ext
  {
    file, ext := BLANK.file, BLANK.ext;
    var fi, inExt, ei := 0, false, 0;
    var i := 0;
    while i < |name|
      invariant 0 <= i <= |name|
      invariant CopyAll(name[..i]) == NameFields(file, fi, ext, ei, inExt)
    {
      var ch := name[i];
      if 97 <= ch <= 122 {
        ch := ch - 32;
      }
      assert name[..i + 1][..i] == name[..i];
      i := i + 1;
      if ch == DOT {
        inExt := true;
        ei := 0;
        continue;
      }
      if inExt {
        if ei < 3 {
          ext := ext[ei := ch];
          ei := ei + 1;
        }
      } else {
        if fi < 8 {
          file := file[fi := ch];
          fi := fi + 1;
        }
      }
    }
    assert name[..i] == name;
  }

  predicate NameChars(s: seq<byte>) {
    forall i :: 0 <= i < |s| ==> s[i] != 0 && s[i] != SPACE && s[i] != DOT
  }

  /** A name that fits the 8.3 form: 1 to 8 characters, optionally a dot and 1 to 3 more. */
  predicate Valid83(base: seq<byte>, ext: seq<byte>) {
    && 1 <= |base| <= 8 && |ext| <= 3 && NameChars(base) && NameChars(ext)
    && base[0] != DELETED
  }

  function FullName(base: seq<byte>, ext: seq<byte>): seq<byte> {
    if ext == [] then base else base + [DOT] + ext
  }

  function Padding(n: nat): (s: seq<byte>)
    ensures |s| == n && forall i :: 0 <= i < n ==> s[i] == SPACE
  {
    if n == 0 then [] else Padding(n - 1) + [SPACE]
  }

  lemma {:induction false} CopyBase(base: seq<byte>)
    requires |base| <= 8 && NameChars(base)
    ensures CopyAll(base) == NameFields(UpperAll(base) + Padding(8 - |base|), |base|, BLANK.ext, 0, false)
    decreases base
  {
    if base == [] {
      assert UpperAll(base) + Padding(8) == BLANK.file;
    } else {
      var n := |base| - 1;
      CopyBase(base[..n]);
      assert (UpperAll(base[..n]) + Padding(8 - n))[n := Upper(base[n])] == UpperAll(base) + Padding(8 - |base|);
    }
  }

  lemma {:induction false} CopyExt(base: seq<byte>, ext: seq<byte>)
    requires |base| <= 8 && NameChars(base) && |ext| <= 3 && NameChars(ext)
    ensures CopyAll(base + [DOT] + ext) == NameFields(UpperAll(base) + Padding(8 - |base|), |base|, UpperAll(ext) + Padding(3 - |ext|), |ext|, true)
    decreases ext
  {
    var name := base + [DOT] + ext;
    if ext == [] {
      CopyBase(base);
      assert name == base + [DOT] && name[..|name| - 1] == base;
      assert UpperAll(ext) + Padding(3) == BLANK.ext;
    } else {
      var n := |ext| - 1;
      CopyExt(base, ext[..n]);
      assert name[..|name| - 1] == base + [DOT] + ext[..n];
      assert (UpperAll(ext[..n]) + Padding(3 - n))[n := Upper(ext[n])] == UpperAll(ext) + Padding(3 - |ext|);
    }
  }

  lemma {:induction false} SkimPadded(s: seq<byte>, n: nat)
    requires forall i :: 0 <= i < |s| ==> s[i] != SPACE
    ensures Skim(s + Padding(n)) == s
    decreases |s| + n
  {
    var t := s + Padding(n);
    if n > 0 {
      SkimPadded(s, n - 1);
      assert t[..|t| - 1] == s + Padding(n - 1);
    } else if s != [] {
      SkimPadded(s[..|s| - 1], 0);
      assert t == s && s[..|s| - 1] + Padding(0) == s[..|s| - 1];
    }
  }

  lemma UpperNameChars(s: seq<byte>)
    requires NameChars(s)
    ensures NameChars(UpperAll(s))
  {
  }

  lemma UpperTwice(s: seq<byte>)
    ensures UpperAll(UpperAll(s)) == UpperAll(s)
  {
    assert forall i :: 0 <= i < |s| ==> Upper(Upper(s[i])) == Upper(s[i]);
  }

  lemma UpperAppend(a: seq<byte>, b: seq<byte>)
    ensures UpperAll(a + b) == UpperAll(a) + UpperAll(b)
  {
  }

  /** An entry written under a valid 8.3 name is found under it, whatever the case of its letters. */
  lemma NameRoundTrip(base: seq<byte>, ext: seq<byte>, s: Slot, query: seq<byte>)
    requires Valid83(base, ext)
    requires s[..8] == CopyAll(FullName(base, ext)).file && s[8..11] == CopyAll(FullName(base, ext)).ext
    ensures s[0] != 0 && s[0] != DELETED
    ensures Matches(s, query) <==> UpperAll(query) == UpperAll(FullName(base, ext))
  {
    hide CopyAll, Skim, CString, UpperAll;
    var b, e := UpperAll(base), UpperAll(ext);
    UpperNameChars(base);
    UpperNameChars(ext);
    if ext == [] {
      CopyBase(base);
      assert s[8..11] == BLANK.ext && s[8] == s[8..11][0];
      SkimPadded(b, 8 - |base|);
      assert b + [] == b;
      UpperTwice(base);
    } else {
      CopyExt(base, ext);
      SkimPadded(b, 8 - |base|);
      SkimPadded(e, 3 - |ext|);
      assert s[8] == s[8..11][0] == e[0];
      assert EntryName(s) == CString(b + ([DOT] + e));
      assert 0 !in b + ([DOT] + e);
      assert b + ([DOT] + e) == UpperAll(FullName(base, ext)) by {
        UpperAppend(base + [DOT], ext);
        UpperAppend(base, [DOT]);
      }
      UpperTwice(FullName(base, ext));
    }
    assert s[0] == s[..8][0] == b[0];
  }

  // ----- Entry fields -----

  function ClusterOf(s: Slot): nat {
    Get16(s[26], s[27])
  }

  function SizeOf(s: Slot): nat {
    Get32(s[28], s[29], s[30], s[31])
  }

  /** An entry in use that lookups consider. */
  predicate Live(s: Slot) {
    s[0] != 0 && s[0] != DELETED && s[11] != ATTR_LFN
  }

  function WithSizeAndCluster(s: Slot, size: nat, cluster: nat): (r: Slot)
    requires size < 0x1_0000_0000 && cluster < 0x1_0000
    ensures SizeOf(r) == size && ClusterOf(r) == cluster
    ensures r[..26] == s[..26]
  {
    Get16Set(cluster);
    Get32Set(size);
    s[26 := Low(cluster)][27 := Low(cluster / 256)][28 := Low(size)][29 := Low(size / 256)][30 := Low(size / 0x1_0000)][31 := Low(size / 0x100_0000)]
  }

  /** A new entry: name, attribute, first cluster, size zero. */
  function NewSlot(file: seq<byte>, ext: seq<byte>, attr: byte, cluster: nat): (r: Slot)
    requires |file| == 8 && |ext| == 3 && cluster < 0x1_0000
  {
    file + ext + [attr] + Zeros(14) + [Low(cluster), Low(cluster / 256)] + Zeros(4)
  }

  lemma NewSlotFields(file: seq<byte>, ext: seq<byte>, attr: byte, cluster: nat)
    requires |file| == 8 && |ext| == 3 && cluster < 0x1_0000
    ensures var r := NewSlot(file, ext, attr, cluster);
      r[..8] == file && r[8..11] == ext && r[11] == attr && ClusterOf(r) == cluster && SizeOf(r) == 0
  {
    hide Low;
    Get16Set(cluster);
    var r := NewSlot(file, ext, attr, cluster);
    assert r[26] == Low(cluster) && r[27] == Low(cluster / 256);
    assert r[28] == 0 && r[29] == 0 && r[30] == 0 && r[31] == 0;
  }

  // ----- Lookup -----

  datatype Found = NotFound | Found(slot: nat)

  /** The first live entry at or after k that matches; an entry starting with zero ends the directory. */
  function FindFrom(slots: seq<Slot>, name: seq<byte>, k: nat): (r: Found)
    requires k <= |slots|
    ensures r.Found? ==> k <= r.slot < |slots| && Live(slots[r.slot]) && Matches(slots[r.slot], name)
    decreases |slots| - k
  {
    if k == |slots| || slots[k][0] == 0 then NotFound
    else if slots[k][0] == DELETED || slots[k][11] == ATTR_LFN || !Matches(slots[k], name) then FindFrom(slots, name, k + 1)
    else Found(k)
  }

  /** The first entry at or after k that is free. */
  function FreeFrom(slots: seq<Slot>, k: nat): (r: Found)
    requires k <= |slots|
    ensures r.Found? ==> k <= r.slot < |slots| && (slots[r.slot][0] == 0 || slots[r.slot][0] == DELETED)
    ensures forall j :: k <= j < (if r.Found? then r.slot else |slots|) ==> slots[j][0] != 0 && slots[j][0] != DELETED
    decreases |slots| - k
  {
    if k == |slots| then NotFound
    else if slots[k][0] == 0 || slots[k][0] == DELETED then Found(k)
    else FreeFrom(slots, k + 1)
  }

  /** Once an entry starts with zero, so do all later ones. */
  ghost predicate Ended(slots: seq<Slot>) {
    forall j, k :: 0 <= j < k < |slots| && slots[j][0] == 0 ==> slots[k][0] == 0
  }

  /** Entries before the first free one: lookups differ from `slots` only by what the new entry matches. */
  lemma {:induction false} FindAfterAdd(slots: seq<Slot>, k: nat, s: Slot, name: seq<byte>, query: seq<byte>, i: nat)
    requires Ended(slots) && FreeFrom(slots, 0) == Found(k) && i <= k
    requires FindFrom(slots, name, i).NotFound? && Live(s)
    requires forall q :: Matches(s, q) <==> UpperAll(q) == UpperAll(name)
    ensures FindFrom(slots[k := s], query, i) == if UpperAll(query) == UpperAll(name) then Found(k) else FindFrom(slots, query, i)
    decreases k - i
  {
    hide Matches, UpperAll;
    if i < k {
      MatchesUpper(slots[i], name, query);
      FindAfterAdd(slots, k, s, name, query, i + 1);
    } else if UpperAll(query) != UpperAll(name) {
      assert !Matches(s, query);
      if slots[k][0] == 0 {
        NothingAfterEnd(slots, k, s, query);
      } else {
        FindFromLater(slots, k, s, query, k + 1);
      }
    }
  }

  lemma MatchesUpper(s: Slot, name: seq<byte>, query: seq<byte>)
    ensures UpperAll(query) == UpperAll(name) ==> (Matches(s, query) <==> Matches(s, name))
  {
  }

  lemma NothingAfterEnd(slots: seq<Slot>, k: nat, s: Slot, query: seq<byte>)
    requires Ended(slots) && k < |slots| && slots[k][0] == 0
    ensures FindFrom(slots[k := s], query, k + 1).NotFound?
  {
    hide Matches;
  }

  /** A lookup that starts behind a changed entry does not see it. */
  lemma {:induction false} FindFromLater(slots: seq<Slot>, k: nat, s: Slot, query: seq<byte>, i: nat)
    requires k < i <= |slots|
    ensures FindFrom(slots[k := s], query, i) == FindFrom(slots, query, i)
    decreases |slots| - i
  {
    hide Matches;
    if i < |slots| {
      FindFromLater(slots, k, s, query, i + 1);
    }
  }

  /** Changing an entry behind its name and attribute changes no lookup. */
  lemma {:induction false} FindSameNames(slots: seq<Slot>, k: nat, s: Slot, query: seq<byte>, i: nat)
    requires k < |slots| && i <= |slots| && s[..12] == slots[k][..12]
    ensures FindFrom(slots[k := s], query, i) == FindFrom(slots, query, i)
    ensures Live(s) <==> Live(slots[k])
    decreases |slots| - i
  {
    SameName(slots[k], s, query);
    hide Matches;
    if i < |slots| {
      FindSameNames(slots, k, s, query, i + 1);
    }
  }

  lemma SameName(s: Slot, t: Slot, query: seq<byte>)
    requires t[..12] == s[..12]
    ensures Matches(t, query) <==> Matches(s, query)
    ensures t[0] == s[0] && t[11] == s[11]
  {
    assert t[..8] == t[..12][..8] && s[..8] == s[..12][..8];
    assert t[8..11] == t[..12][8..11] && s[8..11] == s[..12][8..11];
    assert t[8] == t[..12][8] && s[8] == s[..12][8];
    assert t[0] == t[..12][0] && t[11] == t[..12][11];
  }

  lemma {:induction false} CopiedChars(name: seq<byte>)
    requires 0 !in name
    ensures 0 !in CopyAll(name).file
    decreases name
  {
    if name != [] {
      CopiedChars(name[..|name| - 1]);
    }
  }
}
