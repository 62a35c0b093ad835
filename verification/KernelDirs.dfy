/** One directory block of the kernel filesystem: 31 entries of an inode number and a name. */
module KernelDirs {
  import opened Octets

  const BLOCK := 4096
  /** A 32-bit inode number and 128 bytes of name. */
  const ENTRY := 132
  const ENTRIES := 31
  const MAX_FILENAME := 128
  const WORD := 0x1_0000_0000

  predicate Blank(b: seq<byte>) {
    |b| == BLOCK && forall i | 0 <= i < BLOCK :: b[i] == 0
  }

  function Ino(b: seq<byte>, i: nat): (r: nat)
    requires |b| == BLOCK && i < ENTRIES
    ensures r < WORD
  {
    Get32(b[ENTRY * i], b[ENTRY * i + 1], b[ENTRY * i + 2], b[ENTRY * i + 3])
  }

  function NameAt(b: seq<byte>, i: nat): seq<byte>
    requires |b| == BLOCK && i < ENTRIES
  {
    CString(b[ENTRY * i + 4..ENTRY * i + ENTRY])
  }

  /** As much of a name as an entry keeps. */
  function Short(name: seq<byte>): (r: seq<byte>)
    ensures |r| < MAX_FILENAME && r <= name && (0 !in name ==> 0 !in r)
  {
    if |name| < MAX_FILENAME then name else name[..MAX_FILENAME - 1]
  }

  function Record(ino: nat, name: seq<byte>): (r: seq<byte>)
    ensures |r| == ENTRY
  {
    [Low(ino), Low(ino / 256), Low(ino / 0x1_0000), Low(ino / 0x100_0000)] + Short(name) + Zeros(MAX_FILENAME - |Short(name)|)
  }

  function PutEntry(b: seq<byte>, i: nat, ino: nat, name: seq<byte>): (r: seq<byte>)
    requires |b| == BLOCK && i < ENTRIES
    ensures |r| == BLOCK
  {
    b[..ENTRY * i] + Record(ino, name) + b[ENTRY * i + ENTRY..]
  }

  lemma {:induction false} CStringPadded(s: seq<byte>, n: nat)
    requires 0 !in s && n > 0
    ensures CString(s + Zeros(n)) == s
    decreases s
  {
    if s == [] {
      assert s + Zeros(n) == Zeros(n);
    } else {
      assert (s + Zeros(n))[1..] == s[1..] + Zeros(n);
      CStringPadded(s[1..], n);
    }
  }

  lemma PutEntryHere(b: seq<byte>, i: nat, ino: nat, name: seq<byte>)
    requires |b| == BLOCK && i < ENTRIES && ino < WORD && 0 !in name
    ensures Ino(PutEntry(b, i, ino, name), i) == ino && NameAt(PutEntry(b, i, ino, name), i) == Short(name)
  {
    hide Low, CString, Get32, Short, Zeros;
    var r, e := PutEntry(b, i, ino, name), Record(ino, name);
    var at := ENTRY * i;
    assert forall k | 0 <= k < ENTRY :: r[at + k] == e[k];
    Get32Set(ino);
    assert r[at + 0] == e[0] && r[at + 1] == e[1] && r[at + 2] == e[2] && r[at + 3] == e[3];
    assert r[at + 4..at + ENTRY] == e[4..] == Short(name) + Zeros(MAX_FILENAME - |Short(name)|);
    CStringPadded(Short(name), MAX_FILENAME - |Short(name)|);
  }

  lemma PutEntryElsewhere(b: seq<byte>, i: nat, ino: nat, name: seq<byte>, j: nat)
    requires |b| == BLOCK && i < ENTRIES && j < ENTRIES && i != j
    ensures Ino(PutEntry(b, i, ino, name), j) == Ino(b, j) && NameAt(PutEntry(b, i, ino, name), j) == NameAt(b, j)
  {
    hide CString, Get32, Record;
    var r, at := PutEntry(b, i, ino, name), ENTRY * j;
    assert j < i ==> at + ENTRY <= ENTRY * i;
    assert i < j ==> ENTRY * i + ENTRY <= at;
    assert forall k | at <= k < at + ENTRY :: r[k] == b[k];
    assert r[at + 4..at + ENTRY] == b[at + 4..at + ENTRY];
  }

  /** The first entry that is not in use, or 31. */
  function EmptyFrom(b: seq<byte>, i: nat): (r: nat)
    requires |b| == BLOCK && i <= ENTRIES
    ensures i <= r <= ENTRIES && (r < ENTRIES ==> Ino(b, r) == 0)
    ensures forall j | i <= j < r :: Ino(b, j) != 0
    decreases ENTRIES - i
  {
    if i == ENTRIES || Ino(b, i) == 0 then i else EmptyFrom(b, i + 1)
  }

  /** The inode of the first entry in use with that name, or -1. */
  function LookupFrom(b: seq<byte>, name: seq<byte>, i: nat): (r: int)
    requires |b| == BLOCK && i <= ENTRIES
    ensures -1 <= r < WORD && r != 0
    decreases ENTRIES - i
  {
    if i == ENTRIES then -1
    else if Ino(b, i) != 0 && NameAt(b, i) == name then Ino(b, i)
    else LookupFrom(b, name, i + 1)
  }

  /** The entries in use come before those that are not. */
  ghost predicate Packed(b: seq<byte>)
    requires |b| == BLOCK
  {
    forall j, k :: 0 <= j < k < ENTRIES && Ino(b, k) != 0 ==> Ino(b, j) != 0
  }

  lemma EmptyBlock(b: seq<byte>)
    requires Blank(b)
    ensures Packed(b) && EmptyFrom(b, 0) == 0
  {
    assert forall i | 0 <= i < ENTRIES :: Ino(b, i) == 0;
  }

  /** Writing an entry into the first empty place. */
  lemma PutKeepsPacked(b: seq<byte>, ino: nat, name: seq<byte>)
    requires |b| == BLOCK && Packed(b) && 0 < ino < WORD && 0 !in name && EmptyFrom(b, 0) < ENTRIES
    ensures var r := PutEntry(b, EmptyFrom(b, 0), ino, name);
      Packed(r) && EmptyFrom(r, 0) == EmptyFrom(b, 0) + 1
  {
    hide Ino, NameAt, Short, PutEntry;
    var k := EmptyFrom(b, 0);
    var r := PutEntry(b, k, ino, name);
    forall j | 0 <= j < ENTRIES ensures Ino(r, j) != 0 <==> j <= k {
      if j == k {
        PutEntryHere(b, k, ino, name);
      } else {
        PutEntryElsewhere(b, k, ino, name, j);
        assert j < k ==> Ino(b, j) != 0;
      }
    }
    if k + 1 < ENTRIES {
      assert Ino(r, k + 1) == 0;
    }
  }

  /** After that, lookups differ for its name alone, and only if there was no entry of that name. */
  lemma {:induction false} LookupAfterPut(b: seq<byte>, ino: nat, name: seq<byte>, q: seq<byte>, i: nat)
    requires |b| == BLOCK && Packed(b) && 0 < ino < WORD && 0 !in name && EmptyFrom(b, 0) < ENTRIES && i <= ENTRIES
    ensures LookupFrom(PutEntry(b, EmptyFrom(b, 0), ino, name), q, i) ==
      if i <= EmptyFrom(b, 0) && q == Short(name) && LookupFrom(b, q, i) == -1 then ino else LookupFrom(b, q, i)
    decreases ENTRIES - i
  {
    hide Ino, NameAt, Short, PutEntry, EmptyFrom;
    var k := EmptyFrom(b, 0);
    if i < ENTRIES {
      LookupAfterPut(b, ino, name, q, i + 1);
      if i == k {
        PutEntryHere(b, k, ino, name);
        NothingBehind(b, q, k + 1);
      } else {
        PutEntryElsewhere(b, k, ino, name, i);
      }
    }
  }

  lemma {:induction false} NothingBehind(b: seq<byte>, q: seq<byte>, i: nat)
    requires |b| == BLOCK && Packed(b) && EmptyFrom(b, 0) < i <= ENTRIES
    ensures LookupFrom(b, q, i) == -1
    decreases ENTRIES - i
  {
    hide Ino, NameAt;
    if i < ENTRIES {
      NothingBehind(b, q, i + 1);
    }
  }
}
