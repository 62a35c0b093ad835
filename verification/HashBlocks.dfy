/** Hashing by 64-byte blocks: folding a compression function over a padded message. */
module HashBlocks {
  import opened Octets

  /** The block function: from the chaining words and a block to the next chaining words. */
  type Compression = (seq<nat>, seq<byte>) -> seq<nat>

  function Fold(f: Compression, words: seq<nat>, m: seq<byte>): seq<nat>
    requires |m| % 64 == 0
    decreases |m|
  {
    if m == [] then words else Fold(f, f(words, m[..64]), m[64..])
  }

  lemma {:induction false} FoldAppend(f: Compression, words: seq<nat>, a: seq<byte>, b: seq<byte>)
    requires |a| % 64 == 0 && |b| % 64 == 0
    ensures Fold(f, words, a + b) == Fold(f, Fold(f, words, a), b)
    decreases |a|
  {
    if a == [] {
      assert a + b == b;
    } else {
      FoldAppend(f, f(words, a[..64]), a[64..], b);
      assert (a + b)[..64] == a[..64] && (a + b)[64..] == a[64..] + b;
    }
  }

  lemma FoldNext(f: Compression, words: seq<nat>, m: seq<byte>, n: nat)
    requires n % 64 == 0 && n + 64 <= |m|
    ensures Fold(f, words, m[..n + 64]) == f(Fold(f, words, m[..n]), m[n..n + 64])
  {
    var block := m[n..n + 64];
    assert m[..n + 64] == m[..n] + block;
    FoldAppend(f, words, m[..n], block);
    assert block[..64] == block && block[64..] == [];
  }

  /** The k-th byte of a number, from the low end: what is left after k shifts by eight bits, cut to a byte. */
  function ByteAt(n: nat, k: nat): byte {
    if k == 0 then Low(n) else ByteAt(n / 256, k - 1)
  }

  function LittleEnd64(n: nat): (r: seq<byte>)
    ensures |r| == 8
  {
    [ByteAt(n, 0), ByteAt(n, 1), ByteAt(n, 2), ByteAt(n, 3), ByteAt(n, 4), ByteAt(n, 5), ByteAt(n, 6), ByteAt(n, 7)]
  }

  function BigEnd64(n: nat): (r: seq<byte>)
    ensures |r| == 8
  {
    [ByteAt(n, 7), ByteAt(n, 6), ByteAt(n, 5), ByteAt(n, 4), ByteAt(n, 3), ByteAt(n, 2), ByteAt(n, 1), ByteAt(n, 0)]
  }

  function Limit(bytes: nat): nat {
    if bytes == 0 then 1 else 256 * Limit(bytes - 1)
  }

  /** Its bytes determine a number. */
  lemma {:induction false} BytesTell(n: nat, m: nat, count: nat)
    requires n < Limit(count) && m < Limit(count)
    requires forall k | 0 <= k < count :: ByteAt(n, k) == ByteAt(m, k)
    ensures n == m
    decreases count
  {
    if count > 0 {
      assert ByteAt(n, 0) == ByteAt(m, 0);
      forall k | 0 <= k < count - 1 ensures ByteAt(n / 256, k) == ByteAt(m / 256, k) {
        assert ByteAt(n, k + 1) == ByteAt(m, k + 1);
      }
      BytesTell(n / 256, m / 256, count - 1);
      assert n % 256 == m % 256;
    }
  }

  lemma EightBytes()
    ensures Limit(8) == 0x1_0000_0000_0000_0000
  {
    assert Limit(4) == 0x1_0000_0000;
  }

  /** The zero bytes between the bit 1 and the length. */
  function PadZeros(n: nat): nat {
    (119 - n % 64) % 64
  }

  /** The least number of zero bytes that leaves eight bytes for the length in the last block. */
  lemma PadZerosLeast(n: nat, k: nat)
    ensures (n + 1 + PadZeros(n)) % 64 == 56
    ensures (n + 1 + k) % 64 == 56 ==> PadZeros(n) <= k
  {
    var q, r := n / 64, n % 64;
    assert n == 64 * q + r;
    assert PadZeros(n) == if r <= 55 then 55 - r else 119 - r;
    if (n + 1 + k) % 64 == 56 {
      var p := (n + 1 + k) / 64;
      assert 64 * (p - q) == r + k - 55;
    }
  }

  /** The message, a bit 1, as few zeros as will do, and the length. */
  function Padded(m: seq<byte>, length: seq<byte>): (r: seq<byte>)
    requires |length| == 8
    ensures |r| == |m| + 1 + PadZeros(|m|) + 8 && |r| % 64 == 0
  {
    PadZerosLeast(|m|, 0);
    m + [0x80] + Zeros(PadZeros(|m|)) + length
  }

  /** The length in bits, of which 64 bits are kept. */
  function BitLength(n: nat): (r: nat)
    ensures r < 0x1_0000_0000_0000_0000
  {
    (8 * n) % 0x1_0000_0000_0000_0000
  }

  lemma PaddedEnd(m: seq<byte>, length: seq<byte>)
    requires |length| == 8
    ensures Padded(m, length)[..|m|] == m
    ensures Padded(m, length)[|Padded(m, length)| - 8..] == length
  {
  }

  lemma ShortLength(n: nat)
    requires n < 0x2000_0000_0000_0000
    ensures BitLength(n) == 8 * n
  {
  }

  lemma SameEnd(m: nat, n: nat, big: bool)
    requires m < 0x2000_0000_0000_0000 && n < 0x2000_0000_0000_0000
    requires
      if big then BigEnd64(BitLength(m)) == BigEnd64(BitLength(n))
      else LittleEnd64(BitLength(m)) == LittleEnd64(BitLength(n))
    ensures m == n
  {
    hide BitLength, ByteAt, Limit;
    var a, b := BitLength(m), BitLength(n);
    forall k | 0 <= k < 8 ensures ByteAt(a, k) == ByteAt(b, k) {
      if big {
        assert BigEnd64(a)[7 - k] == BigEnd64(b)[7 - k];
      } else {
        assert LittleEnd64(a)[k] == LittleEnd64(b)[k];
      }
    }
    EightBytes();
    BytesTell(a, b, 8);
    ShortLength(m);
    ShortLength(n);
  }

  /** Different messages are padded to different strings of blocks. */
  lemma PaddingTells(m: seq<byte>, n: seq<byte>, big: bool)
    requires |m| < 0x2000_0000_0000_0000 && |n| < 0x2000_0000_0000_0000
    requires
      if big then Padded(m, BigEnd64(BitLength(|m|))) == Padded(n, BigEnd64(BitLength(|n|)))
      else Padded(m, LittleEnd64(BitLength(|m|))) == Padded(n, LittleEnd64(BitLength(|n|)))
    ensures m == n
  {
    hide Padded, BigEnd64, LittleEnd64, BitLength, PadZeros;
    var a := if big then BigEnd64(BitLength(|m|)) else LittleEnd64(BitLength(|m|));
    var b := if big then BigEnd64(BitLength(|n|)) else LittleEnd64(BitLength(|n|));
    PaddedEnd(m, a);
    PaddedEnd(n, b);
    SameEnd(|m|, |n|, big);
  }

  /** The whole blocks of a message of n bytes. */
  function Whole(n: nat): (r: nat)
    ensures r % 64 == 0 && r <= n && n == r + n % 64
  {
    n - n % 64
  }

  lemma WholeMore(n: nat, k: nat)
    requires n % 64 + k < 64
    ensures Whole(n + k) == Whole(n) && (n + k) % 64 == n % 64 + k
  {
  }

  /** Bytes that do not fill the block join the rest of the message. */
  lemma JoinsRest(m: seq<byte>, data: seq<byte>)
    requires |m| % 64 + |data| < 64
    ensures
      var all := m + data;
      && Whole(|all|) == Whole(|m|) && |all| % 64 == |m| % 64 + |data|
      && all[..Whole(|m|)] == m[..Whole(|m|)] && all[Whole(|m|)..] == m[Whole(|m|)..] + data
  {
    WholeMore(|m|, |data|);
  }

  /** Bytes that fill the block complete it. */
  lemma FillsBlock(m: seq<byte>, data: seq<byte>)
    requires |m| % 64 + |data| >= 64
    ensures
      var all, w := m + data, Whole(|m|);
      && w + 64 <= |all| && (w + 64) % 64 == 0 && all[..w] == m[..w]
      && all[w..w + 64] == m[w..] + data[..64 - |m| % 64]
  {
  }

  lemma InsideData(m: seq<byte>, data: seq<byte>, from: nat, to: nat)
    requires from <= to <= |data|
    ensures (m + data)[|m| + from..|m| + to] == data[from..to]
  {
  }

  lemma LastPart(m: seq<byte>, data: seq<byte>, off: nat)
    requires off <= |data| < off + 64 && (|m| + off) % 64 == 0
    ensures
      var all := m + data;
      Whole(|all|) == |m| + off && |all| % 64 == |data| - off && all[|m| + off..] == data[off..]
  {
    assert |m| + off == Whole(|m| + off);
    WholeMore(|m| + off, |data| - off);
  }

  /** What a context knows: the whole blocks are folded into the words, the rest is at the front of the buffer. */
  predicate Holds(f: Compression, start: seq<nat>, words: seq<nat>, buffer: seq<byte>, m: seq<byte>) {
    && |buffer| == 64
    && words == Fold(f, start, m[..Whole(|m|)])
    && buffer[..|m| % 64] == m[Whole(|m|)..]
  }

  lemma HoldsSize(f: Compression, start: seq<nat>, words: seq<nat>, buffer: seq<byte>, m: seq<byte>)
    requires Holds(f, start, words, buffer, m)
    ensures |buffer| == 64
  {
  }

  function Overwrite(buffer: seq<byte>, at: nat, bytes: seq<byte>): (r: seq<byte>)
    requires at + |bytes| <= |buffer|
    ensures |r| == |buffer|
  {
    buffer[..at] + bytes + buffer[at + |bytes|..]
  }

  lemma HoldsShort(f: Compression, start: seq<nat>, words: seq<nat>, buffer: seq<byte>, m: seq<byte>, data: seq<byte>)
    requires Holds(f, start, words, buffer, m) && |m| % 64 + |data| < 64
    ensures Holds(f, start, words, Overwrite(buffer, |m| % 64, data), m + data)
  {
    hide Fold, Whole;
    JoinsRest(m, data);
  }

  lemma FirstBlock(f: Compression, start: seq<nat>, words: seq<nat>, buffer: seq<byte>, m: seq<byte>, data: seq<byte>)
    requires Holds(f, start, words, buffer, m) && |m| % 64 + |data| >= 64
    ensures
      var i := |m| % 64;
      && (|m| + 64 - i) % 64 == 0
      && f(words, Overwrite(buffer, i, data[..64 - i])) == Fold(f, start, (m + data)[..|m| + 64 - i])
  {
    hide Fold, Whole;
    var i := |m| % 64;
    FillsBlock(m, data);
    assert Overwrite(buffer, i, data[..64 - i]) == (m + data)[Whole(|m|)..Whole(|m|) + 64];
    FoldNext(f, start, m + data, Whole(|m|));
  }

  lemma NextBlock(f: Compression, start: seq<nat>, words: seq<nat>, m: seq<byte>, data: seq<byte>, off: nat)
    requires off + 64 <= |data| && (|m| + off) % 64 == 0
    requires words == Fold(f, start, (m + data)[..|m| + off])
    ensures f(words, data[off..off + 64]) == Fold(f, start, (m + data)[..|m| + off + 64])
  {
    hide Fold;
    InsideData(m, data, off, off + 64);
    FoldNext(f, start, m + data, |m| + off);
  }

  lemma HoldsLast(f: Compression, start: seq<nat>, words: seq<nat>, buffer: seq<byte>, m: seq<byte>, data: seq<byte>, off: nat)
    requires off <= |data| < off + 64 && (|m| + off) % 64 == 0 && |buffer| == 64
    requires words == Fold(f, start, (m + data)[..|m| + off])
    ensures Holds(f, start, words, Overwrite(buffer, 0, data[off..]), m + data)
  {
    hide Fold, Whole;
    LastPart(m, data, off);
  }

  function Flatten(chunks: seq<seq<byte>>): seq<byte> {
    if chunks == [] then [] else Flatten(chunks[..|chunks| - 1]) + chunks[|chunks| - 1]
  }

  lemma OneBlock(f: Compression, words: seq<nat>, block: seq<byte>)
    requires |block| == 64
    ensures Fold(f, words, block) == f(words, block)
  {
    assert block[..64] == block && block[64..] == [];
  }

  /** The compression function gives the algorithm's number of words. */
  ghost predicate Gives(f: Compression, n: nat) {
    forall words, block :: |f(words, block)| == n
  }

  lemma {:induction false} FoldGives(f: Compression, n: nat, m: seq<byte>, words: seq<nat>)
    requires Gives(f, n) && |words| == n && |m| % 64 == 0
    ensures |Fold(f, words, m)| == n
    decreases |m|
  {
    if m != [] {
      FoldGives(f, n, m[64..], f(words, m[..64]));
    }
  }

  method CopyInto(buffer: array<byte>, at: nat, bytes: seq<byte>)
    requires at + |bytes| <= buffer.Length
    modifies buffer
    ensures buffer[..] == Overwrite(old(buffer[..]), at, bytes)
  {
    for i := 0 to |bytes|
      invariant forall k | 0 <= k < buffer.Length :: buffer[k] == if at <= k < at + i then bytes[k - at] else old(buffer[k])
    {
      buffer[at + i] := bytes[i];
    }
  }

  /** A word's four bytes, from the high end or from the low end. */
  function WordBytes(w: nat, big: bool): (r: seq<byte>)
    ensures |r| == 4
  {
    if big then [ByteAt(w, 3), ByteAt(w, 2), ByteAt(w, 1), ByteAt(w, 0)] else [ByteAt(w, 0), ByteAt(w, 1), ByteAt(w, 2), ByteAt(w, 3)]
  }

  /** The chaining words as bytes. */
  function Bytes(words: seq<nat>, big: bool): (r: seq<byte>)
    ensures |r| == 4 * |words|
  {
    if words == [] then [] else Bytes(words[..|words| - 1], big) + WordBytes(words[|words| - 1], big)
  }

  lemma NextByte(out: seq<byte>, before: seq<byte>, done: seq<byte>, w: nat, big: bool, k: nat)
    requires k < 4 && before == done + WordBytes(w, big)[..k] && out == before + [ByteAt(w, if big then 3 - k else k)]
    ensures out == done + WordBytes(w, big)[..k + 1]
  {
    hide ByteAt;
    assert WordBytes(w, big)[..k + 1] == WordBytes(w, big)[..k] + [ByteAt(w, if big then 3 - k else k)];
  }

  /** The loops that write the digest byte by byte. */
  method WriteWords(digest: array<byte>, words: seq<nat>, big: bool)
    requires digest.Length == 4 * |words|
    modifies digest
    ensures digest[..] == Bytes(words, big)
  {
    hide ByteAt;
    for j := 0 to |words|
      invariant digest[..4 * j] == Bytes(words[..j], big)
    {
      ghost var done := digest[..4 * j];
      for k := 0 to 4
        invariant digest[..4 * j + k] == done + WordBytes(words[j], big)[..k]
      {
        digest[4 * j + k] := ByteAt(words[j], if big then 3 - k else k);
        NextByte(digest[..4 * j + k + 1], digest[..4 * j + k], done, words[j], big, k);
      }
      assert words[..j + 1][..j] == words[..j];
      assert WordBytes(words[j], big)[..4] == WordBytes(words[j], big);
    }
    assert words[..|words|] == words && digest[..4 * |words|] == digest[..];
  }
}
