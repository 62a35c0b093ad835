/** MD5 by pieces: md5_init, md5_update and md5_final over any compression function. */
module Md5 {
  import opened Octets
  import opened HashBlocks

  const START: seq<nat> := [0x67452301, 0xefcdab89, 0x98badcfe, 0x10325476]

  const WORD := 0x1_0000_0000

  function PaddedMessage(m: seq<byte>): (r: seq<byte>)
    ensures |r| % 64 == 0
  {
    Padded(m, LittleEnd64(BitLength(|m|)))
  }

  /** The digest of a message: the compression function folded over the message padded and followed by its length, as in
      sections 3.1 and 3.2 of RFC 1321. */
  function Digest(f: Compression, m: seq<byte>): seq<byte> {
    Bytes(Fold(f, START, PaddedMessage(m)), false)
  }

  /** Two words added to the way the context does: low word, carry, high word. */
  lemma CountAdds(c0: nat, c1: nat, n: nat, k: nat)
    requires c0 < WORD && c1 < WORD && c0 + WORD * c1 == BitLength(n) && k < WORD
    ensures
      var bits := (8 * k) % WORD;
      var d0 := (c0 + bits) % WORD;
      var d1 := ((if d0 < bits then (c1 + 1) % WORD else c1) + k / 0x2000_0000) % WORD;
      d0 + WORD * d1 == BitLength(n + k)
  {
    var bits, hi := (8 * k) % WORD, k / 0x2000_0000;
    assert 8 * k == WORD * hi + bits;
    var carry := if c0 + bits >= WORD then 1 else 0;
    var d0 := (c0 + bits) % WORD;
    assert d0 == c0 + bits - WORD * carry;
    assert d0 < bits <==> carry == 1;
    var e1 := if d0 < bits then (c1 + 1) % WORD else c1;
    var p := (c1 + carry) / WORD;
    assert c1 + carry == WORD * p + e1;
    var q, d1 := (e1 + hi) / WORD, (e1 + hi) % WORD;
    assert c1 + carry + hi == WORD * (p + q) + d1;
    var r := (8 * n) / 0x1_0000_0000_0000_0000;
    assert 8 * (n + k) == 0x1_0000_0000_0000_0000 * (r + p + q) + (d0 + WORD * d1);
    KeepsBits(n + k, r + p + q, d0 + WORD * d1);
  }

  lemma KeepsBits(n: nat, q: int, r: nat)
    requires 8 * n == 0x1_0000_0000_0000_0000 * q + r && r < 0x1_0000_0000_0000_0000
    ensures BitLength(n) == r
  {
  }

  lemma CountIndex(c0: nat, c1: nat, n: nat)
    requires c0 < WORD && c0 + WORD * c1 == BitLength(n)
    ensures (c0 / 8) % 64 == n % 64
  {
    var r := (8 * n) / 0x1_0000_0000_0000_0000;
    assert 8 * n == 512 * (0x80_0000_0000_0000 * r + 0x80_0000 * c1) + c0;
    var t := n / 64;
    assert c0 == 512 * (t - (0x80_0000_0000_0000 * r + 0x80_0000 * c1)) + 8 * (n % 64);
  }

  /** The bytes of the two words are the bytes of the number they make. */
  lemma TwoWords(c0: nat, c1: nat)
    requires c0 < WORD
    ensures LittleEnd64(c0 + WORD * c1) == WordBytes(c0, false) + WordBytes(c1, false)
  {
    hide ByteAt;
    forall k: nat | k < 4
      ensures ByteAt(c0 + WORD * c1, k) == ByteAt(c0, k)
      ensures ByteAt(c0 + WORD * c1, k + 4) == ByteAt(c1, k)
    {
      SplitBytes(c0, c1, 4, k);
      SplitBytes(c0, c1, 4, k + 4);
      assert Limit(4) == WORD;
    }
    var n := c0 + WORD * c1;
    assert ByteAt(n, 0) == ByteAt(c0, 0) && ByteAt(n, 1) == ByteAt(c0, 1) && ByteAt(n, 2) == ByteAt(c0, 2) && ByteAt(n, 3) == ByteAt(c0, 3);
    assert ByteAt(n, 0 + 4) == ByteAt(c1, 0) && ByteAt(n, 1 + 4) == ByteAt(c1, 1) && ByteAt(n, 2 + 4) == ByteAt(c1, 2) && ByteAt(n, 3 + 4) == ByteAt(c1, 3);
  }

  lemma {:induction false} SplitBytes(a: nat, b: nat, j: nat, k: nat)
    requires a < Limit(j)
    ensures ByteAt(a + Limit(j) * b, k) == if k < j then ByteAt(a, k) else ByteAt(b, k - j)
    decreases j
  {
    if j == 0 {
      assert Limit(0) * b == b;
    } else {
      var rest := Limit(j - 1) * b;
      assert Limit(j) * b == 256 * rest;
      assert (a + 256 * rest) / 256 == a / 256 + rest && (a + 256 * rest) % 256 == a % 256;
      if k > 0 {
        SplitBytes(a / 256, b, j - 1, k - 1);
      }
    }
  }

  class Context {
    const compress: Compression
    var state: seq<nat>
    var count0: nat
    var count1: nat
    const buffer: array<byte>
    /** The bytes taken in so far. */
    ghost var absorbed: seq<byte>

    ghost predicate Valid()
      reads this, buffer
    {
      && Gives(compress, 4) && count0 < WORD && count1 < WORD
      && count0 + WORD * count1 == BitLength(|absorbed|)
      && Holds(compress, START, state, buffer[..], absorbed)
    }

    /** md5_init. */
    constructor (f: Compression)
      requires Gives(f, 4)
      ensures Valid() && absorbed == [] && compress == f && fresh(buffer)
    {
      compress := f;
      state := START;
      count0, count1 := 0, 0;
      buffer := new byte[64];
      absorbed := [];
    }

    method Count(n: nat)
      requires count0 < WORD && count1 < WORD && n < WORD && count0 + WORD * count1 == BitLength(|absorbed|)
      modifies `count0, `count1
      ensures count0 < WORD && count1 < WORD && count0 + WORD * count1 == BitLength(|absorbed| + n)
    {
      CountAdds(count0, count1, |absorbed|, n);
      var bits := (n * 8) % WORD;
      count0 := (count0 + bits) % WORD;
      if count0 < bits {
        count1 := (count1 + 1) % WORD;
      }
      count1 := (count1 + n / 0x2000_0000) % WORD;
    }

    /** Takes in whole blocks of the data from an offset on, while the index j + 63 does not wrap around 32 bits. */
    method Blocks(ghost m: seq<byte>, data: seq<byte>, from: nat) returns (j: nat)
      requires from <= |data| < WORD && (|m| + from) % 64 == 0
      requires |data| - (|m| + |data|) % 64 + 63 < WORD
      requires state == Fold(compress, START, (m + data)[..|m| + from])
      modifies `state
      ensures j <= |data| < j + 64 && (|m| + j) % 64 == 0
      ensures state == Fold(compress, START, (m + data)[..|m| + j])
    {
      hide Fold;
      j := from;
      IndexFits(|m|, |data|, j);
      while (j + 63) % WORD < |data|
        invariant from <= j <= |data| && (|m| + j) % 64 == 0 && j + 63 < WORD
        invariant state == Fold(compress, START, (m + data)[..|m| + j])
        decreases |data| - j
      {
        NextBlock(compress, START, state, m, data, j);
        state := compress(state, data[j..j + 64]);
        j := j + 64;
        IndexFits(|m|, |data|, j);
      }
    }

    /** md5_update takes in any bytes whose last whole block does not end within 63 of the 32-bit limit. */
    method Update(data: seq<byte>)
      requires Valid() && |data| < WORD && |data| - (|absorbed| + |data|) % 64 + 63 < WORD
      modifies this, buffer
      ensures Valid() && absorbed == old(absorbed) + data
    {
      hide Gives, Fold, Holds, Overwrite, BitLength;
      ghost var m := absorbed;
      HoldsSize(compress, START, state, buffer[..], m);
      CountIndex(count0, count1, |m|);
      var i := (count0 / 8) % 64;
      Count(|data|);
      absorbed := m + data;
      var part := 64 - i;
      if |data| >= part {
        FirstBlock(compress, START, state, buffer[..], m, data);
        CopyInto(buffer, i, data[..part]);
        state := compress(state, buffer[..]);
        var j := Blocks(m, data, part);
        HoldsLast(compress, START, state, buffer[..], m, data, j);
        CopyInto(buffer, 0, data[j..]);
      } else {
        HoldsShort(compress, START, state, buffer[..], m, data);
        CopyInto(buffer, i, data);
      }
    }

    /** md5_final: takes in the padding and the length, then writes the digest. */
    method Final(digest: array<byte>)
      requires Valid() && digest.Length == 16 && digest != buffer
      modifies this, buffer, digest
      ensures digest[..] == Digest(compress, old(absorbed))
    {
      hide Gives, Fold, Holds, ByteAt, BitLength, Digest, PaddedMessage;
      ghost var m := absorbed;
      TwoWords(count0, count1);
      var bits := WordBytes(count0, false) + WordBytes(count1, false);
      CountIndex(count0, count1, |m|);
      var index := (count0 / 8) % 64;
      var padlen := if index < 56 then 56 - index else 120 - index;
      var padding := [0x80] + Zeros(63);
      Update(padding[..padlen]);
      Update(bits);
      PaddingIs(m, padlen, LittleEnd64(BitLength(|m|)));
      WholeFold(compress, state, buffer[..], absorbed);
      ClosedDigest(compress, m);
      WriteWords(digest, state, false);
    }
  }

  lemma IndexFits(n: nat, k: nat, j: nat)
    requires j <= k < WORD && (n + j) % 64 == 0 && k - (n + k) % 64 + 63 < WORD
    ensures j + 63 < WORD
  {
    assert j <= k - (n + k) % 64 by {
      var a, b := (n + j) / 64, (n + k) / 64;
      assert n + j == 64 * a && n + k == 64 * b + (n + k) % 64;
    }
  }

  lemma PaddingIs(m: seq<byte>, padlen: nat, length: seq<byte>)
    requires padlen == (if |m| % 64 < 56 then 56 - |m| % 64 else 120 - |m| % 64) && |length| == 8
    ensures m + ([0x80] + Zeros(63))[..padlen] + length == Padded(m, length)
  {
    assert padlen == 1 + PadZeros(|m|);
    assert ([0x80] + Zeros(63))[..padlen] == [0x80] + Zeros(PadZeros(|m|));
  }

  lemma WholeFold(f: Compression, words: seq<nat>, buffer: seq<byte>, m: seq<byte>)
    requires Holds(f, START, words, buffer, m) && |m| % 64 == 0
    ensures words == Fold(f, START, m)
  {
    assert m[..Whole(|m|)] == m;
  }

  lemma ClosedDigest(f: Compression, m: seq<byte>)
    requires Gives(f, 4)
    ensures |Fold(f, START, PaddedMessage(m))| == 4
    ensures Digest(f, m) == Bytes(Fold(f, START, PaddedMessage(m)), false)
    ensures PaddedMessage(m) == Padded(m, LittleEnd64(BitLength(|m|)))
  {
    hide Gives;
    FoldGives(f, 4, PaddedMessage(m), START);
  }

  /** Any pieces: the digest of their concatenation. */
  method HashPieces(f: Compression, pieces: seq<seq<byte>>, digest: array<byte>)
    requires Gives(f, 4) && digest.Length == 16
    requires forall p <- pieces :: |p| < 0xFFFF_FFC1
    modifies digest
    ensures digest[..] == Digest(f, Flatten(pieces))
  {
    hide Gives, Digest, Fold, Holds;
    var context := new Context(f);
    for i := 0 to |pieces|
      invariant context.Valid() && context.absorbed == Flatten(pieces[..i]) && context.compress == f
      invariant fresh(context) && fresh(context.buffer)
    {
      assert pieces[..i + 1][..i] == pieces[..i];
      context.Update(pieces[i]);
    }
    assert pieces[..|pieces|] == pieces;
    context.Final(digest);
  }
}
