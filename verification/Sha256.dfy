/** SHA-256 by pieces: sha256_init, sha256_update and sha256_final over any compression function. */
module Sha256 {
  import opened Octets
  import opened HashBlocks

  const START: seq<nat> := [0x6a09e667, 0xbb67ae85, 0x3c6ef372, 0xa54ff53a, 0x510e527f, 0x9b05688c, 0x1f83d9ab, 0x5be0cd19]

  function PaddedMessage(m: seq<byte>): (r: seq<byte>)
    ensures |r| % 64 == 0
  {
    Padded(m, BigEnd64(BitLength(|m|)))
  }

  /** The digest of a message: the compression function folded over the padded message, section 5.1.1 of FIPS 180-4. */
  function Digest(f: Compression, m: seq<byte>): seq<byte> {
    Bytes(Fold(f, START, PaddedMessage(m)), true)
  }

  class Context {
    const compress: Compression
    var state: seq<nat>
    var count: nat
    const buffer: array<byte>
    /** The bytes taken in so far. */
    ghost var absorbed: seq<byte>

    ghost predicate Valid()
      reads this, buffer
    {
      && Gives(compress, 8) && count == |absorbed| % 0x1_0000_0000_0000_0000
      && Holds(compress, START, state, buffer[..], absorbed)
    }

    /** sha256_init. */
    constructor (f: Compression)
      requires Gives(f, 8)
      ensures Valid() && absorbed == [] && compress == f && fresh(buffer)
    {
      compress := f;
      state := START;
      count := 0;
      buffer := new byte[64];
      absorbed := [];
    }

    method Fill(from: nat, to: nat)
      requires from <= to <= buffer.Length
      modifies buffer
      ensures buffer[..] == Overwrite(old(buffer[..]), from, Zeros(to - from))
    {
      for i := from to to
        invariant forall k | 0 <= k < buffer.Length :: buffer[k] == if from <= k < i then 0 else old(buffer[k])
      {
        buffer[i] := 0;
      }
    }

    /** Takes in whole blocks of the data from an offset on. */
    method Blocks(ghost m: seq<byte>, data: seq<byte>, from: nat) returns (off: nat)
      requires from <= |data| && (|m| + from) % 64 == 0
      requires state == Fold(compress, START, (m + data)[..|m| + from])
      modifies `state
      ensures off <= |data| < off + 64 && (|m| + off) % 64 == 0
      ensures state == Fold(compress, START, (m + data)[..|m| + off])
    {
      hide Fold;
      off := from;
      while |data| - off >= 64
        invariant from <= off <= |data| && (|m| + off) % 64 == 0
        invariant state == Fold(compress, START, (m + data)[..|m| + off])
      {
        NextBlock(compress, START, state, m, data, off);
        state := compress(state, data[off..off + 64]);
        off := off + 64;
      }
    }

    /** sha256_update takes in any bytes, as long as their number and the buffered bytes do not wrap around 32 bits. */
    method Update(data: seq<byte>)
      requires Valid() && |absorbed| % 64 + |data| < 0x1_0000_0000
      modifies this, buffer
      ensures Valid() && absorbed == old(absorbed) + data
    {
      hide Gives, Fold, Holds, Overwrite;
      ghost var m, was := absorbed, |absorbed|;
      ghost var all := m + data;
      HoldsSize(compress, START, state, buffer[..], m);
      CountRest(was, |data|);
      var i := count % 64;
      count := (count + |data|) % 0x1_0000_0000_0000_0000;
      absorbed := all;
      if (i + |data|) % 0x1_0000_0000 < 64 {
        HoldsShort(compress, START, state, buffer[..], m, data);
        CopyInto(buffer, i, data);
        return;
      }
      FirstBlock(compress, START, state, buffer[..], m, data);
      CopyInto(buffer, i, data[..64 - i]);
      state := compress(state, buffer[..]);
      var off := Blocks(m, data, 64 - i);
      HoldsLast(compress, START, state, buffer[..], m, data, off);
      CopyInto(buffer, 0, data[off..]);
    }
  
    method Store64(at: nat, n: nat)
      requires at + 8 <= buffer.Length
      modifies buffer
      ensures buffer[..] == Overwrite(old(buffer[..]), at, BigEnd64(n))
    {
      hide ByteAt;
      for j := 0 to 8
        invariant forall k | 0 <= k < buffer.Length :: buffer[k] == if at + 8 - j <= k < at + 8 then ByteAt(n, at + 7 - k) else old(buffer[k])
      {
        buffer[at + 7 - j] := ByteAt(n, j);
      }
    }

    /** sha256_final: closes the message and writes its digest. */
    method Final(digest: array<byte>)
      requires Valid() && digest.Length == 32 && digest != buffer
      modifies this, buffer, digest
      ensures digest[..] == Digest(compress, old(absorbed))
    {
      hide Gives, Fold, Holds, Overwrite, BigEnd64, BitLength, Digest, PaddedMessage;
      ghost var m := absorbed;
      HoldsSize(compress, START, state, buffer[..], m);
      CountRest(|m|, 0);
      BitsOfCount(|m|);
      ghost var start, words := buffer[..], state;
      assert |m| % 64 == count % 64;
      var i := count % 64;
      buffer[i] := 0x80;
      i := i + 1;
      if i > 56 {
        Fill(i, 64);
        state := compress(state, buffer[..]);
        i := 0;
      }
      Fill(i, 56);
      var bits := (count * 8) % 0x1_0000_0000_0000_0000;
      Store64(56, bits);
      state := compress(state, buffer[..]);
      if |m| % 64 < 56 {
        CloseOne(compress, words, start, m);
      } else {
        CloseTwo(compress, words, start, m);
      }
      ClosedDigest(compress, m);
      WriteWords(digest, state, true);
    }
  }

  lemma BitsOfCount(n: nat)
    ensures ((n % 0x1_0000_0000_0000_0000) * 8) % 0x1_0000_0000_0000_0000 == BitLength(n)
  {
    var q, r := n / 0x1_0000_0000_0000_0000, n % 0x1_0000_0000_0000_0000;
    var q', r' := (8 * r) / 0x1_0000_0000_0000_0000, (8 * r) % 0x1_0000_0000_0000_0000;
    assert 8 * n == 0x1_0000_0000_0000_0000 * (8 * q + q') + r';
  }

  lemma ClosedDigest(f: Compression, m: seq<byte>)
    requires Gives(f, 8)
    ensures |Fold(f, START, PaddedMessage(m))| == 8
    ensures Digest(f, m) == Bytes(Fold(f, START, PaddedMessage(m)), true)
  {
    hide Gives;
    FoldGives(f, 8, PaddedMessage(m), START);
  }

  /** The end of the message, the padding and the length in one block. */
  lemma CloseOne(f: Compression, words: seq<nat>, buffer: seq<byte>, m: seq<byte>)
    requires Holds(f, START, words, buffer, m) && |m| % 64 < 56
    ensures
      var i := |m| % 64;
      var last := Overwrite(Overwrite(buffer[i := 0x80], i + 1, Zeros(55 - i)), 56, BigEnd64(BitLength(|m|)));
      f(words, last) == Fold(f, START, PaddedMessage(m))
  {
    hide Fold, BigEnd64, BitLength, Whole;
    var i, w := |m| % 64, Whole(|m|);
    var length := BigEnd64(BitLength(|m|));
    var last := Overwrite(Overwrite(buffer[i := 0x80], i + 1, Zeros(55 - i)), 56, length);
    assert PadZeros(|m|) == 55 - i;
    assert last == m[w..] + [0x80] + Zeros(55 - i) + length;
    assert PaddedMessage(m) == m[..w] + last;
    OneBlock(f, words, last);
    FoldAppend(f, START, m[..w], last);
  }

  /** Or the end of the message in one block and the length in another. */
  lemma CloseTwo(f: Compression, words: seq<nat>, buffer: seq<byte>, m: seq<byte>)
    requires Holds(f, START, words, buffer, m) && |m| % 64 >= 56
    ensures
      var i := |m| % 64;
      var b := Overwrite(buffer[i := 0x80], i + 1, Zeros(63 - i));
      var last := Overwrite(Overwrite(b, 0, Zeros(56)), 56, BigEnd64(BitLength(|m|)));
      f(f(words, b), last) == Fold(f, START, PaddedMessage(m))
  {
    hide Fold, BigEnd64, BitLength, Whole;
    var i, w := |m| % 64, Whole(|m|);
    var length := BigEnd64(BitLength(|m|));
    var b := Overwrite(buffer[i := 0x80], i + 1, Zeros(63 - i));
    var last := Overwrite(Overwrite(b, 0, Zeros(56)), 56, length);
    assert PadZeros(|m|) == (63 - i) + 56;
    assert Zeros(PadZeros(|m|)) == Zeros(63 - i) + Zeros(56);
    assert b == m[w..] + [0x80] + Zeros(63 - i) && last == Zeros(56) + length;
    assert PaddedMessage(m) == m[..w] + b + last;
    OneBlock(f, words, b);
    OneBlock(f, f(words, b), last);
    FoldAppend(f, START, m[..w], b);
    FoldAppend(f, START, m[..w] + b, last);
  }

  lemma CountRest(n: nat, k: nat)
    ensures (n % 0x1_0000_0000_0000_0000) % 64 == n % 64
    ensures (n % 0x1_0000_0000_0000_0000 + k) % 0x1_0000_0000_0000_0000 == (n + k) % 0x1_0000_0000_0000_0000
  {
    var q, r := n / 0x1_0000_0000_0000_0000, n % 0x1_0000_0000_0000_0000;
    assert n == 64 * (0x400_0000_0000_0000 * q) + r;
    var q', r' := (r + k) / 0x1_0000_0000_0000_0000, (r + k) % 0x1_0000_0000_0000_0000;
    assert n + k == 0x1_0000_0000_0000_0000 * (q + q') + r';
  }

  /** Any pieces: the digest of their concatenation. */
  method HashPieces(f: Compression, pieces: seq<seq<byte>>, digest: array<byte>)
    requires Gives(f, 8) && digest.Length == 32
    requires forall p <- pieces :: |p| < 0xFFFF_FFC1
    modifies digest
    ensures digest[..] == Digest(f, Flatten(pieces))
  {
    hide Gives, Digest, Fold, Holds;
    var context := new Context(f);
    for i := 0 to |pieces|
      invariant context.Valid() && context.absorbed == Flatten(pieces[..i]) && context.compress == f
      invariant fresh(context) && fresh(context.buffer)
    {
      assert pieces[..i + 1][..i] == pieces[..i];
      context.Update(pieces[i]);
    }
    assert pieces[..|pieces|] == pieces;
    context.Final(digest);
  }
}
