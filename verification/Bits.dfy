/** Powers of two and exclusive or on unbounded naturals. */
module Bits {

  newtype uint32 = x: int | 0 <= x < 0x1_0000_0000

  function Pow2(n: nat): (p: nat)
    ensures p >= 1
  {
    if n == 0 then 1 else 2 * Pow2(n - 1)
  }

  /** The bitwise exclusive or, bit by bit from the least significant end. */
  function Xor(a: nat, b: nat): nat
    decreases a + b
  {
    if a == 0 && b == 0 then 0 else 2 * Xor(a / 2, b / 2) + (a + b) % 2
  }

  lemma {:induction false} Pow2Monotone(m: nat, n: nat)
    requires m <= n
    ensures Pow2(m) <= Pow2(n)
    ensures m < n ==> 2 * Pow2(m) <= Pow2(n)
    decreases n
  {
    if m < n {
      Pow2Monotone(m, n - 1);
    }
  }

  lemma {:induction false} Pow2Add(m: nat, n: nat)
    ensures Pow2(m + n) == Pow2(m) * Pow2(n)
    decreases n
  {
    if n > 0 {
      Pow2Add(m, n - 1);
      assert Pow2(m + n) == 2 * Pow2(m + (n - 1));
    }
  }

  lemma Pow2Values()
    ensures Pow2(12) == 4096
    ensures Pow2(28) == 0x1000_0000
    ensures Pow2(31) == 0x8000_0000
  {
    assert Pow2(6) == 64;
    Pow2Add(6, 6);
    Pow2Add(12, 12);
    assert Pow2(4) == 16;
    Pow2Add(24, 4);
    assert Pow2(3) == 8;
    Pow2Add(28, 3);
  }

  lemma {:induction false} XorZero(a: nat)
    ensures Xor(a, 0) == a
    decreases a
  {
    if a > 0 {
      XorZero(a / 2);
    }
  }

  lemma MulStep(p: nat, q: int, q': int)
    requires q < q'
    ensures p * q + p <= p * q'
  {
    assert p * q' == p * q + p * (q' - q);
    assert p * (q' - q) == p * (q' - q - 1) + p;
    assert 0 <= p * (q' - q - 1);
  }

  lemma DivideUnique(a: int, p: int, q: int, r: int)
    requires p > 0 && 0 <= r < p && a == p * q + r
    ensures a / p == q && a % p == r
  {
    var q' := a / p;
    if q < q' {
      MulStep(p, q, q');
    } else if q' < q {
      MulStep(p, q', q);
    }
  }

  function Neighbour(i: nat): nat {
    if i % 2 == 0 then i + 1 else i - 1
  }

  lemma MulAssociative(p: nat, m: nat, j: nat)
    ensures (p * m) * j == p * (m * j)
  {
  }

  lemma XorOne(i: nat)
    ensures Xor(i, 1) == Neighbour(i)
  {
    XorZero(i / 2);
    assert Xor(i, 1) == 2 * Xor(i / 2, 0) + (i + 1) % 2;
  }

  /** On a multiple of 2^k, exclusive or with 2^k moves to the neighbouring multiple whose number differs in the lowest bit. */
  lemma {:induction false} XorMultiple(k: nat, i: nat)
    ensures Xor(Pow2(k) * i, Pow2(k)) == Pow2(k) * Neighbour(i)
    decreases k
  {
    if k == 0 {
      XorOne(i);
    } else {
      var p := Pow2(k - 1);
      XorMultiple(k - 1, i);
      XorDouble(p * i, p);
      MulAssociative(2, p, i);
      MulAssociative(2, p, Neighbour(i));
    }
  }

  lemma XorDouble(a: nat, b: nat)
    ensures Xor(2 * a, 2 * b) == 2 * Xor(a, b)
  {
    var x, y := 2 * a, 2 * b;
    assert x / 2 == a && y / 2 == b && (x + y) % 2 == 0;
    if a != 0 || b != 0 {
      assert Xor(x, y) == 2 * Xor(x / 2, y / 2) + (x + y) % 2;
    }
  }
}
