/** The 64-bit division helpers: long division bit by bit, and the signed form over it. */
module Division {
  import opened Bits

  const TWO_63 := 0x8000_0000_0000_0000
  const TWO_64 := 0x1_0000_0000_0000_0000

  lemma Pow64()
    ensures Pow2(63) == TWO_63 && Pow2(64) == TWO_64
  {
    Pow2Values();
    Pow2Add(31, 31);
    assert Pow2(63) == 2 * Pow2(62);
  }

  /** The bits of n from the place i up: n shifted right i times. */
  function Upper(n: nat, i: nat): nat {
    if i == 0 then n else Upper(n / 2, i - 1)
  }

  function BitAt(n: nat, i: nat): (b: nat)
    ensures b < 2
  {
    Upper(n, i) % 2
  }

  lemma {:induction false} NextBit(n: nat, i: nat)
    ensures Upper(n, i) == 2 * Upper(n, i + 1) + BitAt(n, i)
    decreases i
  {
    if i > 0 {
      NextBit(n / 2, i - 1);
    }
  }

  lemma {:induction false} UpperNothing(n: nat, i: nat)
    requires n < Pow2(i)
    ensures Upper(n, i) == 0
    decreases i
  {
    if i > 0 {
      UpperNothing(n / 2, i - 1);
    }
  }

  lemma {:induction false} UpperSmall(n: nat, i: nat)
    ensures Upper(n, i) <= n
    decreases i
  {
    if i > 0 {
      UpperSmall(n / 2, i - 1);
    }
  }

  lemma UpperEnds(n: nat)
    ensures Upper(n, 0) == n && (n < TWO_64 ==> Upper(n, 64) == 0)
  {
    hide Pow2;
    Pow64();
    if n < TWO_64 {
      UpperNothing(n, 64);
    }
  }

  /** What long division keeps: the upper bits are quotient times divisor plus a smaller remainder. */
  predicate Divides(upper: nat, d: nat, quotient: nat, r: nat) {
    upper == quotient * d + r && r < d
  }

  lemma DivideStep(upper: nat, bit: nat, d: nat, quotient: nat, r: nat)
    requires Divides(upper, d, quotient, r) && bit < 2
    ensures r <= upper
    ensures
      var s := 2 * r + bit;
      if s >= d then Divides(2 * upper + bit, d, 2 * quotient + 1, s - d) else Divides(2 * upper + bit, d, 2 * quotient, s)
  {
    assert 0 <= quotient * d;
    assert (2 * quotient) * d == 2 * (quotient * d);
    assert (2 * quotient + 1) * d == 2 * (quotient * d) + d;
  }

  lemma DividesUnique(n: nat, d: nat, quotient: nat, r: nat)
    requires Divides(n, d, quotient, r)
    ensures Quotient(n, d) == quotient && n % d == r
  {
    assert quotient * d == d * quotient;
    DivideUnique(n, d, quotient, r);
  }

  function Quotient(n: nat, d: nat): nat
    requires d > 0
  {
    n / d
  }

  /** What is left of a value in 64 bits. */
  function Wrapped(x: nat): nat {
    x % TWO_64
  }

  /** No bit is shifted out of the remainder, however large the divisor. */
  lemma ShiftFits(n: nat, i: nat, r: nat)
    requires n < TWO_64 && r <= Upper(n, i + 1)
    ensures 2 * r + BitAt(n, i) < TWO_64 && Wrapped(2 * r + BitAt(n, i)) == 2 * r + BitAt(n, i)
  {
    hide Upper, BitAt;
    NextBit(n, i);
    UpperSmall(n, i);
  }

  function Scaled(quotient: nat, i: nat): nat {
    quotient * Pow2(i)
  }

  /** The places below i + 1 are clear, so setting bit i is adding 2 to the i. */
  lemma SetBit(quotient: nat, i: nat)
    ensures Scaled(quotient, i + 1) == Scaled(2 * quotient, i)
    ensures Scaled(quotient, i + 1) + Pow2(i) == Scaled(2 * quotient + 1, i)
  {
    var p := Pow2(i);
    assert Pow2(i + 1) == 2 * p;
    assert quotient * (2 * p) == (2 * quotient) * p;
    assert (2 * quotient + 1) * p == (2 * quotient) * p + p;
  }

  lemma ScaledEnds(quotient: nat)
    ensures Scaled(0, 64) == 0 && Scaled(quotient, 0) == quotient
  {
  }

  lemma ZeroDivides(d: nat)
    requires d > 0
    ensures Divides(0, d, 0, 0)
  {
  }

  /** One turn of the division loops: the next bit joins the remainder, and the divisor is taken off if it fits. */
  method BringDown(n: nat, d: nat, i: nat, rest: nat, ghost quotient: nat) returns (r: nat, taken: bool, ghost next: nat)
    requires n < TWO_64 && Divides(Upper(n, i + 1), d, quotient, rest)
    ensures Divides(Upper(n, i), d, next, r) && next == if taken then 2 * quotient + 1 else 2 * quotient
  {
    hide Divides, Upper, BitAt, Wrapped;
    var bit := BitAt(n, i);
    NextBit(n, i);
    DivideStep(Upper(n, i + 1), bit, d, quotient, rest);
    ShiftFits(n, i, rest);
    r := Wrapped(2 * rest + bit);
    taken := r >= d;
    if taken {
      r := r - d;
      next := 2 * quotient + 1;
    } else {
      next := 2 * quotient;
    }
  }

  /** __udivdi3: the quotient, or 0 for a divisor of 0. */
  method UnsignedDivide(n: nat, d: nat) returns (q: nat)
    requires n < TWO_64 && d < TWO_64
    ensures q == if d == 0 then 0 else Quotient(n, d)
  {
    if d == 0 {
      return 0;
    }
    hide Pow2, Divides, Upper, BitAt, Scaled, Quotient;
    var r: nat := 0;
    ghost var quotient: nat := 0;
    q := 0;
    UpperEnds(n);
    ScaledEnds(0);
    ZeroDivides(d);
    var i := 63;
    while i >= 0
      invariant -1 <= i <= 63 && Divides(Upper(n, i + 1), d, quotient, r) && q == Scaled(quotient, i + 1)
      decreases i + 1
    {
      SetBit(quotient, i);
      var taken;
      r, taken, quotient := BringDown(n, d, i, r, quotient);
      if taken {
        q := q + Pow2(i);
      }
      i := i - 1;
    }
    ScaledEnds(quotient);
    DividesUnique(n, d, quotient, r);
  }

  /** __umoddi3: the remainder, or 0 for a divisor of 0. */
  method UnsignedRemainder(n: nat, d: nat) returns (r: nat)
    requires n < TWO_64 && d < TWO_64
    ensures r == if d == 0 then 0 else n % d
  {
    if d == 0 {
      return 0;
    }
    hide Pow2, Divides, Upper, BitAt, Quotient;
    ghost var quotient: nat := 0;
    r := 0;
    UpperEnds(n);
    ZeroDivides(d);
    var i := 63;
    while i >= 0
      invariant -1 <= i <= 63 && Divides(Upper(n, i + 1), d, quotient, r)
      decreases i + 1
    {
      var taken;
      r, taken, quotient := BringDown(n, d, i, r, quotient);
      i := i - 1;
    }
    DividesUnique(n, d, quotient, r);
  }

  // The signed form.

  predicate Fits64(n: int) {
    -TWO_63 <= n < TWO_63
  }

  /** The number a 64-bit pattern stands for as a signed value. */
  function Signed(n: int): (r: int)
    ensures Fits64(r)
  {
    var low := n % TWO_64;
    if low < TWO_63 then low else low - TWO_64
  }

  /** A shift right by 63: -1 for a negative number, else 0. */
  function SignOf(n: int): int {
    if n < 0 then -1 else 0
  }

  /** Exclusive or with a sign: all bits turned over, or none. */
  function XorSign(n: int, s: int): int {
    if s == -1 then -n - 1 else n
  }

  function Magnitude(n: int): nat {
    if n < 0 then -n else n
  }

  /** Division towards zero. */
  function Truncated(n: int, d: int): int
    requires d != 0
  {
    var q := Quotient(Magnitude(n), Magnitude(d));
    if (n < 0) == (d < 0) then q else 0 - q
  }

  lemma TimesAtLeast(k: nat, d: nat, q: nat)
    requires k <= d
    ensures k * q <= d * q
  {
    assert d * q == k * q + (d - k) * q;
    assert (d - k) * q >= 0;
  }

  lemma Remainder(n: nat, p: nat)
    requires p > 0
    ensures n == p * (n / p) + n % p && n % p < p
  {
  }

  lemma QuotientSmall(n: nat, d: nat)
    requires d > 0
    ensures Quotient(n, d) <= n && (d > 1 && n > 0 ==> Quotient(n, d) < n) && Quotient(n, 1) == n
  {
    var q := n / d;
    Remainder(n, d);
    TimesAtLeast(1, d, q);
    if d > 1 {
      TimesAtLeast(2, d, q);
    }
  }

  /** __divdi3: division towards zero, exactly when the quotient fits: the one that does not, -2^63 by -1, comes out
      as -2^63. */
  method SignedDivide(n: int, d: int) returns (q: int)
    requires Fits64(n) && Fits64(d)
    ensures Fits64(q) && (d == 0 ==> q == 0)
    ensures d != 0 ==> (q == Truncated(n, d) <==> !(n == -TWO_63 && d == -1))
    ensures n == -TWO_63 && d == -1 ==> q == -TWO_63
  {
    hide Quotient;
    var sn, sd := SignOf(n), SignOf(d);
    var un := (XorSign(n, sn) - sn) % TWO_64;
    var ud := (XorSign(d, sd) - sd) % TWO_64;
    var uq := UnsignedDivide(un, ud);
    var sq := if sn == sd then 0 else -1;
    q := Signed(XorSign(uq, sq) - sq);
    if d != 0 {
      QuotientSmall(un, ud);
    }
  }
}
