// The bits of 64-bit words: bit `i` of a number by division, and the bitwise `&`.
module Bits {
  import opened Prelude
  import opened Text

  predicate Bit(n: nat, i: nat) {
    PowPositive(2, i);
    n / Pow(2, i) % 2 == 1
  }

  lemma {:induction false} PowPositive(b: nat, k: nat)
    requires b > 0
    ensures Pow(b, k) > 0
  {
    if k > 0 { PowPositive(b, k - 1); }
  }

  // `a & b`.
  function BitAnd(a: u64, b: u64): (r: u64)
    ensures r <= a
  {
    if a == 0 || b == 0 then 0
    else 2 * BitAnd(a / 2, b / 2) + (if a % 2 == 1 && b % 2 == 1 then 1 else 0)
  }

  lemma QuotientIs(n: nat, d: nat, q: nat, r: nat)
    requires r < d && n == d * q + r
    ensures n / d == q
  {
    var p := n / d;
    assert d * (p - q) == r - n % d;
    assert p - q >= 1 ==> d * (p - q) >= d;
    assert p - q <= -1 ==> d * (p - q) + d <= 0;
  }

  // A bit of `n` is the bit one place lower of its half.
  lemma BitOfHalf(n: nat, i: nat)
    ensures Bit(n, i + 1) == Bit(n / 2, i)
    ensures Bit(n, 0) == (n % 2 == 1)
  {
    PowPositive(2, i);
    var p, half := Pow(2, i), n / 2;
    var q, r := half / p, half % p;
    assert n == 2 * half + n % 2 && half == p * q + r;
    assert n == (2 * p) * q + (2 * r + n % 2);
    QuotientIs(n, 2 * p, q, 2 * r + n % 2);
    assert Pow(2, i + 1) == 2 * p;
  }

  lemma ZeroHasNoBits(i: nat)
    ensures !Bit(0, i)
  {
    PowPositive(2, i);
    QuotientIs(0, Pow(2, i), 0, 0);
  }

  // Bit by bit, `&` is conjunction.
  lemma {:induction false} BitAndBits(a: u64, b: u64, i: nat)
    ensures Bit(BitAnd(a, b), i) == (Bit(a, i) && Bit(b, i))
    decreases i
  {
    if a == 0 || b == 0 {
      ZeroHasNoBits(i);
    } else {
      var r := BitAnd(a, b);
      assert r / 2 == BitAnd(a / 2, b / 2);
      hide BitAnd, Bit;
      if i == 0 {
        BitOfHalf(a, 0);
        BitOfHalf(b, 0);
        BitOfHalf(r, 0);
        LowBitOfAnd(a, b);
      } else {
        BitOfHalf(a, i - 1);
        BitOfHalf(b, i - 1);
        BitOfHalf(r, i - 1);
        BitAndBits(a / 2, b / 2, i - 1);
      }
    }
  }

  lemma LowBitOfAnd(a: u64, b: u64)
    ensures BitAnd(a, b) % 2 == if a % 2 == 1 && b % 2 == 1 then 1 else 0
  {
    if a != 0 && b != 0 {
      var high, low := BitAnd(a / 2, b / 2), if a % 2 == 1 && b % 2 == 1 then 1 else 0;
      assert BitAnd(a, b) == 2 * high + low;
      hide BitAnd;
      TwiceAndBit(high, low);
    }
  }

  lemma TwiceAndBit(high: nat, low: nat)
    requires low < 2
    ensures (2 * high + low) % 2 == low && (2 * high + low) / 2 == high
  {}

  // A number is its bits.
  lemma {:induction false} BitsUnique(a: nat, b: nat, k: nat)
    requires a < Pow(2, k) && b < Pow(2, k) && forall i :: 0 <= i < k ==> Bit(a, i) == Bit(b, i)
    ensures a == b
    decreases k
  {
    if k > 0 {
      hide Bit;
      BitOfHalf(a, 0);
      BitOfHalf(b, 0);
      assert Bit(a, 0) == Bit(b, 0);
      forall i | 0 <= i < k - 1 ensures Bit(a / 2, i) == Bit(b / 2, i) {
        BitOfHalf(a, i);
        BitOfHalf(b, i);
        assert Bit(a, i + 1) == Bit(b, i + 1);
      }
      BitsUnique(a / 2, b / 2, k - 1);
    }
  }

  // `r` has exactly the bits that `a` and `b` share.
  predicate SharedBits(a: u64, b: u64, r: u64) {
    forall i :: 0 <= i < 64 ==> Bit(r, i) == (Bit(a, i) && Bit(b, i))
  }

  lemma Pow2Is64Bits()
    ensures Pow(2, 64) == U64_LIMIT
  {
    assert Pow(2, 16) == 0x1_0000 by { assert Pow(2, 8) == 0x100; }
    assert Pow(2, 32) == 0x1_0000_0000 by { assert Pow(2, 24) == 0x100_0000; }
    assert Pow(2, 48) == 0x1_0000_0000_0000 by { assert Pow(2, 40) == 0x100_0000_0000; }
    assert Pow(2, 56) == 0x100_0000_0000_0000;
  }

  // The mask operator gives the one word with the bits both sides share.
  lemma BitAndIff(a: u64, b: u64, r: u64)
    ensures BitAnd(a, b) == r <==> SharedBits(a, b, r)
  {
    hide Bit, BitAnd;
    var and := BitAnd(a, b);
    forall i | 0 <= i < 64 ensures Bit(and, i) == (Bit(a, i) && Bit(b, i)) { BitAndBits(a, b, i); }
    if SharedBits(a, b, r) {
      Pow2Is64Bits();
      BitsUnique(and, r, 64);
    }
  }
}
