/** Bitwise operations on natural numbers, bit by bit, and what they do to the
    masks the codecs use. */
module Bits {
  import opened Measurements

  function Pow2(k: nat): (p: nat)
    ensures p >= 1
  {
    if k == 0 then 1 else 2 * Pow2(k - 1)
  }

  lemma Pow2Byte(k: nat)
    ensures Pow2(k + 8) == 256 * Pow2(k)
  {
    assert Pow2(k + 3) == 8 * Pow2(k) by { assert Pow2(k + 2) == 2 * Pow2(k + 1); }
    assert Pow2(k + 6) == 8 * Pow2(k + 3) by { assert Pow2(k + 5) == 2 * Pow2(k + 4); }
    assert Pow2(k + 8) == 2 * Pow2(k + 7);
  }

  lemma Pow2SixtyFour()
    ensures Pow2(63) == TWO_63 && Pow2(64) == TWO_64
  {
    assert Pow2(0) == 1;
    assert Pow2(64) == 2 * Pow2(63);
    hide Pow2;
    Pow2Byte(0); Pow2Byte(8); Pow2Byte(16); Pow2Byte(24);
    Pow2Byte(32); Pow2Byte(40); Pow2Byte(48); Pow2Byte(56);
  }

  /** Bitwise exclusive or, and, or: bit by bit. */
  function XorBits(a: nat, b: nat): nat {
    if a == 0 && b == 0 then 0 else 2 * XorBits(a / 2, b / 2) + (a + b) % 2
  }

  function AndBits(a: nat, b: nat): nat {
    if a == 0 || b == 0 then 0 else 2 * AndBits(a / 2, b / 2) + AndBit(a % 2, b % 2)
  }

  function AndBit(x: nat, y: nat): nat {
    if x == 1 && y == 1 then 1 else 0
  }

  function OrBits(a: nat, b: nat): nat {
    if a == 0 && b == 0 then 0 else 2 * OrBits(a / 2, b / 2) + OrBit(a % 2, b % 2)
  }

  function OrBit(x: nat, y: nat): nat {
    if x == 0 && y == 0 then 0 else 1
  }

  lemma {:induction false} XorBound(a: nat, b: nat, k: nat)
    requires a < Pow2(k) && b < Pow2(k)
    ensures XorBits(a, b) < Pow2(k)
    decreases k
  {
    if a != 0 || b != 0 { XorBound(a / 2, b / 2, k - 1); }
  }

  lemma {:induction false} XorCancels(a: nat, b: nat)
    ensures XorBits(XorBits(a, b), a) == b
  {
    if a != 0 || b != 0 {
      hide XorBits;
      var x := XorBits(a, b);
      XorHalves(a, b);
      XorHalves(x, a);
      XorCancels(a / 2, b / 2);
      Parity(x, a, b);
    }
  }

  lemma Parity(x: nat, a: nat, b: nat)
    requires x % 2 == (a + b) % 2
    ensures (x + a) % 2 == b % 2
  {
  }

  lemma XorHalves(a: nat, b: nat)
    ensures XorBits(a, b) / 2 == XorBits(a / 2, b / 2)
    ensures XorBits(a, b) % 2 == (a + b) % 2
  {
  }

  lemma {:induction false} XorZero(a: nat, b: nat)
    ensures XorBits(a, b) == 0 <==> a == b
  {
    if a != 0 || b != 0 { XorZero(a / 2, b / 2); }
  }

  lemma OrHalves(a: nat, b: nat)
    ensures OrBits(a, b) / 2 == OrBits(a / 2, b / 2) && OrBits(a, b) % 2 == OrBit(a % 2, b % 2)
  {
  }

  lemma {:induction false} OrCommutes(a: nat, b: nat)
    ensures OrBits(a, b) == OrBits(b, a)
  {
    if a != 0 || b != 0 { OrCommutes(a / 2, b / 2); }
  }

  lemma {:induction false} OrAssociates(a: nat, b: nat, c: nat)
    ensures OrBits(OrBits(a, b), c) == OrBits(a, OrBits(b, c))
    decreases a + b + c
  {
    hide OrBits;
    OrHalves(a, b);
    OrHalves(b, c);
    OrHalves(OrBits(a, b), c);
    OrHalves(a, OrBits(b, c));
    if a + b + c > 0 {
      OrAssociates(a / 2, b / 2, c / 2);
    } else {
      OrZero(0);
    }
  }

  lemma {:induction false} OrZero(a: nat)
    ensures OrBits(0, a) == a
  {
    if a != 0 { OrZero(a / 2); }
  }

  lemma {:induction false} OrSelf(a: nat)
    ensures OrBits(a, a) == a
  {
    if a != 0 { OrSelf(a / 2); }
  }

  // -------------------------------------------------------------------- masks

  lemma AndHalves(a: nat, b: nat)
    ensures AndBits(a, b) / 2 == AndBits(a / 2, b / 2) && AndBits(a, b) % 2 == AndBit(a % 2, b % 2)
  {
  }

  lemma {:induction false} AndCommutes(a: nat, b: nat)
    ensures AndBits(a, b) == AndBits(b, a)
  {
    if a != 0 && b != 0 { AndCommutes(a / 2, b / 2); }
  }

  lemma HalfOf(x: nat, y: nat)
    requires x / 2 == y / 2 && x % 2 == y % 2
    ensures x == y
  {
  }

  /** A mask of k ones keeps the low k bits. */
  lemma {:induction false} AndLow(k: nat, x: nat)
    ensures AndBits(Pow2(k) - 1, x) == x % Pow2(k)
    decreases k
  {
    if k > 0 {
      hide AndBits;
      var p := Pow2(k - 1);
      AndLow(k - 1, x / 2);
      LowHalf(x, p);
      AndOnes(p, x, x % (2 * p));
    }
  }

  lemma AndOnes(p: nat, x: nat, r: nat)
    requires p > 0 && AndBits(p - 1, x / 2) == r / 2 && r % 2 == x % 2
    ensures AndBits(2 * p - 1, x) == r
  {
    hide AndBits;
    var m := 2 * p - 1;
    assert m / 2 == p - 1 && m % 2 == 1;
    AndHalves(m, x);
    HalfOf(AndBits(m, x), r);
  }

  lemma LowHalf(x: nat, p: nat)
    requires p > 0
    ensures x % (2 * p) / 2 == x / 2 % p && x % (2 * p) % 2 == x % 2
  {
    var q, r := x / 2 / p, x / 2 % p;
    assert x / 2 == p * q + r;
    assert x == (2 * p) * q + (2 * r + x % 2);
    Remainder(x, 2 * p, q, 2 * r + x % 2);
  }

  /** Shifts by a variable amount, one bit at a time. */
  function Shr(x: nat, t: nat): nat {
    if t == 0 then x else Shr(x / 2, t - 1)
  }

  function Shl(x: nat, t: nat): nat {
    if t == 0 then x else 2 * Shl(x, t - 1)
  }

  /** Or of two numbers, each cut in two at bit k. */
  lemma {:induction false} OrSplit(k: nat, a: nat, b: nat, c: nat, d: nat)
    requires b < Pow2(k) && d < Pow2(k)
    ensures OrBits(Shl(a, k) + b, Shl(c, k) + d) == Shl(OrBits(a, c), k) + OrBits(b, d)
    decreases k
  {
    if k == 0 {
      OrZero(0);
    } else {
      OrSplit(k - 1, a, b / 2, c, d / 2);
      var x, y := Shl(a, k) + b, Shl(c, k) + d;
      OrHalves(x, y);
      OrHalves(b, d);
      hide OrBits;
      HalfOf(OrBits(x, y), Shl(OrBits(a, c), k) + OrBits(b, d));
    }
  }

  /** ... so that an or puts low bits into a number that has none. */
  lemma OrLow(k: nat, a: nat, d: nat)
    requires d < Pow2(k)
    ensures OrBits(Shl(a, k), d) == Shl(a, k) + d
  {
    OrSplit(k, a, 0, 0, d);
    OrZero(a);
    OrCommutes(a, 0);
    OrZero(d);
    hide OrBits;
    ShlIs(0, k);
  }

  lemma {:induction false} ShlIs(x: nat, k: nat)
    ensures Shl(x, k) == x * Pow2(k)
  {
    if k > 0 {
      ShlIs(x, k - 1);
      assert 2 * (x * Pow2(k - 1)) == x * (2 * Pow2(k - 1));
    }
  }

  lemma {:induction false} ShrIs(x: nat, k: nat)
    ensures Shr(x, k) == x / Pow2(k)
    decreases k
  {
    if k > 0 {
      ShrIs(x / 2, k - 1);
      HalfQuotient(x, Pow2(k - 1));
    }
  }

  lemma HalfQuotient(x: nat, p: nat)
    requires p > 0
    ensures x / 2 / p == x / (2 * p)
  {
    var q, r := x / 2 / p, x / 2 % p;
    assert x / 2 == p * q + r;
    assert x == (2 * p) * q + (2 * r + x % 2);
    Remainder(x, 2 * p, q, 2 * r + x % 2);
  }

  /** And with a mask whose low k bits are clear. */
  lemma {:induction false} AndHigh(k: nat, x: nat, a: nat)
    ensures AndBits(x, Shl(a, k)) == Shl(AndBits(Shr(x, k), a), k)
    decreases k
  {
    if k > 0 {
      AndHigh(k - 1, x / 2, a);
      AndHalves(x, Shl(a, k));
      hide AndBits;
      HalfOf(AndBits(x, Shl(a, k)), Shl(AndBits(Shr(x, k), a), k));
    }
  }

  lemma OrOdd(a: nat)
    requires a % 2 == 1
    ensures OrBits(a, 1) == a
  {
    OrHalves(a, 1);
    OrZero(a / 2);
    OrCommutes(a / 2, 0);
    hide OrBits;
    HalfOf(OrBits(a, 1), a);
  }

  lemma OrOne(a: nat)
    ensures OrBits(1, a) == if a % 2 == 0 then a + 1 else a
  {
    OrHalves(1, a);
    OrZero(a / 2);
    hide OrBits;
    HalfOf(OrBits(1, a), if a % 2 == 0 then a + 1 else a);
  }

  lemma Pow2Values()
    ensures Pow2(1) == 2 && Pow2(2) == 4 && Pow2(3) == 8 && Pow2(4) == 16
    ensures Pow2(5) == 32 && Pow2(6) == 64 && Pow2(7) == 128 && Pow2(8) == 256
    ensures Pow2(12) == 4096 && Pow2(13) == 8192 && Pow2(19) == 524288 && Pow2(20) == 1048576
  {
    assert Pow2(3) == 8;
    assert Pow2(6) == 8 * Pow2(3);
    assert Pow2(9) == 8 * Pow2(6);
    assert Pow2(12) == 8 * Pow2(9);
    assert Pow2(15) == 8 * Pow2(12);
    assert Pow2(18) == 8 * Pow2(15);
  }
}
