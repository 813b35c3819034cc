/** The bit tricks of the allocators and of the oscillator search, bit by bit, and the arithmetic they stand for. */
module Masks {
  import opened Ffs

  /** a | b */
  function Or(a: nat, b: nat): nat {
    if a == 0 && b == 0 then 0
    else 2 * Or(a / 2, b / 2) + if a % 2 == 1 || b % 2 == 1 then 1 else 0
  }

  /** v & ~m */
  function AndNot(v: nat, m: nat): nat {
    if v == 0 then 0
    else 2 * AndNot(v / 2, m / 2) + if v % 2 == 1 && m % 2 == 0 then 1 else 0
  }

  lemma BitPair(w: nat, c: nat, q: nat)
    requires c < 2
    ensures Bit(2 * w + c, q) <==> if q == 0 then c == 1 else Bit(w, q - 1)
  {
    assert (2 * w + c) / 2 == w && (2 * w + c) % 2 == c;
  }

  lemma BitHalf(v: nat, q: nat)
    ensures Bit(v, q) <==> if q == 0 then v % 2 == 1 else Bit(v / 2, q - 1)
  {
  }

  lemma {:induction false} OrIs(a: nat, b: nat, q: nat)
    ensures Bit(Or(a, b), q) <==> Bit(a, q) || Bit(b, q)
  {
    hide Bit;
    if a == 0 && b == 0 {
      ZeroBits(q);
    } else {
      BitHalf(a, q);
      BitHalf(b, q);
      BitPair(Or(a / 2, b / 2), if a % 2 == 1 || b % 2 == 1 then 1 else 0, q);
      if q > 0 { OrIs(a / 2, b / 2, q - 1); }
    }
  }

  lemma {:induction false} AndNotIs(v: nat, m: nat, q: nat)
    ensures Bit(AndNot(v, m), q) <==> Bit(v, q) && !Bit(m, q)
  {
    hide Bit;
    if v == 0 {
      ZeroBits(q);
    } else {
      BitHalf(v, q);
      BitHalf(m, q);
      BitPair(AndNot(v / 2, m / 2), if v % 2 == 1 && m % 2 == 0 then 1 else 0, q);
      if q > 0 { AndNotIs(v / 2, m / 2, q - 1); }
    }
  }

  lemma {:induction false} OrZero(v: nat)
    ensures Or(v, 0) == v && AndNot(v, 0) == v
  {
    if v == 0 {
    } else {
      OrZero(v / 2);
    }
  }

  // ---- Rounding ----

  /** Clearing the low k bits is rounding down to a multiple of 2^k. */
  lemma {:induction false} AndNotLow(v: nat, k: nat)
    ensures AndNot(v, Power2(k) - 1) == v / Power2(k) * Power2(k)
    decreases k
  {
    if k == 0 {
      OrZero(v);
    } else {
      var p := Power2(k - 1);
      AndNotLow(v / 2, k - 1);
      Halves(v, p);
      assert (2 * p - 1) / 2 == p - 1 && (2 * p - 1) % 2 == 1;
    }
  }

  lemma Halves(v: nat, p: nat)
    requires p > 0
    ensures v / (2 * p) * (2 * p) == 2 * (v / 2 / p * p)
  {
    var q := v / 2 / p;
    Quotients(v, p, q);
    assert q * (2 * p) == 2 * (q * p);
  }

  lemma Quotients(v: nat, p: nat, q: nat)
    requires p > 0 && q == v / 2 / p
    ensures v / (2 * p) == q
  {
    var r := v / 2 % p;
    assert v / 2 == p * q + r;
    var s := 2 * r + v % 2;
    assert v == (2 * p) * q + s && 0 <= s < 2 * p;
    Unique(v, 2 * p, q, s);
  }

  lemma Unique(v: nat, d: nat, q: nat, s: nat)
    requires d > 0 && v == d * q + s && s < d
    ensures v / d == q
  {
    var e := v / d - q;
    assert v == d * (v / d) + v % d;
    assert d * e == s - v % d;
    OnlyZero(d, e);
  }

  lemma OnlyZero(d: int, e: int)
    requires -d < d * e < d
    ensures e == 0
  {
  }

  // ---- Powers of two ----

  /** v is 2^k for some k. */
  ghost predicate IsPower(v: nat) {
    exists k: nat :: v == Power2(k)
  }

  lemma EvenPower(w: nat)
    ensures IsPower(2 * w) <==> IsPower(w)
  {
    if IsPower(w) {
      var k: nat :| w == Power2(k);
      assert 2 * w == Power2(k + 1);
    }
    if IsPower(2 * w) {
      var k: nat :| 2 * w == Power2(k);
      assert w == Power2(k - 1);
    }
  }

  /** The test (v | v - 1) + 1 == v << 1 tells the powers of two. */
  lemma {:induction false} PowerTest(v: nat)
    requires v > 0
    ensures Or(v, v - 1) + 1 == 2 * v <==> IsPower(v)
  {
    if v % 2 == 1 {
      OrZero(v / 2);
      OrSame(v / 2);
      assert Or(v, v - 1) == v;
      assert v == 1 ==> v == Power2(0);
      assert forall k: nat :: v == Power2(k) ==> k == 0;
    } else {
      PowerTest(v / 2);
      EvenPower(v / 2);
      assert (v - 1) / 2 == v / 2 - 1;
    }
  }

  lemma {:induction false} OrSame(v: nat)
    ensures Or(v, v) == v
  {
    if v == 0 {
    } else {
      OrSame(v / 2);
    }
  }

  // ---- One bit ----

  lemma Doubled(a: nat, b: nat)
    ensures AndNot(2 * a, 2 * b) == 2 * AndNot(a, b) && Or(2 * a, 2 * b) == 2 * Or(a, b)
  {
  }

  /** Clearing bit k, when it is set and lower bits are not, subtracts 2^k; setting it adds 2^k. */
  lemma {:induction false} OneBit(x: nat, k: nat)
    ensures AndNot((2 * x + 1) * Power2(k), Power2(k)) == 2 * x * Power2(k)
    ensures Or(2 * x * Power2(k), Power2(k)) == (2 * x + 1) * Power2(k)
  {
    if k == 0 {
      LastBit(x);
    } else {
      hide AndNot, Or;
      var p := Power2(k - 1);
      OneBit(x, k - 1);
      Doubled((2 * x + 1) * p, p);
      Doubled(2 * x * p, p);
      Regrouped(2 * x + 1, p);
      Regrouped(2 * x, p);
    }
  }

  lemma LastBit(x: nat)
    ensures AndNot(2 * x + 1, 1) == 2 * x && Or(2 * x, 1) == 2 * x + 1
  {
    OrZero(x);
  }

  lemma Regrouped(y: nat, p: nat)
    ensures y * (2 * p) == 2 * (y * p)
  {
  }
}
