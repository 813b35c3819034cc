/** __rt_ffs: the table-driven search for the first set bit, and the ready bitmap it works on. */
module Ffs {
  import opened Ipc

  /** Bit p of v. */
  predicate Bit(v: nat, p: nat) {
    if p == 0 then v % 2 == 1 else Bit(v / 2, p - 1)
  }

  /** v | 1 << p */
  function SetBit(v: nat, p: nat): nat {
    if p == 0 then v / 2 * 2 + 1 else 2 * SetBit(v / 2, p - 1) + v % 2
  }

  /** v & ~(1 << p) */
  function ClearBit(v: nat, p: nat): nat {
    if p == 0 then v / 2 * 2 else 2 * ClearBit(v / 2, p - 1) + v % 2
  }

  lemma {:induction false} SetBitIs(v: nat, p: nat, q: nat)
    ensures Bit(SetBit(v, p), q) <==> q == p || Bit(v, q)
  {
    if p == 0 || q == 0 {
    } else {
      SetBitIs(v / 2, p - 1, q - 1);
    }
  }

  lemma {:induction false} ClearBitIs(v: nat, p: nat, q: nat)
    ensures Bit(ClearBit(v, p), q) <==> q != p && Bit(v, q)
  {
    if p == 0 || q == 0 {
    } else {
      ClearBitIs(v / 2, p - 1, q - 1);
    }
  }

  function Power2(k: nat): (r: nat)
    ensures r > 0
  {
    if k == 0 then 1 else 2 * Power2(k - 1)
  }

  lemma {:induction false} BitsBelow(v: nat, p: nat, k: nat)
    requires v < Power2(k) && p < k
    ensures SetBit(v, p) < Power2(k) && ClearBit(v, p) < Power2(k)
  {
    hide Power2;
    HalfBelow(v, k);
    if p == 0 {
    } else {
      BitsBelow(v / 2, p - 1, k - 1);
    }
  }

  lemma HalfBelow(v: nat, k: nat)
    requires v < Power2(k) && k > 0
    ensures Power2(k) == 2 * Power2(k - 1) && v / 2 < Power2(k - 1)
  {
  }

  lemma WordIsPower()
    ensures Power2(32) == WORD
  {
    assert Power2(8) == 256;
    assert Power2(16) == 256 * Power2(8);
    assert Power2(24) == 256 * Power2(16);
    assert Power2(32) == 256 * Power2(24);
  }

  /** The number of the lowest bit set. */
  function Low(v: nat): nat
    requires v > 0
  {
    if v % 2 == 1 then 0 else 1 + Low(v / 2)
  }

  lemma {:induction false} LowIs(v: nat)
    requires v > 0
    ensures Bit(v, Low(v)) && forall q :: 0 <= q < Low(v) ==> !Bit(v, q)
  {
    if v % 2 == 1 {
    } else {
      LowIs(v / 2);
      forall q | 0 <= q < Low(v) ensures !Bit(v, q) { assert q > 0 ==> !Bit(v / 2, q - 1); }
    }
  }

  // ---- The table ----

  /** A row of sixteen entries of __lowest_bit_bitmap; the rows differ in their first entry only. */
  function Row(first: nat): seq<nat> {
    [first, 0, 1, 0, 2, 0, 1, 0, 3, 0, 1, 0, 2, 0, 1, 0]
  }

  const FIRSTS: seq<nat> := [0, 4, 5, 4, 6, 4, 5, 4, 7, 4, 5, 4, 6, 4, 5, 4]

  /** __lowest_bit_bitmap[b] */
  function Lookup(b: nat): nat
    requires b < 256
  {
    Row(FIRSTS[b / 16])[b % 16]
  }

  /** __rt_ffs. */
  function FirstSet(v: nat): nat
    requires v < WORD
  {
    if v == 0 then 0
    else if v % 256 != 0 then Lookup(v % 256) + 1
    else if v / 0x100 % 256 != 0 then Lookup(v / 0x100 % 256) + 9
    else if v / 0x1_0000 % 256 != 0 then Lookup(v / 0x1_0000 % 256) + 17
    else Lookup(v / 0x100_0000) + 25
  }

  /** Low of the numbers below 16, written out. */
  lemma LowTable(l: nat)
    requires 0 < l < 16
    ensures Low(l) == if l == 8 then 3 else if l == 4 || l == 12 then 2 else if l % 2 == 0 then 1 else 0
  {
    assert Low(2) == 1 && Low(4) == 2 && Low(6) == 1 && Low(8) == 3 && Low(10) == 1 && Low(12) == 2 && Low(14) == 1;
  }

  lemma RowEntry(first: nat, l: nat)
    requires 0 < l < 16
    ensures Row(first)[l] == Low(l)
  {
    hide Low;
    LowTable(l);
  }

  lemma FirstEntry(h: nat)
    requires 0 < h < 16
    ensures FIRSTS[h] == 4 + Low(h)
  {
    hide Low;
    LowTable(h);
  }

  lemma LowDouble(v: nat)
    requires v > 0
    ensures Low(2 * v) == 1 + Low(v)
  {
  }

  lemma LowShift4(v: nat)
    requires v > 0
    ensures Low(16 * v) == 4 + Low(v)
  {
    hide Low;
    LowDouble(v);
    LowDouble(2 * v);
    LowDouble(4 * v);
    LowDouble(8 * v);
  }

  lemma LowShift8(v: nat)
    requires v > 0
    ensures Low(256 * v) == 8 + Low(v)
  {
    hide Low;
    LowShift4(v);
    LowShift4(16 * v);
  }

  /** Higher bits do not matter. */
  lemma {:induction false} LowPlus(x: nat, l: nat, k: nat)
    requires 0 < l < Power2(k)
    ensures Low(Power2(k) * x + l) == Low(l)
    decreases k
  {
    var h := Power2(k - 1);
    Regroup(h, x, l);
    if l % 2 == 1 {
    } else {
      LowPlus(x, l / 2, k - 1);
    }
  }

  lemma Regroup(h: nat, x: nat, l: nat)
    ensures 2 * h * x + l >= 0
    ensures (2 * h * x + l) % 2 == l % 2 && (2 * h * x + l) / 2 == h * x + l / 2
  {
    assert 2 * h * x == 2 * (h * x);
  }

  lemma RowSize(first: nat)
    ensures |Row(first)| == 16 && Row(first)[0] == first
  {
  }

  lemma TableAt(h: nat, l: nat)
    requires h < 16 && l < 16 && 16 * h + l > 0
    ensures |Row(FIRSTS[h])| == 16 && Row(FIRSTS[h])[l] == Low(16 * h + l) < 8
  {
    hide Low, Row;
    RowSize(FIRSTS[h]);
    if l != 0 {
      RowEntry(FIRSTS[h], l);
      LowTable(l);
      assert Power2(4) == 16;
      LowPlus(h, l, 4);
    } else {
      FirstEntry(h);
      LowTable(h);
      LowShift4(h);
    }
  }

  /** Every entry of the table but the first is the lowest bit set in its index. */
  lemma TableRight(b: nat)
    requires 0 < b < 256
    ensures Lookup(b) == Low(b) < 8
  {
    hide Low, Row;
    assert b == 16 * (b / 16) + b % 16;
    TableAt(b / 16, b % 16);
  }

  lemma LastByte(v: nat)
    requires v % 256 != 0
    ensures Low(v) == Low(v % 256) == Lookup(v % 256) < 8
  {
    hide Low, Lookup;
    assert Power2(8) == 256;
    LowPlus(v / 256, v % 256, 8);
    TableRight(v % 256);
  }

  lemma ByteStep(w: nat)
    requires w % 256 == 0 && w > 0
    ensures w / 256 > 0 && Low(w) == 8 + Low(w / 256)
  {
    hide Low;
    LowShift8(w / 256);
    assert w == 256 * (w / 256);
  }

  lemma Nest(v: nat)
    ensures v / 0x1_0000 == v / 256 / 256 && v / 0x100_0000 == v / 256 / 256 / 256
  {
  }

  lemma FirstSetLow(v: nat)
    requires 0 < v < WORD
    ensures FirstSet(v) == Low(v) + 1 <= 32
  {
    hide Low, Lookup, FirstSet;
    FirstSetBytes(v);
    if v % 256 != 0 {
      LastByte(v);
    } else {
      ByteStep(v);
      if v / 256 % 256 != 0 {
        LastByte(v / 256);
      } else {
        ByteStep(v / 256);
        if v / 256 / 256 % 256 != 0 {
          LastByte(v / 256 / 256);
        } else {
          ByteStep(v / 256 / 256);
          LastByte(v / 256 / 256 / 256);
        }
      }
    }
  }

  /** The bytes __rt_ffs tests, by repeated division. */
  lemma FirstSetBytes(v: nat)
    requires 0 < v < WORD
    ensures v / 256 / 256 / 256 < 256
    ensures FirstSet(v) == if v % 256 != 0 then Lookup(v % 256) + 1
                           else if v / 256 % 256 != 0 then Lookup(v / 256 % 256) + 9
                           else if v / 256 / 256 % 256 != 0 then Lookup(v / 256 / 256 % 256) + 17
                           else Lookup(v / 256 / 256 / 256 % 256) + 25
  {
    hide Lookup;
    Nest(v);
  }

  /** __rt_ffs returns one more than the number of the lowest bit set, and 0 only for 0. */
  lemma FirstSetIs(v: nat)
    requires v < WORD
    ensures v == 0 <==> FirstSet(v) == 0
    ensures v > 0 ==> && FirstSet(v) <= 32 && Bit(v, FirstSet(v) - 1)
                      && forall q :: 0 <= q < FirstSet(v) - 1 ==> !Bit(v, q)
  {
    hide Low, Lookup;
    if v > 0 {
      FirstSetLow(v);
      LowIs(v);
    }
  }

  lemma {:induction false} ZeroBits(p: nat)
    ensures !Bit(0, p)
  {
    if p == 0 {
    } else {
      ZeroBits(p - 1);
    }
  }
}
