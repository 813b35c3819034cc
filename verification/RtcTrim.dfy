/** The successive-approximation search that trims the 32 kHz oscillator. */
module RtcTrim {
  import opened Ipc
  import opened Ffs
  import opened Masks

  /** RC32K_REFERENCE_VALUE and RC32K_DEVIATION_VALUE. */
  const REFERENCE: nat := 131000000
  const DEVIATION: nat := 655000
  const UPPER: nat := REFERENCE + DEVIATION
  const LOWER: nat := REFERENCE - DEVIATION

  /** rc32k_abs_diff. */
  function Diff(count: nat): nat {
    if count <= REFERENCE then REFERENCE - count else count - REFERENCE
  }

  /** The oscillator is right. */
  predicate InBand(count: nat) {
    LOWER < count < UPPER
  }

  /** The count measured never falls when the code rises. */
  ghost predicate Rising(f: nat -> nat) {
    forall a, b :: a <= b ==> f(a) <= f(b)
  }

  /** No code below n outside lo..hi-1 comes closer than diff. */
  ghost predicate Beaten(f: nat -> nat, n: nat, lo: nat, hi: nat, diff: nat) {
    forall c :: 0 <= c < n && !(lo <= c < hi) ==> diff <= Diff(f(c))
  }

  /** A code that is too slow beats every code above it. */
  lemma AboveBeaten(f: nat -> nat, n: nat, lo: nat, hi: nat, cur: nat, diff: nat)
    requires Rising(f) && Beaten(f, n, lo, hi, diff) && lo <= cur < hi && f(cur) >= UPPER && diff <= Diff(f(cur))
    ensures Beaten(f, n, lo, cur, diff)
  {
    forall c | 0 <= c < n && !(lo <= c < cur) ensures diff <= Diff(f(c)) {
      if cur <= c < hi { assert f(cur) <= f(c); }
    }
  }

  /** A code that is too fast beats every code below it. */
  lemma BelowBeaten(f: nat -> nat, n: nat, lo: nat, hi: nat, cur: nat, diff: nat)
    requires Rising(f) && Beaten(f, n, lo, hi, diff) && lo <= cur < hi && f(cur) <= LOWER && diff <= Diff(f(cur))
    ensures Beaten(f, n, cur, hi, diff)
  {
    forall c | 0 <= c < n && !(cur <= c < hi) ensures diff <= Diff(f(c)) {
      if lo <= c < cur { assert f(c) <= f(cur); }
    }
  }

  lemma CloserBeaten(f: nat -> nat, n: nat, lo: nat, hi: nat, diff: nat, closer: nat)
    requires Beaten(f, n, lo, hi, diff) && closer <= diff
    ensures Beaten(f, n, lo, hi, closer)
  {
  }

  /** The code nearest to the reference. */
  ghost predicate Best(f: nat -> nat, n: nat, code: nat) {
    forall c :: 0 <= c < n ==> Diff(f(code)) <= Diff(f(c))
  }

  /** rc32k_autoset_bias for 3 bits and rc32k_autoset_freq for 8; f(c) is the count measured with
      code c. What is left programmed is `code`. */
  method Trim(bits: nat, f: nat -> nat) returns (code: nat, count: nat)
    requires bits > 0 && Rising(f) && forall c :: f(c) < WORD
    ensures code < Power2(bits) && count == f(code)
    ensures InBand(count) || Best(f, Power2(bits), code)
    ensures (exists c :: 0 <= c < Power2(bits) && InBand(f(c))) ==> InBand(count)
  {
    hide Rising, Beaten, Best, Or, AndNot, Power2, Times, OddTimes;
    Halved(bits);
    var n := Power2(bits);
    var bestDiff: nat, bestCount: nat, delta: nat := WORD - 1, 0, Power2(bits - 1);
    var cur: nat := delta;
    var bestCode := cur;
    NoneBeaten(f, n, bestDiff);
    count := 0;
    FirstOdd(bits - 1);
    for k := 0 to bits
      invariant delta == (if k < bits then Power2(bits - 1 - k) else 0)
      invariant k < bits ==> delta <= cur && cur + delta <= n && Beaten(f, n, cur - delta, cur + delta, bestDiff)
      invariant k < bits ==> OddTimes(cur, bits - 1 - k)
      invariant k == bits ==> cur < n && Beaten(f, n, 0, 0, bestDiff) && count == f(cur)
      invariant Kept(f, n, k, bestDiff, bestCode, bestCount)
    {
      count := f(cur);
      ghost var was := bestDiff;
      if Diff(count) < bestDiff { bestDiff, bestCode, bestCount := Diff(count), cur, count; }
      CloserBeaten(f, n, cur - delta, cur + delta, was, bestDiff);
      Cleared(cur, bits - 1 - k);
      if count >= UPPER {
        AboveBeaten(f, n, cur - delta, cur + delta, cur, bestDiff);
        cur := AndNot(cur, delta);
        if k == bits - 1 {
          count := f(cur);
          was := bestDiff;
          if Diff(count) < bestDiff { bestDiff, bestCode, bestCount := Diff(count), cur, count; }
          CloserBeaten(f, n, cur, cur + delta, was, bestDiff);
          AllBeaten(f, n, cur, bestDiff);
        }
      } else if count <= LOWER {
        BelowBeaten(f, n, cur - delta, cur + delta, cur, bestDiff);
        if k == bits - 1 { AllBeaten(f, n, cur, bestDiff); }
      } else {
        InBandToo(f, bestCode, count);
        break;
      }
      delta := delta / 2;
      Raised(cur, bits - 1 - k);
      cur := Or(cur, delta);
    }
    if cur != bestCode { cur, count := bestCode, bestCount; }
    code := cur;
    ClosestInBand(f, n, code, bestDiff);
  }

  /** cur is a multiple, an odd multiple, of 2^k. */
  ghost predicate Times(cur: nat, k: nat) {
    exists x: nat :: cur == x * Power2(k)
  }

  ghost predicate OddTimes(cur: nat, k: nat) {
    exists x: nat :: cur == (2 * x + 1) * Power2(k)
  }

  lemma FirstOdd(k: nat)
    ensures OddTimes(Power2(k), k)
  {
    assert Power2(k) == (2 * 0 + 1) * Power2(k);
  }

  /** The masks on cur take delta off it and put the next delta on it. */
  lemma Cleared(cur: nat, k: nat)
    requires OddTimes(cur, k)
    ensures AndNot(cur, Power2(k)) == cur - Power2(k) && Times(cur - Power2(k), k) && Times(cur, k)
  {
    hide AndNot, Power2;
    var x: nat :| cur == (2 * x + 1) * Power2(k);
    OneBit(x, k);
    assert cur - Power2(k) == 2 * x * Power2(k);
  }

  lemma Raised(cur: nat, k: nat)
    requires Times(cur, k)
    ensures Power2(k) / 2 == if k == 0 then 0 else Power2(k - 1)
    ensures Or(cur, Power2(k) / 2) == cur + Power2(k) / 2
    ensures k > 0 ==> Power2(k) == 2 * Power2(k - 1) && OddTimes(cur + Power2(k) / 2, k - 1)
  {
    hide Or, Power2, OddTimes;
    if k == 0 {
      Halved(1);
      OrZero(cur);
    } else {
      Halved(k);
      var x: nat :| cur == x * Power2(k);
      RaisedTo(cur, x, k - 1);
    }
  }

  lemma RaisedTo(cur: nat, x: nat, k: nat)
    requires cur == x * (2 * Power2(k))
    ensures Or(cur, Power2(k)) == cur + Power2(k) && OddTimes(cur + Power2(k), k)
  {
    hide Or, Power2, OddTimes;
    Spread(cur, x, Power2(k));
    OneBit(x, k);
    OddTimesIs(cur + Power2(k), x, k);
  }

  lemma Spread(cur: nat, x: nat, d: nat)
    requires cur == x * (2 * d)
    ensures cur == 2 * x * d && cur + d == (2 * x + 1) * d
  {
  }

  lemma OddTimesIs(cur: nat, x: nat, k: nat)
    requires cur == (2 * x + 1) * Power2(k)
    ensures OddTimes(cur, k)
  {
  }

  lemma Halved(bits: nat)
    requires bits > 0
    ensures Power2(bits) == 2 * Power2(bits - 1) && Power2(0) == 1
  {
  }

  /** From the first turn on, the best code so far goes with its count and its distance. */
  ghost predicate Kept(f: nat -> nat, n: nat, k: nat, bestDiff: nat, bestCode: nat, bestCount: nat) {
    if k == 0 then bestDiff == WORD - 1 else bestCode < n && bestCount == f(bestCode) && bestDiff == Diff(bestCount)
  }

  lemma NoneBeaten(f: nat -> nat, n: nat, diff: nat)
    ensures Beaten(f, n, 0, n, diff)
  {
  }

  lemma ClosestInBand(f: nat -> nat, n: nat, code: nat, diff: nat)
    requires InBand(f(code)) || (Beaten(f, n, 0, 0, diff) && Diff(f(code)) == diff)
    ensures InBand(f(code)) || Best(f, n, code)
    ensures (exists c :: 0 <= c < n && InBand(f(c))) ==> InBand(f(code))
  {
    if !InBand(f(code)) {
      assert Best(f, n, code);
      if exists c :: 0 <= c < n && InBand(f(c)) {
        var c :| 0 <= c < n && InBand(f(c));
        InBandToo(f, code, f(c));
        assert false;
      }
    }
  }

  lemma AllBeaten(f: nat -> nat, n: nat, cur: nat, diff: nat)
    requires Beaten(f, n, cur, cur + 1, diff) && diff <= Diff(f(cur))
    ensures Beaten(f, n, 0, 0, diff)
  {
    forall c | 0 <= c < n ensures diff <= Diff(f(c)) {
      if c != cur { assert !(cur <= c < cur + 1); }
    }
  }

  /** A code at least as close as one in the band is in the band. */
  lemma InBandToo(f: nat -> nat, code: nat, count: nat)
    requires InBand(count) && Diff(f(code)) <= Diff(count)
    ensures InBand(f(code))
  {
  }
}
