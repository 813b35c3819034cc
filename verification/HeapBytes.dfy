/** What becomes of payloads while headers are written and blocks copied. */
module HeapBytes {
  import opened Tiling
  import opened HeapLinks

  /** Byte j of a word, least significant byte first. */
  function ByteOf(v: nat, j: nat): Byte {
    match j
    case 0 => v % 256
    case 1 => v / 0x100 % 256
    case 2 => v / 0x1_0000 % 256
    case _ => v / 0x100_0000 % 256
  }

  /** The payloads of the given blocks are as they were. */
  ghost predicate PayloadsKept(hdr: nat, live: set<Block>, was: seq<Byte>, now: seq<Byte>) {
    forall c :: c in live ==> c.start + hdr <= c.next <= |was| == |now| &&
                              was[c.start + hdr..c.next] == now[c.start + hdr..c.next]
  }

  lemma KeptLess(hdr: nat, live: set<Block>, less: set<Block>, was: seq<Byte>, now: seq<Byte>)
    requires PayloadsKept(hdr, live, was, now)
    ensures PayloadsKept(hdr, live - less, was, now)
  {
  }

  lemma KeptOf(hdr: nat, bs: seq<Block>, end: nat, unit: nat, live: set<Block>, was: seq<Byte>, now: seq<Byte>)
    requires Tiles(bs, end, hdr, unit) && hdr > 0 && live <= Live(bs) && |was| >= end
    requires HeadersOnly(bs, end, hdr, was, now)
    ensures PayloadsKept(hdr, live, was, now)
  {
    forall c | c in live
      ensures c.start + hdr <= c.next <= |was| == |now| && was[c.start + hdr..c.next] == now[c.start + hdr..c.next]
    {
      PayloadKept(bs, end, hdr, unit, was, now, c);
    }
  }

  function Least(a: int, b: int): int { if a < b then a else b }

  ghost predicate Copied(was: seq<Byte>, now: seq<Byte>, dst: nat, src: nat, len: nat) {
    && |was| == |now| && dst + len <= |was| && src + len <= |was|
    && (forall k :: dst <= k < dst + len ==> now[k] == was[k - dst + src])
    && (forall k :: 0 <= k < |was| && !(dst <= k < dst + len) ==> now[k] == was[k])
  }

  /** The len bytes at p before are the len bytes at q now. */
  ghost predicate Carried(was: seq<Byte>, now: seq<Byte>, p: int, q: int, len: int) {
    && 0 <= p && 0 <= q && 0 <= len && p + len <= |was| && q + len <= |now|
    && was[p..p + len] == now[q..q + len]
  }

  /** Other live blocks do not overlap with block c. */
  ghost predicate Beside(live: set<Block>, c: Block) {
    forall d :: d in live ==> d.next <= c.start || c.next <= d.start
  }

  /** A block is copied from b to c after one step that keeps what is live and before another. */
  lemma CopyKeeps(hdr: nat, live: set<Block>, b: Block, c: Block, size: nat,
                  b0: seq<Byte>, b1: seq<Byte>, b2: seq<Byte>, b3: seq<Byte>)
    requires b in live && c.start + hdr + size <= c.next && b != c && b.start + hdr <= b.next
    requires Beside(live - {b}, c)
    requires PayloadsKept(hdr, live, b0, b1) && PayloadsKept(hdr, live + {c} - {b}, b2, b3)
    requires Copied(b1, b2, c.start + hdr, b.start + hdr, Least(b.next - b.start - hdr, size))
    ensures PayloadsKept(hdr, live - {b}, b0, b3)
    ensures Carried(b0, b3, b.start + hdr, c.start + hdr, Least(b.next - b.start - hdr, size))
  {
    var len, from, to := Least(b.next - b.start - hdr, size), b.start + hdr, c.start + hdr;
    forall d | d in live - {b}
      ensures d.start + hdr <= d.next <= |b0| == |b3| && b0[d.start + hdr..d.next] == b3[d.start + hdr..d.next]
    {
      assert d in live && d in live + {c} - {b};
      Outside(b1, b2, to, from, len, d.start + hdr, d.next);
    }
    assert c in live + {c} - {b};
    Prefix(b0, b1, from, b.next, len);
    Prefix(b2, b3, to, c.next, len);
    Arrived(b1, b2, to, from, len);
  }

  lemma Prefix(a: seq<Byte>, b: seq<Byte>, from: nat, to: nat, len: nat)
    requires from + len <= to <= |a| && to <= |b| && a[from..to] == b[from..to]
    ensures a[from..from + len] == b[from..from + len]
  {
    assert a[from..from + len] == a[from..to][..len];
    assert b[from..from + len] == b[from..to][..len];
  }

  lemma Outside(a: seq<Byte>, b: seq<Byte>, dst: nat, src: nat, len: nat, from: nat, to: nat)
    requires Copied(a, b, dst, src, len) && from <= to <= |a| && (to <= dst || dst + len <= from)
    ensures a[from..to] == b[from..to]
  {
  }

  lemma Arrived(a: seq<Byte>, b: seq<Byte>, dst: nat, src: nat, len: nat)
    requires Copied(a, b, dst, src, len)
    ensures a[src..src + len] == b[dst..dst + len]
  {
    var x, y := a[src..src + len], b[dst..dst + len];
    forall k | 0 <= k < len ensures x[k] == y[k] {
      assert b[dst + k] == a[dst + k - dst + src];
    }
  }

  // ---- Headers at given places ----

  /** Where there are headers: at the starts of blocks, at the end of the pool and outside it. */
  ghost function Places(bs: seq<Block>, end: nat): set<nat> {
    (set b | b in bs :: b.start) + {end, end + 1}
  }

  /** Byte k lies in a header at one of the places. */
  ghost predicate Covered(places: set<nat>, hdr: nat, k: nat) {
    exists s :: s in places && s <= k < s + hdr
  }

  /** Between two moments only headers at these places have changed. */
  ghost predicate HeadersIn(places: set<nat>, hdr: nat, was: seq<Byte>, now: seq<Byte>) {
    |was| == |now| && forall k :: 0 <= k < |was| && was[k] != now[k] ==> Covered(places, hdr, k)
  }

  lemma PlaceStamped(places: set<nat>, hdr: nat, was: seq<Byte>, mid: seq<Byte>, now: seq<Byte>, q: nat)
    requires HeadersIn(places, hdr, was, mid) && Stamped(mid, now, q, hdr) && q in places
    ensures HeadersIn(places, hdr, was, now)
  {
    forall k | 0 <= k < |was| && was[k] != now[k] ensures Covered(places, hdr, k) {
      if was[k] == mid[k] { assert q in places && q <= k < q + hdr; }
    }
  }

  /** Writing headers, and one more at `at`, leaves the payload of block c alone up to `to`, unless
      `at` lies in that part. */
  lemma PlacesKeep(bs: seq<Block>, end: nat, hdr: nat, unit: nat, at: nat, was: seq<Byte>, now: seq<Byte>,
                   c: Block, to: nat)
    requires Tiles(bs, end, hdr, unit) && hdr > 0 && |was| >= end && c in bs && c.start + hdr <= to <= c.next
    requires HeadersIn(Places(bs, end) + {at}, hdr, was, now) && (to <= at || at <= c.start)
    ensures to <= |was| == |now| && was[c.start + hdr..to] == now[c.start + hdr..to]
  {
    var i :| 0 <= i < |bs| && bs[i] == c;
    Inside(bs, end, hdr, unit, i);
    forall k | c.start + hdr <= k < to ensures was[k] == now[k] {
      if was[k] != now[k] {
        var s :| s in Places(bs, end) + {at} && s <= k < s + hdr;
        if s in Places(bs, end) { NoPlace(bs, end, hdr, unit, i, s); }
        assert false;
      }
    }
  }

  /** No header starts after that of block i and before the next block. */
  lemma NoPlace(bs: seq<Block>, end: nat, hdr: nat, unit: nat, i: nat, s: nat)
    requires Tiles(bs, end, hdr, unit) && hdr > 0 && i < |bs| && s in Places(bs, end)
    ensures s <= bs[i].start || bs[i].next <= s
  {
    Inside(bs, end, hdr, unit, i);
    if s != end && s != end + 1 {
      var b :| b in bs && b.start == s;
      var j :| 0 <= j < |bs| && bs[j] == b;
      if i < j { Ordered(bs, end, hdr, unit, i, j); } else if j < i { Ordered(bs, end, hdr, unit, j, i); }
    }
  }
}
