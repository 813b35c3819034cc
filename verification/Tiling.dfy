/**
 A pool of memory cut into consecutive blocks, each a header of `hdr` bytes and a
 payload, as both heaps of the kernel keep it. What clients see of it is `Live`:
 which payloads are theirs and how far they reach.
 */
module Tiling {

  /** The bytes from start up to next; next is where the following block starts. */
  datatype Block = Block(start: nat, next: nat, used: bool)

  /** The blocks follow each other without gap from 0 to end; payloads hold at least `unit`
      bytes and everything is aligned to 4. */
  ghost predicate Tiles(bs: seq<Block>, end: nat, hdr: nat, unit: nat) {
    && |bs| > 0 && bs[0].start == 0 && bs[|bs| - 1].next == end
    && (forall i :: 0 <= i < |bs| ==>
          bs[i].start + hdr + unit <= bs[i].next && bs[i].start % 4 == 0 && bs[i].next % 4 == 0)
    && (forall i :: 0 <= i < |bs| - 1 ==> bs[i].next == bs[i + 1].start)
  }

  /** No two neighbours are both free. */
  ghost predicate Coalesced(bs: seq<Block>) {
    forall i :: 0 <= i < |bs| - 1 ==> bs[i].used || bs[i + 1].used
  }

  /** Blocks of a tiling lie in order, so they are told apart by where they start. */
  lemma {:induction false} Ordered(bs: seq<Block>, end: nat, hdr: nat, unit: nat, i: nat, j: nat)
    requires Tiles(bs, end, hdr, unit) && hdr > 0 && i < j < |bs|
    ensures bs[i].next <= bs[j].start < end
    decreases j - i
  {
    assert bs[j - 1].next == bs[j].start;
    if i == j - 1 {
    } else {
      Ordered(bs, end, hdr, unit, i, j - 1);
    }
    Inside(bs, end, hdr, unit, j);
  }

  lemma {:induction false} Inside(bs: seq<Block>, end: nat, hdr: nat, unit: nat, j: nat)
    requires Tiles(bs, end, hdr, unit) && hdr > 0 && j < |bs|
    ensures bs[j].start < bs[j].next <= end
    decreases |bs| - j
  {
    if j == |bs| - 1 {
    } else {
      assert bs[j].next == bs[j + 1].start;
      Inside(bs, end, hdr, unit, j + 1);
    }
  }

  // ---- What happens to blocks ----

  function SetUsed(bs: seq<Block>, i: nat, used: bool): seq<Block>
    requires i < |bs|
  {
    bs[i := bs[i].(used := used)]
  }

  /** Block i ends at `at`, and a free block takes the rest. */
  function Split(bs: seq<Block>, i: nat, at: nat): seq<Block>
    requires i < |bs|
  {
    bs[..i] + [bs[i].(next := at), Block(at, bs[i].next, false)] + bs[i + 1..]
  }

  /** Block i swallows the block after it. */
  function Merge(bs: seq<Block>, i: nat): seq<Block>
    requires i + 1 < |bs|
  {
    bs[..i] + [bs[i].(next := bs[i + 1].next)] + bs[i + 2..]
  }

  /** A free block i joins a free right neighbour, then a free left one. */
  function Absorb(bs: seq<Block>, i: nat): seq<Block>
    requires i < |bs|
  {
    var b1 := if i + 1 < |bs| && !bs[i + 1].used then Merge(bs, i) else bs;
    if i > 0 && !b1[i - 1].used then Merge(b1, i - 1) else b1
  }

  lemma SetUsedTiles(bs: seq<Block>, end: nat, hdr: nat, unit: nat, i: nat, used: bool)
    requires Tiles(bs, end, hdr, unit) && i < |bs|
    ensures Tiles(SetUsed(bs, i, used), end, hdr, unit)
  {
  }

  lemma SplitAt(bs: seq<Block>, i: nat, at: nat, k: nat)
    requires i < |bs| && k <= |bs|
    ensures |Split(bs, i, at)| == |bs| + 1
    ensures Split(bs, i, at)[k] == if k < i then bs[k] else if k == i then bs[i].(next := at)
                                   else if k == i + 1 then Block(at, bs[i].next, false) else bs[k - 1]
  {
  }

  lemma MergeAt(bs: seq<Block>, i: nat, k: nat)
    requires i + 1 < |bs| && k + 1 < |bs|
    ensures |Merge(bs, i)| == |bs| - 1
    ensures Merge(bs, i)[k] == if k < i then bs[k] else if k == i then bs[i].(next := bs[i + 1].next) else bs[k + 1]
  {
  }

  lemma SplitTiles(bs: seq<Block>, end: nat, hdr: nat, unit: nat, i: nat, at: nat)
    requires Tiles(bs, end, hdr, unit) && i < |bs| && at % 4 == 0
    requires bs[i].start + hdr + unit <= at && at + hdr + unit <= bs[i].next
    ensures Tiles(Split(bs, i, at), end, hdr, unit)
  {
    hide Split;
    var r := Split(bs, i, at);
    SplitAt(bs, i, at, 0);
    forall k | 0 <= k <= |bs|
      ensures r[k].start % 4 == 0 && r[k].next % 4 == 0
      ensures r[k].start + hdr + unit <= r[k].next && (k < |bs| ==> r[k].next == r[k + 1].start)
    {
      SplitAt(bs, i, at, k);
      if k < |bs| { SplitAt(bs, i, at, k + 1); }
    }
    SplitAt(bs, i, at, |bs|);
  }

  lemma MergeTiles(bs: seq<Block>, end: nat, hdr: nat, unit: nat, i: nat)
    requires Tiles(bs, end, hdr, unit) && i + 1 < |bs|
    ensures Tiles(Merge(bs, i), end, hdr, unit)
  {
    hide Merge;
    var r := Merge(bs, i);
    MergeAt(bs, i, 0);
    forall k | 0 <= k < |bs| - 1
      ensures r[k].start % 4 == 0 && r[k].next % 4 == 0
      ensures r[k].start + hdr + unit <= r[k].next && (k < |bs| - 2 ==> r[k].next == r[k + 1].start)
    {
      MergeAt(bs, i, k);
      if k < |bs| - 2 { MergeAt(bs, i, k + 1); }
      assert bs[i].next == bs[i + 1].start;
    }
    MergeAt(bs, i, |bs| - 2);
  }

  /** Only between block i and its left (or right) neighbour may two free blocks meet. */
  ghost predicate CoalescedBut(bs: seq<Block>, i: nat, right: bool) {
    forall k :: 0 <= k < |bs| - 1 && k + 1 != i && !(right && k == i) ==> bs[k].used || bs[k + 1].used
  }

  lemma JoinRight(bs: seq<Block>, i: nat)
    requires i + 1 < |bs| && CoalescedBut(bs, i, true) && !bs[i].used && !bs[i + 1].used
    ensures CoalescedBut(Merge(bs, i), i, false)
  {
    hide Merge;
    var r := Merge(bs, i);
    MergeAt(bs, i, 0);
    forall k | 0 <= k < |r| - 1 && k + 1 != i ensures r[k].used || r[k + 1].used {
      MergeAt(bs, i, k);
      MergeAt(bs, i, k + 1);
      assert k < i ==> bs[k].used || bs[k + 1].used;
      assert k >= i ==> bs[k + 1].used || bs[k + 2].used;
    }
  }

  lemma JoinLeft(bs: seq<Block>, i: nat)
    requires 0 < i < |bs| && CoalescedBut(bs, i, false) && !bs[i - 1].used && !bs[i].used
    ensures Coalesced(Merge(bs, i - 1))
  {
    hide Merge;
    var r := Merge(bs, i - 1);
    MergeAt(bs, i - 1, 0);
    forall k | 0 <= k < |r| - 1 ensures r[k].used || r[k + 1].used {
      MergeAt(bs, i - 1, k);
      MergeAt(bs, i - 1, k + 1);
      assert k + 1 < i ==> bs[k].used || bs[k + 1].used;
      assert k + 1 >= i ==> bs[k + 1].used || bs[k + 2].used;
    }
  }

  lemma AbsorbCoalesces(bs: seq<Block>, i: nat)
    requires i < |bs| && !bs[i].used && CoalescedBut(bs, i, true)
    ensures Coalesced(Absorb(bs, i))
  {
    hide Merge;
    var b1 := if i + 1 < |bs| && !bs[i + 1].used then Merge(bs, i) else bs;
    if i + 1 < |bs| && !bs[i + 1].used {
      JoinRight(bs, i);
      MergeAt(bs, i, i);
      if i > 0 { MergeAt(bs, i, i - 1); }
    }
    assert CoalescedBut(b1, i, false);
    if i > 0 && !b1[i - 1].used { JoinLeft(b1, i); }
  }

  lemma AbsorbTiles(bs: seq<Block>, end: nat, hdr: nat, unit: nat, i: nat)
    requires Tiles(bs, end, hdr, unit) && i < |bs|
    ensures Tiles(Absorb(bs, i), end, hdr, unit)
  {
    var b1 := if i + 1 < |bs| && !bs[i + 1].used then Merge(bs, i) else bs;
    if i + 1 < |bs| && !bs[i + 1].used { MergeTiles(bs, end, hdr, unit, i); }
    if i > 0 && !b1[i - 1].used { MergeTiles(b1, end, hdr, unit, i - 1); }
  }

  // ---- What clients see ----

  /** The used blocks. */
  ghost function Live(bs: seq<Block>): set<Block> {
    set b | b in bs && b.used
  }

  /** Two live blocks are the same block or do not overlap. */
  lemma LiveDisjoint(bs: seq<Block>, end: nat, hdr: nat, unit: nat, a: Block, b: Block)
    requires Tiles(bs, end, hdr, unit) && hdr > 0 && a in Live(bs) && b in Live(bs)
    ensures a == b || a.next <= b.start || b.next <= a.start
  {
    var i :| 0 <= i < |bs| && bs[i] == a;
    var j :| 0 <= j < |bs| && bs[j] == b;
    if i < j { Ordered(bs, end, hdr, unit, i, j); }
    if j < i { Ordered(bs, end, hdr, unit, j, i); }
  }

  lemma TakeLive(bs: seq<Block>, i: nat)
    requires i < |bs| && !bs[i].used
    ensures Live(SetUsed(bs, i, true)) == Live(bs) + {bs[i].(used := true)}
  {
    var r := SetUsed(bs, i, true);
    assert forall k :: 0 <= k < |bs| && k != i ==> r[k] == bs[k];
    assert r[i] in r;
  }

  lemma ReleaseLive(bs: seq<Block>, end: nat, hdr: nat, unit: nat, i: nat)
    requires Tiles(bs, end, hdr, unit) && hdr > 0 && i < |bs| && bs[i].used
    ensures Live(SetUsed(bs, i, false)) == Live(bs) - {bs[i]}
  {
    var r := SetUsed(bs, i, false);
    forall b | b in Live(r) ensures b in Live(bs) - {bs[i]} {
      var k :| 0 <= k < |r| && r[k] == b;
      if k < i { Ordered(bs, end, hdr, unit, k, i); } else if k > i { Ordered(bs, end, hdr, unit, i, k); }
    }
    forall b | b in Live(bs) - {bs[i]} ensures b in Live(r) {
      var k :| 0 <= k < |bs| && bs[k] == b;
      assert r[k] == b;
    }
  }

  lemma SplitLive(bs: seq<Block>, end: nat, hdr: nat, unit: nat, i: nat, at: nat)
    requires Tiles(bs, end, hdr, unit) && hdr > 0 && i < |bs|
    ensures Live(Split(bs, i, at)) ==
            Live(bs) - {bs[i]} + (if bs[i].used then {bs[i].(next := at)} else {})
  {
    hide Split;
    var r := Split(bs, i, at);
    SplitAt(bs, i, at, i);
    forall b | b in Live(r) ensures b in Live(bs) - {bs[i]} || (bs[i].used && b == bs[i].(next := at)) {
      var k :| 0 <= k < |r| && r[k] == b;
      SplitAt(bs, i, at, k);
      if k < i { Ordered(bs, end, hdr, unit, k, i); } else if k > i + 1 { Ordered(bs, end, hdr, unit, i, k - 1); }
    }
    forall b | b in Live(bs) - {bs[i]} ensures b in Live(r) {
      var k :| 0 <= k < |bs| && bs[k] == b;
      SplitAt(bs, i, at, if k < i then k else k + 1);
    }
  }

  lemma MergeLive(bs: seq<Block>, i: nat)
    requires i + 1 < |bs| && !bs[i].used && !bs[i + 1].used
    ensures Live(Merge(bs, i)) == Live(bs)
  {
    hide Merge;
    var r := Merge(bs, i);
    MergeAt(bs, i, i);
    forall b | b in Live(r) ensures b in Live(bs) {
      var k :| 0 <= k < |r| && r[k] == b;
      MergeAt(bs, i, k);
    }
    forall b | b in Live(bs) ensures b in Live(r) {
      var k :| 0 <= k < |bs| && bs[k] == b;
      MergeAt(bs, i, if k < i then k else k - 1);
    }
  }

  lemma AbsorbLive(bs: seq<Block>, i: nat)
    requires i < |bs| && !bs[i].used
    ensures Live(Absorb(bs, i)) == Live(bs)
  {
    hide Merge, Live;
    var b1 := if i + 1 < |bs| && !bs[i + 1].used then Merge(bs, i) else bs;
    if i + 1 < |bs| && !bs[i + 1].used {
      MergeLive(bs, i);
      MergeAt(bs, i, i);
      if i > 0 { MergeAt(bs, i, i - 1); }
    }
    if i > 0 && !b1[i - 1].used { MergeLive(b1, i - 1); }
  }

  // ---- Sums over blocks ----

  /** Bytes in used blocks, headers included. */
  function UsedBytes(bs: seq<Block>): int {
    if bs == [] then 0
    else UsedBytes(bs[1..]) + if bs[0].used then bs[0].next - bs[0].start else 0
  }

  /** Bytes in the payloads of free blocks. */
  function FreePayload(bs: seq<Block>, hdr: nat): int {
    if bs == [] then 0
    else FreePayload(bs[1..], hdr) + if bs[0].used then 0 else bs[0].next - bs[0].start - hdr
  }

  lemma PairSums(a: Block, b: Block, hdr: nat)
    ensures UsedBytes([a, b]) == UsedBytes([a]) + UsedBytes([b])
    ensures FreePayload([a, b], hdr) == FreePayload([a], hdr) + FreePayload([b], hdr)
  {
    assert [a, b] == [a] + [b];
    SumsConcat([a], [b], hdr);
  }

  lemma {:induction false} SumsConcat(a: seq<Block>, b: seq<Block>, hdr: nat)
    ensures UsedBytes(a + b) == UsedBytes(a) + UsedBytes(b)
    ensures FreePayload(a + b, hdr) == FreePayload(a, hdr) + FreePayload(b, hdr)
  {
    if a == [] {
      assert a + b == b;
    } else {
      assert (a + b)[1..] == a[1..] + b;
      SumsConcat(a[1..], b, hdr);
    }
  }

  /** The sums around the part of the list that changes. */
  lemma SumsSplice(bs: seq<Block>, i: nat, j: nat, mid: seq<Block>, hdr: nat)
    requires i <= j <= |bs|
    ensures UsedBytes(bs[..i] + mid + bs[j..]) == UsedBytes(bs) - UsedBytes(bs[i..j]) + UsedBytes(mid)
    ensures FreePayload(bs[..i] + mid + bs[j..], hdr) ==
            FreePayload(bs, hdr) - FreePayload(bs[i..j], hdr) + FreePayload(mid, hdr)
  {
    assert bs == bs[..i] + bs[i..j] + bs[j..];
    SumsConcat(bs[..i] + bs[i..j], bs[j..], hdr);
    SumsConcat(bs[..i], bs[i..j], hdr);
    SumsConcat(bs[..i] + mid, bs[j..], hdr);
    SumsConcat(bs[..i], mid, hdr);
  }

  lemma SetUsedSums(bs: seq<Block>, i: nat, used: bool, hdr: nat)
    requires i < |bs| && bs[i].used != used
    ensures var d := bs[i].next - bs[i].start;
            && UsedBytes(SetUsed(bs, i, used)) == UsedBytes(bs) + (if used then d else -d)
            && FreePayload(SetUsed(bs, i, used), hdr) == FreePayload(bs, hdr) + (if used then hdr - d else d - hdr)
  {
    var b := bs[i].(used := used);
    assert bs[i..i + 1] == [bs[i]] && SetUsed(bs, i, used) == bs[..i] + [b] + bs[i + 1..];
    SumsSplice(bs, i, i + 1, [b], hdr);
  }

  lemma SplitSums(bs: seq<Block>, i: nat, at: nat, hdr: nat)
    requires i < |bs|
    ensures UsedBytes(Split(bs, i, at)) == UsedBytes(bs) - (if bs[i].used then bs[i].next - at else 0)
    ensures FreePayload(Split(bs, i, at), hdr) ==
            FreePayload(bs, hdr) - hdr + (if bs[i].used then bs[i].next - at else 0)
  {
    var mid := [bs[i].(next := at), Block(at, bs[i].next, false)];
    assert bs[i..i + 1] == [bs[i]];
    PairSums(mid[0], mid[1], hdr);
    SumsSplice(bs, i, i + 1, mid, hdr);
  }

  lemma MergeSums(bs: seq<Block>, i: nat, hdr: nat)
    requires i + 1 < |bs| && !bs[i].used && !bs[i + 1].used && bs[i].next == bs[i + 1].start
    ensures UsedBytes(Merge(bs, i)) == UsedBytes(bs)
    ensures FreePayload(Merge(bs, i), hdr) == FreePayload(bs, hdr) + hdr
  {
    var b := bs[i].(next := bs[i + 1].next);
    assert bs[i..i + 2] == [bs[i], bs[i + 1]];
    PairSums(bs[i], bs[i + 1], hdr);
    SumsSplice(bs, i, i + 2, [b], hdr);
  }
}
