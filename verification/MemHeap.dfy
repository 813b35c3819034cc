/**
 The memheap allocator: an address-ordered ring of blocks, and a second ring that holds
 the free ones with the most recently freed first. `Pool` is its value; pointers are
 byte offsets from the start of the pool, and `end` is where the tailer block lies.
 */
module MemHeap {
  import opened Ipc
  import opened Tiling
  import SmallHeap

  /** RT_MEMHEAP_SIZE and RT_MEMHEAP_MINIALLOC on a 32-bit machine. */
  const HDR: nat := 24
  const MIN: nat := 12

  /** ring lists where the free blocks start, in the order of the free ring. */
  datatype Pool = Pool(end: nat, blocks: seq<Block>, ring: seq<nat>, available: int) {
    function Unit(): nat { if end < HDR + MIN then 0 else MIN }

    ghost predicate Good() {
      && end + HDR < WORD
      && Tiles(blocks, end, HDR, Unit()) && Coalesced(blocks)
      && RingExact(ring, blocks)
      && available == FreePayload(blocks, HDR)
    }
  }

  /** Where the free blocks start. */
  ghost function FreeStarts(bs: seq<Block>): set<nat> {
    set i | 0 <= i < |bs| && !bs[i].used :: bs[i].start
  }

  /** The free ring holds exactly the free blocks, each once. */
  ghost predicate RingExact(ring: seq<nat>, bs: seq<Block>) {
    Distinct(ring) && forall s :: s in ring <==> s in FreeStarts(bs)
  }

  function Payload(b: Block): int {
    b.next - b.start - HDR
  }

  /** The payload rt_memheap_alloc looks for. */
  function Need(n: nat): nat {
    var size := SmallHeap.Align(n);
    if size < MIN then MIN else size
  }

  /** The index of the block that starts at `start`, or |bs|. */
  function Find(bs: seq<Block>, start: int): (r: nat)
    ensures r <= |bs| && (r < |bs| ==> bs[r].start == start)
    ensures forall j :: 0 <= j < r ==> bs[j].start != start
  {
    SmallHeap.Find(bs, start, 0)
  }

  /** The size of the block that starts at s; MEMITEM_SIZE. */
  function SizeAt(bs: seq<Block>, s: nat): int {
    var i := Find(bs, s);
    if i < |bs| then Payload(bs[i]) else 0
  }

  /** The first entry of the free ring, from position k on, that is large enough, or |ring|. */
  function Search(ring: seq<nat>, k: nat, bs: seq<Block>, need: nat): (r: nat)
    requires k <= |ring|
    ensures k <= r <= |ring|
    ensures r < |ring| ==> SizeAt(bs, ring[r]) >= need
    ensures forall j :: k <= j < r ==> SizeAt(bs, ring[j]) < need
    decreases |ring| - k
  {
    if k == |ring| || SizeAt(bs, ring[k]) >= need then k else Search(ring, k + 1, bs, need)
  }

  /** Block i is taken off the free ring; what it can spare becomes a free block, first in the ring. */
  function Carve(h: Pool, i: nat, need: nat): Pool
    requires i < |h.blocks|
  {
    var s, size := h.blocks[i].start, Payload(h.blocks[i]);
    var ring := Off(h.ring, s);
    if size >= need + HDR + MIN then
      Pool(h.end, SetUsed(Split(h.blocks, i, s + HDR + need), i, true), [s + HDR + need] + ring,
           h.available - need - HDR)
    else Pool(h.end, SetUsed(h.blocks, i, true), ring, h.available - size)
  }

  /** rt_memheap_alloc. */
  function Alloc(h: Pool, n: nat): (Pool, Option<nat>) {
    var need := Need(n);
    if need >= h.available then (h, None)
    else
      var k := Search(h.ring, 0, h.blocks, need);
      if k == |h.ring| then (h, None)
      else
        var i := Find(h.blocks, h.ring[k]);
        if i < |h.blocks| then (Carve(h, i, need), Some(h.ring[k] + HDR)) else (h, None)
  }

  predicate IsLive(h: Pool, p: int) {
    var i := Find(h.blocks, p - HDR);
    i < |h.blocks| && h.blocks[i].used
  }

  /** The free ring once the free block i has been joined with its neighbours: a left
      neighbour keeps its entry, a right neighbour loses its. */
  function Joined(ring: seq<nat>, bs: seq<Block>, i: nat): seq<nat>
    requires i < |bs|
  {
    var r := if i + 1 < |bs| && !bs[i + 1].used then Off(ring, bs[i + 1].start) else ring;
    if i > 0 && !bs[i - 1].used then r else [bs[i].start] + r
  }

  /** What the headers of swallowed neighbours add to the available bytes. */
  function Gained(bs: seq<Block>, i: nat): nat
    requires i < |bs|
  {
    (if i + 1 < |bs| && !bs[i + 1].used then HDR else 0) + (if i > 0 && !bs[i - 1].used then HDR else 0)
  }

  /** rt_memheap_free of a live block. */
  function Free(h: Pool, p: int): Pool
    requires IsLive(h, p)
  {
    var i := Find(h.blocks, p - HDR);
    var bs := SetUsed(h.blocks, i, false);
    Pool(h.end, Absorb(bs, i), Joined(h.ring, bs, i), h.available + Payload(h.blocks[i]) + Gained(bs, i))
  }

  // ---- The free ring ----

  lemma FreeAt(bs: seq<Block>, i: nat)
    requires i < |bs| && !bs[i].used
    ensures bs[i].start in FreeStarts(bs)
  {
  }

  lemma FreeIndex(bs: seq<Block>, s: nat) returns (i: nat)
    requires s in FreeStarts(bs)
    ensures i < |bs| && bs[i].start == s && !bs[i].used
  {
    i :| 0 <= i < |bs| && bs[i].start == s && !bs[i].used;
  }

  lemma SplitStarts(bs: seq<Block>, i: nat, at: nat)
    requires i < |bs|
    ensures FreeStarts(Split(bs, i, at)) == FreeStarts(bs) + {at}
  {
    hide Split, FreeStarts;
    var r := Split(bs, i, at);
    SplitAt(bs, i, at, i + 1);
    forall s ensures s in FreeStarts(r) <==> s in FreeStarts(bs) + {at} {
      if s in FreeStarts(r) {
        var k := FreeIndex(r, s);
        SplitAt(bs, i, at, k);
        if k <= i { FreeAt(bs, k); } else if k > i + 1 { FreeAt(bs, k - 1); }
      }
      if s in FreeStarts(bs) {
        var k := FreeIndex(bs, s);
        SplitAt(bs, i, at, if k <= i then k else k + 1);
        FreeAt(r, if k <= i then k else k + 1);
      }
      if s == at { FreeAt(r, i + 1); }
    }
  }

  lemma MergeStarts(bs: seq<Block>, end: nat, unit: nat, i: nat)
    requires Tiles(bs, end, HDR, unit) && i + 1 < |bs| && !bs[i + 1].used
    ensures FreeStarts(Merge(bs, i)) == FreeStarts(bs) - {bs[i + 1].start}
  {
    hide Merge, FreeStarts, Tiles;
    var r := Merge(bs, i);
    MergeAt(bs, i, i);
    forall s ensures s in FreeStarts(r) <==> s in FreeStarts(bs) - {bs[i + 1].start} {
      if s in FreeStarts(r) {
        var k := FreeIndex(r, s);
        MergeAt(bs, i, k);
        FreeAt(bs, if k <= i then k else k + 1);
        Differ(bs, end, unit, if k <= i then k else k + 1, i + 1);
      }
      if s in FreeStarts(bs) && s != bs[i + 1].start {
        var k := FreeIndex(bs, s);
        MergeAt(bs, i, if k <= i then k else k - 1);
        FreeAt(r, if k <= i then k else k - 1);
      }
    }
  }

  lemma Differ(bs: seq<Block>, end: nat, unit: nat, i: nat, j: nat)
    requires Tiles(bs, end, HDR, unit) && i < |bs| && j < |bs|
    ensures bs[i].start == bs[j].start <==> i == j
  {
    if i < j {
      Inside(bs, end, HDR, unit, i);
      Ordered(bs, end, HDR, unit, i, j);
    } else if j < i {
      Inside(bs, end, HDR, unit, j);
      Ordered(bs, end, HDR, unit, j, i);
    }
  }

  lemma TakeStarts(bs: seq<Block>, end: nat, unit: nat, i: nat)
    requires Tiles(bs, end, HDR, unit) && i < |bs|
    ensures FreeStarts(SetUsed(bs, i, true)) == FreeStarts(bs) - {bs[i].start}
    ensures FreeStarts(SetUsed(bs, i, false)) == FreeStarts(bs) + {bs[i].start}
  {
    hide FreeStarts, Tiles;
    var r, q := SetUsed(bs, i, true), SetUsed(bs, i, false);
    forall s ensures s in FreeStarts(r) <==> s in FreeStarts(bs) - {bs[i].start} {
      if s in FreeStarts(r) {
        var k := FreeIndex(r, s);
        FreeAt(bs, k);
        Differ(bs, end, unit, k, i);
      }
      if s in FreeStarts(bs) && s != bs[i].start {
        var k := FreeIndex(bs, s);
        FreeAt(r, k);
      }
    }
    forall s ensures s in FreeStarts(q) <==> s in FreeStarts(bs) + {bs[i].start} {
      if s in FreeStarts(q) {
        var k := FreeIndex(q, s);
        if k != i { FreeAt(bs, k); }
      }
      if s in FreeStarts(bs) {
        var k := FreeIndex(bs, s);
        FreeAt(q, k);
      }
      if s == bs[i].start { FreeAt(q, i); }
    }
  }

  lemma AbsorbStarts(bs: seq<Block>, end: nat, unit: nat, i: nat)
    requires Tiles(bs, end, HDR, unit) && i < |bs| && !bs[i].used
    ensures FreeStarts(Absorb(bs, i)) ==
            FreeStarts(bs) - (if i + 1 < |bs| && !bs[i + 1].used then {bs[i + 1].start} else {})
                           - (if i > 0 && !bs[i - 1].used then {bs[i].start} else {})
    ensures FreePayload(Absorb(bs, i), HDR) == FreePayload(bs, HDR) + Gained(bs, i)
  {
    hide Merge, FreeStarts, FreePayload, UsedBytes, Tiles;
    var b1 := if i + 1 < |bs| && !bs[i + 1].used then Merge(bs, i) else bs;
    if i + 1 < |bs| && !bs[i + 1].used {
      MergeStarts(bs, end, unit, i);
      MergeTiles(bs, end, HDR, unit, i);
      Touching(bs, end, unit, i);
      MergeSums(bs, i, HDR);
      MergeAt(bs, i, i);
      if i > 0 { MergeAt(bs, i, i - 1); }
    }
    if i > 0 && !b1[i - 1].used {
      MergeStarts(b1, end, unit, i - 1);
      Touching(b1, end, unit, i - 1);
      MergeSums(b1, i - 1, HDR);
    }
  }

  lemma Touching(bs: seq<Block>, end: nat, unit: nat, i: nat)
    requires Tiles(bs, end, HDR, unit) && i + 1 < |bs|
    ensures bs[i].next == bs[i + 1].start
  {
  }

  /** Joining block i, the only free block missing from the ring, with its neighbours. */
  lemma JoinGood(h: Pool, bs: seq<Block>, i: nat, available: int)
    requires h.end + HDR < WORD && Tiles(bs, h.end, HDR, h.Unit())
    requires i < |bs| && !bs[i].used && CoalescedBut(bs, i, true)
    requires RingBut(h.ring, bs, bs[i].start) && available == FreePayload(bs, HDR)
    ensures Pool(h.end, Absorb(bs, i), Joined(h.ring, bs, i), available + Gained(bs, i)).Good()
  {
    hide Tiles, Coalesced, CoalescedBut, Absorb, FreePayload, RingBut, RingExact;
    AbsorbTiles(bs, h.end, HDR, h.Unit(), i);
    AbsorbCoalesces(bs, i);
    AbsorbStarts(bs, h.end, h.Unit(), i);
    JoinRing(h.ring, bs, h.end, h.Unit(), i);
  }

  /** The ring holds exactly the free blocks other than the one at s. */
  ghost predicate RingBut(ring: seq<nat>, bs: seq<Block>, s: nat) {
    Distinct(ring) && forall x :: x in ring <==> x in FreeStarts(bs) && x != s
  }

  lemma JoinRing(ring: seq<nat>, bs: seq<Block>, end: nat, unit: nat, i: nat)
    requires Tiles(bs, end, HDR, unit) && i < |bs| && !bs[i].used && RingBut(ring, bs, bs[i].start)
    ensures RingExact(Joined(ring, bs, i), Absorb(bs, i))
  {
    hide Tiles, FreeStarts, Absorb, Off, Distinct;
    AbsorbStarts(bs, end, unit, i);
    FreeAt(bs, i);
    var r := if i + 1 < |bs| && !bs[i + 1].used then Off(ring, bs[i + 1].start) else ring;
    if i + 1 < |bs| { Differ(bs, end, unit, i, i + 1); }
    if i + 1 < |bs| && !bs[i + 1].used { OffDistinct(ring, bs[i + 1].start); }
    PushDistinct(r, bs[i].start);
  }

  // ---- Allocation and release keep the two rings in agreement ----

  lemma FreeGood(h: Pool, p: int)
    requires h.Good() && IsLive(h, p)
    ensures Free(h, p).Good()
  {
    hide Tiles, Coalesced, CoalescedBut, Absorb, FreePayload, UsedBytes, RingBut, Joined, Find, FreeStarts;
    var i := Find(h.blocks, p - HDR);
    var bs := SetUsed(h.blocks, i, false);
    SetUsedTiles(h.blocks, h.end, HDR, h.Unit(), i, false);
    SetUsedSums(h.blocks, i, false, HDR);
    TakeStarts(h.blocks, h.end, h.Unit(), i);
    ReleaseBut(h.blocks, i);
    UsedNotFree(h.blocks, h.end, h.Unit(), i);
    ButFrom(h.ring, bs, bs[i].start);
    JoinGood(h, bs, i, h.available + Payload(h.blocks[i]));
  }

  lemma ButFrom(ring: seq<nat>, bs: seq<Block>, s: nat)
    requires Distinct(ring) && forall x :: x in ring <==> x in FreeStarts(bs) && x != s
    ensures RingBut(ring, bs, s)
  {
  }

  lemma ReleaseBut(bs: seq<Block>, i: nat)
    requires i < |bs| && Coalesced(bs)
    ensures CoalescedBut(SetUsed(bs, i, false), i, true)
  {
  }

  lemma UsedNotFree(bs: seq<Block>, end: nat, unit: nat, i: nat)
    requires Tiles(bs, end, HDR, unit) && i < |bs| && bs[i].used
    ensures bs[i].start !in FreeStarts(bs)
  {
    if bs[i].start in FreeStarts(bs) {
      var k := FreeIndex(bs, bs[i].start);
      Differ(bs, end, unit, k, i);
    }
  }

  /** The entry the search stops at is a free block, the first in ring order that is large enough. */
  lemma SearchFinds(h: Pool, need: nat)
    requires h.Good()
    ensures var k := Search(h.ring, 0, h.blocks, need);
            k < |h.ring| ==>
              var i := Find(h.blocks, h.ring[k]);
              i < |h.blocks| && h.blocks[i].start == h.ring[k] && !h.blocks[i].used && Payload(h.blocks[i]) >= need
  {
    var k := Search(h.ring, 0, h.blocks, need);
    if k < |h.ring| { OnRing(h, k); }
  }

  lemma OnRing(h: Pool, k: nat)
    requires h.Good() && k < |h.ring|
    ensures var i := Find(h.blocks, h.ring[k]);
            && i < |h.blocks| && h.blocks[i].start == h.ring[k] && !h.blocks[i].used
            && SizeAt(h.blocks, h.ring[k]) == Payload(h.blocks[i])
  {
    hide Tiles, Coalesced, FreePayload, FreeStarts;
    var i := Find(h.blocks, h.ring[k]);
    assert h.ring[k] in h.ring;
    var j := FreeIndex(h.blocks, h.ring[k]);
    Differ(h.blocks, h.end, h.Unit(), i, j);
  }

  lemma AtLeastMin(n: nat)
    requires n < WORD
    ensures MIN <= Need(n) < WORD && Need(n) % 4 == 0
    ensures Need(n) >= n <==> n <= WORD - 4
    ensures Need(n) <= WORD - 4
  {
    SmallHeap.AlignRounds(n);
  }

  lemma CarveGood(h: Pool, i: nat, need: nat)
    requires h.Good() && i < |h.blocks| && !h.blocks[i].used && MIN <= need <= Payload(h.blocks[i]) && need % 4 == 0
    ensures Carve(h, i, need).Good()
  {
    hide Tiles, Coalesced, FreePayload, UsedBytes, FreeStarts, Split, SetUsed, Off, Distinct;
    var bs, s := h.blocks, h.blocks[i].start;
    var at := s + HDR + need;
    FreeAt(bs, i);
    OffDistinct(h.ring, s);
    BlockFacts(h, i);
    if Payload(bs[i]) >= need + HDR + MIN {
      SplitTiles(bs, h.end, HDR, h.Unit(), i, at);
      SplitStarts(bs, i, at);
      SplitSums(bs, i, at, HDR);
      SmallHeap.SplitUseCoalesced(bs, i, at);
      var r := Split(bs, i, at);
      SplitAt(bs, i, at, i);
      SetUsedTiles(r, h.end, HDR, h.Unit(), i, true);
      TakeStarts(r, h.end, h.Unit(), i);
      SetUsedSums(r, i, true, HDR);
      NotAStart(bs, h.end, h.Unit(), i, at);
      PushDistinct(Off(h.ring, s), at);
    } else {
      SetUsedTiles(bs, h.end, HDR, h.Unit(), i, true);
      TakeStarts(bs, h.end, h.Unit(), i);
      SetUsedSums(bs, i, true, HDR);
      SmallHeap.UseCoalesced(bs, i);
    }
  }

  lemma BlockFacts(h: Pool, i: nat)
    requires h.Good() && i < |h.blocks|
    ensures var b := h.blocks[i];
            && b.start % 4 == 0 && b.start + HDR + h.Unit() <= b.next <= h.end
            && (Payload(b) >= MIN ==> h.Unit() == MIN)
  {
    Inside(h.blocks, h.end, HDR, h.Unit(), i);
  }

  /** No block starts inside another. */
  lemma NotAStart(bs: seq<Block>, end: nat, unit: nat, i: nat, at: nat)
    requires Tiles(bs, end, HDR, unit) && i < |bs| && bs[i].start < at < bs[i].next
    ensures at !in FreeStarts(bs)
  {
    if at in FreeStarts(bs) {
      var k := FreeIndex(bs, at);
      Inside(bs, end, HDR, unit, k);
      if i < k { Ordered(bs, end, HDR, unit, i, k); } else if k < i { Ordered(bs, end, HDR, unit, k, i); }
    }
  }

  lemma AllocGood(h: Pool, n: nat)
    requires h.Good() && n < WORD
    ensures Alloc(h, n).0.Good()
  {
    hide Tiles, Coalesced, FreePayload, FreeStarts, Carve, Need, Find, Search;
    AtLeastMin(n);
    SearchFinds(h, Need(n));
    var k := Search(h.ring, 0, h.blocks, Need(n));
    if Need(n) < h.available && k < |h.ring| { CarveGood(h, Find(h.blocks, h.ring[k]), Need(n)); }
  }

  // ---- What clients see ----

  /** The block handed out by a successful rt_memheap_alloc. */
  function Handed(h: Pool, n: nat): Block
    requires Alloc(h, n).1.Some?
  {
    var i := Find(h.blocks, Alloc(h, n).1.value - HDR);
    if i < |Alloc(h, n).0.blocks| then Alloc(h, n).0.blocks[i] else Block(0, 0, true)
  }

  lemma CarveLive(h: Pool, i: nat, need: nat)
    requires h.Good() && i < |h.blocks| && !h.blocks[i].used && need <= Payload(h.blocks[i])
    ensures Carve(h, i, need).end == h.end && |Carve(h, i, need).blocks| > i
    ensures var c := Carve(h, i, need).blocks[i];
            && c.used && c.start == h.blocks[i].start && need <= Payload(c) < need + HDR + MIN
            && Live(Carve(h, i, need).blocks) == Live(h.blocks) + {c} && c !in Live(h.blocks)
  {
    hide Live, Split, Tiles, Coalesced, FreePayload, FreeStarts, Off;
    var bs := h.blocks;
    if Payload(bs[i]) >= need + HDR + MIN {
      var at := bs[i].start + HDR + need;
      SplitLive(bs, h.end, HDR, h.Unit(), i, at);
      SplitAt(bs, i, at, i);
      TakeLive(Split(bs, i, at), i);
      SmallHeap.NotLive(bs, h.end, HDR, h.Unit(), i, bs[i]);
      SmallHeap.NotLive(bs, h.end, HDR, h.Unit(), i, Block(bs[i].start, at, true));
    } else {
      TakeLive(bs, i);
      SmallHeap.NotLive(bs, h.end, HDR, h.Unit(), i, bs[i].(used := true));
    }
  }

  /** A successful rt_memheap_alloc adds one live block and changes no other; the block is
      aligned, lies in the pool, and holds the bytes asked for exactly when rounding the
      request up does not wrap around. */
  lemma AllocGrants(h: Pool, n: nat)
    requires h.Good() && n < WORD && Alloc(h, n).1.Some?
    ensures var (h', p) := Alloc(h, n);
            var c := Handed(h, n);
            && p.value == c.start + HDR && p.value % 4 == 0 && c.used && c.next <= h.end
            && Live(h'.blocks) == Live(h.blocks) + {c} && c !in Live(h.blocks)
            && Need(n) <= Payload(c) < Need(n) + HDR + MIN && (Payload(c) >= n <==> n <= WORD - 4)
  {
    hide Live, Tiles, Coalesced, FreePayload, FreeStarts, Carve, Need, Search, Find;
    AtLeastMin(n);
    SearchFinds(h, Need(n));
    var k := Search(h.ring, 0, h.blocks, Need(n));
    var i := Find(h.blocks, h.ring[k]);
    CarveLive(h, i, Need(n));
    assert Alloc(h, n) == (Carve(h, i, Need(n)), Some(h.ring[k] + HDR));
    assert Handed(h, n) == Carve(h, i, Need(n)).blocks[i];
    AllocGood(h, n);
    BlockFacts(Alloc(h, n).0, i);
    if n > WORD - 4 { NeedSmall(n); }
  }

  lemma NeedSmall(n: nat)
    requires WORD - 4 < n < WORD
    ensures Need(n) == MIN
  {
    SmallHeap.AlignRounds(n);
  }

  /** rt_memheap_alloc refuses exactly when the request is not below the available total or no
      free block is large enough; otherwise it takes the first one in ring order. */
  lemma AllocExact(h: Pool, n: nat)
    requires h.Good() && n < WORD
    ensures Alloc(h, n).1.None? <==>
              (Need(n) >= h.available || forall i :: 0 <= i < |h.blocks| ==> !Enough(h.blocks[i], n))
    ensures Alloc(h, n).1.Some? ==>
              exists k :: 0 <= k < |h.ring| && Alloc(h, n).1 == Some(h.ring[k] + HDR) &&
                          RingFits(h, k, n) && forall j :: 0 <= j < k ==> !RingFits(h, j, n)
  {
    hide Tiles, Coalesced, FreePayload, Carve, Need;
    SearchFinds(h, Need(n));
    var k := Search(h.ring, 0, h.blocks, Need(n));
    if k < |h.ring| {
      assert Enough(h.blocks[Find(h.blocks, h.ring[k])], n);
      assert RingFits(h, k, n);
    } else {
      forall i | 0 <= i < |h.blocks| && !h.blocks[i].used ensures Payload(h.blocks[i]) < Need(n) {
        FreeAt(h.blocks, i);
        var j :| 0 <= j < |h.ring| && h.ring[j] == h.blocks[i].start;
        OnRing(h, j);
        Differ(h.blocks, h.end, h.Unit(), i, Find(h.blocks, h.ring[j]));
        assert SizeAt(h.blocks, h.ring[j]) < Need(n);
      }
    }
  }

  predicate Enough(b: Block, n: nat) {
    !b.used && Payload(b) >= Need(n)
  }

  predicate RingFits(h: Pool, k: nat, n: nat)
    requires k < |h.ring|
  {
    SizeAt(h.blocks, h.ring[k]) >= Need(n)
  }

  lemma LivePlace(h: Pool, p: int) returns (i: nat)
    requires h.Good() && IsLive(h, p)
    ensures i == Find(h.blocks, p - HDR) && i < |h.blocks| && h.blocks[i].start == p - HDR && h.blocks[i].used
    ensures h.blocks[i] in Live(h.blocks)
  {
    i := Find(h.blocks, p - HDR);
  }

  lemma LiveFound(h: Pool, b: Block)
    requires h.Good() && b in Live(h.blocks)
    ensures IsLive(h, b.start + HDR) && h.blocks[Find(h.blocks, b.start)] == b
  {
    var i :| 0 <= i < |h.blocks| && h.blocks[i] == b;
    Differ(h.blocks, h.end, h.Unit(), i, Find(h.blocks, b.start));
  }

  /** rt_memheap_free takes away exactly the block given back. */
  lemma FreeReturns(h: Pool, p: int)
    requires h.Good() && IsLive(h, p)
    ensures var b := h.blocks[Find(h.blocks, p - HDR)];
            b in Live(h.blocks) && Live(Free(h, p).blocks) == Live(h.blocks) - {b}
  {
    hide Live, Tiles, Coalesced, FreePayload, FreeStarts, Absorb, Joined, Find;
    var i := LivePlace(h, p);
    ReleaseLive(h.blocks, h.end, HDR, h.Unit(), i);
    AbsorbLive(SetUsed(h.blocks, i, false), i);
  }

  /** A live block survives an allocation. */
  lemma StillLive(h: Pool, n: nat, p: int)
    requires h.Good() && n < WORD && Alloc(h, n).1.Some? && IsLive(h, p)
    ensures var h1 := Alloc(h, n).0;
            h1.Good() && IsLive(h1, p) && h1.blocks[Find(h1.blocks, p - HDR)] == h.blocks[Find(h.blocks, p - HDR)]
  {
    hide Live, Tiles, Coalesced, FreePayload, FreeStarts, Alloc, Find;
    AllocGood(h, n);
    AllocGrants(h, n);
    var i := LivePlace(h, p);
    LiveFound(Alloc(h, n).0, h.blocks[i]);
  }

  // ---- Realloc ----

  /** The used block i and the free block after it: their border moves up to `at`. */
  function Grow(bs: seq<Block>, i: nat, at: nat): seq<Block>
    requires i + 1 < |bs|
  {
    bs[i := bs[i].(next := at)][i + 1 := bs[i + 1].(start := at)]
  }

  /** The test for growing in place, in 32-bit arithmetic. */
  predicate GrowTest(nextsize: int, oldsize: int, newsize: int) {
    (nextsize + oldsize) % WORD > (newsize + MIN) % WORD
  }

  /** Block i has a free block after it. */
  predicate FreeNext(bs: seq<Block>, i: nat)
    requires i < |bs|
  {
    i + 1 < |bs| && !bs[i + 1].used
  }

  /** A request so large that the sum in the growth test wraps around to a small number. */
  predicate Overruns(h: Pool, p: int, size: nat)
    requires IsLive(h, p)
  {
    FreeNext(h.blocks, Find(h.blocks, p - HDR)) && size + MIN >= WORD
  }

  /** Sums and differences of 32-bit numbers. */
  function Plus(a: int, b: int): int {
    if a + b >= WORD then a + b - WORD else a + b
  }

  function Less(a: int, b: int): int {
    if a < b then a - b + WORD else a - b
  }

  /** Some live block is given room for `size` bytes, where it is or elsewhere. */
  function Resize(h: Pool, p: int, size: nat): (Pool, Option<int>)
    requires IsLive(h, p)
  {
    var bs, i := h.blocks, Find(h.blocks, p - HDR);
    var has := Payload(bs[i]);
    if size > has then
      if FreeNext(bs, i) && GrowTest(Payload(bs[i + 1]), has, size)
      then (Extend(h, i, Plus(p, size), size - has), Some(p)) else Move(h, p, size)
    else if size + HDR + MIN >= has then (h, Some(p))
    else (Shrink(h, i, p + size), Some(p))
  }

  /** The block after block i is unlinked and a new one linked at `at`, first in the free ring. */
  function Extend(h: Pool, i: nat, at: nat, more: int): Pool
    requires i + 1 < |h.blocks|
  {
    Pool(h.end, Grow(h.blocks, i, at), [at] + Off(h.ring, h.blocks[i + 1].start), Less(h.available, more))
  }

  /** Block i ends at `at`; the rest joins a free block after it. */
  function Shrink(h: Pool, i: nat, at: nat): Pool
    requires i < |h.blocks|
  {
    var bs := Split(h.blocks, i, at);
    Pool(h.end, Absorb(bs, i + 1), Joined(h.ring, bs, i + 1),
         h.available + (h.blocks[i].next - at - HDR) + (if FreeNext(h.blocks, i) then HDR else 0))
  }

  function Move(h: Pool, p: int, size: nat): (Pool, Option<int>)
    requires IsLive(h, p)
  {
    var (h1, q) := Alloc(h, size);
    if q.None? || !IsLive(h1, p) then (h, None) else (Free(h1, p), q)
  }

  /** rt_memheap_realloc. */
  function Realloc(h: Pool, p: Option<int>, n: nat): (Pool, Option<int>)
    requires p.Some? ==> IsLive(h, p.value)
  {
    if n == 0 then (if p.None? then h else Free(h, p.value), None)
    else if p.None? then Alloc(h, Need(n))
    else Resize(h, p.value, Need(n))
  }

  /** Where the next block is free, the growth test lets through a request the two blocks cannot
      hold exactly when the sum in it wraps around. */
  lemma OverrunsExactly(h: Pool, p: int, n: nat)
    requires h.Good() && n < WORD && IsLive(h, p)
    requires var i := Find(h.blocks, p - HDR); FreeNext(h.blocks, i) && Need(n) > Payload(h.blocks[i])
    ensures var i := Find(h.blocks, p - HDR);
            var a, b := Payload(h.blocks[i + 1]), Payload(h.blocks[i]);
            (GrowTest(a, b, Need(n)) && Need(n) > a + b) <==> Overruns(h, p, Need(n))
  {
    hide Tiles, Coalesced, FreePayload, FreeStarts, Need, Find;
    var i := LivePlace(h, p);
    AtLeastMin(n);
    BlockFacts(h, i);
    BlockFacts(h, i + 1);
    Ordered(h.blocks, h.end, HDR, h.Unit(), i, i + 1);
    WrapFacts(Payload(h.blocks[i + 1]), Payload(h.blocks[i]), Need(n), h.end);
  }

  /** Such a request exists: 8 bytes less than 2^32, for the first of two blocks, the second free. */
  lemma OverrunHappens()
    ensures var h := Pool(96, [Block(0, 36, true), Block(36, 96, false)], [36], 36);
            h.Good() && IsLive(h, 24) && Overruns(h, 24, Need(0xFFFF_FFF8))
  {
    var bs := [Block(0, 36, true), Block(36, 96, false)];
    assert bs[1..] == [bs[1]] && bs[1..][1..] == [];
    assert FreePayload(bs[1..], HDR) == 36;
    assert bs[1].start in FreeStarts(bs);
    assert FreeStarts(bs) == {36};
    SmallHeap.AlignRounds(0xFFFF_FFF8);
    assert Find(bs, 0) == 0;
  }

  lemma WrapFacts(a: int, b: int, size: nat, end: nat)
    requires 0 <= a && 0 <= b && a + b + 2 * HDR <= end < WORD && a + b >= MIN
    requires MIN <= size <= WORD - 4 && size % 4 == 0
    ensures size + MIN < WORD ==> (GrowTest(a, b, size) <==> a + b > size + MIN)
    ensures size + MIN >= WORD ==> GrowTest(a, b, size) && size > a + b
  {
    assert (a + b) % WORD == a + b;
    if size + MIN < WORD { assert (size + MIN) % WORD == size + MIN; } else {
      assert (size + MIN) % WORD == size + MIN - WORD;
    }
  }

  lemma GrowTiles(bs: seq<Block>, end: nat, unit: nat, i: nat, at: nat)
    requires Tiles(bs, end, HDR, unit) && i + 1 < |bs| && at % 4 == 0
    requires bs[i].start + HDR + unit <= at && at + HDR + unit <= bs[i + 1].next
    ensures Tiles(Grow(bs, i, at), end, HDR, unit)
  {
    var r := Grow(bs, i, at);
    forall k | 0 <= k < |r| - 1 ensures r[k].next == r[k + 1].start {
      assert bs[k].next == bs[k + 1].start;
    }
  }

  lemma GrowCoalesced(bs: seq<Block>, i: nat, at: nat)
    requires Coalesced(bs) && i + 1 < |bs|
    ensures Coalesced(Grow(bs, i, at))
  {
    var r := Grow(bs, i, at);
    forall k | 0 <= k < |r| - 1 ensures r[k].used || r[k + 1].used {
      assert bs[k].used || bs[k + 1].used;
    }
  }

  lemma GrowStarts(bs: seq<Block>, end: nat, unit: nat, i: nat, at: nat)
    requires Tiles(bs, end, HDR, unit) && i + 1 < |bs| && bs[i].used && !bs[i + 1].used
    ensures FreeStarts(Grow(bs, i, at)) == FreeStarts(bs) - {bs[i + 1].start} + {at}
  {
    hide FreeStarts, Tiles;
    var r := Grow(bs, i, at);
    forall s ensures s in FreeStarts(r) <==> s in FreeStarts(bs) - {bs[i + 1].start} + {at} {
      if s in FreeStarts(r) {
        var k := FreeIndex(r, s);
        if k != i + 1 {
          FreeAt(bs, k);
          Differ(bs, end, unit, k, i + 1);
        }
      }
      if s in FreeStarts(bs) && s != bs[i + 1].start {
        var k := FreeIndex(bs, s);
        FreeAt(r, k);
      }
      if s == at { FreeAt(r, i + 1); }
    }
  }

  lemma OneSum(b: Block)
    ensures FreePayload([b], HDR) == if b.used then 0 else Payload(b)
  {
    assert [b][1..] == [];
  }

  lemma GrowSums(bs: seq<Block>, i: nat, at: nat)
    requires i + 1 < |bs| && bs[i].used && !bs[i + 1].used
    ensures FreePayload(Grow(bs, i, at), HDR) == FreePayload(bs, HDR) - (at - bs[i + 1].start)
  {
    hide FreePayload, UsedBytes;
    var mid := [bs[i].(next := at), bs[i + 1].(start := at)];
    OneSum(bs[i]);
    OneSum(bs[i + 1]);
    OneSum(mid[0]);
    OneSum(mid[1]);
    assert bs[i..i + 2] == [bs[i], bs[i + 1]] && Grow(bs, i, at) == bs[..i] + mid + bs[i + 2..];
    PairSums(bs[i], bs[i + 1], HDR);
    PairSums(mid[0], mid[1], HDR);
    SumsSplice(bs, i, i + 2, mid, HDR);
  }

  /** The border between a block and the free one after it may move to anywhere between them. */
  predicate Border(bs: seq<Block>, i: nat, at: int)
    requires i < |bs|
  {
    && FreeNext(bs, i) && bs[i].used && at % 4 == 0
    && bs[i + 1].start < at && at + HDR + MIN < bs[i + 1].next
  }

  /** The available size covers each free block. */
  lemma FreeHolds(h: Pool, i: nat)
    requires h.Good() && i < |h.blocks| && !h.blocks[i].used
    ensures h.available >= Payload(h.blocks[i])
  {
    hide Coalesced, RingExact;
    FreeSum(h.blocks, i);
  }

  lemma {:induction false} FreeSum(bs: seq<Block>, i: nat)
    requires i < |bs| && !bs[i].used && forall k :: 0 <= k < |bs| ==> bs[k].start + HDR <= bs[k].next
    ensures FreePayload(bs, HDR) >= Payload(bs[i])
  {
    FreeSumPositive(bs[1..]);
    if i == 0 {
    } else {
      FreeSum(bs[1..], i - 1);
    }
  }

  lemma {:induction false} FreeSumPositive(bs: seq<Block>)
    requires forall k :: 0 <= k < |bs| ==> bs[k].start + HDR <= bs[k].next
    ensures FreePayload(bs, HDR) >= 0
  {
    if bs == [] {
    } else {
      FreeSumPositive(bs[1..]);
    }
  }

  lemma ExtendGood(h: Pool, i: nat, at: nat)
    requires h.Good() && i < |h.blocks| && Border(h.blocks, i, at)
    ensures Extend(h, i, at, at - h.blocks[i + 1].start).Good()
  {
    hide Tiles, Coalesced, FreePayload, UsedBytes, FreeStarts, Grow, Off, Distinct;
    var bs := h.blocks;
    BlockFacts(h, i);
    BlockFacts(h, i + 1);
    Touching(bs, h.end, h.Unit(), i);
    GrowTiles(bs, h.end, h.Unit(), i, at);
    GrowCoalesced(bs, i, at);
    GrowStarts(bs, h.end, h.Unit(), i, at);
    GrowSums(bs, i, at);
    FreeHolds(h, i + 1);
    FreeAt(bs, i + 1);
    OffDistinct(h.ring, bs[i + 1].start);
    NotAStart(bs, h.end, h.Unit(), i + 1, at);
    PushDistinct(Off(h.ring, bs[i + 1].start), at);
  }

  lemma ShrinkGood(h: Pool, i: nat, at: nat)
    requires h.Good() && i < |h.blocks| && h.blocks[i].used && at % 4 == 0
    requires h.blocks[i].start + HDR + MIN <= at && at + HDR + MIN < h.blocks[i].next
    ensures Shrink(h, i, at).Good()
  {
    hide Tiles, Coalesced, CoalescedBut, FreePayload, UsedBytes, FreeStarts, Split, Absorb, Distinct, Joined, RingBut;
    var bs, r := h.blocks, Split(h.blocks, i, at);
    BlockFacts(h, i);
    SplitTiles(bs, h.end, HDR, h.Unit(), i, at);
    SplitStarts(bs, i, at);
    SplitSums(bs, i, at, HDR);
    SmallHeap.SplitCoalescedBut(bs, i, at);
    SplitAt(bs, i, at, i);
    SplitAt(bs, i, at, i + 1);
    if i + 1 < |bs| { SplitAt(bs, i, at, i + 2); }
    NotAStart(bs, h.end, h.Unit(), i, at);
    ButFrom(h.ring, r, at);
    JoinGood(h, r, i + 1, h.available + (bs[i].next - at - HDR));
  }

  lemma MoveGood(h: Pool, p: int, size: nat)
    requires h.Good() && size < WORD && IsLive(h, p)
    ensures Move(h, p, size).0.Good()
  {
    hide Tiles, Coalesced, FreePayload, FreeStarts, Alloc, Free, IsLive, Find;
    if Alloc(h, size).1.Some? {
      StillLive(h, size, p);
      FreeGood(Alloc(h, size).0, p);
    }
  }

  /** What the branches of a resize come down to. */
  lemma ResizeCases(h: Pool, p: int, size: nat)
    requires h.Good() && IsLive(h, p) && !Overruns(h, p, size) && MIN <= size <= WORD - 4 && size % 4 == 0
    ensures var i := Find(h.blocks, p - HDR);
            var has := Payload(h.blocks[i]);
            && p + size >= 0 && (p + size) % 4 == 0
            && (size > has && FreeNext(h.blocks, i) && GrowTest(Payload(h.blocks[i + 1]), has, size) ==>
                  && Border(h.blocks, i, p + size) && Plus(p, size) == p + size
                  && size - has == p + size - h.blocks[i + 1].start)
  {
    hide Tiles, Coalesced, FreePayload, FreeStarts, Find;
    var i := LivePlace(h, p);
    BlockFacts(h, i);
    if FreeNext(h.blocks, i) {
      BlockFacts(h, i + 1);
      Touching(h.blocks, h.end, h.Unit(), i);
      WrapFacts(Payload(h.blocks[i + 1]), Payload(h.blocks[i]), size, h.end);
    }
  }

  lemma ResizeGood(h: Pool, p: int, size: nat)
    requires h.Good() && IsLive(h, p) && !Overruns(h, p, size) && MIN <= size <= WORD - 4 && size % 4 == 0
    ensures Resize(h, p, size).0.Good()
  {
    hide Tiles, Coalesced, FreePayload, FreeStarts, Find, Extend, Shrink, Move, GrowTest, FreeNext, Border, IsLive;
    ResizeCases(h, p, size);
    var i := LivePlace(h, p);
    var has := Payload(h.blocks[i]);
    if size > has {
      MoveGood(h, p, size);
      if Border(h.blocks, i, p + size) {
        BorderNext(h.blocks, i, p + size);
        ExtendGood(h, i, p + size);
      }
    } else if size + HDR + MIN < has {
      ShrinkGood(h, i, p + size);
    }
  }

  lemma BorderNext(bs: seq<Block>, i: nat, at: int)
    requires i < |bs| && Border(bs, i, at)
    ensures i + 1 < |bs|
  {
  }

  /** An overrunning request is taken for a small one: the border lands inside the block's own header. */
  lemma OverrunBreaks(h: Pool, p: int, n: nat)
    requires h.Good() && 0 < n < WORD && IsLive(h, p) && Overruns(h, p, Need(n))
    ensures var i := Find(h.blocks, p - HDR);
            var (h', q) := Realloc(h, Some(p), n);
            && q == Some(p) && 0 <= p + Need(n) - WORD < p
            && h'.blocks == Grow(h.blocks, i, p + Need(n) - WORD)
  {
    hide Tiles, Coalesced, FreePayload, FreeStarts, Find, Need;
    AtLeastMin(n);
    var i := LivePlace(h, p);
    BlockFacts(h, i);
    BlockFacts(h, i + 1);
    Touching(h.blocks, h.end, h.Unit(), i);
    WrapFacts(Payload(h.blocks[i + 1]), Payload(h.blocks[i]), Need(n), h.end);
  }

  lemma OverrunBad(h: Pool, p: int, n: nat)
    requires h.Good() && 0 < n < WORD && IsLive(h, p) && Overruns(h, p, Need(n))
    ensures !Realloc(h, Some(p), n).0.Good()
  {
    OverrunBreaks(h, p, n);
    var i := LivePlace(h, p);
    var bs := Realloc(h, Some(p), n).0.blocks;
    hide Need, Realloc;
    assert bs[i].start == p - HDR && bs[i].next < p;
  }

  /** rt_memheap_realloc keeps the invariant exactly if the request does not overrun. */
  lemma ReallocGood(h: Pool, p: Option<int>, n: nat)
    requires h.Good() && n < WORD && (p.Some? ==> IsLive(h, p.value))
    ensures Realloc(h, p, n).0.Good() <==> !(p.Some? && n > 0 && Overruns(h, p.value, Need(n)))
  {
    hide Tiles, Coalesced, FreePayload, FreeStarts, Find, Resize, Alloc, Free, Need, IsLive, Overruns;
    AtLeastMin(n);
    if n == 0 {
      if p.Some? { FreeGood(h, p.value); }
    } else if p.None? {
      AllocGood(h, Need(n));
    } else if Overruns(h, p.value, Need(n)) {
      OverrunBad(h, p.value, n);
    } else {
      ResizeGood(h, p.value, Need(n));
    }
  }

  // ---- What a resize does to the live blocks ----

  lemma GrowLive(bs: seq<Block>, end: nat, unit: nat, i: nat, at: nat)
    requires Tiles(bs, end, HDR, unit) && i + 1 < |bs| && bs[i].used && !bs[i + 1].used
    ensures Live(Grow(bs, i, at)) == Live(bs) - {bs[i]} + {bs[i].(next := at)}
  {
    hide Tiles;
    var r := Grow(bs, i, at);
    forall b | b in Live(r) ensures b in Live(bs) - {bs[i]} + {bs[i].(next := at)} {
      var k :| 0 <= k < |r| && r[k] == b;
      Differ(bs, end, unit, k, i);
    }
    forall b | b in Live(bs) - {bs[i]} ensures b in Live(r) {
      var k :| 0 <= k < |bs| && bs[k] == b;
      assert r[k] == b;
    }
    assert r[i] in r;
  }

  lemma ShrinkLive(h: Pool, i: nat, at: nat)
    requires h.Good() && i < |h.blocks| && h.blocks[i].used
    ensures Live(Shrink(h, i, at).blocks) == Live(h.blocks) - {h.blocks[i]} + {h.blocks[i].(next := at)}
  {
    hide Tiles, Live, Coalesced, Split, Absorb, FreePayload, FreeStarts, Joined;
    SplitLive(h.blocks, h.end, HDR, h.Unit(), i, at);
    SplitAt(h.blocks, i, at, i + 1);
    AbsorbLive(Split(h.blocks, i, at), i + 1);
  }

  lemma MoveLive(h: Pool, p: int, size: nat)
    requires h.Good() && size <= WORD - 4 && IsLive(h, p)
    ensures var (h', q) := Move(h, p, size);
            var b := h.blocks[Find(h.blocks, p - HDR)];
            && (q.None? ==> h' == h)
            && (q.Some? ==> Alloc(h, size).1.Some? && Traded(h, h', b, Handed(h, size), q.value, size))
  {
    hide Tiles, Live, Coalesced, FreePayload, FreeStarts, Alloc, Free, IsLive, Find, Handed, Need;
    if Alloc(h, size).1.Some? {
      StillLive(h, size, p);
      AllocGrants(h, size);
      var i := LivePlace(h, p);
      FreeReturns(Alloc(h, size).0, p);
    }
  }

  /** Block b has been traded for block c at pointer q, which holds at least n bytes. */
  ghost predicate Traded(h: Pool, h': Pool, b: Block, c: Block, q: int, n: nat) {
    && c.start + HDR == q && Payload(c) >= n
    && (c.start == b.start || c !in Live(h.blocks))
    && Live(h'.blocks) == Live(h.blocks) - {b} + {c}
  }

  /** rt_memheap_realloc of a live block to n > 0 bytes: success means the block is traded for one
      with room for the rounded request and no other block changes, exactly if the request does not
      overrun; there is room for the n bytes asked for exactly if rounding does not wrap either; on
      failure nothing changes. */
  lemma ReallocTrades(h: Pool, p: int, n: nat)
    requires h.Good() && 0 < n < WORD && IsLive(h, p)
    ensures var (h', q) := Realloc(h, Some(p), n);
            var b := h.blocks[Find(h.blocks, p - HDR)];
            && (q.Some? ==> ((exists c :: Traded(h, h', b, c, q.value, Need(n))) <==> !Overruns(h, p, Need(n))))
            && (q.Some? ==> ((exists c :: Traded(h, h', b, c, q.value, n)) <==>
                             !Overruns(h, p, Need(n)) && n <= WORD - 4))
            && (q.Some? && !Overruns(h, p, Need(n)) ==>
                  exists c :: Traded(h, h', b, c, q.value, Need(n)) && Payload(c) <= Need(n) + HDR + MIN)
            && (q.None? ==> h' == h && !Overruns(h, p, Need(n)))
  {
    hide Tiles, Coalesced, Live, FreePayload, FreeStarts, Find, Realloc, IsLive, Need, Traded, Overruns;
    AtLeastMin(n);
    var (h', q) := Realloc(h, Some(p), n);
    var i := LivePlace(h, p);
    if Overruns(h, p, Need(n)) {
      OverrunTrades(h, p, n, Need(n));
      OverrunTrades(h, p, n, n);
    } else {
      ResizeTrades(h, p, n);
      if q.Some? {
        var c :| Traded(h, h', h.blocks[i], c, q.value, Need(n));
        if n <= WORD - 4 { TradedLess(h, h', h.blocks[i], c, q.value, Need(n), n); }
        ReallocGood(h, Some(p), n);
        if n > WORD - 4 { TooMuch(h, h', h.blocks[i], q.value, n); }
      }
    }
  }

  lemma TradedLess(h: Pool, h': Pool, b: Block, c: Block, q: int, more: nat, n: nat)
    requires Traded(h, h', b, c, q, more) && n <= more
    ensures Traded(h, h', b, c, q, n)
  {
  }

  /** No block of a good pool holds the last sizes of a word. */
  lemma TooMuch(h: Pool, h': Pool, b: Block, q: int, n: nat)
    requires h'.Good() && n > WORD - 4
    ensures !exists c :: Traded(h, h', b, c, q, n)
  {
    hide Tiles, Coalesced, FreePayload, RingExact;
    forall c ensures !Traded(h, h', b, c, q, n) {
      if Traded(h, h', b, c, q, n) {
        assert c in Live(h'.blocks);
        var j :| 0 <= j < |h'.blocks| && h'.blocks[j] == c;
        BlockFacts(h', j);
        assert false;
      }
    }
  }

  lemma OverrunTrades(h: Pool, p: int, n: nat, size: nat)
    requires h.Good() && 0 < n < WORD && IsLive(h, p) && Overruns(h, p, Need(n))
    ensures var (h', q) := Realloc(h, Some(p), n);
            var b := h.blocks[Find(h.blocks, p - HDR)];
            q == Some(p) && !exists c :: Traded(h, h', b, c, p, size)
  {
    hide Tiles, Coalesced, FreePayload, FreeStarts, Find, Realloc, IsLive, Need, Live;
    OverrunBreaks(h, p, n);
    var i := LivePlace(h, p);
    var b, h', at := h.blocks[i], Realloc(h, Some(p), n).0, p + Need(n) - WORD;
    GrowLive(h.blocks, h.end, h.Unit(), i, at);
    forall c ensures !Traded(h, h', b, c, p, size) {
      if Traded(h, h', b, c, p, size) {
        assert c in Live(h'.blocks);
        if c in Live(h.blocks) { SameStart(h, b, c); }
        assert false;
      }
    }
  }

  lemma SameStart(h: Pool, a: Block, b: Block)
    requires h.Good() && a in Live(h.blocks) && b in Live(h.blocks) && a.start == b.start
    ensures a == b
  {
    LiveFound(h, a);
    LiveFound(h, b);
  }

  lemma ResizeTrades(h: Pool, p: int, n: nat)
    requires h.Good() && 0 < n < WORD && IsLive(h, p) && !Overruns(h, p, Need(n))
    ensures var (h', q) := Realloc(h, Some(p), n);
            var b := h.blocks[Find(h.blocks, p - HDR)];
            && (q.Some? ==> exists c :: Traded(h, h', b, c, q.value, Need(n)) && Payload(c) <= Need(n) + HDR + MIN)
            && (q.None? ==> h' == h)
  {
    hide Tiles, Coalesced, Live, FreePayload, FreeStarts, Find, Extend, Shrink, Move, GrowTest, FreeNext, Border,
      IsLive, Need, Traded, Overruns;
    AtLeastMin(n);
    var size := Need(n);
    ResizeCases(h, p, size);
    var i := LivePlace(h, p);
    var b := h.blocks[i];
    if size > Payload(b) {
      MoveLive(h, p, size);
      NeedTwice(n);
      if Alloc(h, size).1.Some? { AllocGrants(h, size); }
      if Border(h.blocks, i, p + size) { ExtendTrades(h, p, i, size); }
    } else if size + HDR + MIN < Payload(b) {
      ShrinkTrades(h, p, i, size);
    } else {
      StayTrades(h, p, b, size);
    }
  }

  /** rt_memheap_realloc leaves the block where it is exactly if it is large enough, or together with
      a free block after it more than large enough, or the request overruns. */
  lemma ReallocStays(h: Pool, p: int, n: nat)
    requires h.Good() && 0 < n < WORD && IsLive(h, p)
    ensures var i := Find(h.blocks, p - HDR);
            Realloc(h, Some(p), n).1 == Some(p) <==>
              || Overruns(h, p, Need(n))
              || Need(n) <= Payload(h.blocks[i])
              || (FreeNext(h.blocks, i) && Payload(h.blocks[i]) + Payload(h.blocks[i + 1]) > Need(n) + MIN)
  {
    hide Tiles, Coalesced, Live, FreePayload, FreeStarts, Find, Extend, Shrink, Move, GrowTest, IsLive, Need;
    AtLeastMin(n);
    var size := Need(n);
    var i := LivePlace(h, p);
    BlockFacts(h, i);
    if FreeNext(h.blocks, i) {
      BlockFacts(h, i + 1);
      Touching(h.blocks, h.end, h.Unit(), i);
      WrapFacts(Payload(h.blocks[i + 1]), Payload(h.blocks[i]), size, h.end);
    }
    MoveElsewhere(h, p, size);
  }

  lemma MoveElsewhere(h: Pool, p: int, size: nat)
    requires h.Good() && size <= WORD - 4 && IsLive(h, p)
    ensures Move(h, p, size).1 != Some(p)
  {
    hide Tiles, Coalesced, Live, FreePayload, FreeStarts, Alloc, Free, Find, Handed, Need;
    if Alloc(h, size).1.Some? {
      AllocGrants(h, size);
      AllocGood(h, size);
      var i := LivePlace(h, p);
      var h1 := Alloc(h, size).0;
      LiveFound(h1, h.blocks[i]);
      LiveFound(h1, Handed(h, size));
    }
  }

  lemma ExtendTrades(h: Pool, p: int, i: nat, size: nat)
    requires h.Good() && i < |h.blocks| && h.blocks[i].start == p - HDR
    requires Border(h.blocks, i, p + size) && p + size >= 0
    ensures i + 1 < |h.blocks|
    ensures Traded(h, Extend(h, i, p + size, size - Payload(h.blocks[i])), h.blocks[i],
                   h.blocks[i].(next := p + size), p, size)
  {
    hide Tiles, Coalesced, Live, FreePayload, FreeStarts, Grow;
    GrowLive(h.blocks, h.end, h.Unit(), i, p + size);
  }

  lemma ShrinkTrades(h: Pool, p: int, i: nat, size: nat)
    requires h.Good() && i < |h.blocks| && h.blocks[i].start == p - HDR && h.blocks[i].used
    ensures Traded(h, Shrink(h, i, p + size), h.blocks[i], h.blocks[i].(next := p + size), p, size)
  {
    hide Tiles, Coalesced, Live, FreePayload, FreeStarts, Shrink;
    ShrinkLive(h, i, p + size);
  }

  lemma StayTrades(h: Pool, p: int, b: Block, size: nat)
    requires b in Live(h.blocks) && b.start == p - HDR && Payload(b) >= size
    ensures Traded(h, h, b, b, p, size)
  {
  }

  /** Without a block, rt_memheap_realloc is rt_memheap_alloc; to size 0 it is rt_memheap_free. */
  lemma ReallocOther(h: Pool, p: Option<int>, n: nat)
    requires h.Good() && n < WORD && (p.Some? ==> IsLive(h, p.value))
    ensures p.None? && n > 0 ==> Realloc(h, p, n) == Alloc(h, n)
    ensures n == 0 ==> Realloc(h, p, n) == (if p.None? then h else Free(h, p.value), None)
  {
    hide Alloc, Free, IsLive, Resize;
    NeedTwice(n);
    AllocNeeds(h, n, Need(n));
  }

  lemma NeedTwice(n: nat)
    requires n < WORD
    ensures Need(Need(n)) == Need(n)
  {
    AtLeastMin(n);
    SmallHeap.AlignRounds(Need(n));
  }

  lemma AllocNeeds(h: Pool, a: nat, b: nat)
    requires Need(a) == Need(b)
    ensures Alloc(h, a) == Alloc(h, b)
  {
  }

  /** The first block of the free ring serves every request it can hold. */
  lemma FrontServes(h: Pool, s: nat, n: nat)
    requires h.Good() && n < WORD && h.ring != [] && h.ring[0] == s
    requires SizeAt(h.blocks, s) >= Need(n) && Need(n) < h.available
    ensures Alloc(h, n).1 == Some(s + HDR)
  {
    hide Tiles, Coalesced, FreePayload, Find, Carve, Need, SizeAt;
    AtLeastMin(n);
    SearchFinds(h, Need(n));
    assert Search(h.ring, 0, h.blocks, Need(n)) == 0;
  }

  /** The free ring is last in, first out: a freed block that joins no block before it is handed out
      again by the next request it can hold. */
  lemma FreeThenAlloc(h: Pool, p: int, n: nat)
    requires h.Good() && n < WORD && IsLive(h, p) && Need(n) < Free(h, p).available
    requires var i := Find(h.blocks, p - HDR);
             (i == 0 || h.blocks[i - 1].used) && Need(n) <= Payload(h.blocks[i])
    ensures Alloc(Free(h, p), n).1 == Some(p)
  {
    hide Tiles, Coalesced, FreePayload, FreeStarts, Need, Off, Absorb, SizeAt, Alloc, Find;
    var i := LivePlace(h, p);
    FreeGood(h, p);
    var r, bs := Free(h, p), SetUsed(h.blocks, i, false);
    AbsorbedAt(bs, i);
    FoundAt(r, i);
    if i + 1 < |h.blocks| {
      BlockFacts(h, i + 1);
      Touching(h.blocks, h.end, h.Unit(), i);
    }
    FrontServes(r, p - HDR, n);
  }

  lemma AbsorbedAt(bs: seq<Block>, i: nat)
    requires i < |bs| && (i == 0 || bs[i - 1].used)
    ensures var r := Absorb(bs, i);
            && i < |r| && r[i].start == bs[i].start
            && r[i].next == if FreeNext(bs, i) then bs[i + 1].next else bs[i].next
  {
  }

  lemma FoundAt(h: Pool, i: nat)
    requires h.Good() && i < |h.blocks|
    ensures SizeAt(h.blocks, h.blocks[i].start) == Payload(h.blocks[i])
  {
    Differ(h.blocks, h.end, h.Unit(), i, Find(h.blocks, h.blocks[i].start));
  }

  /** So is the free block that growing or shrinking in place leaves behind the block. */
  lemma ResizeThenAlloc(h: Pool, p: int, n: nat, m: nat)
    requires h.Good() && 0 < n < WORD && m < WORD && IsLive(h, p) && !Overruns(h, p, Need(n))
    requires var r := Realloc(h, Some(p), n);
             && r.1 == Some(p) && r.0 != h && p + Need(n) >= 0
             && Need(m) <= SizeAt(r.0.blocks, p + Need(n)) && Need(m) < r.0.available
    ensures Alloc(Realloc(h, Some(p), n).0, m).1 == Some(p + Need(n) + HDR)
  {
    hide Tiles, Coalesced, FreePayload, FreeStarts, Need, Off, SizeAt, Find, Shrink, Grow, GrowTest, RingExact, Alloc,
      Move, IsLive, Live, Overruns;
    AtLeastMin(n);
    var size := Need(n);
    var r := Realloc(h, Some(p), n).0;
    ReallocGood(h, Some(p), n);
    ResizeCases(h, p, size);
    MoveElsewhere(h, p, size);
    var i := LivePlace(h, p);
    BlockFacts(h, i);
    if size > Payload(h.blocks[i]) {
      BlockFacts(h, i + 1);
    } else {
      ShrinkFirst(h, i, p + size);
    }
    FrontServes(r, p + size, m);
  }

  lemma ShrinkFirst(h: Pool, i: nat, at: nat)
    requires i < |h.blocks| && h.blocks[i].used
    ensures Shrink(h, i, at).ring != [] && Shrink(h, i, at).ring[0] == at
  {
    hide Split, Absorb, Off;
    SplitAt(h.blocks, i, at, i);
    SplitAt(h.blocks, i, at, i + 1);
  }

  /** So is the rest cut off by an allocation. */
  lemma AllocThenAlloc(h: Pool, n: nat, m: nat)
    requires h.Good() && n < WORD && m < WORD && Alloc(h, n).1.Some?
    requires var i := Find(h.blocks, Alloc(h, n).1.value - HDR);
             && i < |h.blocks| && Need(n) + HDR + MIN <= Payload(h.blocks[i])
             && Need(m) <= Payload(h.blocks[i]) - Need(n) - HDR
    requires Need(m) < Alloc(h, n).0.available
    ensures Alloc(Alloc(h, n).0, m).1 == Some(Alloc(h, n).1.value + Need(n) + HDR)
  {
    hide Tiles, Coalesced, FreePayload, FreeStarts, Need, Off, Split, SizeAt, Find, Search, RingExact;
    AllocGood(h, n);
    SearchFinds(h, Need(n));
    var r, i := Alloc(h, n).0, Find(h.blocks, Alloc(h, n).1.value - HDR);
    assert r == Carve(h, i, Need(n));
    SplitAt(h.blocks, i, h.blocks[i].start + HDR + Need(n), i + 1);
    FoundAt(r, i + 1);
    FrontServes(r, r.blocks[i + 1].start, m);
  }

  // ---- Every run ----

  datatype Op = DoAlloc(n: nat) | DoFree(p: int) | DoRealloc(block: Option<int>, n: nat)

  /** One call; a call the allocator's contract forbids is left out. */
  function Apply(h: Pool, op: Op): Pool {
    match op
    case DoAlloc(n) => if n < WORD then Alloc(h, n).0 else h
    case DoFree(p) => if IsLive(h, p) then Free(h, p) else h
    case DoRealloc(p, n) =>
      if n < WORD && (p.Some? ==> IsLive(h, p.value) && !Overruns(h, p.value, Need(n))) then Realloc(h, p, n).0 else h
  }

  function Exec(h: Pool, run: seq<Op>): Pool
    decreases |run|
  {
    if run == [] then h else Apply(Exec(h, run[..|run| - 1]), run[|run| - 1])
  }

  /** rt_memheap_init: one free block and a tailer. */
  function Initial(end: nat): Pool {
    Pool(end, [Block(0, end, false)], [0], end - HDR)
  }

  lemma InitialGood(end: nat)
    requires HDR <= end && end + HDR < WORD && end % 4 == 0
    ensures Initial(end).Good()
  {
    var bs := [Block(0, end, false)];
    assert FreePayload(bs[1..], HDR) == 0;
    assert FreeStarts(bs) == {0} by { assert bs[0].start in FreeStarts(bs); }
  }

  /** rt_memheap_init of a pool of any size, in 32-bit arithmetic. */
  function Init(size: nat): Pool {
    var aligned := size / 4 * 4;
    var end := Less(aligned, HDR);
    Pool(end, [Block(0, end, false)], [0], Less(aligned, 2 * HDR))
  }

  /** A pool is in order at the start exactly if there is room for two headers; nobody checks. */
  lemma InitExact(size: nat)
    requires size < WORD
    ensures Init(size).Good() <==> size >= 2 * HDR
    ensures size >= 2 * HDR ==> Init(size) == Initial(size / 4 * 4 - HDR)
  {
    hide FreePayload, RingExact, Coalesced;
    var aligned := size / 4 * 4;
    if size >= 2 * HDR {
      InitialGood(aligned - HDR);
    } else if aligned >= HDR {
      assert Init(size).blocks[0].next < HDR;
    }
  }

  /** In every run the free ring holds exactly the free blocks, no two neighbours are free, and
      the available size is the sum of the free payloads. */
  lemma {:induction false} AlwaysGood(end: nat, run: seq<Op>)
    requires HDR <= end && end + HDR < WORD && end % 4 == 0
    ensures Exec(Initial(end), run).Good()
    decreases |run|
  {
    hide Tiles, Coalesced, FreePayload, RingExact, Alloc, Free, Realloc, IsLive, Overruns, Need, Initial;
    if run == [] {
      InitialGood(end);
    } else {
      var before := Exec(Initial(end), run[..|run| - 1]);
      AlwaysGood(end, run[..|run| - 1]);
      match run[|run| - 1]
      case DoAlloc(n) => if n < WORD { AllocGood(before, n); }
      case DoFree(p) => if IsLive(before, p) { FreeGood(before, p); }
      case DoRealloc(p, n) =>
        if n < WORD && (p.Some? ==> IsLive(before, p.value) && !Overruns(before, p.value, Need(n))) {
          ReallocGood(before, p, n);
        }
    }
  }

  function FreeAll(h: Pool, order: seq<Block>): Pool
    decreases |order|
  {
    if order == [] then h
    else
      var p := order[0].start + HDR;
      FreeAll(if IsLive(h, p) then Free(h, p) else h, order[1..])
  }

  lemma OnlyZero(ring: seq<nat>)
    requires Distinct(ring) && 0 in ring && forall s :: s in ring ==> s == 0
    ensures ring == [0]
  {
    Pigeonhole(ring, 1);
  }

  lemma NothingLive(h: Pool)
    requires h.Good() && Live(h.blocks) == {}
    ensures h == Initial(h.end)
  {
    var bs := h.blocks;
    assert |bs| > 1 ==> bs[0].used || bs[1].used;
    forall i | 0 <= i < |bs| ensures !bs[i].used { assert bs[i] in bs && bs[i] !in Live(bs); }
    assert bs == [Block(0, h.end, false)];
    assert FreePayload(bs[1..], HDR) == 0;
    assert bs[0].start in FreeStarts(bs);
    assert 0 in h.ring && forall s :: s in h.ring ==> s == 0;
    OnlyZero(h.ring);
  }

  /** Freeing every live block, in any order, leaves the pool as it was initialised. */
  lemma {:induction false} FreeAllRestores(h: Pool, order: seq<Block>)
    requires h.Good() && Distinct(order) && (forall b :: b in order <==> b in Live(h.blocks))
    ensures FreeAll(h, order) == Initial(h.end)
    decreases |order|
  {
    hide Tiles, Coalesced, FreePayload, RingExact, Free, IsLive, Live, Initial, Find;
    if order == [] {
      assert Live(h.blocks) == {};
      NothingLive(h);
    } else {
      var b := order[0];
      LiveFound(h, b);
      FreeGood(h, b.start + HDR);
      FreeReturns(h, b.start + HDR);
      SameEnd(h, b.start + HDR);
      assert order == [b] + order[1..];
      assert b !in order[1..];
      FreeAllRestores(Free(h, b.start + HDR), order[1..]);
    }
  }

  lemma SameEnd(h: Pool, p: int)
    requires IsLive(h, p)
    ensures Free(h, p).end == h.end
  {
  }
}
