/**
 The small-memory heap: first fit over one list of blocks, splitting on allocation
 and joining free neighbours on release. `Heap` is its value; pointers are byte
 offsets from the start of the pool.
 */
module SmallHeap {
  import opened Ipc
  import opened Tiling
  import HeapLinks

  /** SIZEOF_STRUCT_MEM and MIN_SIZE_ALIGNED on a 32-bit machine. */
  const HDR: nat := 12
  const MIN: nat := 12

  /** RT_ALIGN to 4 in 32-bit arithmetic. */
  function Align(n: nat): nat {
    (n + 3) % WORD / 4 * 4
  }

  lemma AlignRounds(n: nat)
    requires n < WORD
    ensures Align(n) % 4 == 0
    ensures n <= WORD - 4 ==> n <= Align(n) < n + 4 && Align(n) < WORD
    ensures n > WORD - 4 ==> Align(n) == 0
  {
  }

  /** The payload rt_malloc looks for. */
  function Need(n: nat): nat {
    if Align(n) < MIN then MIN else Align(n)
  }

  /** size is mem_size_aligned: the payload of the heap when it is a single block. */
  datatype Heap = Heap(size: nat, blocks: seq<Block>) {
    function End(): nat { size + HDR }

    function Unit(): nat { if size == 0 then 0 else 4 }

    ghost predicate Good() {
      && size % 4 == 0 && End() + HDR < WORD
      && Tiles(blocks, End(), HDR, Unit()) && Coalesced(blocks)
      && (size == 0 ==> Live(blocks) == {})
    }
  }

  function Payload(b: Block): int {
    b.next - b.start - HDR
  }

  /** A free block large enough that the search loop visits. */
  predicate Fits(b: Block, need: nat, limit: int) {
    !b.used && Payload(b) >= need && b.start < limit
  }

  /** The first fitting block from index k on, or |bs|. */
  function FirstFit(bs: seq<Block>, k: nat, need: nat, limit: int): (r: nat)
    requires k <= |bs|
    ensures k <= r <= |bs|
    ensures r < |bs| ==> Fits(bs[r], need, limit)
    ensures forall j :: k <= j < r ==> !Fits(bs[j], need, limit)
    decreases |bs| - k
  {
    if k == |bs| || Fits(bs[k], need, limit) then k else FirstFit(bs, k + 1, need, limit)
  }

  /** Block i becomes used; what it can spare becomes a free block. */
  function Carve(bs: seq<Block>, i: nat, need: nat): seq<Block>
    requires i < |bs|
  {
    if Payload(bs[i]) >= need + HDR + MIN
    then SetUsed(Split(bs, i, bs[i].start + HDR + need), i, true)
    else SetUsed(bs, i, true)
  }

  /** The search loop compares unsigned numbers, so a heap smaller than the least block makes
      it run past the end of the heap. */
  predicate Hangs(h: Heap, n: nat) {
    n > 0 && Align(n) <= h.size < MIN
  }

  /** rt_malloc. */
  function Malloc(h: Heap, n: nat): (Heap, Option<nat>)
    requires !Hangs(h, n)
  {
    if n == 0 || Align(n) > h.size then (h, None)
    else
      var i := FirstFit(h.blocks, 0, Need(n), h.size - Need(n));
      if i == |h.blocks| then (h, None)
      else (h.(blocks := Carve(h.blocks, i, Need(n))), Some(h.blocks[i].start + HDR))
  }

  /** The index of the block that starts at `start`, or |bs|. */
  function Find(bs: seq<Block>, start: int, k: nat): (r: nat)
    requires k <= |bs|
    ensures k <= r <= |bs| && (r < |bs| ==> bs[r].start == start)
    ensures forall j :: k <= j < r ==> bs[j].start != start
    decreases |bs| - k
  {
    if k == |bs| || bs[k].start == start then k else Find(bs, start, k + 1)
  }

  predicate InRange(h: Heap, p: int) { 0 <= p < h.End() }

  /** p was returned by the heap and not given back; RT_ASSERT in rt_free. */
  predicate IsLive(h: Heap, p: int) {
    var i := Find(h.blocks, p - HDR, 0);
    i < |h.blocks| && h.blocks[i].used
  }

  /** rt_free of a pointer that is live or outside the heap. */
  function Free(h: Heap, p: int): Heap
    requires InRange(h, p) ==> IsLive(h, p)
  {
    if !InRange(h, p) then h
    else
      var i := Find(h.blocks, p - HDR, 0);
      h.(blocks := Absorb(SetUsed(h.blocks, i, false), i))
  }

  // ---- The invariant ----

  lemma AbsorbGood(h: Heap, bs: seq<Block>, i: nat)
    requires h.Good() && Tiles(bs, h.End(), HDR, h.Unit()) && i < |bs| && !bs[i].used && CoalescedBut(bs, i, true)
    requires h.size == 0 ==> Live(bs) == {}
    ensures h.(blocks := Absorb(bs, i)).Good()
  {
    hide Tiles, Coalesced, CoalescedBut, Absorb, Live;
    AbsorbLive(bs, i);
    AbsorbTiles(bs, h.End(), HDR, h.Unit(), i);
    AbsorbCoalesces(bs, i);
  }

  lemma FreeGood(h: Heap, p: int)
    requires h.Good() && (InRange(h, p) ==> IsLive(h, p))
    ensures Free(h, p).Good()
  {
    if InRange(h, p) {
      var i := Find(h.blocks, p - HDR, 0);
      SetUsedTiles(h.blocks, h.End(), HDR, h.Unit(), i, false);
      ReleaseLive(h.blocks, h.End(), HDR, h.Unit(), i);
      AbsorbGood(h, SetUsed(h.blocks, i, false), i);
    }
  }

  /** The remainder of a split block lies between used neighbours. */
  lemma SplitUseCoalesced(bs: seq<Block>, i: nat, at: nat)
    requires i < |bs| && !bs[i].used && Coalesced(bs)
    ensures Coalesced(SetUsed(Split(bs, i, at), i, true))
  {
    hide Split;
    SplitAt(bs, i, at, 0);
    var r := SetUsed(Split(bs, i, at), i, true);
    forall k | 0 <= k < |r| - 1 ensures r[k].used || r[k + 1].used {
      SplitAt(bs, i, at, k);
      SplitAt(bs, i, at, k + 1);
      if k < i - 1 { assert bs[k].used || bs[k + 1].used; }
      if k == i + 1 { assert bs[i].used || bs[i + 1].used; }
      if k > i + 1 { assert bs[k - 1].used || bs[k].used; }
    }
  }

  lemma UseCoalesced(bs: seq<Block>, i: nat)
    requires i < |bs| && Coalesced(bs)
    ensures Coalesced(SetUsed(bs, i, true))
  {
  }

  lemma BlockFacts(h: Heap, i: nat)
    requires h.Good() && i < |h.blocks|
    ensures var b := h.blocks[i];
            && b.start % 4 == 0 && b.start + HDR + h.Unit() <= b.next <= h.End()
            && (Payload(b) >= 4 ==> h.size > 0)
  {
    Inside(h.blocks, h.End(), HDR, h.Unit(), i);
  }

  lemma AlignedEnd(start: nat, need: nat)
    requires start % 4 == 0 && need % 4 == 0
    ensures (start + HDR + need) % 4 == 0
  {
  }

  lemma CarveGood(h: Heap, i: nat, need: nat)
    requires h.Good() && i < |h.blocks| && !h.blocks[i].used && need % 4 == 0
    requires 4 <= need <= Payload(h.blocks[i])
    ensures h.(blocks := Carve(h.blocks, i, need)).Good()
  {
    hide Live, Tiles, Coalesced, Split, SetUsed;
    var bs := h.blocks;
    var at := bs[i].start + HDR + need;
    BlockFacts(h, i);
    AlignedEnd(bs[i].start, need);
    if Payload(bs[i]) >= need + HDR + MIN {
      SplitTiles(bs, h.End(), HDR, h.Unit(), i, at);
      SplitUseCoalesced(bs, i, at);
      SplitAt(bs, i, at, i);
      SetUsedTiles(Split(bs, i, at), h.End(), HDR, h.Unit(), i, true);
    } else {
      SetUsedTiles(bs, h.End(), HDR, h.Unit(), i, true);
      UseCoalesced(bs, i);
    }
  }

  lemma MallocGood(h: Heap, n: nat)
    requires h.Good() && n < WORD && !Hangs(h, n)
    ensures Malloc(h, n).0.Good()
  {
    AlignRounds(n);
    if Malloc(h, n).1.Some? {
      CarveGood(h, FirstFit(h.blocks, 0, Need(n), h.size - Need(n)), Need(n));
    }
  }

  // ---- What an allocation promises ----

  /** The block handed out by a successful rt_malloc. */
  function Handed(h: Heap, n: nat): Block
    requires !Hangs(h, n) && Malloc(h, n).1.Some?
  {
    Carve(h.blocks, FirstFit(h.blocks, 0, Need(n), h.size - Need(n)), Need(n))
      [FirstFit(h.blocks, 0, Need(n), h.size - Need(n))]
  }

  lemma CarveLive(h: Heap, i: nat, need: nat)
    requires h.Good() && i < |h.blocks| && !h.blocks[i].used && need <= Payload(h.blocks[i])
    ensures |Carve(h.blocks, i, need)| > i
    ensures var b := Carve(h.blocks, i, need)[i];
            && b.used && b.start == h.blocks[i].start && need <= Payload(b) < need + HDR + MIN
            && Live(Carve(h.blocks, i, need)) == Live(h.blocks) + {b} && b !in Live(h.blocks)
  {
    var bs := h.blocks;
    if Payload(bs[i]) >= need + HDR + MIN {
      hide Live, Split;
      var at := bs[i].start + HDR + need;
      SplitLive(bs, h.End(), HDR, h.Unit(), i, at);
      SplitAt(bs, i, at, i);
      TakeLive(Split(bs, i, at), i);
      NotLive(bs, h.End(), HDR, h.Unit(), i, bs[i]);
      NotLive(bs, h.End(), HDR, h.Unit(), i, Block(bs[i].start, at, true));
    } else {
      hide Live;
      TakeLive(bs, i);
      NotLive(bs, h.End(), HDR, h.Unit(), i, bs[i].(used := true));
    }
  }

  /** Nothing live starts where a free block starts. */
  lemma NotLive(bs: seq<Block>, end: nat, hdr: nat, unit: nat, i: nat, b: Block)
    requires Tiles(bs, end, hdr, unit) && hdr > 0 && i < |bs| && !bs[i].used && b.start == bs[i].start
    ensures b !in Live(bs)
  {
    if b in Live(bs) {
      var k :| 0 <= k < |bs| && bs[k] == b;
      if k < i { Ordered(bs, end, hdr, unit, k, i); } else if i < k { Ordered(bs, end, hdr, unit, i, k); }
    }
  }

  /** The block handed out is new, at least as large as looked for, and inside the heap. */
  lemma HandedBlock(h: Heap, n: nat)
    requires h.Good() && n < WORD && !Hangs(h, n) && Malloc(h, n).1.Some?
    ensures var b := Handed(h, n);
            && Malloc(h, n).1 == Some(b.start + HDR) && b.used
            && Need(n) <= Payload(b) < Need(n) + HDR + MIN
            && Live(Malloc(h, n).0.blocks) == Live(h.blocks) + {b} && b !in Live(h.blocks)
            && b.start % 4 == 0 && b.next <= h.End()
  {
    hide Live, Coalesced, Tiles, Need;
    var i := FirstFit(h.blocks, 0, Need(n), h.size - Need(n));
    CarveLive(h, i, Need(n));
    MallocGood(h, n);
    hide Carve;
    BlockFacts(h, i);
    BlockFacts(Malloc(h, n).0, i);
  }

  /** A successful rt_malloc adds one live block and changes no other; the block is aligned, and
      holds the bytes asked for exactly when rounding the request up does not wrap around. */
  lemma MallocGrants(h: Heap, n: nat)
    requires h.Good() && n < WORD && !Hangs(h, n) && Malloc(h, n).1.Some?
    ensures var (h', p) := Malloc(h, n);
            var b := Handed(h, n);
            && p.value == b.start + HDR && p.value % 4 == 0 && b.used && b.next <= h.End()
            && Live(h'.blocks) == Live(h.blocks) + {b} && b !in Live(h.blocks)
            && (Payload(b) >= n <==> n <= WORD - 4)
  {
    HandedBlock(h, n);
    AlignRounds(n);
    hide Live, Malloc, Handed, Tiles, Coalesced, Align;
  }

  /** Exact first fit: rt_malloc takes the lowest block that is large enough, and refuses a
      request the heap could hold only if no block is large enough other than a last one that
      would be filled to the very end of the heap. */
  lemma MallocFirstFit(h: Heap, n: nat)
    requires h.Good() && 0 < n < WORD && Align(n) <= h.size && h.size >= MIN
    ensures Malloc(h, n).1.Some? ==>
              exists i :: 0 <= i < |h.blocks| && Malloc(h, n).1 == Some(h.blocks[i].start + HDR) &&
                          Enough(h.blocks[i], n) && forall j :: 0 <= j < i ==> !Enough(h.blocks[j], n)
    ensures Malloc(h, n).1.None? <==>
              forall i :: 0 <= i < |h.blocks| && Enough(h.blocks[i], n) ==>
                i == |h.blocks| - 1 && Payload(h.blocks[i]) == Need(n)
  {
    AlignRounds(n);
    var bs, need := h.blocks, Need(n);
    var i := FirstFit(bs, 0, need, h.size - need);
    forall j | 0 <= j < |bs|
      ensures Enough(bs[j], n) ==> (Fits(bs[j], need, h.size - need) <==> !(j == |bs| - 1 && Payload(bs[j]) == need))
    {
      Inside(bs, h.End(), HDR, h.Unit(), j);
      if j < |bs| - 1 { Ordered(bs, h.End(), HDR, h.Unit(), j, j + 1); }
    }
    if i < |bs| {
      forall j | 0 <= j < i ensures !Enough(bs[j], n) {
        assert !Fits(bs[j], need, h.size - need);
        assert j < |bs| - 1;
      }
    }
  }

  predicate Enough(b: Block, n: nat) {
    !b.used && Payload(b) >= Need(n)
  }

  /** rt_free takes away exactly the block given back. */
  lemma FreeReturns(h: Heap, p: int)
    requires h.Good() && InRange(h, p) && IsLive(h, p)
    ensures var b := h.blocks[Find(h.blocks, p - HDR, 0)];
            b in Live(h.blocks) && Live(Free(h, p).blocks) == Live(h.blocks) - {b}
  {
    var i := Find(h.blocks, p - HDR, 0);
    ReleaseLive(h.blocks, h.End(), HDR, h.Unit(), i);
    AbsorbLive(SetUsed(h.blocks, i, false), i);
  }

  /** A block that is live is found by its pointer. */
  lemma LiveFound(h: Heap, b: Block)
    requires h.Good() && b in Live(h.blocks)
    ensures InRange(h, b.start + HDR) && IsLive(h, b.start + HDR)
    ensures h.blocks[Find(h.blocks, b.start, 0)] == b
  {
    var i :| 0 <= i < |h.blocks| && h.blocks[i] == b;
    Inside(h.blocks, h.End(), HDR, h.Unit(), i);
    assert h.size > 0;
    var j := Find(h.blocks, b.start, 0);
    if j < i { Ordered(h.blocks, h.End(), HDR, h.Unit(), j, i); }
  }

  // ---- Realloc ----

  /** A used block keeps its first `size` payload bytes and the rest becomes free. */
  function Shrink(bs: seq<Block>, i: nat, size: nat): seq<Block>
    requires i < |bs|
  {
    Absorb(Split(bs, i, bs[i].start + HDR + size), i + 1)
  }

  /** rt_realloc. */
  function Realloc(h: Heap, p: Option<int>, n: nat): (Heap, Option<int>)
    requires p.Some? && InRange(h, p.value) ==> IsLive(h, p.value)
    requires !Hangs(h, Align(n))
  {
    var size := Align(n);
    if size > h.size then (h, None)
    else if size == 0 then (if p.None? then h else Free(h, p.value), None)
    else if p.None? then Malloc(h, size)
    else if !InRange(h, p.value) then (h, p)
    else Resize(h, p.value, size)
  }

  /** A live block gets room for `size` bytes, where it is or elsewhere. */
  function Resize(h: Heap, p: int, size: nat): (Heap, Option<int>)
    requires InRange(h, p) && IsLive(h, p) && !Hangs(h, size)
  {
    var i := Find(h.blocks, p - HDR, 0);
    if Payload(h.blocks[i]) == size then (h, Some(p))
    else if size + HDR + MIN < Payload(h.blocks[i]) then (h.(blocks := Shrink(h.blocks, i, size)), Some(p))
    else Move(h, p, size)
  }

  /** The block is too small, or too little would be left over: allocate, copy, free. */
  function Move(h: Heap, p: int, size: nat): (Heap, Option<int>)
    requires InRange(h, p) && IsLive(h, p) && !Hangs(h, size)
  {
    var (h1, q) := Malloc(h, size);
    if q.None? || !IsLive(h1, p) then (h, None) else (Free(h1, p), q)
  }

  lemma ShrinkGood(h: Heap, i: nat, size: nat)
    requires h.Good() && i < |h.blocks| && h.blocks[i].used && size % 4 == 0
    requires 4 <= size && size + HDR + MIN < Payload(h.blocks[i])
    ensures h.(blocks := Shrink(h.blocks, i, size)).Good()
  {
    hide Tiles, Live;
    var bs := h.blocks;
    var at := bs[i].start + HDR + size;
    BlockFacts(h, i);
    AlignedEnd(bs[i].start, size);
    SplitTiles(bs, h.End(), HDR, h.Unit(), i, at);
    SplitAt(bs, i, at, i + 1);
    SplitCoalescedBut(bs, i, at);
    AbsorbGood(h, Split(bs, i, at), i + 1);
  }

  lemma SplitCoalescedBut(bs: seq<Block>, i: nat, at: nat)
    requires i < |bs| && bs[i].used && Coalesced(bs)
    ensures CoalescedBut(Split(bs, i, at), i + 1, true)
  {
    hide Split;
    var r := Split(bs, i, at);
    SplitAt(bs, i, at, 0);
    forall k | 0 <= k < |r| - 1 && k + 1 != i + 1 && k != i + 1 ensures r[k].used || r[k + 1].used {
      SplitAt(bs, i, at, k);
      SplitAt(bs, i, at, k + 1);
      if k < i { assert bs[k].used || bs[k + 1].used; } else { assert bs[k - 1].used || bs[k].used; }
    }
  }

  lemma ShrinkLive(h: Heap, i: nat, size: nat)
    requires h.Good() && i < |h.blocks| && h.blocks[i].used
    ensures Live(Shrink(h.blocks, i, size)) ==
            Live(h.blocks) - {h.blocks[i]} + {h.blocks[i].(next := h.blocks[i].start + HDR + size)}
  {
    hide Tiles, Live, Coalesced, Split, Absorb;
    var bs, at := h.blocks, h.blocks[i].start + HDR + size;
    SplitLive(bs, h.End(), HDR, h.Unit(), i, at);
    SplitAt(bs, i, at, i + 1);
    AbsorbLive(Split(bs, i, at), i + 1);
  }

  /** A live block survives an allocation. */
  lemma StillLive(h: Heap, n: nat, p: int)
    requires h.Good() && n < WORD && !Hangs(h, n) && Malloc(h, n).1.Some?
    requires InRange(h, p) && IsLive(h, p)
    ensures var h1 := Malloc(h, n).0;
            && h1.Good() && h1.size == h.size && InRange(h1, p) && IsLive(h1, p)
            && h1.blocks[Find(h1.blocks, p - HDR, 0)] == h.blocks[Find(h.blocks, p - HDR, 0)]
  {
    hide Tiles, Coalesced, Live, FirstFit, Carve;
    var h1 := Malloc(h, n).0;
    var b := h.blocks[Find(h.blocks, p - HDR, 0)];
    MallocGood(h, n);
    HandedBlock(h, n);
    FreeReturns(h, p);
    LiveFound(h1, b);
  }

  lemma MoveGood(h: Heap, p: int, size: nat)
    requires h.Good() && size < WORD && !Hangs(h, size) && InRange(h, p) && IsLive(h, p)
    ensures Move(h, p, size).0.Good()
  {
    hide Tiles, Coalesced, Live, Malloc, Free, IsLive;
    if Malloc(h, size).1.Some? {
      StillLive(h, size, p);
      FreeGood(Malloc(h, size).0, p);
    }
  }

  /** Moving trades the old block for a new one elsewhere that is large enough. */
  lemma MoveLive(h: Heap, p: int, size: nat)
    requires h.Good() && size < WORD && !Hangs(h, size) && InRange(h, p) && IsLive(h, p)
    ensures var (h', q) := Move(h, p, size);
            var b := h.blocks[Find(h.blocks, p - HDR, 0)];
            && (q.None? <==> Malloc(h, size).1.None?) && (q.None? ==> h' == h)
            && (q.Some? ==> q == Malloc(h, size).1 && Handed(h, size) !in Live(h.blocks) &&
                            Live(h'.blocks) == Live(h.blocks) + {Handed(h, size)} - {b})
  {
    hide Tiles, Coalesced, Live, Malloc, Free, IsLive, Handed;
    if Malloc(h, size).1.Some? {
      StillLive(h, size, p);
      HandedBlock(h, size);
      FreeReturns(Malloc(h, size).0, p);
    }
  }

  lemma ReallocGood(h: Heap, p: Option<int>, n: nat)
    requires h.Good() && n < WORD && (p.Some? && InRange(h, p.value) ==> IsLive(h, p.value)) && !Hangs(h, Align(n))
    ensures Realloc(h, p, n).0.Good()
  {
    hide Tiles, Coalesced, Live, Malloc, Free, IsLive, Move, Shrink;
    AlignRounds(n);
    var size := Align(n);
    hide Align;
    if size > h.size {
    } else if size == 0 {
      if p.Some? { FreeGood(h, p.value); }
    } else if p.None? {
      MallocGood(h, size);
    } else if InRange(h, p.value) {
      ReallocInside(h, p.value, size);
    }
  }

  lemma ReallocInside(h: Heap, p: int, size: nat)
    requires h.Good() && 4 <= size < WORD && size % 4 == 0 && !Hangs(h, size) && InRange(h, p) && IsLive(h, p)
    ensures Move(h, p, size).0.Good()
    ensures var i := Find(h.blocks, p - HDR, 0);
            size + HDR + MIN < Payload(h.blocks[i]) ==> h.(blocks := Shrink(h.blocks, i, size)).Good()
  {
    MoveGood(h, p, size);
    var i := Find(h.blocks, p - HDR, 0);
    if size + HDR + MIN < Payload(h.blocks[i]) { ShrinkGood(h, i, size); }
  }

  /** rt_realloc of a live block: on success the old block is traded for one that holds n bytes
      and nothing else changes; on failure the heap is untouched exactly when rounding n up does
      not give 0, otherwise the block has been freed. */
  lemma ReallocTrades(h: Heap, p: int, n: nat)
    requires h.Good() && n < WORD && InRange(h, p) && IsLive(h, p) && !Hangs(h, Align(n))
    ensures var (h', q) := Realloc(h, Some(p), n);
            var b := h.blocks[Find(h.blocks, p - HDR, 0)];
            && (q.Some? ==> exists c :: Traded(h, h', b, c, q.value, n))
            && (q.None? ==> (h' == h <==> 0 < n <= WORD - 4))
  {
    hide Tiles, Coalesced, Live, Shrink, Move, Free, Find, Align, IsLive, Traded;
    AlignRounds(n);
    var size := Align(n);
    AlignRounds(size);
    FreeReturns(h, p);
    FreeChanges(h, p);
    if 0 < size <= h.size {
      NeedAligned(n);
      TradesInside(h, p, size, n);
    }
  }

  lemma FreeChanges(h: Heap, p: int)
    requires h.Good() && InRange(h, p) && IsLive(h, p)
    ensures Free(h, p) != h
  {
    FreeReturns(h, p);
  }

  lemma TradesInside(h: Heap, p: int, size: nat, n: nat)
    requires h.Good() && 0 < size < WORD && n <= size <= h.size && InRange(h, p) && IsLive(h, p) && !Hangs(h, size)
    requires size <= Need(size) == Need(n)
    ensures var i := Find(h.blocks, p - HDR, 0);
            var b := h.blocks[i];
            && (Payload(b) == size ==> Traded(h, h, b, b, p, n))
            && (size + HDR + MIN < Payload(b) ==>
                  Traded(h, h.(blocks := Shrink(h.blocks, i, size)), b, b.(next := b.start + HDR + size), p, n))
            && (Move(h, p, size).1.Some? ==>
                  Traded(h, Move(h, p, size).0, b, Handed(h, size), Move(h, p, size).1.value, n))
            && (Move(h, p, size).1.None? ==> Move(h, p, size).0 == h)
  {
    hide Tiles, Coalesced, Live, Shrink, Move, Handed, Malloc;
    var i := Find(h.blocks, p - HDR, 0);
    FreeReturns(h, p);
    ShrinkLive(h, i, size);
    MoveLive(h, p, size);
    if Move(h, p, size).1.Some? {
      HandedBlock(h, size);
      NeedAtLeast(size);
    }
  }

  lemma NeedAligned(n: nat)
    requires n < WORD
    ensures Need(Align(n)) == Need(n) >= Align(n)
  {
    AlignRounds(n);
    AlignRounds(Align(n));
  }

  lemma NeedAtLeast(size: nat)
    requires size < WORD
    ensures size <= WORD - 4 ==> Need(size) >= size
  {
    AlignRounds(size);
  }

  /** rt_realloc leaves the block where it is exactly if it has the size asked for, or enough more
      that the rest makes a block; otherwise a result is elsewhere, even for a smaller size. */
  lemma ReallocStays(h: Heap, p: int, n: nat)
    requires h.Good() && n < WORD && InRange(h, p) && IsLive(h, p) && 0 < Align(n) <= h.size && !Hangs(h, Align(n))
    ensures var b := h.blocks[Find(h.blocks, p - HDR, 0)];
            Realloc(h, Some(p), n).1 == Some(p) <==> Payload(b) == Align(n) || Align(n) + HDR + MIN < Payload(b)
  {
    hide Tiles, Coalesced, Live, Malloc, Free, Find, Shrink, Handed;
    AlignRounds(n);
    var size := Align(n);
    hide Align;
    FreeReturns(h, p);
    MoveLive(h, p, size);
    if Move(h, p, size).1.Some? {
      HandedBlock(h, size);
      MallocGood(h, size);
      Elsewhere(Malloc(h, size).0, h.blocks[Find(h.blocks, p - HDR, 0)], Handed(h, size));
    }
  }

  /** Different live blocks start at different places. */
  lemma Elsewhere(h: Heap, a: Block, b: Block)
    requires h.Good() && a in Live(h.blocks) && b in Live(h.blocks) && a != b
    ensures a.start != b.start
  {
    LiveDisjoint(h.blocks, h.End(), HDR, h.Unit(), a, b);
    LiveFound(h, a);
    LiveFound(h, b);
  }

  /** Block b has been traded for block c at pointer q, which holds at least n bytes. */
  ghost predicate Traded(h: Heap, h': Heap, b: Block, c: Block, q: int, n: nat) {
    && c.start + HDR == q && n <= Payload(c) < Need(n) + HDR + MIN
    && (c == b || c.start == b.start || c !in Live(h.blocks))
    && Live(h'.blocks) == Live(h.blocks) - {b} + {c}
  }

  /** Without a block, rt_realloc is rt_malloc, except for sizes that round to 0; a pointer outside
      the heap comes back as it is, if the size fits and is not 0. */
  lemma ReallocOther(h: Heap, p: Option<int>, n: nat)
    requires n < WORD && (p.Some? ==> !InRange(h, p.value)) && !Hangs(h, n) && !Hangs(h, Align(n))
    ensures p.None? && 0 < n <= WORD - 4 ==> Realloc(h, p, n) == Malloc(h, n)
    ensures (n == 0 || n > WORD - 4) ==> Realloc(h, p, n) == (h, None)
    ensures p.Some? && 0 < n <= WORD - 4 ==> Realloc(h, p, n) == (h, if Align(n) <= h.size then p else None)
  {
    AlignRounds(n);
    AlignRounds(Align(n));
  }

  // ---- Giving everything back ----

  function FreeAll(h: Heap, order: seq<Block>): Heap
    decreases |order|
  {
    if order == [] then h
    else
      var p := order[0].start + HDR;
      FreeAll(if InRange(h, p) && IsLive(h, p) then Free(h, p) else h, order[1..])
  }

  /** A heap in which nothing is live is one free block. */
  lemma NothingLive(h: Heap)
    requires h.Good() && Live(h.blocks) == {}
    ensures h.blocks == [Block(0, h.End(), false)]
  {
    assert |h.blocks| > 1 ==> h.blocks[0].used || h.blocks[1].used;
    forall i | 0 <= i < |h.blocks| ensures !h.blocks[i].used {
      assert h.blocks[i] in h.blocks && h.blocks[i] !in Live(h.blocks);
    }
  }

  /** Freeing every live block, in any order, leaves the heap as it was initialised. */
  lemma {:induction false} FreeAllRestores(h: Heap, order: seq<Block>)
    requires h.Good() && Distinct(order) && (forall b :: b in order <==> b in Live(h.blocks))
    ensures FreeAll(h, order) == Heap(h.size, [Block(0, h.End(), false)])
    decreases |order|
  {
    hide Tiles, Coalesced, Free, IsLive, InRange, Live;
    if order == [] {
      assert Live(h.blocks) == {};
      NothingLive(h);
    } else {
      var b := order[0];
      LiveFound(h, b);
      FreeGood(h, b.start + HDR);
      FreeReturns(h, b.start + HDR);
      assert order == [b] + order[1..];
      assert b !in order[1..];
      SameSize(h, b.start + HDR);
      FreeAllRestores(Free(h, b.start + HDR), order[1..]);
    }
  }

  lemma SameSize(h: Heap, p: int)
    requires InRange(h, p) ==> IsLive(h, p)
    ensures Free(h, p).size == h.size
  {
  }

  // ---- Every run ----

  datatype Op = DoMalloc(n: nat) | DoFree(p: int) | DoRealloc(block: Option<int>, n: nat)

  /** One call; a call the heap's contract forbids is left out. */
  function Apply(h: Heap, op: Op): Heap {
    match op
    case DoMalloc(n) => if n < WORD && !Hangs(h, n) then Malloc(h, n).0 else h
    case DoFree(p) => if InRange(h, p) ==> IsLive(h, p) then Free(h, p) else h
    case DoRealloc(p, n) =>
      if n < WORD && (p.Some? && InRange(h, p.value) ==> IsLive(h, p.value)) && !Hangs(h, Align(n))
      then Realloc(h, p, n).0 else h
  }

  function Exec(h: Heap, run: seq<Op>): Heap
    decreases |run|
  {
    if run == [] then h else Apply(Exec(h, run[..|run| - 1]), run[|run| - 1])
  }

  /** After any run of calls from an initialised heap the blocks tile it exactly, no two
      neighbours are free, and so live blocks never overlap. */
  lemma {:induction false} AlwaysGood(size: nat, run: seq<Op>)
    requires size % 4 == 0 && size + 2 * HDR < WORD
    ensures Exec(Heap(size, [Block(0, size + HDR, false)]), run).Good()
    decreases |run|
  {
    var h := Heap(size, [Block(0, size + HDR, false)]);
    if run == [] {
      InitialGood(size);
    } else {
      hide Tiles, Coalesced, Live, Malloc, Free, Realloc, IsLive, InRange, Hangs, Align;
      var before := Exec(h, run[..|run| - 1]);
      AlwaysGood(size, run[..|run| - 1]);
      match run[|run| - 1]
      case DoMalloc(n) => if n < WORD && !Hangs(before, n) { MallocGood(before, n); }
      case DoFree(p) => if InRange(before, p) ==> IsLive(before, p) { FreeGood(before, p); }
      case DoRealloc(p, n) =>
        if n < WORD && (p.Some? && InRange(before, p.value) ==> IsLive(before, p.value)) && !Hangs(before, Align(n)) {
          ReallocGood(before, p, n);
        }
    }
  }

  lemma InitialGood(size: nat)
    requires size % 4 == 0 && size + 2 * HDR < WORD
    ensures Heap(size, [Block(0, size + HDR, false)]).Good()
  {
  }

  // ---- Requests that wrap ----

  /** A request of 2^32 - 1 bytes is granted 24 of them. */
  lemma WrapGrants()
    ensures var h := Heap(24, [Block(0, 36, false)]);
            h.Good() && Malloc(h, 0xFFFF_FFFF) == (Heap(24, [Block(0, 36, true)]), Some(12)) &&
            Payload(Handed(h, 0xFFFF_FFFF)) == 24
  {
    var h := Heap(24, [Block(0, 36, false)]);
    AlignRounds(0xFFFF_FFFF);
    assert Need(0xFFFF_FFFF) == 12;
    assert Fits(h.blocks[0], 12, 12) && FirstFit(h.blocks, 0, 12, 12) == 0;
    assert SetUsed(h.blocks, 0, true) == [Block(0, 36, true)];
    assert Carve(h.blocks, 0, 12) == [Block(0, 36, true)];
  }

  /** Resizing the block of the heap that results to 2^32 - 1 bytes frees it. */
  lemma WrapFrees()
    ensures var h := Heap(24, [Block(0, 36, true)]);
            h.Good() && InRange(h, 12) && IsLive(h, 12) &&
            Realloc(h, Some(12), 0xFFFF_FFFF) == (Heap(24, [Block(0, 36, false)]), None)
  {
    var h := Heap(24, [Block(0, 36, true)]);
    AlignRounds(0xFFFF_FFFF);
    assert Find(h.blocks, 0, 0) == 0;
    assert SetUsed(h.blocks, 0, false) == [Block(0, 36, false)];
    assert Free(h, 12).blocks == [Block(0, 36, false)];
  }

  // ---- The heap that is too small ----

  /** Where the search loop stands after k turns when it started at offset ptr. */
  function Turn(h: Heap, ptr: nat, k: nat): nat {
    if k == 0 then ptr
    else
      var at := Turn(h, ptr, k - 1);
      var i := Find(h.blocks, at, 0);
      if i < |h.blocks| then h.blocks[i].next else h.End()
  }

  /** In a heap below the least block size the loop of rt_malloc, which starts at the lowest free
      block l, never ends: at every turn the unsigned bound lies ahead and no block fits. */
  lemma {:induction false} TooSmallHangs(h: Heap, n: nat, l: nat, k: nat)
    requires h.Good() && n < WORD && Hangs(h, n) && HeapLinks.Lowest(h.blocks, h.End(), l)
    ensures var at := Turn(h, l, k);
            && at < h.size + WORD - Need(n)
            && (at == h.End() || exists i :: 0 <= i < |h.blocks| && h.blocks[i].start == at)
            && forall i :: 0 <= i < |h.blocks| && h.blocks[i].start == at ==> Payload(h.blocks[i]) < Need(n)
  {
    forall i | 0 <= i < |h.blocks|
      ensures Payload(h.blocks[i]) < Need(n) && h.blocks[i].start < h.blocks[i].next <= h.End()
    {
      Inside(h.blocks, h.End(), HDR, h.Unit(), i);
    }
    if k == 0 {
      var i := HeapLinks.LowestIndex(h.blocks, h.End(), l);
    } else {
      TooSmallHangs(h, n, l, k - 1);
      var i := Find(h.blocks, Turn(h, l, k - 1), 0);
      if i < |h.blocks| { HeapLinks.After(h.blocks, h.End(), HDR, h.Unit(), i); }
    }
  }

  /** There is such a heap and such a request. */
  lemma TooSmallHappens()
    ensures var h := Heap(8, [Block(0, 20, false)]); h.Good() && Hangs(h, 1) && HeapLinks.Lowest(h.blocks, h.End(), 0)
  {
    assert [Block(0, 20, false)][0].start == 0;
  }
}
