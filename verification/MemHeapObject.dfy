/**
 The memheap allocator as memheap.c keeps it: each block header is linked into the ring of
 blocks, and while free into the free ring as well.
 */
module MemHeapObject {
  import opened Ipc
  import opened Circle
  import opened Tiling
  import opened HeapLinks
  import opened HeapBytes
  import opened MemHeap

  /** Once around the ring of blocks: the blocks in address order and the tailer. */
  ghost function Cells(bs: seq<Block>, end: nat): seq<nat> {
    seq(|bs|, i requires 0 <= i < |bs| => bs[i].start) + [end]
  }

  /** Once around the free ring; its header lies outside the pool and has address end + 1 here. */
  ghost function FreeCells(ring: seq<nat>, end: nat): seq<nat> {
    [end + 1] + ring
  }

  /** The used bit in each header; the tailer counts as used. */
  ghost predicate Flags(bs: seq<Block>, end: nat, used: seq<bool>) {
    && |used| == end + 2 && used[end]
    && forall i :: 0 <= i < |bs| ==> Marked(bs, i, used)
  }

  ghost predicate Marked(bs: seq<Block>, i: nat, used: seq<bool>)
    requires i < |bs|
  {
    bs[i].start < |used| && used[bs[i].start] == bs[i].used
  }

  const MAGIC: nat := 0x1ea0_1ea0

  /** Blocks and free ring have their headers at these places. */
  ghost predicate Spots(bs: seq<Block>, ring: seq<nat>, end: nat, places: set<nat>) {
    && end in places && end + 1 in places && (forall x :: x in ring ==> x in places)
    && forall i :: 0 <= i < |bs| ==> Spot(bs[i], places)
  }

  ghost predicate Spot(b: Block, places: set<nat>) { b.start in places && b.next in places }

  /** The headers at their offsets: next and prev link blocks, nextFree and prevFree free blocks.
      Writing a header also overwrites the bytes of the pool it lies on. */
  class PoolObject {
    const end: nat
    const next: array<nat>
    const prev: array<nat>
    const nextFree: array<nat>
    const prevFree: array<nat>
    const used: array<bool>
    const bytes: array<Byte>
    var available: int
    ghost var blocks: seq<Block>
    ghost var ring: seq<nat>

    ghost function Value(): Pool
      reads this
    {
      Pool(end, blocks, ring, available)
    }

    /** The headers spell out the blocks and the free ring. */
    ghost predicate Wired()
      reads this, next, prev, nextFree, prevFree, used
    {
      && next != prev && next != nextFree && next != prevFree && prev != nextFree && prev != prevFree
      && nextFree != prevFree && next.Length == nextFree.Length == end + 2 && bytes.Length == end + HDR
      && Tiles(blocks, end, HDR, Value().Unit())
      && Circular(Cells(blocks, end), next[..], prev[..])
      && Circular(FreeCells(ring, end), nextFree[..], prevFree[..])
      && Flags(blocks, end, used[..])
    }

    ghost predicate Valid()
      reads this, next, prev, nextFree, prevFree, used
    {
      Wired() && Value().Good()
    }

    /** Since the bytes were `was`, headers have been written at these places only, and they include
        all there are now. */
    ghost predicate Traced(places: set<nat>, was: seq<Byte>)
      reads this, bytes
    {
      Spots(blocks, ring, end, places) && HeadersIn(places, HDR, was, bytes[..])
    }

    /** rt_memheap_init: one free block, on the free ring, and a used tailer. */
    constructor (size: nat)
      requires 2 * HDR <= size < WORD
      ensures Valid() && Value() == Initial(size / 4 * 4 - HDR)
      ensures fresh(next) && fresh(prev) && fresh(nextFree) && fresh(prevFree) && fresh(used) && fresh(bytes)
    {
      hide Tiles, Circular, Flags, Cells, FreeCells, Coalesced, FreePayload, RingExact;
      var end := size / 4 * 4 - HDR;
      this.end := end;
      next := new nat[end + 2](k => if k == end then 0 else end);
      prev := new nat[end + 2](k => if k == end then 0 else end);
      nextFree := new nat[end + 2](k => if k == end + 1 then 0 else end + 1);
      prevFree := new nat[end + 2](k => if k == end + 1 then 0 else end + 1);
      used := new bool[end + 2](k => k == end);
      bytes := new Byte[end + HDR](_ => 0);
      available := end - HDR;
      blocks := [Block(0, end, false)];
      ring := [0];
      new;
      InitialParts(this.end, next[..], prev[..], nextFree[..], prevFree[..], used[..]);
      WriteEnds();
    }

    /** The first header and the tailer are stored. */
    method WriteEnds()
      requires Valid()
      modifies bytes
      ensures Valid()
    {
      hide Tiles, Circular, Flags, RingExact, Coalesced, FreePayload, Stamped;
      ArraySizes(blocks, ring, end, next[..], prev[..], nextFree[..], prevFree[..], used[..]);
      Write(0);
      Write(end);
    }

    /** Stores the header at offset q; the header of the free ring, at end + 1, is not in the pool. */
    method Write(q: nat)
      requires q <= end + 1 && bytes.Length == end + HDR && next.Length == prev.Length == end + 2
      requires nextFree.Length == prevFree.Length == used.Length == end + 2
      modifies bytes
      ensures Stamped(old(bytes[..]), bytes[..], q, HDR)
    {
      if q <= end {
        var words := [MAGIC + if used[q] then 1 else 0, end + 1, next[q], prev[q], nextFree[q], prevFree[q]];
        forall k | q <= k < q + HDR { bytes[k] := ByteOf(words[(k - q) / 4], (k - q) % 4); }
      }
    }

    method Stamp(q: nat, ghost places: set<nat>, ghost was: seq<Byte>)
      requires Wired() && Traced(places, was) && q <= end + 1 && q in places
      modifies bytes
      ensures Wired() && Traced(places, was)
    {
      hide Tiles, Circular, Flags, Spots, HeadersIn, Stamped;
      ArraySizes(blocks, ring, end, next[..], prev[..], nextFree[..], prevFree[..], used[..]);
      ghost var mid := bytes[..];
      Write(q);
      PlaceStamped(places, HDR, was, mid, bytes[..], q);
    }

    /** Three headers whose links have just changed. */
    method StampAll(a: nat, b: nat, c: nat, ghost places: set<nat>, ghost was: seq<Byte>)
      requires Wired() && Traced(places, was) && a <= end + 1 && b <= end + 1 && c <= end + 1 && {a, b, c} <= places
      modifies bytes
      ensures Wired() && Traced(places, was)
    {
      hide Wired, Traced;
      Stamp(a, places, was);
      Stamp(b, places, was);
      Stamp(c, places, was);
    }

    /** Puts a block first in the free ring. */
    method PushFree(s: nat, ghost places: set<nat>, ghost was: seq<Byte>)
      requires Wired() && s !in ring && s < end && Traced(places, was) && s in places
      modifies this`ring, nextFree, prevFree, bytes
      ensures Wired() && ring == [s] + old(ring) && Traced(places, was)
    {
      hide Tiles, Circular, Flags, HeadersIn;
      CellsPush(ring, end, s);
      CircularSizes(FreeCells(ring, end), nextFree[..], prevFree[..]);
      LinkAfter(nextFree, prevFree, end + 1, s, FreeCells(ring, end), 0);
      ring := [s] + ring;
      FreeNeighbours(ring, end, 1, nextFree[..], prevFree[..]);
      StampAll(end + 1, s, nextFree[s], places, was);
    }

    /** Takes a block off the free ring. */
    method DropFree(s: nat, ghost places: set<nat>, ghost was: seq<Byte>)
      requires Wired() && s in ring && Traced(places, was)
      modifies this`ring, nextFree, prevFree, bytes
      ensures Wired() && ring == Off(old(ring), s) && Traced(places, was)
    {
      hide Tiles, Circular, Flags, Off, HeadersIn;
      ghost var k :| 0 <= k < |ring| && ring[k] == s;
      CellsDrop(ring, end, k, nextFree[..], prevFree[..]);
      FreeNeighbours(ring, end, k + 1, nextFree[..], prevFree[..]);
      var after, before := nextFree[s], prevFree[s];
      OffFewer(ring, s);
      Unlink(nextFree, prevFree, s, FreeCells(ring, end), k + 1);
      ring := Off(ring, s);
      StampAll(s, after, before, places, was);
    }

    /** A new free block at `at` takes the rest of the block at ptr, which is block i. */
    method SplitBlock(ptr: nat, at: nat, ghost i: nat, ghost places: set<nat>, ghost was: seq<Byte>)
      requires Wired() && i < |blocks| && blocks[i].start == ptr && at % 4 == 0
      requires ptr + HDR + Value().Unit() <= at && at + HDR + Value().Unit() <= blocks[i].next
      requires Traced(places, was) && at in places
      modifies this`blocks, next, prev, used, bytes
      ensures Wired() && blocks == Split(old(blocks), i, at) && Traced(places, was)
    {
      hide Tiles, Circular, Flags, Split, Cells, FreeCells, Spots, HeadersIn;
      ghost var u0 := used[..];
      SplitFacts(blocks, end, Value().Unit(), i, at, next[..], prev[..], u0);
      BlockHeader(blocks, end, Value().Unit(), i, next[..], prev[..], u0);
      var after := next[ptr];
      LinkAfter(next, prev, ptr, at, Cells(blocks, end), i);
      used[at] := false;
      assert used[..] == u0[at := false];
      SpotsSplit(blocks, ring, end, places, i, at);
      SpotsIn(blocks, ring, end, places, i);
      blocks := Split(blocks, i, at);
      StampAll(ptr, at, after, places, was);
    }

    /** Block i swallows the block after it, which starts at x. */
    method JoinNext(x: nat, ghost i: nat, ghost places: set<nat>, ghost was: seq<Byte>)
      requires Wired() && i + 1 < |blocks| && blocks[i + 1].start == x && Traced(places, was)
      modifies this`blocks, next, prev, bytes
      ensures Wired() && blocks == Merge(old(blocks), i) && Traced(places, was)
    {
      hide Tiles, Circular, Flags, Merge, Cells, FreeCells, Spots, HeadersIn;
      BlockHeader(blocks, end, Value().Unit(), i + 1, next[..], prev[..], used[..]);
      SpotsMerge(blocks, ring, end, places, i);
      SpotsIn(blocks, ring, end, places, i);
      SpotsIn(blocks, ring, end, places, i + 1);
      var after, before := next[x], prev[x];
      JoinFacts(blocks, end, Value().Unit(), i, used[..]);
      Unlink(next, prev, x, Cells(blocks, end), i + 1);
      blocks := Merge(blocks, i);
      StampAll(x, after, before, places, was);
    }

    method SetFlag(ptr: nat, u: bool, ghost i: nat, ghost places: set<nat>, ghost was: seq<Byte>)
      requires Wired() && i < |blocks| && blocks[i].start == ptr && Traced(places, was)
      modifies this`blocks, used, bytes
      ensures Wired() && blocks == SetUsed(old(blocks), i, u) && Traced(places, was)
    {
      hide Tiles, Circular, Flags, SetUsed, Cells, FreeCells, Spots, HeadersIn;
      BlockHeader(blocks, end, Value().Unit(), i, next[..], prev[..], used[..]);
      SpotsUsed(blocks, ring, end, places, i, u);
      SpotsIn(blocks, ring, end, places, i);
      ghost var u0 := used[..];
      FlagFacts(blocks, end, Value().Unit(), i, u, u0);
      used[ptr] := u;
      assert used[..] == u0[ptr := u];
      blocks := SetUsed(blocks, i, u);
      Stamp(ptr, places, was);
    }

    /** The search loop of rt_memheap_alloc. */
    method SearchFree(need: nat) returns (found: bool, ptr: nat, size: int, ghost i: nat)
      requires Valid() && need > 0
      ensures var k := Search(ring, 0, blocks, need);
              && found == (k < |ring|)
              && (found ==> && ptr == ring[k] && i == Find(blocks, ring[k]) && i < |blocks|
                            && size == Payload(blocks[i]) && blocks[i].start == ptr)
    {
      hide Tiles, Circular, Flags, Cells, FreeCells, Coalesced, FreePayload, RingExact, Find, Search, SizeAt;
      ghost var h, k := Value(), 0;
      RingHeader(h, 0, nextFree[..], prevFree[..]);
      size, i := 0, 0;
      ptr := nextFree[end + 1];
      while ptr != end + 1 && size < need
        invariant k <= |ring| && ptr == (if k < |ring| then ring[k] else end + 1) && (k < |ring| ==> ptr < end)
        invariant size >= need ==> k < |ring| && size == SizeAt(blocks, ring[k]) && k == Search(ring, 0, blocks, need)
        invariant size < need ==> Search(ring, 0, blocks, need) == Search(ring, k, blocks, need)
        decreases |ring| - k, need - size
      {
        SearchStep(h, k, need);
        i := RingBlock(h, k, next[..], prev[..], used[..]);
        size := next[ptr] - ptr - HDR;
        if size < need {
          RingHeader(h, k + 1, nextFree[..], prevFree[..]);
          ptr := nextFree[ptr];
          k := k + 1;
        }
      }
      found := size >= need;
      if found { i := RingBlock(h, k, next[..], prev[..], used[..]); } else { SearchDone(h, k, need); }
    }

    /** The free block at ptr, block i, is taken off the free ring and split if there is room. */
    method Take(ptr: nat, size: int, need: nat, ghost i: nat, ghost places: set<nat>, ghost was: seq<Byte>)
      requires Valid() && i < |blocks| && blocks[i].start == ptr && !blocks[i].used && size == Payload(blocks[i])
      requires MIN <= need <= size && need % 4 == 0 && Traced(places, was) && ptr + HDR + need in places
      modifies this, next, prev, nextFree, prevFree, used, bytes
      ensures Valid() && Value() == Carve(old(Value()), i, need) && HeadersIn(places, HDR, was, bytes[..])
    {
      hide HeadersIn, Spots, Tiles, Circular, Flags, Cells, FreeCells, Coalesced, FreePayload, FreeStarts, Split,
        SetUsed, Off, Distinct;
      ghost var h, bs := Value(), blocks;
      CarveGood(h, i, need);
      CarveFacts(h, i, need);
      if size >= need + HDR + MIN {
        var rest := ptr + HDR + need;
        SplitBlock(ptr, rest, i, places, was);
        DropFree(ptr, places, was);
        PushFree(rest, places, was);
        available := available - need - HDR;
      } else {
        available := available - size;
        DropFree(ptr, places, was);
      }
      SetFlag(ptr, true, i, places, was);
    }

    /** rt_memheap_alloc. */
    method Alloc(n: nat) returns (p: Option<nat>)
      requires Valid() && n < WORD
      modifies this, next, prev, nextFree, prevFree, used, bytes
      ensures Valid() && (Value(), p) == MemHeap.Alloc(old(Value()), n)
      ensures PayloadsKept(HDR, Live(old(blocks)), old(bytes[..]), bytes[..])
    {
      hide HeadersIn, Spots, PayloadsKept, Live, Tiles, Circular, Flags, Cells, FreeCells, Coalesced, FreePayload,
        RingExact, Find, Search, Carve, SmallHeap.Align;
      AtLeastMin(n);
      var size := SmallHeap.Align(n);
      if size < MIN { size := MIN; }
      ghost var h, was := Value(), bytes[..];
      AllKept(h, was);
      if size >= available { return None; }
      SearchFinds(h, size);
      var found, ptr, extent, i := SearchFree(size);
      if !found { return None; }
      ghost var at := ptr + HDR + size;
      StartTraced(h, at, was);
      Take(ptr, extent, size, i, Places(blocks, end) + {at}, was);
      OthersKept(h, i, at, was, bytes[..]);
      return Some(ptr + HDR);
    }

    /** The free block at ptr, block i, is swallowed by a free block before it. */
    method JoinBefore(ptr: nat, ghost i: nat, ghost places: set<nat>, ghost was: seq<Byte>)
      returns (at: nat, joined: bool)
      requires Wired() && i < |blocks| && blocks[i].start == ptr && Traced(places, was)
      modifies this`available, this`blocks, next, prev, bytes
      ensures Traced(places, was) && Wired() && joined == (i > 0 && !old(blocks)[i - 1].used)
      ensures blocks == if joined then Merge(old(blocks), i - 1) else old(blocks)
      ensures available == old(available) + if joined then HDR else 0
      ensures at == if joined then old(blocks)[i - 1].start else ptr
    {
      hide HeadersIn, Spots, Tiles, Circular, Flags, Cells, FreeCells, Merge;
      BlockHeader(blocks, end, Value().Unit(), i, next[..], prev[..], used[..]);
      at, joined := ptr, false;
      if !used[prev[ptr]] {
        at, joined := prev[ptr], true;
        available := available + HDR;
        JoinNext(ptr, i - 1, places, was);
      }
    }

    /** The free block at ptr, block i, swallows a free block after it. */
    method JoinAfter(ptr: nat, ghost i: nat, ghost places: set<nat>, ghost was: seq<Byte>)
      requires Wired() && i < |blocks| && blocks[i].start == ptr && Traced(places, was)
      requires FreeNext(blocks, i) ==> blocks[i + 1].start in ring
      modifies this`available, this`blocks, this`ring, next, prev, nextFree, prevFree, bytes
      ensures Wired() && Traced(places, was)
      ensures blocks == if FreeNext(old(blocks), i) then Merge(old(blocks), i) else old(blocks)
      ensures ring == if FreeNext(old(blocks), i) then Off(old(ring), old(blocks)[i + 1].start) else old(ring)
      ensures available == old(available) + if FreeNext(old(blocks), i) then HDR else 0
    {
      hide HeadersIn, Spots, Tiles, Circular, Flags, Cells, FreeCells, Merge, Off;
      BlockHeader(blocks, end, Value().Unit(), i, next[..], prev[..], used[..]);
      var after := next[ptr];
      if !used[after] {
        available := available + HDR;
        JoinNext(after, i, places, was);
        DropFree(after, places, was);
      }
    }

    /** rt_memheap_free. */
    method Free(p: int)
      requires Valid() && IsLive(Value(), p)
      modifies this, next, prev, nextFree, prevFree, used, bytes
      ensures Valid() && Value() == MemHeap.Free(old(Value()), p)
      ensures PayloadsKept(HDR, Live(old(blocks)), old(bytes[..]), bytes[..])
    {
      hide HeadersIn, Spots, PayloadsKept, Live, Tiles, Circular, Flags, Cells, FreeCells, Coalesced, FreePayload,
        FreeStarts, Merge, Absorb, SetUsed, Off, Find, RingExact, Distinct;
      ghost var h := Value();
      FreeGood(h, p);
      ghost var i := LivePlace(h, p);
      FreeFacts(h, i);
      BlockHeader(blocks, end, h.Unit(), i, next[..], prev[..], used[..]);
      var ptr: nat := p - HDR;
      ghost var places, was := Places(blocks, end) + {ptr}, bytes[..];
      StartTraced(h, ptr, was);
      SetFlag(ptr, false, i, places, was);
      LeftFirst(blocks, i);
      available := available + (next[ptr] - ptr - HDR);
      var at, joined := JoinBefore(ptr, i, places, was);
      JoinAfter(at, if joined then i - 1 else i, places, was);
      if !joined { PushFree(at, places, was); }
      OthersKept(h, i, ptr, was, bytes[..]);
    }

    /** The used block at ptr, block i, grows into the free block after it, which then starts at `at`. */
    method ExtendBlock(ptr: nat, at: nat, more: int, ghost i: nat)
      requires Valid() && i < |blocks| && blocks[i].start == ptr && Border(blocks, i, at)
      requires more == at - blocks[i + 1].start
      modifies this, next, prev, nextFree, prevFree, used, bytes
      ensures Valid() && Value() == Extend(old(Value()), i, at, more)
      ensures PayloadsKept(HDR, Live(old(blocks)), old(bytes[..]), bytes[..])
    {
      hide HeadersIn, Spots, PayloadsKept, Live, Tiles, Circular, Flags, Cells, FreeCells, Coalesced, FreePayload,
        FreeStarts, Merge, Split, Grow, Off, RingExact, Distinct;
      ghost var h := Value();
      ExtendGood(h, i, at);
      ExtendFacts(h, i, at);
      FreeHolds(h, i + 1);
      BlockFacts(h, i + 1);
      BlockHeader(blocks, end, h.Unit(), i, next[..], prev[..], used[..]);
      var after := next[ptr];
      ghost var places, was := Places(blocks, end) + {at}, bytes[..];
      StartTraced(h, at, was);
      available := available - more;
      DropFree(after, places, was);
      JoinNext(after, i, places, was);
      SplitBlock(ptr, at, i, places, was);
      PushFree(at, places, was);
      OthersKept(h, i + 1, at, was, bytes[..]);
    }

    /** The used block at ptr, block i, ends at `at`; the rest joins a free block after it. */
    method ShrinkBlock(ptr: nat, at: nat, ghost i: nat)
      requires Valid() && i < |blocks| && blocks[i].start == ptr && blocks[i].used && at % 4 == 0
      requires ptr + HDR + MIN <= at && at + HDR + MIN < blocks[i].next
      modifies this, next, prev, nextFree, prevFree, used, bytes
      ensures Valid() && Value() == Shrink(old(Value()), i, at)
      ensures PayloadsKept(HDR, Live(old(blocks)) - {old(blocks)[i]}, old(bytes[..]), bytes[..])
      ensures Carried(old(bytes[..]), bytes[..], ptr + HDR, ptr + HDR, at - ptr - HDR)
    {
      hide HeadersIn, Spots, PayloadsKept, Carried, Live, Tiles, Circular, Flags, Cells, FreeCells, Coalesced,
        FreePayload, FreeStarts, Merge, Split, Absorb, Off, RingExact, Distinct;
      ghost var h := Value();
      ShrinkGood(h, i, at);
      ShrinkFacts(h, i, at);
      ghost var places, was := Places(blocks, end) + {at}, bytes[..];
      StartTraced(h, at, was);
      SplitBlock(ptr, at, i, places, was);
      LeftFirst(blocks, i + 1);
      BlockHeader(blocks, end, h.Unit(), i + 1, next[..], prev[..], used[..]);
      var after := next[at];
      if !used[after] {
        BlockHeader(blocks, end, h.Unit(), i + 2, next[..], prev[..], used[..]);
        available := available - (next[after] - after - HDR);
        MergedAt(blocks, i + 1);
        JoinNext(after, i + 1, places, was);
        DropFree(after, places, was);
        BlockHeader(blocks, end, h.Unit(), i + 1, next[..], prev[..], used[..]);
      }
      PushFree(at, places, was);
      available := available + (next[at] - at - HDR);
      ShrinkKeeps(h, i, at, was, bytes[..]);
    }

    /** rt_memcpy between two places that do not overlap. */
    method Copy(dst: nat, src: nat, len: nat)
      requires dst + len <= bytes.Length && src + len <= bytes.Length
      modifies bytes
      ensures Copied(old(bytes[..]), bytes[..], dst, src, len)
    {
      forall k | dst <= k < dst + len { bytes[k] := bytes[k - dst + src]; }
    }

    /** A new block, and the old one given back; the bytes are copied in between. */
    method Relocate(p: int, size: nat) returns (q: Option<nat>)
      requires Valid() && IsLive(Value(), p) && MIN <= size <= WORD - 4
      modifies this, next, prev, nextFree, prevFree, used, bytes
      ensures Valid() && (Value(), q) == Move(old(Value()), p, size)
      ensures PayloadsKept(HDR, Others(old(Value()), Some(p)), old(bytes[..]), bytes[..])
      ensures q.Some? ==> Carried(old(bytes[..]), bytes[..], p, q.value, Kept(old(Value()), p, size))
      ensures q.None? ==> PayloadsKept(HDR, Live(old(blocks)), old(bytes[..]), bytes[..])
    {
      hide Tiles, Circular, Flags, Cells, FreeCells, Coalesced, FreePayload, RingExact, Find, IsLive, MemHeap.Alloc,
        MemHeap.Free, PayloadsKept, Carried, Copied, Live, Handed;
      ghost var h, b0 := Value(), bytes[..];
      ghost var i := LivePlace(h, p);
      BlockHeader(blocks, end, h.Unit(), i, next[..], prev[..], used[..]);
      var has := next[p - HDR] - p;
      q := Alloc(size);
      KeptLess(HDR, Live(h.blocks), {h.blocks[i]}, b0, bytes[..]);
      if q.Some? {
        ghost var b1 := bytes[..];
        MoveFacts(h, p, size);
        Copy(q.value, p, if has < size then has else size);
        ghost var b2 := bytes[..];
        Free(p);
        MoveKeeps(h, p, size, b0, b1, b2, bytes[..]);
      } else {
        AllocFails(h, size);
      }
    }

    /** rt_memheap_realloc. */
    method Realloc(p: Option<int>, n: nat) returns (q: Option<int>)
      requires Valid() && n < WORD && (p.Some? ==> IsLive(Value(), p.value) && !Overruns(Value(), p.value, Need(n)))
      modifies this, next, prev, nextFree, prevFree, used, bytes
      ensures Valid() && (Value(), q) == MemHeap.Realloc(old(Value()), p, n)
      ensures PayloadsKept(HDR, Others(old(Value()), p), old(bytes[..]), bytes[..])
      ensures p.Some? && q.Some? ==>
                Carried(old(bytes[..]), bytes[..], p.value, q.value, Kept(old(Value()), p.value, Need(n)))
      ensures q.None? && n > 0 ==> PayloadsKept(HDR, Live(old(blocks)), old(bytes[..]), bytes[..])
    {
      hide PayloadsKept, Carried, Live, Kept, Tiles, Circular, Flags, Cells, FreeCells, Coalesced, FreePayload,
        RingExact, Find, IsLive, MemHeap.Alloc, MemHeap.Free, Resize, SmallHeap.Align, Overruns;
      AtLeastMin(n);
      AllKept(Value(), bytes[..]);
      if n == 0 {
        if p.Some? {
          ghost var h, b0 := Value(), bytes[..];
          ghost var i := LivePlace(h, p.value);
          Free(p.value);
          KeptLess(HDR, Live(h.blocks), {h.blocks[i]}, b0, bytes[..]);
        }
        return None;
      }
      var newsize := SmallHeap.Align(n);
      if newsize < MIN { newsize := MIN; }
      if p.None? {
        q := Alloc(newsize);
      } else {
        q := ResizeBlock(p.value, newsize);
      }
    }

    method ResizeBlock(p: int, size: nat) returns (q: Option<int>)
      requires Valid() && IsLive(Value(), p) && !Overruns(Value(), p, size)
      requires MIN <= size <= WORD - 4 && size % 4 == 0
      modifies this, next, prev, nextFree, prevFree, used, bytes
      ensures Valid() && (Value(), q) == Resize(old(Value()), p, size)
      ensures PayloadsKept(HDR, Others(old(Value()), Some(p)), old(bytes[..]), bytes[..])
      ensures q.Some? ==> Carried(old(bytes[..]), bytes[..], p, q.value, Kept(old(Value()), p, size))
      ensures q.None? ==> PayloadsKept(HDR, Live(old(blocks)), old(bytes[..]), bytes[..])
    {
      hide PayloadsKept, Carried, Live, Tiles, Circular, Flags, Cells, FreeCells, Coalesced, FreePayload, RingExact,
        Find, IsLive, MemHeap.Alloc, MemHeap.Free, Extend, Shrink, Move, Border, GrowTest, Overruns;
      ghost var h := Value();
      ghost var i := LivePlace(h, p);
      ResizeCases(h, p, size);
      BlockHeader(blocks, end, h.Unit(), i, next[..], prev[..], used[..]);
      var ptr: nat := p - HDR;
      var after := next[ptr];
      var has := after - ptr - HDR;
      if size > has {
        if !used[after] {
          BlockHeader(blocks, end, h.Unit(), i + 1, next[..], prev[..], used[..]);
          if GrowTest(next[after] - after - HDR, has, size) {
            ghost var b0 := bytes[..];
            ExtendBlock(ptr, p + size, size - has, i);
            StayKeeps(h, p, size, b0, bytes[..]);
            return Some(p);
          }
        }
        q := Relocate(p, size);
      } else if size + HDR + MIN >= has {
        AllKept(h, bytes[..]);
        StayKeeps(h, p, size, bytes[..], bytes[..]);
        q := Some(p);
      } else {
        ShrinkBlock(ptr, p + size, i);
        q := Some(p);
      }
    }
  }

  /** How many bytes of the block at p a resize to `size` carries over. */
  ghost function Kept(h: Pool, p: int, size: nat): int
    requires IsLive(h, p)
  {
    Least(Payload(h.blocks[Find(h.blocks, p - HDR)]), size)
  }

  /** The live blocks other than the one at p. */
  ghost function Others(h: Pool, p: Option<int>): set<Block>
    requires p.Some? ==> IsLive(h, p.value)
  {
    if p.Some? then Live(h.blocks) - {h.blocks[Find(h.blocks, p.value - HDR)]} else Live(h.blocks)
  }

  // ---- What happens to the bytes ----

  lemma ArraySizes(bs: seq<Block>, ring: seq<nat>, end: nat, next: seq<nat>, prev: seq<nat>,
                   nextFree: seq<nat>, prevFree: seq<nat>, used: seq<bool>)
    requires Circular(Cells(bs, end), next, prev) && Circular(FreeCells(ring, end), nextFree, prevFree)
    requires Flags(bs, end, used) && |next| == |nextFree| == end + 2
    ensures |prev| == |prevFree| == |used| == end + 2
  {
  }

  lemma FreeNeighbours(ring: seq<nat>, end: nat, k: nat, next: seq<nat>, prev: seq<nat>)
    requires Circular(FreeCells(ring, end), next, prev) && 0 < k <= |ring| && |next| == end + 2
    ensures var s := ring[k - 1];
            && |prev| == end + 2 && s < end + 2 && next[s] < end + 2 && prev[s] < end + 2
            && (next[s] == end + 1 || next[s] in ring) && (prev[s] == end + 1 || prev[s] in ring)
  {
    var c := FreeCells(ring, end);
    assert Linked(c, k, next, prev);
    assert Linked(c, if k + 1 == |c| then 0 else k + 1, next, prev) && Linked(c, k - 1, next, prev);
  }

  lemma OffFewer(ring: seq<nat>, s: nat)
    ensures forall x :: x in Off(ring, s) ==> x in ring
  {
  }

  lemma SpotsIn(bs: seq<Block>, ring: seq<nat>, end: nat, places: set<nat>, i: nat)
    requires Spots(bs, ring, end, places) && i < |bs|
    ensures bs[i].start in places && bs[i].next in places && end in places
  {
    assert Spot(bs[i], places);
  }

  lemma SpotsSplit(bs: seq<Block>, ring: seq<nat>, end: nat, places: set<nat>, i: nat, at: nat)
    requires Spots(bs, ring, end, places) && i < |bs| && at in places
    ensures Spots(Split(bs, i, at), ring, end, places)
  {
    hide Split;
    var r := Split(bs, i, at);
    SplitAt(bs, i, at, 0);
    forall k | 0 <= k < |r| ensures Spot(r[k], places) {
      SplitAt(bs, i, at, k);
      assert Spot(bs[i], places) && Spot(bs[if k <= i then k else k - 1], places);
    }
  }

  lemma SpotsMerge(bs: seq<Block>, ring: seq<nat>, end: nat, places: set<nat>, i: nat)
    requires Spots(bs, ring, end, places) && i + 1 < |bs|
    ensures Spots(Merge(bs, i), ring, end, places)
  {
    hide Merge;
    var r := Merge(bs, i);
    MergeAt(bs, i, 0);
    forall k | 0 <= k < |r| ensures Spot(r[k], places) {
      MergeAt(bs, i, k);
      assert Spot(bs[k], places) && Spot(bs[k + 1], places);
    }
  }

  lemma SpotsUsed(bs: seq<Block>, ring: seq<nat>, end: nat, places: set<nat>, i: nat, u: bool)
    requires Spots(bs, ring, end, places) && i < |bs|
    ensures Spots(SetUsed(bs, i, u), ring, end, places)
  {
    var r := SetUsed(bs, i, u);
    forall k | 0 <= k < |r| ensures Spot(r[k], places) { assert Spot(bs[k], places); }
  }

  /** The places of a pool, and one more, have its headers. */
  lemma StartTraced(h: Pool, at: nat, was: seq<Byte>)
    requires h.Good()
    ensures Spots(h.blocks, h.ring, h.end, Places(h.blocks, h.end) + {at})
    ensures HeadersIn(Places(h.blocks, h.end) + {at}, HDR, was, was)
  {
    hide Tiles, Coalesced, FreePayload;
    var places := Places(h.blocks, h.end) + {at};
    forall i | 0 <= i < |h.blocks| ensures Spot(h.blocks[i], places) {
      assert h.blocks[i] in h.blocks;
      NextPlace(h.blocks, h.end, h.Unit(), i);
    }
    forall x | x in h.ring ensures x in places {
      var i := FreeIndex(h.blocks, x);
      assert h.blocks[i] in h.blocks;
    }
  }

  lemma NextPlace(bs: seq<Block>, end: nat, unit: nat, i: nat)
    requires Tiles(bs, end, HDR, unit) && i < |bs|
    ensures bs[i].next in Places(bs, end)
  {
    if i + 1 < |bs| { assert bs[i + 1] in bs && bs[i].next == bs[i + 1].start; }
  }

  /** Headers written at the old places and somewhere in a free block leave every live payload alone. */
  lemma OthersKept(h: Pool, i: nat, at: nat, was: seq<Byte>, now: seq<Byte>)
    requires h.Good() && i < |h.blocks| && |was| >= h.end
    requires h.blocks[i].start <= at <= h.blocks[i].next && (h.blocks[i].used ==> at == h.blocks[i].start)
    requires HeadersIn(Places(h.blocks, h.end) + {at}, HDR, was, now)
    ensures PayloadsKept(HDR, Live(h.blocks), was, now)
  {
    hide Tiles, Coalesced, FreePayload, RingExact, HeadersIn;
    forall c | c in Live(h.blocks)
      ensures c.start + HDR <= c.next <= |was| == |now| && was[c.start + HDR..c.next] == now[c.start + HDR..c.next]
    {
      var j := LiveIndex(h.blocks, c);
      BlockFacts(h, j);
      Sides(h, i, j);
      PlacesKeep(h.blocks, h.end, HDR, h.Unit(), at, was, now, c, c.next);
    }
  }

  lemma LiveIndex(bs: seq<Block>, c: Block) returns (j: nat)
    requires c in Live(bs)
    ensures j < |bs| && bs[j] == c && c.used
  {
    j :| 0 <= j < |bs| && bs[j] == c;
  }

  lemma Sides(h: Pool, i: nat, j: nat)
    requires h.Good() && i < |h.blocks| && j < |h.blocks|
    ensures i == j || h.blocks[j].next <= h.blocks[i].start || h.blocks[i].next <= h.blocks[j].start
  {
    if i < j { Ordered(h.blocks, h.end, HDR, h.Unit(), i, j); }
    if j < i { Ordered(h.blocks, h.end, HDR, h.Unit(), j, i); }
  }

  lemma AllKept(h: Pool, b: seq<Byte>)
    requires h.Good() && |b| >= h.end
    ensures PayloadsKept(HDR, Live(h.blocks), b, b)
  {
    forall c | c in Live(h.blocks) ensures c.start + HDR <= c.next <= |b| {
      var j := LiveIndex(h.blocks, c);
      BlockFacts(h, j);
    }
  }

  lemma ShrinkKeeps(h: Pool, i: nat, at: nat, was: seq<Byte>, now: seq<Byte>)
    requires h.Good() && i < |h.blocks| && |was| >= h.end && h.blocks[i].start + HDR <= at <= h.blocks[i].next
    requires HeadersIn(Places(h.blocks, h.end) + {at}, HDR, was, now)
    ensures PayloadsKept(HDR, Live(h.blocks) - {h.blocks[i]}, was, now)
    ensures var p := h.blocks[i].start + HDR; Carried(was, now, p, p, at - p)
  {
    hide Tiles, Coalesced, FreePayload, RingExact, HeadersIn;
    forall c | c in Live(h.blocks) - {h.blocks[i]}
      ensures c.start + HDR <= c.next <= |was| == |now| && was[c.start + HDR..c.next] == now[c.start + HDR..c.next]
    {
      var j := LiveIndex(h.blocks, c);
      BlockFacts(h, j);
      Sides(h, i, j);
      PlacesKeep(h.blocks, h.end, HDR, h.Unit(), at, was, now, c, c.next);
    }
    PlacesKeep(h.blocks, h.end, HDR, h.Unit(), at, was, now, h.blocks[i], at);
  }

  /** A block that stays where it is keeps its bytes. */
  lemma StayKeeps(h: Pool, p: int, size: nat, was: seq<Byte>, now: seq<Byte>)
    requires h.Good() && IsLive(h, p) && PayloadsKept(HDR, Live(h.blocks), was, now)
    ensures Carried(was, now, p, p, Kept(h, p, size)) && PayloadsKept(HDR, Others(h, Some(p)), was, now)
  {
    hide Tiles, Coalesced, FreePayload, RingExact, Live;
    var i := LivePlace(h, p);
    var b := h.blocks[i];
    BlockFacts(h, i);
    Prefix(was, now, p, b.next, Least(Payload(b), size));
  }

  /** The old block and the new one are both live while the bytes are copied. */
  lemma MoveFacts(h: Pool, p: int, size: nat)
    requires h.Good() && IsLive(h, p) && MIN <= size <= WORD - 4 && MemHeap.Alloc(h, size).1.Some?
    ensures var h1 := MemHeap.Alloc(h, size).0;
            var b, c := h.blocks[Find(h.blocks, p - HDR)], Handed(h, size);
            && h1.Good() && h1.end == h.end && IsLive(h1, p)
            && b in Live(h.blocks) && Live(h1.blocks) == Live(h.blocks) + {c} && c !in Live(h.blocks)
            && MemHeap.Alloc(h, size).1 == Some(c.start + HDR)
            && c.start + HDR + size <= c.next <= h.end && b.start + HDR <= b.next <= h.end
  {
    hide Tiles, Coalesced, FreePayload, RingExact, Live, MemHeap.Alloc, IsLive, Handed;
    StillLive(h, size, p);
    AllocGrants(h, size);
    AllocSameEnd(h, size);
    var i := LivePlace(h, p);
    BlockFacts(h, i);
  }

  lemma AllocSameEnd(h: Pool, n: nat)
    ensures MemHeap.Alloc(h, n).0.end == h.end
  {
  }

  /** Through allocation, copy and release the bytes arrive and nobody else's change. */
  lemma MoveKeeps(h: Pool, p: int, size: nat, b0: seq<Byte>, b1: seq<Byte>, b2: seq<Byte>, b3: seq<Byte>)
    requires h.Good() && IsLive(h, p) && MIN <= size <= WORD - 4 && MemHeap.Alloc(h, size).1.Some?
    requires PayloadsKept(HDR, Live(h.blocks), b0, b1)
    requires Copied(b1, b2, Handed(h, size).start + HDR, p, Kept(h, p, size))
    requires PayloadsKept(HDR, Live(MemHeap.Alloc(h, size).0.blocks), b2, b3)
    ensures PayloadsKept(HDR, Others(h, Some(p)), b0, b3)
    ensures Carried(b0, b3, p, Handed(h, size).start + HDR, Kept(h, p, size))
  {
    hide Tiles, Coalesced, FreePayload, RingExact, Live, MemHeap.Alloc, IsLive, Handed, PayloadsKept, Carried,
      Copied, Beside, Find;
    MoveFacts(h, p, size);
    var i := LivePlace(h, p);
    var b, c, h1 := h.blocks[i], Handed(h, size), MemHeap.Alloc(h, size).0;
    Secluded(h1, Live(h.blocks) - {b}, c);
    KeptLess(HDR, Live(h1.blocks), {b}, b2, b3);
    CopyKeeps(HDR, Live(h.blocks), b, c, size, b0, b1, b2, b3);
  }

  lemma Secluded(h: Pool, live: set<Block>, c: Block)
    requires h.Good() && live <= Live(h.blocks) && c in Live(h.blocks) && c !in live
    ensures Beside(live, c)
  {
    forall d | d in live ensures d.next <= c.start || c.next <= d.start {
      LiveDisjoint(h.blocks, h.end, HDR, h.Unit(), c, d);
    }
  }

  // ---- What the operations do to the rings ----

  lemma InitialParts(end: nat, next: seq<nat>, prev: seq<nat>, nextFree: seq<nat>, prevFree: seq<nat>, used: seq<bool>)
    requires HDR <= end < WORD - HDR && end % 4 == 0
    requires |next| == |prev| == |nextFree| == |prevFree| == |used| == end + 2
    requires next[0] == prev[0] == end && next[end] == prev[end] == 0
    requires nextFree[0] == prevFree[0] == end + 1 && nextFree[end + 1] == prevFree[end + 1] == 0
    requires !used[0] && used[end]
    ensures Initial(end).Good()
    ensures Circular(Cells([Block(0, end, false)], end), next, prev)
    ensures Circular(FreeCells([0], end), nextFree, prevFree)
    ensures Flags([Block(0, end, false)], end, used)
  {
    hide Circular, Tiles, Coalesced, FreePayload, RingExact;
    var bs := [Block(0, end, false)];
    InitialGood(end);
    InitialRings(end, next, prev);
    assert Cells(bs, end) == [0, end];
    assert Marked(bs, 0, used);
    RotateRings(end + 1, nextFree, prevFree);
  }

  lemma InitialRings(a: nat, next: seq<nat>, prev: seq<nat>)
    requires 0 < a < |next| == |prev| && next[0] == a == prev[0] && next[a] == 0 == prev[a]
    ensures Circular([0, a], next, prev)
  {
    var c := [0, a];
    assert Linked(c, 0, next, prev) && Linked(c, 1, next, prev);
  }

  lemma RotateRings(a: nat, next: seq<nat>, prev: seq<nat>)
    requires 0 < a < |next| == |prev| && next[0] == a == prev[0] && next[a] == 0 == prev[a]
    ensures Circular(FreeCells([0], a - 1), next, prev)
  {
    var c := FreeCells([0], a - 1);
    assert c == [a, 0];
    assert Linked(c, 0, next, prev) && Linked(c, 1, next, prev);
  }

  lemma AllocFails(h: Pool, n: nat)
    requires MemHeap.Alloc(h, n).1.None?
    ensures MemHeap.Alloc(h, n).0 == h
  {
  }

  lemma MergedAt(bs: seq<Block>, i: nat)
    requires i + 1 < |bs|
    ensures |Merge(bs, i)| == |bs| - 1 && Merge(bs, i)[i] == bs[i].(next := bs[i + 1].next)
  {
  }

  lemma ExtendFacts(h: Pool, i: nat, at: nat)
    requires h.Good() && i < |h.blocks| && Border(h.blocks, i, at)
    ensures h.Unit() == MIN && at < h.end
    ensures h.blocks[i + 1].start in h.ring && at !in Off(h.ring, h.blocks[i + 1].start)
    ensures var r := Merge(h.blocks, i);
            && |r| > i && r[i].start == h.blocks[i].start && r[i].next == h.blocks[i + 1].next
            && Split(r, i, at) == Grow(h.blocks, i, at)
            && h.blocks[i].start + HDR + MIN <= at
  {
    hide Tiles, Coalesced, FreePayload, FreeStarts, Off, Distinct;
    BlockFacts(h, i);
    BlockFacts(h, i + 1);
    Touching(h.blocks, h.end, h.Unit(), i);
    FreeAt(h.blocks, i + 1);
    OffDistinct(h.ring, h.blocks[i + 1].start);
    NotAStart(h.blocks, h.end, h.Unit(), i + 1, at);
    MergeAt(h.blocks, i, i);
    GrowIsSplit(h.blocks, i, at);
  }

  lemma GrowIsSplit(bs: seq<Block>, i: nat, at: nat)
    requires i + 1 < |bs| && !bs[i + 1].used
    ensures |Merge(bs, i)| > i && Split(Merge(bs, i), i, at) == Grow(bs, i, at)
  {
    hide Merge, Split;
    MergeAt(bs, i, i);
    var r := Merge(bs, i);
    SplitAt(r, i, at, 0);
    forall k | 0 <= k < |bs| ensures Split(r, i, at)[k] == Grow(bs, i, at)[k] {
      SplitAt(r, i, at, k);
      if k + 1 < |bs| { MergeAt(bs, i, k); }
      if k > 0 { MergeAt(bs, i, k - 1); }
    }
  }

  lemma ShrinkFacts(h: Pool, i: nat, at: nat)
    requires h.Good() && i < |h.blocks| && h.blocks[i].used
    requires h.blocks[i].start + HDR + MIN <= at && at + HDR + MIN < h.blocks[i].next
    ensures h.Unit() == MIN && at < h.end && at !in h.ring
    ensures var r := Split(h.blocks, i, at);
            && |r| == |h.blocks| + 1 && r[i].used && r[i + 1] == Block(at, h.blocks[i].next, false)
            && (i + 1 < |h.blocks| ==> r[i + 2] == h.blocks[i + 1])
    ensures FreeNext(h.blocks, i) ==>
              && h.blocks[i + 1].start in h.ring && at !in Off(h.ring, h.blocks[i + 1].start)
              && h.blocks[i].next == h.blocks[i + 1].start
  {
    hide Tiles, Coalesced, FreePayload, FreeStarts, Split, Off, Distinct;
    BlockFacts(h, i);
    SplitAt(h.blocks, i, at, i);
    SplitAt(h.blocks, i, at, i + 1);
    if i + 1 < |h.blocks| { SplitAt(h.blocks, i, at, i + 2); }
    NotAStart(h.blocks, h.end, h.Unit(), i, at);
    if FreeNext(h.blocks, i) {
      FreeAt(h.blocks, i + 1);
      OffDistinct(h.ring, h.blocks[i + 1].start);
      Touching(h.blocks, h.end, h.Unit(), i);
    }
  }

  lemma CarveFacts(h: Pool, i: nat, need: nat)
    requires h.Good() && i < |h.blocks| && !h.blocks[i].used && MIN <= need <= Payload(h.blocks[i]) && need % 4 == 0
    ensures var s := h.blocks[i].start;
            var at := s + HDR + need;
            && s in h.ring && h.Unit() == MIN && at % 4 == 0
            && (Payload(h.blocks[i]) >= need + HDR + MIN ==>
                  && at !in Off(h.ring, s) && at < h.end
                  && |Split(h.blocks, i, at)| > i && Split(h.blocks, i, at)[i].start == s)
  {
    hide Tiles, Coalesced, FreePayload, FreeStarts, Split, Off, Distinct;
    var s, at := h.blocks[i].start, h.blocks[i].start + HDR + need;
    BlockFacts(h, i);
    FreeAt(h.blocks, i);
    OffDistinct(h.ring, s);
    if Payload(h.blocks[i]) >= need + HDR + MIN {
      NotAStart(h.blocks, h.end, h.Unit(), i, at);
      SplitAt(h.blocks, i, at, i);
    }
  }

  /** The block being freed is not on the free ring; a free block after it is. */
  lemma FreeFacts(h: Pool, i: nat)
    requires h.Good() && i < |h.blocks| && h.blocks[i].used
    ensures var bs := SetUsed(h.blocks, i, false);
            && |bs| == |h.blocks| && bs[i].start == h.blocks[i].start
            && (i > 0 ==> bs[i - 1] == h.blocks[i - 1]) && (i + 1 < |bs| ==> bs[i + 1] == h.blocks[i + 1])
    ensures h.blocks[i].start !in h.ring && h.blocks[i].start < h.end
    ensures FreeNext(h.blocks, i) ==>
              h.blocks[i + 1].start in h.ring && h.blocks[i].start !in Off(h.ring, h.blocks[i + 1].start)
  {
    hide Tiles, Coalesced, FreePayload, FreeStarts, Off, Distinct;
    UsedNotFree(h.blocks, h.end, h.Unit(), i);
    BlockFacts(h, i);
    if FreeNext(h.blocks, i) {
      FreeAt(h.blocks, i + 1);
      OffDistinct(h.ring, h.blocks[i + 1].start);
    }
  }

  /** Joining to the left first and then to the right comes to the same. */
  lemma LeftFirst(bs: seq<Block>, i: nat)
    requires i < |bs|
    ensures i > 0 && !bs[i - 1].used ==>
              var b1 := Merge(bs, i - 1);
              && |b1| == |bs| - 1 && b1[i - 1].start == bs[i - 1].start
              && (i + 1 < |bs| ==> b1[i] == bs[i + 1])
              && Absorb(bs, i) == if i + 1 < |bs| && !bs[i + 1].used then Merge(b1, i - 1) else b1
    ensures i == 0 || bs[i - 1].used ==>
              Absorb(bs, i) == if i + 1 < |bs| && !bs[i + 1].used then Merge(bs, i) else bs
  {
    if i > 0 && !bs[i - 1].used {
      MergeAt(bs, i - 1, i - 1);
      if i + 1 < |bs| {
        MergeAt(bs, i - 1, i);
        if !bs[i + 1].used { assert Merge(Merge(bs, i), i - 1) == Merge(Merge(bs, i - 1), i - 1); }
      }
    }
  }

  // ---- How the rings follow the blocks ----

  lemma CircularSizes(c: seq<nat>, next: seq<nat>, prev: seq<nat>)
    requires Circular(c, next, prev)
    ensures |next| == |prev|
  {
  }

  lemma CellsPush(ring: seq<nat>, end: nat, s: nat)
    requires s !in ring && s < end
    ensures s !in FreeCells(ring, end)
    ensures Insert(FreeCells(ring, end), 1, s) == FreeCells([s] + ring, end)
  {
  }

  lemma CellsDrop(ring: seq<nat>, end: nat, k: nat, next: seq<nat>, prev: seq<nat>)
    requires k < |ring| && Circular(FreeCells(ring, end), next, prev)
    ensures |FreeCells(ring, end)| >= 2 && FreeCells(ring, end)[k + 1] == ring[k]
    ensures RemoveAt(FreeCells(ring, end), k + 1) == FreeCells(Off(ring, ring[k]), end)
  {
    var c := FreeCells(ring, end);
    forall i, j | 0 <= i < j < |ring| ensures ring[i] != ring[j] { assert c[i + 1] != c[j + 1]; }
    OffAt(ring, k);
  }

  lemma CellAt(bs: seq<Block>, end: nat, i: nat)
    requires i <= |bs|
    ensures |Cells(bs, end)| == |bs| + 1
    ensures Cells(bs, end)[i] == if i < |bs| then bs[i].start else end
  {
  }

  lemma SplitFacts(bs: seq<Block>, end: nat, unit: nat, i: nat, at: nat,
                   next: seq<nat>, prev: seq<nat>, used: seq<bool>)
    requires Tiles(bs, end, HDR, unit) && Circular(Cells(bs, end), next, prev) && Flags(bs, end, used) && i < |bs|
    requires at % 4 == 0 && bs[i].start + HDR + unit <= at && at + HDR + unit <= bs[i].next
    ensures |Cells(bs, end)| == |bs| + 1 && Cells(bs, end)[i] == bs[i].start && at !in Cells(bs, end)
    ensures at < end && |used| == end + 2 && |next| == |prev|
    ensures Tiles(Split(bs, i, at), end, HDR, unit) && Flags(Split(bs, i, at), end, used[at := false])
    ensures Insert(Cells(bs, end), i + 1, at) == Cells(Split(bs, i, at), end)
  {
    hide Split, Tiles, Cells, Circular, Insert;
    CellAt(bs, end, i);
    CircularSizes(Cells(bs, end), next, prev);
    Inside(bs, end, HDR, unit, i);
    SplitTiles(bs, end, HDR, unit, i, at);
    CellsSplit(bs, end, i, at);
    forall k | 0 <= k < |Cells(bs, end)| ensures Cells(bs, end)[k] != at {
      CellAt(bs, end, k);
      if k < |bs| { Between(bs, end, unit, i, at, k); }
    }
    var r, used' := Split(bs, i, at), used[at := false];
    SplitAt(bs, i, at, 0);
    forall k | 0 <= k < |r| ensures Marked(r, k, used') {
      SplitAt(bs, i, at, k);
      if k != i + 1 {
        assert Marked(bs, if k <= i then k else k - 1, used);
        Between(bs, end, unit, i, at, if k <= i then k else k - 1);
      }
    }
  }

  lemma Between(bs: seq<Block>, end: nat, unit: nat, i: nat, at: nat, k: nat)
    requires Tiles(bs, end, HDR, unit) && i < |bs| && k < |bs| && bs[i].start < at < bs[i].next
    ensures bs[k].start != at
  {
    Inside(bs, end, HDR, unit, k);
    if i < k { Ordered(bs, end, HDR, unit, i, k); } else if k < i { Ordered(bs, end, HDR, unit, k, i); }
  }

  lemma CellsSplit(bs: seq<Block>, end: nat, i: nat, at: nat)
    requires i < |bs|
    ensures Insert(Cells(bs, end), i + 1, at) == Cells(Split(bs, i, at), end)
  {
    hide Split, Cells, Insert;
    var c, r := Cells(bs, end), Cells(Split(bs, i, at), end);
    CellAt(bs, end, 0);
    SplitAt(bs, i, at, 0);
    CellAt(Split(bs, i, at), end, 0);
    InsertAt(c, i + 1, at, 0);
    forall k | 0 <= k < |r| ensures Insert(c, i + 1, at)[k] == r[k] {
      InsertAt(c, i + 1, at, k);
      CellAt(Split(bs, i, at), end, k);
      if k < |bs| + 1 { SplitAt(bs, i, at, k); }
      CellAt(bs, end, if k <= i then k else k - 1);
    }
  }

  lemma JoinFacts(bs: seq<Block>, end: nat, unit: nat, i: nat, used: seq<bool>)
    requires Tiles(bs, end, HDR, unit) && Flags(bs, end, used) && i + 1 < |bs|
    ensures |Cells(bs, end)| == |bs| + 1 && Cells(bs, end)[i + 1] == bs[i + 1].start
    ensures Tiles(Merge(bs, i), end, HDR, unit) && Flags(Merge(bs, i), end, used)
    ensures RemoveAt(Cells(bs, end), i + 1) == Cells(Merge(bs, i), end)
  {
    hide Merge, Tiles, Cells, RemoveAt;
    CellAt(bs, end, i + 1);
    MergeTiles(bs, end, HDR, unit, i);
    CellsMerge(bs, end, i);
    var r := Merge(bs, i);
    MergeAt(bs, i, 0);
    forall k | 0 <= k < |r| ensures Marked(r, k, used) {
      MergeAt(bs, i, k);
      assert Marked(bs, if k <= i then k else k + 1, used);
    }
  }

  lemma CellsMerge(bs: seq<Block>, end: nat, i: nat)
    requires i + 1 < |bs|
    ensures |Cells(bs, end)| == |bs| + 1 && RemoveAt(Cells(bs, end), i + 1) == Cells(Merge(bs, i), end)
  {
    hide Merge, Cells, RemoveAt;
    var c, r := Cells(bs, end), Cells(Merge(bs, i), end);
    CellAt(bs, end, 0);
    MergeAt(bs, i, 0);
    CellAt(Merge(bs, i), end, 0);
    RemovedAt(c, i + 1, 0);
    forall k | 0 <= k < |r| ensures RemoveAt(c, i + 1)[k] == r[k] {
      RemovedAt(c, i + 1, k);
      CellAt(Merge(bs, i), end, k);
      if k < |bs| - 1 { MergeAt(bs, i, k); }
      CellAt(bs, end, if k <= i then k else k + 1);
    }
  }

  lemma FlagFacts(bs: seq<Block>, end: nat, unit: nat, i: nat, u: bool, used: seq<bool>)
    requires Tiles(bs, end, HDR, unit) && Flags(bs, end, used) && i < |bs|
    ensures bs[i].start < end && |used| == end + 2
    ensures Tiles(SetUsed(bs, i, u), end, HDR, unit) && Flags(SetUsed(bs, i, u), end, used[bs[i].start := u])
    ensures Cells(SetUsed(bs, i, u), end) == Cells(bs, end)
  {
    hide Tiles;
    Inside(bs, end, HDR, unit, i);
    SetUsedTiles(bs, end, HDR, unit, i, u);
    var r, used' := SetUsed(bs, i, u), used[bs[i].start := u];
    forall k | 0 <= k < |r| ensures Marked(r, k, used') {
      assert Marked(bs, k, used);
      MemHeap.Differ(bs, end, unit, k, i);
    }
    assert Cells(r, end) == Cells(bs, end);
  }

  // ---- Reading the headers ----

  /** What the header of block i says. */
  lemma BlockHeader(bs: seq<Block>, end: nat, unit: nat, i: nat, next: seq<nat>, prev: seq<nat>, used: seq<bool>)
    requires Tiles(bs, end, HDR, unit) && Circular(Cells(bs, end), next, prev) && Flags(bs, end, used) && i < |bs|
    requires |next| == end + 2
    ensures |prev| == |used| == end + 2 && bs[i].start < bs[i].next <= end
    ensures next[bs[i].start] == bs[i].next && used[bs[i].start] == bs[i].used
    ensures if i + 1 == |bs| then bs[i].next == end else bs[i].next == bs[i + 1].start < end
    ensures used[bs[i].next] == (i + 1 == |bs| || bs[i + 1].used)
    ensures var before := if i == 0 then end else bs[i - 1].start;
            before <= end && prev[bs[i].start] == before && used[before] == (i == 0 || bs[i - 1].used)
  {
    hide Cells, Circular;
    CellAt(bs, end, i);
    CellAt(bs, end, i + 1);
    CellAt(bs, end, |bs|);
    if i > 0 { CellAt(bs, end, i - 1); }
    CellLinks(Cells(bs, end), i, next, prev);
    Inside(bs, end, HDR, unit, i);
    assert Marked(bs, i, used);
    if i + 1 < |bs| {
      Touching(bs, end, unit, i);
      Inside(bs, end, HDR, unit, i + 1);
      assert Marked(bs, i + 1, used);
    }
    if i > 0 {
      Inside(bs, end, HDR, unit, i - 1);
      assert Marked(bs, i - 1, used);
    }
  }

  /** What the header before position k of the free ring says. */
  lemma RingHeader(h: Pool, k: nat, next: seq<nat>, prev: seq<nat>)
    requires h.Good() && Circular(FreeCells(h.ring, h.end), next, prev) && k <= |h.ring| && |next| == h.end + 2
    ensures (k > 0 ==> h.ring[k - 1] < h.end) && (k < |h.ring| ==> h.ring[k] < h.end)
    ensures next[if k == 0 then h.end + 1 else h.ring[k - 1]] == if k < |h.ring| then h.ring[k] else h.end + 1
  {
    hide Circular, Tiles, Coalesced, FreePayload, Find;
    CellLinks(FreeCells(h.ring, h.end), k, next, prev);
    if k > 0 {
      OnRing(h, k - 1);
      BlockFacts(h, Find(h.blocks, h.ring[k - 1]));
    }
    if k < |h.ring| {
      OnRing(h, k);
      BlockFacts(h, Find(h.blocks, h.ring[k]));
    }
  }

  /** Entry k of the free ring is a free block. */
  lemma RingBlock(h: Pool, k: nat, next: seq<nat>, prev: seq<nat>, used: seq<bool>) returns (i: nat)
    requires h.Good() && k < |h.ring| && |next| == h.end + 2
    requires Circular(Cells(h.blocks, h.end), next, prev) && Flags(h.blocks, h.end, used)
    ensures i == Find(h.blocks, h.ring[k]) && i < |h.blocks| && h.blocks[i].start == h.ring[k]
    ensures h.ring[k] < h.end
    ensures next[h.ring[k]] - h.ring[k] - HDR == Payload(h.blocks[i]) == SizeAt(h.blocks, h.ring[k])
  {
    hide Circular, Tiles, Coalesced, FreePayload, Find, RingExact, Cells, Flags;
    OnRing(h, k);
    i := Find(h.blocks, h.ring[k]);
    BlockHeader(h.blocks, h.end, h.Unit(), i, next, prev, used);
  }

  lemma SearchStep(h: Pool, k: nat, need: nat)
    requires k < |h.ring|
    ensures Search(h.ring, k, h.blocks, need) ==
            if SizeAt(h.blocks, h.ring[k]) >= need then k else Search(h.ring, k + 1, h.blocks, need)
  {
  }

  lemma SearchDone(h: Pool, k: nat, need: nat)
    requires k == |h.ring|
    ensures Search(h.ring, k, h.blocks, need) == |h.ring|
  {
  }
}
