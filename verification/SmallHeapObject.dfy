/**
 The small-memory heap as mem.c keeps it: a pool of bytes whose blocks carry headers
 with next, prev and used, and a pointer to the lowest free block.
 */
module SmallHeapObject {
  import opened Ipc
  import opened Tiling
  import opened HeapLinks
  import opened HeapBytes
  import opened SmallHeap

  const MAGIC: nat := 0x1ea0

  /** Byte k of a header: magic, used, next and prev, least significant byte first. */
  function HeaderByte(k: nat, used: bool, next: nat, prev: nat): Byte {
    if k == 0 then MAGIC % 256 else if k == 1 then MAGIC / 256
    else if k == 2 then (if used then 1 else 0) else if k == 3 then 0
    else ByteOf(if k < 8 then next else prev, k % 4)
  }

  /** rt_system_heap_init: the payload of a heap between two addresses, if it has room for the
      headers at its two ends. */
  function PoolSize(begin: nat, end: nat): Option<nat> {
    var low, high := Align(begin), end / 4 * 4;
    if high > 2 * HDR && high - 2 * HDR >= low then Some(high - low - 2 * HDR) else None
  }

  /** The heap lies between the addresses and no larger one does. */
  lemma PoolSizeLargest(begin: nat, end: nat)
    requires begin <= WORD - 4 && end < WORD
    ensures PoolSize(begin, end).Some? ==>
              var size := PoolSize(begin, end).value;
              && size % 4 == 0 && size + 2 * HDR < WORD && begin <= Align(begin) && Align(begin) + size + 2 * HDR <= end
    ensures forall low: nat, size: nat {:trigger Aligned(low, size)} ::
              Aligned(low, size) && begin <= low && low + size + 2 * HDR <= end && (begin > 0 || end > 2 * HDR + 3) ==>
                PoolSize(begin, end).Some? && size <= PoolSize(begin, end).value
  {
    AlignRounds(begin);
  }

  predicate Aligned(low: nat, size: nat) { low % 4 == 0 && size % 4 == 0 }

  function Redirect(l: nat, from: nat, to: nat): nat {
    if l == from then to else l
  }

  /** next, prev and used hold the header at each offset; writing a header also
      overwrites the bytes of the pool it lies on. */
  class HeapObject {
    const size: nat
    const next: array<nat>
    const prev: array<nat>
    const used: array<bool>
    const bytes: array<Byte>
    var lfree: nat
    var usedMem: int
    ghost var blocks: seq<Block>

    ghost function Value(): Heap
      reads this
    {
      Heap(size, blocks)
    }

    function End(): nat { size + HDR }

    /** The headers spell out the blocks. */
    ghost predicate Wired()
      reads this, next, prev, used
    {
      && next != prev && bytes.Length == End() + HDR
      && Tiles(blocks, End(), HDR, Value().Unit())
      && Links(blocks, End(), next[..], prev[..], used[..])
    }

    ghost predicate Laid()
      reads this, next, prev, used
    {
      Wired() && Lowest(blocks, End(), lfree) && usedMem == UsedBytes(blocks)
    }

    ghost predicate Valid()
      reads this, next, prev, used
    {
      Laid() && Value().Good()
    }

    /** rt_system_heap_init over a pool whose aligned size has been worked out. */
    constructor (size: nat)
      requires size % 4 == 0 && size + 2 * HDR < WORD
      ensures Valid() && Value() == Heap(size, [Block(0, size + HDR, false)])
      ensures fresh(next) && fresh(prev) && fresh(used) && fresh(bytes)
    {
      this.size := size;
      next := new nat[size + HDR + 1](_ => size + HDR);
      prev := new nat[size + HDR + 1](_ => 0);
      used := new bool[size + HDR + 1](k => k == size + HDR);
      bytes := new Byte[size + 2 * HDR](_ => 0);
      lfree := 0;
      usedMem := 0;
      blocks := [Block(0, size + HDR, false)];
      new;
      Stamp(0);
      Stamp(End());
      InitialGood(size);
      assert Header(blocks, 0, End(), next[..], prev[..], used[..]);
    }

    method Stamp(q: nat)
      requires q + HDR <= bytes.Length && q < next.Length && q < prev.Length && q < used.Length
      modifies bytes
      ensures Stamped(old(bytes[..]), bytes[..], q, HDR)
    {
      forall k | q <= k < q + HDR { bytes[k] := HeaderByte(k - q, used[q], next[q], prev[q]); }
    }

    /** The free block at mem, block i, swallows the free block after it. */
    method MergeNext(mem: nat, ghost i: nat)
      requires Laid() && i + 1 < |blocks| && blocks[i].start == mem && !blocks[i].used && !blocks[i + 1].used
      modifies this`lfree, this`blocks, next, prev, bytes
      ensures Laid() && blocks == Merge(old(blocks), i)
      ensures HeadersOnly(old(blocks), End(), HDR, old(bytes[..]), bytes[..])
    {
      hide Tiles, Links, Lowest, HeadersOnly, Stamped, UsedBytes, Merge;
      ghost var bs, n0, p0, b0, end, unit := blocks, next[..], prev[..], bytes[..], End(), Value().Unit();
      MergeFacts(bs, end, unit, i, n0, p0, used[..], lfree, b0);
      var nmem := next[mem];
      lfree := Redirect(lfree, nmem, mem);
      var after := next[nmem];
      next[mem] := after;
      assert next[..] == n0[mem := after];
      prev[after] := mem;
      assert prev[..] == p0[after := mem];
      Stamp(mem);
      ghost var b1 := bytes[..];
      HeaderStamped(bs, end, HDR, b0, b0, b1, mem);
      Stamp(after);
      HeaderStamped(bs, end, HDR, b0, b1, bytes[..], after);
      blocks := Merge(bs, i);
    }

    /** plug_holes. */
    method PlugHoles(mem: nat, ghost i: nat)
      requires Laid() && i < |blocks| && blocks[i].start == mem && !blocks[i].used
      modifies this`lfree, this`blocks, next, prev, bytes
      ensures Laid() && blocks == Absorb(old(blocks), i)
      ensures HeadersOnly(old(blocks), End(), HDR, old(bytes[..]), bytes[..])
    {
      hide Tiles, Links, Lowest, HeadersOnly, UsedBytes, Merge;
      ghost var bs, b0, end, unit := blocks, bytes[..], End(), Value().Unit();
      HeadersRefl(bs, end, b0);
      BlockHeader(bs, end, unit, i, next[..], prev[..], used[..]);
      var nmem := next[mem];
      if mem != nmem && !used[nmem] && nmem != End() {
        MergeNext(mem, i);
        MergeAt(bs, i, i);
        if i > 0 { MergeAt(bs, i, i - 1); }
      }
      ghost var b1, mid := blocks, bytes[..];
      BlockHeader(b1, end, unit, i, next[..], prev[..], used[..]);
      var pmem := prev[mem];
      if pmem != mem && !used[pmem] {
        MergeNext(pmem, i - 1);
        if b1 != bs { HeadersMerge(bs, i, end, HDR, mid, bytes[..]); }
        HeadersChain(bs, end, HDR, b0, mid, bytes[..]);
      }
    }

    /** The part of the block at ptr, block i, beyond `need` payload bytes becomes a block of its own. */
    method SplitBlock(ptr: nat, need: nat, ghost i: nat)
      requires Wired() && i < |blocks| && blocks[i].start == ptr && need % 4 == 0
      requires Value().Unit() <= need && ptr + HDR + need + HDR + Value().Unit() <= blocks[i].next
      modifies this`blocks, next, prev, used, bytes
      ensures Wired() && blocks == Split(old(blocks), i, ptr + HDR + need)
      ensures HeadersOnly(blocks, End(), HDR, old(bytes[..]), bytes[..])
    {
      hide Tiles, Links, HeadersOnly, Stamped, Split;
      ghost var bs, n0, p0, u0, b0, end, unit := blocks, next[..], prev[..], used[..], bytes[..], End(), Value().Unit();
      var ptr2: nat := ptr + HDR + need;
      SplitFacts(bs, end, unit, i, ptr2, n0, p0, u0, b0);
      blocks := Split(bs, i, ptr2);
      var after := next[ptr];
      used[ptr2] := false;
      next[ptr2] := after;
      prev[ptr2] := ptr;
      next[ptr] := ptr2;
      assert used[..] == u0[ptr2 := false];
      ghost var n1: seq<nat>, p1: seq<nat> := n0[ptr2 := after], p0[ptr2 := ptr];
      assert next[..] == n1[ptr := ptr2];
      Stamp(ptr2);
      ghost var b1 := bytes[..];
      HeaderStamped(blocks, end, HDR, b0, b0, b1, ptr2);
      Stamp(ptr);
      ghost var b2 := bytes[..];
      HeaderStamped(blocks, end, HDR, b0, b1, b2, ptr);
      if after != End() {
        prev[after] := ptr2;
        Stamp(after);
        HeaderStamped(blocks, end, HDR, b0, b2, bytes[..], after);
        assert prev[..] == p1[after := ptr2];
      } else {
        assert prev[..] == p1;
      }
    }

    /** The search loop of rt_malloc: first fit from the lowest free block. */
    method Search(need: nat) returns (found: bool, ptr: nat, ghost i: nat)
      requires Laid() && need <= size
      ensures var k := FirstFit(blocks, 0, need, size - need);
              i == k && found == (k < |blocks|) && (found ==> ptr == blocks[k].start)
    {
      hide Tiles, Links, Lowest, UsedBytes, Fits, FirstFit;
      ghost var unit := Value().Unit();
      i := LowestIndex(blocks, End(), lfree);
      StartBelow(blocks, End(), unit, i, lfree, need, size - need);
      ptr := lfree;
      while ptr < size - need
        invariant i <= |blocks| && ptr == (if i < |blocks| then blocks[i].start else End())
        invariant FirstFit(blocks, 0, need, size - need) == FirstFit(blocks, i, need, size - need)
        decreases |blocks| - i
      {
        BlockHeader(blocks, End(), unit, i, next[..], prev[..], used[..]);
        FitStep(blocks, i, need, size - need);
        if !used[ptr] && next[ptr] - (ptr + HDR) >= need { return true, ptr, i; }
        ptr := next[ptr];
        i := i + 1;
      }
      NoneAhead(blocks, End(), unit, i, need, size - need);
      return false, ptr, |blocks|;
    }

    /** The free block at ptr, block i, is taken, split if the rest makes a block of its own. */
    method Take(ptr: nat, need: nat, ghost i: nat)
      requires Valid() && i < |blocks| && blocks[i].start == ptr && !blocks[i].used
      requires need % 4 == 0 && MIN <= need <= Payload(blocks[i])
      modifies this`usedMem, this`blocks, next, prev, used, bytes
      ensures Wired() && usedMem == UsedBytes(blocks) && blocks == Carve(old(blocks), i, need)
      ensures HeadersOnly(blocks, End(), HDR, old(bytes[..]), bytes[..])
    {
      hide Tiles, Links, Lowest, HeadersOnly, Stamped, Split, SetUsed, UsedBytes, Live, Coalesced;
      ghost var bs, b0, unit := blocks, bytes[..], Value().Unit();
      BlockHeader(bs, End(), unit, i, next[..], prev[..], used[..]);
      if next[ptr] - (ptr + HDR) >= need + HDR + MIN {
        SplitSums(bs, i, ptr + HDR + need, HDR);
        SplitAt(bs, i, ptr + HDR + need, i);
        SplitBlock(ptr, need, i);
        usedMem := usedMem + (need + HDR);
      } else {
        usedMem := usedMem + (next[ptr] - ptr);
        HeadersRefl(bs, End(), b0);
      }
      ghost var b1, u1, mid := blocks, used[..], bytes[..];
      BlockHeader(b1, End(), unit, i, next[..], prev[..], u1);
      LinksSetUsed(b1, End(), HDR, unit, next[..], prev[..], u1, i, true);
      SetUsedTiles(b1, End(), HDR, unit, i, true);
      SetUsedSums(b1, i, true, HDR);
      used[ptr] := true;
      assert used[..] == u1[ptr := true];
      Stamp(ptr);
      HeaderStamped(b1, End(), HDR, b0, mid, bytes[..], ptr);
      HeadersSetUsed(b1, i, true, End(), HDR, b0, bytes[..]);
      blocks := SetUsed(b1, i, true);
    }

    /** lfree moves on to the next free block, or to heap_end. */
    method Advance(ghost k0: nat)
      requires Wired() && k0 < |blocks| && lfree == blocks[k0].start && AllUsed(blocks, k0)
      modifies this`lfree
      ensures Lowest(blocks, End(), lfree)
    {
      hide Tiles, Links, Lowest, UsedBytes, AllUsed;
      ghost var k, unit := k0, Value().Unit();
      EndHeader(blocks, End(), next[..], prev[..], used[..]);
      BlockHeader(blocks, End(), unit, k, next[..], prev[..], used[..]);
      while used[lfree] && lfree != End()
        invariant k <= |blocks| && lfree == (if k < |blocks| then blocks[k].start else End())
        invariant k < |blocks| ==> lfree < End() && used[lfree] == blocks[k].used
        invariant AllUsed(blocks, k)
        decreases |blocks| - k
      {
        BlockHeader(blocks, End(), unit, k, next[..], prev[..], used[..]);
        OneMoreUsed(blocks, k);
        lfree := next[lfree];
        k := k + 1;
        if k < |blocks| { BlockHeader(blocks, End(), unit, k, next[..], prev[..], used[..]); }
      }
      LowestFound(blocks, End(), unit, k);
    }

    /** rt_malloc. */
    method Malloc(n: nat) returns (p: Option<nat>)
      requires Valid() && n < WORD && !Hangs(Value(), n)
      modifies this, next, prev, used, bytes
      ensures Valid() && (Value(), p) == SmallHeap.Malloc(old(Value()), n)
      ensures HeadersOnly(blocks, End(), HDR, old(bytes[..]), bytes[..])
      ensures PayloadsKept(HDR, Live(old(blocks)), old(bytes[..]), bytes[..])
    {
      hide Tiles, Links, Lowest, HeadersOnly, UsedBytes, Carve, Live, Coalesced, PayloadsKept, AllUsed, FirstFit;
      ghost var h, b0 := Value(), bytes[..];
      MallocGood(h, n);
      MallocKeeps(h, n, b0, b0);
      HeadersRefl(blocks, End(), b0);
      if n == 0 { return None; }
      var need := Align(n);
      if need > size { return None; }
      if need < MIN { need := MIN; }
      var found, mem, i := Search(need);
      if !found { return None; }
      TakeStart(h, n, i, lfree);
      Take(mem, need, i);
      if mem == lfree { Advance(i); }
      MallocKeeps(h, n, b0, bytes[..]);
      return Some(mem + HDR);
    }

    /** rt_free. */
    method Free(p: int)
      requires Valid() && (InRange(Value(), p) ==> IsLive(Value(), p))
      modifies this, next, prev, used, bytes
      ensures Valid() && Value() == SmallHeap.Free(old(Value()), p)
      ensures PayloadsKept(HDR, Live(blocks), old(bytes[..]), bytes[..])
    {
      hide Tiles, Links, Lowest, HeadersOnly, Stamped, UsedBytes, SetUsed, Absorb, Live, Coalesced, PayloadsKept;
      ghost var h, b0, u0, unit := Value(), bytes[..], used[..], Value().Unit();
      FreeGood(h, p);
      FreeKeeps(h, p, b0, b0);
      HeadersRefl(blocks, End(), b0);
      if p < 0 || p >= End() { return; }
      ghost var i := Find(blocks, p - HDR, 0);
      BlockHeader(blocks, End(), unit, i, next[..], prev[..], u0);
      var mem: nat := p - HDR;
      LinksSetUsed(blocks, End(), HDR, unit, next[..], prev[..], u0, i, false);
      SetUsedTiles(blocks, End(), HDR, unit, i, false);
      SetUsedSums(blocks, i, false, HDR);
      LowestRelease(blocks, End(), HDR, unit, i, lfree);
      SetUsedHere(blocks, i, false);
      used[mem] := false;
      assert used[..] == u0[mem := false];
      Stamp(mem);
      ghost var b1 := bytes[..];
      HeaderStamped(blocks, End(), HDR, b0, b0, b1, mem);
      if mem < lfree { lfree := mem; }
      usedMem := usedMem - (next[mem] - mem);
      blocks := SetUsed(blocks, i, false);
      PlugHoles(mem, i);
      HeadersSetUsed(h.blocks, i, false, End(), HDR, b1, bytes[..]);
      HeadersChain(h.blocks, End(), HDR, b0, b1, bytes[..]);
      FreeKeeps(h, p, b0, bytes[..]);
    }

    /** The used block at ptr, block i, keeps its first newsize bytes. */
    method ShrinkBlock(ptr: nat, newsize: nat, ghost i: nat)
      requires Valid() && i < |blocks| && blocks[i].start == ptr && blocks[i].used
      requires newsize % 4 == 0 && 4 <= newsize && newsize + HDR + MIN < Payload(blocks[i])
      modifies this, next, prev, used, bytes
      ensures Valid() && blocks == Shrink(old(blocks), i, newsize)
      ensures HeadersOnly(Split(old(blocks), i, ptr + HDR + newsize), End(), HDR, old(bytes[..]), bytes[..])
    {
      hide Tiles, Links, Lowest, HeadersOnly, UsedBytes, Split, Absorb, Live, Coalesced;
      ghost var h, b0 := Value(), bytes[..];
      var ptr2 := ptr + HDR + newsize;
      BlockHeader(blocks, End(), h.Unit(), i, next[..], prev[..], used[..]);
      ShrinkGood(h, i, newsize);
      SplitSums(blocks, i, ptr2, HDR);
      LowestSplit(blocks, End(), HDR, h.Unit(), i, ptr2, lfree);
      SplitAt(blocks, i, ptr2, i + 1);
      usedMem := usedMem - (next[ptr] - ptr - HDR - newsize);
      SplitBlock(ptr, newsize, i);
      if ptr2 < lfree { lfree := ptr2; }
      ghost var b1 := bytes[..];
      PlugHoles(ptr2, i + 1);
      HeadersChain(Split(h.blocks, i, ptr2), End(), HDR, b0, b1, bytes[..]);
    }

    /** rt_memcpy between two places that do not overlap. */
    method Copy(dst: nat, src: nat, len: nat)
      requires dst + len <= bytes.Length && src + len <= bytes.Length
      modifies bytes
      ensures Copied(old(bytes[..]), bytes[..], dst, src, len)
    {
      forall k | dst <= k < dst + len { bytes[k] := bytes[k - dst + src]; }
    }

    /** The block at p, block i, moves to a new place. */
    method Relocate(p: nat, newsize: nat, ghost i: nat) returns (q: Option<nat>)
      requires Valid() && InRange(Value(), p) && IsLive(Value(), p) && newsize <= WORD - 4 && !Hangs(Value(), newsize)
      requires i == Find(blocks, p - HDR, 0) && 0 < newsize
      modifies this, next, prev, used, bytes
      ensures Valid() && (Value(), q) == Move(old(Value()), p, newsize)
      ensures var b := old(blocks)[i];
              && PayloadsKept(HDR, Live(old(blocks)) - {b}, old(bytes[..]), bytes[..])
              && (q.Some? ==> Carried(old(bytes[..]), bytes[..], p, q.value, Least(Payload(b), newsize)))
      ensures q.None? ==> PayloadsKept(HDR, Live(old(blocks)), old(bytes[..]), bytes[..])
    {
      hide Tiles, Links, Lowest, HeadersOnly, UsedBytes, Live, Coalesced, PayloadsKept, Carried, Copied,
        SmallHeap.Malloc, SmallHeap.Free, InRange, IsLive, Find, Handed, Hangs;
      ghost var h, b0 := Value(), bytes[..];
      ghost var j := LivePlace(h, p);
      BlockHeader(blocks, End(), h.Unit(), j, next[..], prev[..], used[..]);
      MoveLive(h, p, newsize);
      var extent := next[p - HDR] - p;
      q := Malloc(newsize);
      if q.None? { MallocFails(h, newsize); }
      KeptLess(HDR, Live(h.blocks), {h.blocks[i]}, b0, bytes[..]);
      if q.Some? {
        ghost var b1 := bytes[..];
        MoveFacts(h, p, newsize);
        Copy(q.value, p, if extent < newsize then extent else newsize);
        ghost var b2 := bytes[..];
        Free(p);
        MoveKeeps(h, p, newsize, b0, b1, b2, bytes[..]);
      }
    }

    /** rt_realloc of a live block. */
    method ResizeBlock(p: nat, newsize: nat) returns (q: Option<int>)
      requires Valid() && InRange(Value(), p) && IsLive(Value(), p)
      requires 4 <= newsize <= WORD - 4 && newsize % 4 == 0 && !Hangs(Value(), newsize)
      modifies this, next, prev, used, bytes
      ensures Valid() && (Value(), q) == Resize(old(Value()), p, newsize)
      ensures PayloadsKept(HDR, Others(old(Value()), Some(p)), old(bytes[..]), bytes[..])
      ensures q.Some? ==> Carried(old(bytes[..]), bytes[..], p, q.value, Kept(old(Value()), p, newsize))
      ensures q.None? ==> PayloadsKept(HDR, Live(old(blocks)), old(bytes[..]), bytes[..])
    {
      hide Tiles, Links, Lowest, HeadersOnly, UsedBytes, Live, Coalesced, PayloadsKept, Carried, Others, InRange,
        SmallHeap.Malloc, SmallHeap.Free, IsLive, Find, Move, Shrink, Hangs;
      ghost var h, b0 := Value(), bytes[..];
      ghost var i := LivePlace(h, p);
      BlockHeader(blocks, End(), h.Unit(), i, next[..], prev[..], used[..]);
      var ptr := p - HDR;
      var extent := next[ptr] - ptr - HDR;
      if extent == newsize {
        NothingMoved(h, Some(p), b0);
        StaysThere(h, p, newsize, b0);
        return Some(p);
      }
      if newsize + HDR + MIN < extent {
        ShrinkBlock(ptr, newsize, i);
        ShrinkKeeps(h, p, newsize, b0, bytes[..]);
        return Some(p);
      }
      OthersThere(h, p);
      q := Relocate(p, newsize, i);
    }

    /** rt_realloc to size 0. */
    method Drop(p: Option<int>)
      requires Valid() && (p.Some? && InRange(Value(), p.value) ==> IsLive(Value(), p.value))
      modifies this, next, prev, used, bytes
      ensures Valid() && Value() == if p.None? then old(Value()) else SmallHeap.Free(old(Value()), p.value)
      ensures PayloadsKept(HDR, Others(old(Value()), p), old(bytes[..]), bytes[..])
    {
      hide Tiles, Links, Lowest, HeadersOnly, UsedBytes, Live, Coalesced, PayloadsKept, Others, SmallHeap.Free, IsLive;
      NothingMoved(Value(), p, bytes[..]);
      if p.Some? {
        OthersFreed(Value(), p.value);
        Free(p.value);
      }
    }

    /** rt_realloc. */
    method Realloc(p: Option<int>, n: nat) returns (q: Option<int>)
      requires Valid() && n < WORD && !Hangs(Value(), Align(n))
      requires p.Some? && InRange(Value(), p.value) ==> IsLive(Value(), p.value)
      modifies this, next, prev, used, bytes
      ensures Valid() && (Value(), q) == SmallHeap.Realloc(old(Value()), p, n)
      ensures PayloadsKept(HDR, Others(old(Value()), p), old(bytes[..]), bytes[..])
      ensures p.Some? && InRange(Value(), p.value) && q.Some? ==>
                Carried(old(bytes[..]), bytes[..], p.value, q.value, Kept(old(Value()), p.value, Align(n)))
      ensures q.None? && Align(n) > 0 ==> PayloadsKept(HDR, Live(old(blocks)), old(bytes[..]), bytes[..])
    {
      hide Tiles, Links, Lowest, HeadersOnly, UsedBytes, Live, Coalesced, PayloadsKept, Carried, Others,
        SmallHeap.Malloc, SmallHeap.Free, IsLive, Find, Align, Resize, Kept, Hangs;
      AlignRounds(n);
      ghost var h, b0 := Value(), bytes[..];
      NothingMoved(h, p, b0);
      NothingMoved(h, None, b0);
      AllOthers(h);
      var newsize := Align(n);
      if newsize > size { return None; }
      if newsize == 0 {
        Drop(p);
        return None;
      }
      if p.None? {
        q := Malloc(newsize);
        return;
      }
      if p.value < 0 || p.value >= End() { return p; }
      q := ResizeBlock(p.value, newsize);
    }
  }

  /** How many bytes of the block at p a resize to `size` carries over. */
  ghost function Kept(h: Heap, p: int, size: nat): int
    requires IsLive(h, p)
  {
    Least(Payload(h.blocks[Find(h.blocks, p - HDR, 0)]), size)
  }

  /** The live blocks other than the one at p. */
  ghost function Others(h: Heap, p: Option<int>): set<Block>
    requires p.Some? && InRange(h, p.value) ==> IsLive(h, p.value)
  {
    if p.Some? && InRange(h, p.value) then Live(h.blocks) - {h.blocks[Find(h.blocks, p.value - HDR, 0)]}
    else Live(h.blocks)
  }

  lemma AllOthers(h: Heap)
    ensures Others(h, None) == Live(h.blocks)
  {
  }

  lemma OthersThere(h: Heap, p: int)
    requires InRange(h, p) && IsLive(h, p)
    ensures Others(h, Some(p)) == Live(h.blocks) - {h.blocks[Find(h.blocks, p - HDR, 0)]}
  {
  }

  lemma OthersFreed(h: Heap, p: int)
    requires h.Good() && (InRange(h, p) ==> IsLive(h, p))
    ensures Others(h, Some(p)) == Live(SmallHeap.Free(h, p).blocks)
  {
    if InRange(h, p) { FreeReturns(h, p); }
  }

  lemma LivePlace(h: Heap, p: int) returns (i: nat)
    requires h.Good() && IsLive(h, p)
    ensures i == Find(h.blocks, p - HDR, 0) && i < |h.blocks| && h.blocks[i].used && h.blocks[i].start == p - HDR
  {
    i := Find(h.blocks, p - HDR, 0);
  }

  lemma NothingMoved(h: Heap, p: Option<int>, b: seq<Byte>)
    requires h.Good() && (p.Some? && InRange(h, p.value) ==> IsLive(h, p.value)) && |b| >= h.End()
    ensures PayloadsKept(HDR, Others(h, p), b, b)
  {
    KeptIn(h, Others(h, p), b, b);
  }

  lemma StaysThere(h: Heap, p: int, size: nat, b: seq<Byte>)
    requires h.Good() && InRange(h, p) && IsLive(h, p) && |b| >= h.End()
    ensures Carried(b, b, p, p, Kept(h, p, size))
  {
    BlockFacts(h, Find(h.blocks, p - HDR, 0));
  }

  lemma MallocFails(h: Heap, n: nat)
    requires !Hangs(h, n) && SmallHeap.Malloc(h, n).1.None?
    ensures SmallHeap.Malloc(h, n).0 == h
  {
  }

  lemma FreeKeeps(h: Heap, p: int, was: seq<Byte>, now: seq<Byte>)
    requires h.Good() && (InRange(h, p) ==> IsLive(h, p)) && |was| >= h.End()
    ensures HeadersOnly(h.blocks, h.End(), HDR, was, now) ==>
              PayloadsKept(HDR, Live(SmallHeap.Free(h, p).blocks), was, now)
  {
    hide HeadersOnly, Live, PayloadsKept, Tiles, Coalesced, Absorb, SetUsed;
    if HeadersOnly(h.blocks, h.End(), HDR, was, now) {
      if InRange(h, p) { FreeReturns(h, p); }
      KeptIn(h, Live(SmallHeap.Free(h, p).blocks), was, now);
    }
  }

  lemma SetUsedHere(bs: seq<Block>, i: nat, u: bool)
    requires i < |bs|
    ensures |SetUsed(bs, i, u)| == |bs| && SetUsed(bs, i, u)[i] == bs[i].(used := u)
  {
  }

  lemma ShrinkKeeps(h: Heap, p: int, newsize: nat, was: seq<Byte>, now: seq<Byte>)
    requires h.Good() && InRange(h, p) && IsLive(h, p) && |was| >= h.End() && newsize % 4 == 0 && 4 <= newsize
    requires var i := Find(h.blocks, p - HDR, 0);
             && newsize + HDR + MIN < Payload(h.blocks[i])
             && HeadersOnly(Split(h.blocks, i, p + newsize), h.End(), HDR, was, now)
    ensures PayloadsKept(HDR, Others(h, Some(p)), was, now)
    ensures Carried(was, now, p, p, newsize)
  {
    hide HeadersOnly, Live, PayloadsKept, Tiles, Coalesced, Split, Others, Find;
    var i := LivePlace(h, p);
    OthersThere(h, p);
    var r := Split(h.blocks, i, p + newsize);
    BlockFacts(h, i);
    SplitTiles(h.blocks, h.End(), HDR, h.Unit(), i, p + newsize);
    SplitLive(h.blocks, h.End(), HDR, h.Unit(), i, p + newsize);
    SplitAt(h.blocks, i, p + newsize, i);
    KeptOf(HDR, r, h.End(), h.Unit(), Others(h, Some(p)), was, now);
    PayloadKept(r, h.End(), HDR, h.Unit(), was, now, r[i]);
  }

  /** The old block and the new one are both live while the bytes are copied. */
  lemma MoveFacts(h: Heap, p: int, size: nat)
    requires h.Good() && InRange(h, p) && IsLive(h, p) && 0 < size <= WORD - 4 && !Hangs(h, size)
    requires SmallHeap.Malloc(h, size).1.Some?
    ensures var h1 := SmallHeap.Malloc(h, size).0;
            var b, c := h.blocks[Find(h.blocks, p - HDR, 0)], Handed(h, size);
            && h1.Good() && h1.size == h.size && InRange(h1, p) && IsLive(h1, p)
            && b in Live(h.blocks) && Live(h1.blocks) == Live(h.blocks) + {c} && c !in Live(h.blocks)
            && SmallHeap.Malloc(h, size).1 == Some(c.start + HDR)
            && c.start + HDR + size <= c.next <= h.End() && b.start + HDR <= b.next <= h.End()
            && Live(SmallHeap.Free(h1, p).blocks) == Live(h.blocks) + {c} - {b}
  {
    hide Tiles, Coalesced, Live, SmallHeap.Malloc, SmallHeap.Free, IsLive, Handed;
    MallocGood(h, size);
    HandedBlock(h, size);
    NeedAtLeast(size);
    StillLive(h, size, p);
    var i := LivePlace(h, p);
    BlockFacts(h, i);
    FreeReturns(h, p);
    FreeReturns(SmallHeap.Malloc(h, size).0, p);
  }

  /** Through allocation, copy and release the bytes arrive and nobody else's change. */
  lemma MoveKeeps(h: Heap, p: int, size: nat, b0: seq<Byte>, b1: seq<Byte>, b2: seq<Byte>, b3: seq<Byte>)
    requires h.Good() && InRange(h, p) && IsLive(h, p) && 0 < size <= WORD - 4 && !Hangs(h, size)
    requires SmallHeap.Malloc(h, size).1.Some? && PayloadsKept(HDR, Live(h.blocks), b0, b1)
    requires var h1 := SmallHeap.Malloc(h, size).0;
             var b, c := h.blocks[Find(h.blocks, p - HDR, 0)], Handed(h, size);
             && IsLive(h1, p)
             && Copied(b1, b2, c.start + HDR, p, Least(Payload(b), size))
             && PayloadsKept(HDR, Live(SmallHeap.Free(h1, p).blocks), b2, b3)
    ensures var b, c := h.blocks[Find(h.blocks, p - HDR, 0)], Handed(h, size);
            && PayloadsKept(HDR, Live(h.blocks) - {b}, b0, b3)
            && Carried(b0, b3, p, c.start + HDR, Least(Payload(b), size))
  {
    hide Tiles, Coalesced, Live, SmallHeap.Malloc, SmallHeap.Free, IsLive, InRange, Find, Handed, Hangs, Copied,
      PayloadsKept, Carried, Beside;
    MoveFacts(h, p, size);
    var i := LivePlace(h, p);
    var b, c, h1 := h.blocks[i], Handed(h, size), SmallHeap.Malloc(h, size).0;
    var live := Live(h.blocks);
    Secluded(h1, live - {b}, c);
    CopyKeeps(HDR, live, b, c, size, b0, b1, b2, b3);
  }

  lemma Secluded(h: Heap, live: set<Block>, c: Block)
    requires h.Good() && live <= Live(h.blocks) && c in Live(h.blocks) && c !in live
    ensures Beside(live, c)
  {
    forall d | d in live ensures d.next <= c.start || c.next <= d.start {
      LiveDisjoint(h.blocks, h.End(), HDR, h.Unit(), c, d);
    }
  }

  /** The first k blocks are used. */
  ghost predicate AllUsed(bs: seq<Block>, k: nat) {
    k <= |bs| && forall j :: 0 <= j < k ==> bs[j].used
  }

  lemma OneMoreUsed(bs: seq<Block>, k: nat)
    requires AllUsed(bs, k) && k < |bs| && bs[k].used
    ensures AllUsed(bs, k + 1)
  {
  }

  lemma LowestFound(bs: seq<Block>, end: nat, unit: nat, k: nat)
    requires Tiles(bs, end, HDR, unit) && AllUsed(bs, k) && (k < |bs| ==> !bs[k].used)
    ensures Lowest(bs, end, if k < |bs| then bs[k].start else end)
  {
    forall i | 0 <= i < |bs| && !bs[i].used && i > k ensures bs[k].start <= bs[i].start {
      After(bs, end, HDR, unit, k);
      Ordered(bs, end, HDR, unit, k, i);
    }
  }

  lemma EndHeader(bs: seq<Block>, end: nat, next: seq<nat>, prev: seq<nat>, used: seq<bool>)
    requires Links(bs, end, next, prev, used)
    ensures |next| == |prev| == |used| == end + 1 && next[end] == end && used[end]
  {
  }

  /** Nothing before the lowest free block fits. */
  lemma StartBelow(bs: seq<Block>, end: nat, unit: nat, k: nat, l: nat, need: nat, limit: int)
    requires Tiles(bs, end, HDR, unit) && Lowest(bs, end, l) && k <= |bs| && l == if k < |bs| then bs[k].start else end
    ensures FirstFit(bs, 0, need, limit) == FirstFit(bs, k, need, limit)
  {
    BelowLowest(bs, end, HDR, unit, k, l);
    SkipTo(bs, 0, k, need, limit);
  }

  lemma {:induction false} SkipTo(bs: seq<Block>, j: nat, k: nat, need: nat, limit: int)
    requires j <= k <= |bs| && forall m :: j <= m < k ==> !Fits(bs[m], need, limit)
    ensures FirstFit(bs, j, need, limit) == FirstFit(bs, k, need, limit)
    decreases k - j
  {
    if j == k {
    } else {
      SkipTo(bs, j + 1, k, need, limit);
    }
  }

  lemma FitStep(bs: seq<Block>, i: nat, need: nat, limit: int)
    requires i < |bs| && bs[i].start < limit
    ensures FirstFit(bs, i, need, limit) ==
            if !bs[i].used && Payload(bs[i]) >= need then i else FirstFit(bs, i + 1, need, limit)
  {
  }

  /** Past the limit no block is looked at. */
  lemma NoneAhead(bs: seq<Block>, end: nat, unit: nat, i: nat, need: nat, limit: int)
    requires Tiles(bs, end, HDR, unit) && i <= |bs| && (i < |bs| ==> bs[i].start >= limit)
    ensures FirstFit(bs, i, need, limit) == |bs|
  {
    forall m | i <= m < |bs| ensures !Fits(bs[m], need, limit) {
      if i < m {
        Inside(bs, end, HDR, unit, i);
        Ordered(bs, end, HDR, unit, i, m);
      }
    }
    SkipTo(bs, i, |bs|, need, limit);
  }

  lemma KeptIn(h: Heap, live: set<Block>, was: seq<Byte>, now: seq<Byte>)
    requires h.Good() && live <= Live(h.blocks) && HeadersOnly(h.blocks, h.End(), HDR, was, now) && |was| >= h.End()
    ensures PayloadsKept(HDR, live, was, now)
  {
    KeptOf(HDR, h.blocks, h.End(), h.Unit(), live, was, now);
  }

  lemma MallocKeeps(h: Heap, n: nat, was: seq<Byte>, now: seq<Byte>)
    requires h.Good() && n < WORD && !Hangs(h, n) && |was| >= h.End()
    ensures HeadersOnly(SmallHeap.Malloc(h, n).0.blocks, h.End(), HDR, was, now) ==>
              PayloadsKept(HDR, Live(h.blocks), was, now)
  {
    hide HeadersOnly, Live, PayloadsKept, Tiles, Coalesced, Handed;
    var h' := SmallHeap.Malloc(h, n).0;
    if HeadersOnly(h'.blocks, h.End(), HDR, was, now) {
      MallocGood(h, n);
      if SmallHeap.Malloc(h, n).1.Some? { HandedBlock(h, n); }
      KeptIn(h', Live(h.blocks), was, now);
    }
  }

  /** Taking block i leaves the lowest free block alone, or everything up to i is used. */
  lemma TakeStart(h: Heap, n: nat, i: nat, l: nat)
    requires h.Good() && n < WORD && Lowest(h.blocks, h.End(), l) && i < |h.blocks|
    requires Fits(h.blocks[i], Need(n), h.size - Need(n))
    ensures Need(n) % 4 == 0 && MIN <= Need(n)
    ensures |Carve(h.blocks, i, Need(n))| > i && Carve(h.blocks, i, Need(n))[i].start == h.blocks[i].start
    ensures if l == h.blocks[i].start then AllUsed(Carve(h.blocks, i, Need(n)), i)
            else Lowest(Carve(h.blocks, i, Need(n)), h.End(), l)
  {
    AlignRounds(n);
    hide Align, Tiles, Coalesced, Live, Lowest, AllUsed;
    var bs, need, end := h.blocks, Need(n), h.End();
    hide Need;
    CarveLive(h, i, need);
    if l == bs[i].start { CarveUsed(h, i, need, l); } else { CarveLowest(h, i, need, l); }
  }

  lemma CarveUsed(h: Heap, i: nat, need: nat, l: nat)
    requires h.Good() && Lowest(h.blocks, h.End(), l) && i < |h.blocks| && l == h.blocks[i].start
    requires |Carve(h.blocks, i, need)| > i
    ensures AllUsed(Carve(h.blocks, i, need), i)
  {
    hide Split;
    var bs := h.blocks;
    BelowLowest(bs, h.End(), HDR, h.Unit(), i, l);
    forall j | 0 <= j < i ensures Carve(bs, i, need)[j].used { SplitAt(bs, i, bs[i].start + HDR + need, j); }
  }

  lemma CarveLowest(h: Heap, i: nat, need: nat, l: nat)
    requires h.Good() && Lowest(h.blocks, h.End(), l) && i < |h.blocks| && l != h.blocks[i].start && !h.blocks[i].used
    ensures Lowest(Carve(h.blocks, i, need), h.End(), l)
  {
    hide Split, SetUsed, Tiles, Lowest;
    var bs := h.blocks;
    if Payload(bs[i]) >= need + HDR + MIN {
      var at := bs[i].start + HDR + need;
      LowestSplit(bs, h.End(), HDR, h.Unit(), i, at, l);
      SplitAt(bs, i, at, i);
      TakeHigher(Split(bs, i, at), i, h.End(), l);
    } else {
      TakeHigher(bs, i, h.End(), l);
    }
  }

  lemma TakeHigher(bs: seq<Block>, i: nat, end: nat, l: nat)
    requires i < |bs| && bs[i].start != l && Lowest(bs, end, l)
    ensures Lowest(SetUsed(bs, i, true), end, l)
  {
    if l != end {
      var k :| 0 <= k < |bs| && bs[k].start == l && !bs[k].used;
      assert SetUsed(bs, i, true)[k] == bs[k];
    }
  }

  lemma HeadersRefl(bs: seq<Block>, end: nat, b: seq<Byte>)
    ensures HeadersOnly(bs, end, HDR, b, b)
  {
  }

  /** What the header of block i says. */
  lemma BlockHeader(bs: seq<Block>, end: nat, unit: nat, i: nat, next: seq<nat>, prev: seq<nat>, used: seq<bool>)
    requires Tiles(bs, end, HDR, unit) && Links(bs, end, next, prev, used) && i < |bs|
    ensures |next| == |prev| == |used| == end + 1
    ensures bs[i].start < bs[i].next <= end
    ensures next[bs[i].start] == bs[i].next && used[bs[i].start] == bs[i].used
    ensures if i + 1 == |bs| then bs[i].next == end else bs[i].next == bs[i + 1].start < end
    ensures used[bs[i].next] == (i + 1 == |bs| || bs[i + 1].used)
    ensures i == 0 ==> bs[i].start == 0 == prev[0]
    ensures i > 0 ==> prev[bs[i].start] == bs[i - 1].start < bs[i].start && used[bs[i - 1].start] == bs[i - 1].used
  {
    assert Header(bs, i, end, next, prev, used);
    After(bs, end, HDR, unit, i);
    assert i == 0 ==> bs[i].start == 0;
    hide Tiles;
    if i + 1 < |bs| { assert Header(bs, i + 1, end, next, prev, used); }
    if i > 0 {
      assert Header(bs, i - 1, end, next, prev, used);
      After(bs, end, HDR, unit, i - 1);
    }
  }

  /** What MergeNext needs to know of the blocks. */
  lemma MergeFacts(bs: seq<Block>, end: nat, unit: nat, i: nat,
                   next: seq<nat>, prev: seq<nat>, used: seq<bool>, l: nat, b: seq<Byte>)
    requires Tiles(bs, end, HDR, unit) && Links(bs, end, next, prev, used) && Lowest(bs, end, l)
    requires i + 1 < |bs| && !bs[i].used && !bs[i + 1].used
    ensures bs[i].start < bs[i + 1].start < bs[i + 1].next <= end
    ensures |next| == |prev| == |used| == end + 1
    ensures next[bs[i].start] == bs[i + 1].start && next[bs[i + 1].start] == bs[i + 1].next
    ensures bs[i + 1].next == end || exists j :: 0 <= j < |bs| && bs[j].start == bs[i + 1].next
    ensures var r := Merge(bs, i);
            && Tiles(r, end, HDR, unit) && Lowest(r, end, l) && UsedBytes(r) == UsedBytes(bs)
            && Links(r, end, next[bs[i].start := bs[i + 1].next], prev[bs[i + 1].next := bs[i].start], used)
    ensures l != bs[i + 1].start
    ensures HeadersOnly(bs, end, HDR, b, b)
  {
    hide Tiles, Merge, Lowest, UsedBytes;
    BlockHeader(bs, end, unit, i, next, prev, used);
    BlockHeader(bs, end, unit, i + 1, next, prev, used);
    MergeTiles(bs, end, HDR, unit, i);
    LinksMerge(bs, end, HDR, unit, next, prev, used, i);
    LowestMerge(bs, end, HDR, unit, i, l);
    MergeSums(bs, i, HDR);
  }

  /** What SplitBlock needs to know of the blocks. */
  lemma SplitFacts(bs: seq<Block>, end: nat, unit: nat, i: nat, at: nat,
                   next: seq<nat>, prev: seq<nat>, used: seq<bool>, b: seq<Byte>)
    requires Tiles(bs, end, HDR, unit) && Links(bs, end, next, prev, used) && i < |bs|
    requires bs[i].start + HDR + unit <= at && at + HDR + unit <= bs[i].next && (at - bs[i].start - HDR) % 4 == 0
    ensures at < end && bs[i].next <= end && |next| == |prev| == |used| == end + 1
    ensures next[bs[i].start] == bs[i].next
    ensures var r := Split(bs, i, at);
            && |r| == |bs| + 1 && r[i].start == bs[i].start && r[i + 1].start == at
            && (bs[i].next == end || (|r| > i + 2 && r[i + 2].start == bs[i].next))
            && Tiles(r, end, HDR, unit) && HeadersOnly(r, end, HDR, b, b)
            && Links(r, end, next[at := bs[i].next][bs[i].start := at],
                     if bs[i].next == end then prev[at := bs[i].start] else prev[at := bs[i].start][bs[i].next := at],
                     used[at := false])
  {
    assert bs[i].start % 4 == 0;
    hide Tiles, Split;
    BlockHeader(bs, end, unit, i, next, prev, used);
    assert at % 4 == 0;
    hide Links;
    SplitAt(bs, i, at, i);
    SplitAt(bs, i, at, i + 1);
    if i + 1 < |bs| { SplitAt(bs, i, at, i + 2); }
    SplitTiles(bs, end, HDR, unit, i, at);
    LinksSplit(bs, end, HDR, unit, next, prev, used, i, at);
  }
}
