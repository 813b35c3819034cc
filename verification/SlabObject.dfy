/** The slab heap as slab.c keeps it, over the page list. */
module SlabObject {
  import opened Ipc
  import opened SlabZones
  import opened Slab
  import opened SlabUsage
  import P = SlabPages

  class SlabHeap {
    const zoneSize: nat
    const pageList: P.PageList
    const zoneArray: array<seq<nat>>
    const memusage: array<Desc>
    var zones: map<nat, Zone>
    var zoneFree: seq<nat>
    var zoneFreeCount: nat
    ghost var usage: map<nat, nat>
    ghost const total: set<nat>

    ghost function Value(): Heap
      reads this, pageList, zoneArray
    {
      Heap(zones, zoneArray[..], zoneFree, usage, pageList.runs)
    }

    ghost predicate Valid()
      reads this, pageList, zoneArray, memusage
    {
      && zoneFreeCount == |zoneFree| && Inv(zoneSize, total, Value())
      && Describes(zoneSize / PAGE, Value(), memusage[..]) && Covers(total, memusage[..])
    }

    /** rt_system_heap_init, once the first pages have been set aside for memusage, with whatever
        they hold. */
    constructor (zoneSize: nat, start: nat, count: nat, memusage: array<Desc>)
      requires ZoneSize(zoneSize) && count > 0 && memusage.Length == start + count
      ensures Valid() && Value() == Initial(start, count) && total == P.Span(start, count)
      ensures fresh(pageList) && fresh(zoneArray) && this.memusage == memusage
    {
      this.zoneSize, this.memusage := zoneSize, memusage;
      pageList := new P.PageList(start, count);
      zoneArray := new seq<nat>[NZONES](_ => []);
      zones, zoneFree, zoneFreeCount, usage := map[], [], 0, map[];
      total := P.Span(start, count);
      new;
      InitialInv(zoneSize, start, count);
      assert Value() == Initial(start, count);
    }

    /** rt_malloc of size bytes and more than a zone serves. */
    method AllocLarge(n: nat) returns (p: Option<Ptr>)
      requires Valid()
      modifies this`usage, pageList, memusage
      ensures zoneFreeCount == |zoneFree| && (Value(), p) == MallocLarge(old(Value()), PagesFor(n))
      ensures p.Some? ==> p.value.Large? && p.value.page < memusage.Length
      ensures memusage[..] == if p.None? then old(memusage[..])
                              else old(memusage[..])[p.value.page := LargePage(PagesFor(n))]
    {
      hide Inv, P.Alloc, Describes, Covers;
      var npages := PagesFor(n);
      var q := pageList.AllocPages(npages);
      if q.None? {
        if npages > 0 { AllocFails(old(pageList.runs), npages); }
        return None;
      }
      PagesFit(zoneSize, total, old(Value()), memusage[..], npages);
      memusage[q.value] := LargePage(npages);
      usage := usage[q.value := npages];
      return Some(Large(q.value));
    }

    /** A chunk from the first zone of list i. */
    method AllocChunk(i: nat) returns (p: Option<Ptr>)
      requires Valid() && i < NZONES && zoneArray[..][i] != []
      modifies this`zones, zoneArray
      ensures old(zoneArray[..])[i][0] in old(zones) && (Value(), p) == TakeChunk(old(Value()), i)
    {
      hide ZoneOk, Ledger, Distinct, Listed, ZonesOk, Housed, Describes, Covers;
      ghost var h := Value();
      ListsSize(zoneSize, total, h);
      TakeInv(zoneSize, total, h, i);
      TakeFacts(zoneSize, h, i);
      var z := zoneArray[i][0];
      var zone := zones[z];
      zone := zone.(nfree := zone.nfree - 1);
      if zone.nfree == 0 { zoneArray[i] := zoneArray[i][1..]; }
      if zone.uindex + 1 != zone.nmax {
        zone := zone.(uindex := zone.uindex + 1);
        p := Some(Small(z, zone.uindex));
      } else {
        p := Some(Small(z, zone.free[0]));
        zone := zone.(free := zone.free[1..]);
      }
      zones := zones[z := zone];
      assert zoneArray[..] == TakeChunk(h, i).0.lists;
    }

    /** The loop that describes the pages of a new zone. */
    method MarkZone(z: nat)
      requires z + zoneSize / PAGE <= memusage.Length
      modifies memusage
      ensures memusage[..] == Marked(old(memusage[..]), z, zoneSize / PAGE)
    {
      var off := 0;
      while off < zoneSize / PAGE
        invariant off <= zoneSize / PAGE && memusage[..] == Marked(old(memusage[..]), z, off)
      {
        memusage[z + off] := SmallPage(off);
        off := off + 1;
      }
    }

    /** The loop that describes the pages of a released zone as free. */
    method UnmarkZone(z: nat)
      requires z + zoneSize / PAGE <= memusage.Length
      modifies memusage
      ensures memusage[..] == Unmarked(old(memusage[..]), z, zoneSize / PAGE)
    {
      var i := 0;
      while i < zoneSize / PAGE
        invariant i <= zoneSize / PAGE && memusage[..] == Unmarked(old(memusage[..]), z, i)
      {
        memusage[z + i] := FreePage;
        i := i + 1;
      }
    }

    /** A zone for index i, a spare one or one made of fresh pages, and its first chunk. */
    method AllocZone(i: nat) returns (p: Option<Ptr>)
      requires Valid() && i < NZONES && SizeOf(i) > 0
      modifies this, pageList, zoneArray, memusage
      ensures zoneFreeCount == |zoneFree| && (Value(), p) == OpenZone(zoneSize, old(Value()), i)
      ensures p.Some? ==> p.value.Small? && (old(zoneFree) == [] ==> p.value.zone + zoneSize / PAGE <= memusage.Length)
      ensures memusage[..] == if p.None? || old(zoneFree) != [] then old(memusage[..])
                              else Marked(old(memusage[..]), p.value.zone, zoneSize / PAGE)
    {
      hide ZoneOk, Ledger, Distinct, Listed, ZonesOk, Housed, P.Alloc, SizeOf, Chunks, Describes, Covers, Marked;
      ghost var h := Value();
      ListsSize(zoneSize, total, h);
      var z: nat;
      if zoneFree != [] {
        z := zoneFree[0];
        zoneFree := zoneFree[1..];
        zoneFreeCount := zoneFreeCount - 1;
      } else {
        var q := pageList.AllocPages(zoneSize / PAGE);
        if q.None? {
          AllocFails(h.pages, zoneSize / PAGE);
          return None;
        }
        z := q.value;
        PagesFit(zoneSize, total, h, memusage[..], zoneSize / PAGE);
        MarkZone(z);
        usage := usage[z := zoneSize / PAGE];
      }
      var nmax := Chunks(zoneSize, SizeOf(i));
      zones := zones[z := Zone(i, nmax - 1, nmax, 0, [])];
      zoneArray[i] := [z] + zoneArray[i];
      assert zoneArray[..] == h.lists[i := [z] + h.lists[i]];
      return Some(Small(z, 0));
    }

    /** rt_malloc. */
    method MallocBytes(n: nat) returns (p: Option<Ptr>)
      requires Valid()
      modifies this, pageList, zoneArray, memusage
      ensures Valid() && zoneArray.Length == NZONES && (Value(), p) == Malloc(zoneSize, old(Value()), n)
      ensures memusage[..] == AfterMalloc(zoneSize, old(Value()), old(memusage[..]), n)
    {
      hide ZoneOk, Ledger, Distinct, Listed, ZonesOk, Housed, MallocLarge, TakeChunk, OpenZone, Index, Chunk, SizeOf,
        ZoneLimit, Describes, Covers, Marked, PagesFor;
      ghost var h := Value();
      ListsSize(zoneSize, total, h);
      MallocInv(zoneSize, total, h, n);
      MallocDescribes(zoneSize, total, h, memusage[..], n);
      StillCovers(total, memusage[..], AfterMalloc(zoneSize, h, memusage[..], n));
      if n == 0 { return None; }
      if n >= ZoneLimit(zoneSize) {
        p := AllocLarge(n);
        return;
      }
      BelowLimit(zoneSize, n);
      IndexRight(n);
      var i := Index(n);
      if zoneArray[i] != [] {
        TakeRuns(zoneSize, total, h, i);
        p := AllocChunk(i);
      } else {
        OpenWhere(zoneSize, total, h, memusage[..], i);
        p := AllocZone(i);
      }
    }

    /** Walks list i and takes zone z out of it. */
    method Unlink(i: nat, z: nat)
      requires i < zoneArray.Length && z in zoneArray[i] && Distinct(zoneArray[i])
      modifies zoneArray
      ensures zoneArray[..] == old(zoneArray[..])[i := Off(old(zoneArray[..])[i], z)]
    {
      hide Off;
      ghost var lists := zoneArray[..];
      var list, k := zoneArray[i], 0;
      while list[k] != z
        invariant k < |list| && z in list[k..]
        decreases |list| - k
      {
        assert list[k..] == [list[k]] + list[k + 1..];
        k := k + 1;
      }
      OffAt(list, k);
      zoneArray[i] := list[..k] + list[k + 1..];
      assert zoneArray[..] == lists[i := Off(lists[i], z)];
    }

    /** The page, kind and zone of an address, as its descriptor tells them. */
    method Find(addr: nat, ghost p: Ptr) returns (q: Ptr)
      requires Valid() && Live(Value(), p) && addr == Start(Value(), p)
      ensures q == p
      ensures p.Large? ==> p.page < memusage.Length && memusage[p.page] == LargePage(usage[p.page])
    {
      hide Inv, Describes, Covers, Offset, SizeOf, Live, Start;
      Located(zoneSize, total, Value(), memusage[..], p);
      var page := addr / PAGE;
      var kup := memusage[page];
      if kup.LargePage? {
        q := Large(page);
      } else {
        var z := page - if kup.SmallPage? then kup.off else 0;
        var size := SizeOf(zones[z].index);
        q := Small(z, (addr - z * PAGE - Offset(size)) / size);
      }
    }

    /** rt_free of the block at addr. */
    method FreePtr(addr: nat, ghost p: Ptr)
      requires Valid() && Live(Value(), p) && addr == Start(Value(), p)
      modifies this, pageList, zoneArray, memusage
      ensures p.Small? ==> old(Value()).zones[p.zone].index < |old(Value()).lists|
      ensures Valid() && Value() == Free(zoneSize, old(Value()), p)
      ensures memusage[..] == AfterFree(zoneSize, old(Value()), old(memusage[..]), p)
    {
      hide ZoneOk, Ledger, Distinct, Listed, ZonesOk, Housed, Describes, Covers, Unmarked, P.Free, Off, InUse, Start,
        Returned, Retired;
      ghost var h := Value();
      FreeInv(zoneSize, total, h, p);
      FreeDescribes(zoneSize, total, h, memusage[..], p);
      StillCovers(total, memusage[..], AfterFree(zoneSize, h, memusage[..], p));
      var found := Find(addr, p);
      match found {
        case Large(q) =>
          UsagePositive(h.usage, h.pages, total, q);
          var size := memusage[q].n;
          memusage[q] := LargePage(0);
          pageList.FreePages(q, size);
          usage := usage - {q};
        case Small(z, k) =>
          FreeChunk(z, k);
      }
    }

    /** rt_free of a chunk of the zone at z. */
    method FreeChunk(z: nat, k: nat)
      requires Valid() && Live(Value(), Small(z, k))
      modifies this, pageList, zoneArray, memusage
      ensures old(zones)[z].index < zoneArray.Length
      ensures zoneFreeCount == |zoneFree| && Value() == Free(zoneSize, old(Value()), Small(z, k))
      ensures memusage[..] == AfterFree(zoneSize, old(Value()), old(memusage[..]), Small(z, k))
    {
      hide ZoneOk, Ledger, Distinct, Listed, ZonesOk, Housed, Describes, Covers, Unmarked, P.Free, Off, InUse;
      ghost var h := Value();
      ReturnedInv(zoneSize, total, h, z, k);
      ZonesUsed(zoneSize, total, h, z);
      InsideTotal(h.usage, h.pages, total, memusage[..], z);
      var zone := Back(zones[z], k);
      var i := zone.index;
      if zones[z].nfree == 0 { zoneArray[i] := [z] + zoneArray[i]; }
      zones := zones[z := zone];
      assert zoneArray[..] == Returned(h, z, k).lists;
      assert Value() == Returned(h, z, k);
      if zone.nfree == zone.nmax && zoneArray[i] != [z] {
        Full(zoneSize, total, Value(), z);
        Retire(i, z);
      }
    }

    /** The zone at z leaves list i; it becomes spare or its pages are released. */
    method Retire(i: nat, z: nat)
      requires zoneFreeCount == |zoneFree| && i < zoneArray.Length && z in zoneArray[i] && Distinct(zoneArray[i])
      requires zoneSize / PAGE > 0 && z + zoneSize / PAGE <= memusage.Length
      modifies this, pageList, zoneArray, memusage
      ensures zoneFreeCount == |zoneFree| && Value() == Retired(zoneSize, old(Value()), i, z)
      ensures memusage[..] == if old(zoneFreeCount) + 1 > SPARE_MAX
                              then Unmarked(old(memusage[..]), z, zoneSize / PAGE) else old(memusage[..])
    {
      hide P.Free, Off, Distinct, Unmarked;
      Unlink(i, z);
      zones := zones - {z};
      zoneFree := [z] + zoneFree;
      zoneFreeCount := zoneFreeCount + 1;
      if zoneFreeCount > SPARE_MAX {
        zoneFree := zoneFree[1..];
        zoneFreeCount := zoneFreeCount - 1;
        UnmarkZone(z);
        usage := usage - {z};
        pageList.FreePages(z, zoneSize / PAGE);
      }
    }
  }

  lemma AllocFails(runs: seq<P.Run>, n: nat)
    requires P.Alloc(runs, n).1.None?
    ensures P.Alloc(runs, n).0 == runs
  {
    if runs != [] { AllocFails(runs[1..], n); }
  }

  lemma StillCovers(total: set<nat>, d: seq<Desc>, d': seq<Desc>)
    requires Covers(total, d) && |d'| == |d|
    ensures Covers(total, d')
  {
  }

  /** A zone with all its chunks free is on its list. */
  lemma Full(zoneSize: nat, total: set<nat>, h: Heap, z: nat)
    requires Inv(zoneSize, total, h) && z in h.zones && h.zones[z].nfree == h.zones[z].nmax
    ensures h.zones[z].index < |h.lists| && z in h.lists[h.zones[z].index] && Distinct(h.lists[h.zones[z].index])
    ensures zoneSize / PAGE > 0
  {
    hide Distinct, Ledger;
    assert ZoneOk(zoneSize, h.zones[z]);
    assert ListOk(h.zones, h.lists[h.zones[z].index], h.zones[z].index);
  }
}
