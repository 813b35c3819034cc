/** When rt_malloc of the slab heap succeeds and with what, and what becomes of a zone that rt_free empties. */
module SlabLaws {
  import opened Ipc
  import opened SlabZones
  import opened Slab
  import P = SlabPages

  /** There is a run of n free pages. */
  ghost predicate HasRun(pages: seq<P.Run>, n: nat) {
    exists i :: 0 <= i < |pages| && pages[i].count >= n
  }

  /** Some zone of index i has a chunk to give. */
  ghost predicate HasChunk(zones: map<nat, Zone>, i: int) {
    exists z :: z in zones && zones[z].index == i && zones[z].nfree > 0
  }

  /** Some zone other than z has, too. */
  ghost predicate HasOther(zones: map<nat, Zone>, i: int, z: nat) {
    exists y :: y in zones && y != z && zones[y].index == i && zones[y].nfree > 0
  }

  lemma RunFound(pages: seq<P.Run>, n: nat)
    ensures P.Alloc(pages, n).1.Some? <==> HasRun(pages, n)
  {
    P.AllocFirstFit(pages, n);
  }

  lemma ChunkListed(zones: map<nat, Zone>, lists: seq<seq<nat>>, i: nat)
    requires Listed(zones, lists) && i < NZONES
    ensures lists[i] != [] <==> HasChunk(zones, i)
  {
    assert ListOk(zones, lists[i], i);
    if lists[i] != [] { assert lists[i][0] in lists[i]; }
  }

  /** The pages a large request needs; the last requests of a word wrap to none. */
  lemma PagesExact(n: nat)
    requires 0 < n < WORD
    ensures if n <= WORD - PAGE then PagesFor(n) * PAGE >= n > (PagesFor(n) - 1) * PAGE && PagesFor(n) > 0
            else PagesFor(n) == 0
  {
  }

  /** rt_malloc fails exactly for no bytes, for a large request that wraps or finds no run of pages, and
      for a small one when no zone of its size has a chunk, no zone is spare and no run makes a zone. */
  lemma MallocExact(zoneSize: nat, total: set<nat>, h: Heap, n: nat)
    requires Inv(zoneSize, total, h) && n < WORD
    ensures |h.lists| == NZONES
    ensures Malloc(zoneSize, h, n).1.Some? <==>
              && n > 0
              && (n >= ZoneLimit(zoneSize) ==> n <= WORD - PAGE && HasRun(h.pages, PagesFor(n)))
              && (n < ZoneLimit(zoneSize) ==>
                    HasChunk(h.zones, Index(n)) || h.spare != [] || HasRun(h.pages, zoneSize / PAGE))
  {
    hide ZonesOk, Listed, Housed, Ledger, HasRun, HasChunk, P.Alloc, Index, PagesFor, ZoneLimit, SizeOf, Chunks, Give;
    ListsSize(zoneSize, total, h);
    if n == 0 {
    } else if n >= ZoneLimit(zoneSize) {
      PagesExact(n);
      RunFound(h.pages, PagesFor(n));
    } else {
      OpenInv(zoneSize, total, h, n);
      ChunkListed(h.zones, h.lists, Index(n));
      RunFound(h.pages, zoneSize / PAGE);
      if h.lists[Index(n)] != [] { TakeFacts(zoneSize, h, Index(n)); }
    }
  }

  /** What is handed out has exactly the chunk size of the request, or the pages it needs. */
  lemma MallocSize(zoneSize: nat, total: set<nat>, h: Heap, n: nat)
    requires Inv(zoneSize, total, h) && n < WORD
    ensures |h.lists| == NZONES
    ensures var (r, p) := Malloc(zoneSize, h, n);
            p.Some? ==> && Live(r, p.value) && (p.value.Large? <==> n >= ZoneLimit(zoneSize))
                        && Length(r, p.value) == if p.value.Large? then PagesFor(n) * PAGE else Chunk(n)
  {
    hide ZoneOk, Listed, Housed, Ledger, P.Alloc, Index, PagesFor, ZoneLimit, SizeOf, Chunks, Give, Chunk;
    ListsSize(zoneSize, total, h);
    MallocFresh(zoneSize, total, h, n);
    if 0 < n < ZoneLimit(zoneSize) {
      OpenInv(zoneSize, total, h, n);
      BelowLimit(zoneSize, n);
      IndexRight(n);
      if h.lists[Index(n)] != [] { TakeFacts(zoneSize, h, Index(n)); }
    }
  }

  /** A freed chunk goes back to its zone. The zone stays unless that was its last chunk in use and
      another zone of its size has a chunk to give; then it becomes spare, or, if there are enough of
      those, its pages are free again. */
  lemma FreeRetires(zoneSize: nat, total: set<nat>, h: Heap, z: nat, k: nat)
    requires Inv(zoneSize, total, h) && Live(h, Small(z, k))
    ensures h.zones[z].index < |h.lists|
    ensures var r := Free(zoneSize, h, Small(z, k));
            var zone := h.zones[z];
            var goes := zone.nfree + 1 == zone.nmax && HasOther(h.zones, zone.index, z);
            && (forall y :: y != z ==> (y in r.zones <==> y in h.zones) && (y in h.zones ==> r.zones[y] == h.zones[y]))
            && (!goes ==> r.spare == h.spare && r.pages == h.pages && r.usage == h.usage && z in r.zones &&
                          r.zones[z].nfree == zone.nfree + 1 && r.zones[z].free == [k] + zone.free &&
                          (zone.nfree > 0 ==> r.lists == h.lists) &&
                          (zone.nfree == 0 ==> r.lists == h.lists[zone.index := [z] + h.lists[zone.index]]))
            && (goes ==> forall i :: 0 <= i < |h.lists| && i != zone.index ==> r.lists[i] == h.lists[i])
            && (goes && |h.spare| < SPARE_MAX ==>
                  z !in r.zones && r.spare == [z] + h.spare && r.pages == h.pages && r.usage == h.usage)
            && (goes && |h.spare| >= SPARE_MAX ==>
                  && z !in r.zones && r.spare == h.spare && r.usage == h.usage - {z}
                  && P.Pages(r.pages) == P.Pages(h.pages) + P.Span(z, zoneSize / PAGE))
  {
    hide ZoneOk, Ledger, Off, P.Free, Distinct;
    ReturnedInv(zoneSize, total, h, z, k);
    OnlyMember(zoneSize, total, h, z, k);
    SomeFree(zoneSize, h.zones[z]);
    P.FreeGives(h.pages, z, zoneSize / PAGE);
  }

  /** With all its chunks back, the zone is alone on its list exactly if no other has one to give. */
  lemma OnlyMember(zoneSize: nat, total: set<nat>, h: Heap, z: nat, k: nat)
    requires Inv(zoneSize, total, h) && Live(h, Small(z, k))
    ensures var i := h.zones[z].index;
            i < |h.lists| && (Returned(h, z, k).lists[i] != [z] <==> HasOther(h.zones, i, z))
  {
    hide ZoneOk, Ledger;
    ReturnedInv(zoneSize, total, h, z, k);
    var r, i := Returned(h, z, k), h.zones[z].index;
    var list := r.lists[i];
    assert ListOk(r.zones, list, i) && (|list| >= 2 ==> list[0] != list[1]);
    SomeFree(zoneSize, h.zones[z]);
    assert z in r.zones && z in list;
    if HasOther(h.zones, i, z) {
      var y :| y in h.zones && y != z && h.zones[y].index == i && h.zones[y].nfree > 0;
      assert y in list;
    } else {
      forall j | 0 <= j < |list| ensures list[j] == z { assert list[j] in list; }
    }
  }

  lemma SomeFree(zoneSize: nat, zone: Zone)
    requires ZoneOk(zoneSize, zone)
    ensures zone.nfree >= 0
  {
  }

  /** Freed pages are free again, and no others. */
  lemma FreeReturnsPages(zoneSize: nat, total: set<nat>, h: Heap, q: nat)
    requires Inv(zoneSize, total, h) && Live(h, Large(q))
    ensures var r := Free(zoneSize, h, Large(q));
            && r == h.(pages := r.pages, usage := h.usage - {q})
            && P.Pages(r.pages) == P.Pages(h.pages) + P.Span(q, h.usage[q])
  {
    hide P.Free;
    P.FreeGives(h.pages, q, h.usage[q]);
  }

  /** Chunks that were never used are given first, in order; then the one given back last. */
  lemma GiveOrder(zoneSize: nat, zone: Zone, k: nat)
    requires ZoneOk(zoneSize, zone)
    ensures zone.uindex + 1 < zone.nmax ==> Give(zone).1 == Some(zone.uindex + 1)
    ensures zone.uindex + 1 == zone.nmax ==> Give(Back(zone, k)) == (zone, Some(k))
  {
  }

  /** A small request is served by the first zone of its list; without one by the spare zone retired
      last, and without that by a zone made of the first run of pages large enough. */
  lemma ServedBy(zoneSize: nat, total: set<nat>, h: Heap, n: nat)
    requires Inv(zoneSize, total, h) && 0 < n < ZoneLimit(zoneSize)
    ensures |h.lists| == NZONES && 0 <= Index(n) < NZONES
    ensures var (r, p) := Malloc(zoneSize, h, n);
            p.Some? ==>
              && p.value.Small?
              && (h.lists[Index(n)] != [] ==> p.value.zone == h.lists[Index(n)][0] && r.spare == h.spare)
              && (h.lists[Index(n)] == [] ==> p.value.k == 0 && r.lists[Index(n)] == [p.value.zone])
              && (h.lists[Index(n)] == [] && h.spare != [] ==> h.spare == [p.value.zone] + r.spare)
              && (h.lists[Index(n)] == [] && h.spare == [] ==>
                    P.Alloc(h.pages, zoneSize / PAGE) == (r.pages, Some(p.value.zone)))
  {
    hide ZoneOk, Listed, Housed, Ledger, P.Alloc, Index, SizeOf, Chunks, Give;
    ListsSize(zoneSize, total, h);
    OpenInv(zoneSize, total, h, n);
    if h.lists[Index(n)] != [] { TakeFacts(zoneSize, h, Index(n)); }
  }
}
