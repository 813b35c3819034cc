/**
 The slab heap: zones of equal chunks for small requests, whole pages for large ones. A
 chunk is named by its zone and its number in it; a zone or a large block by its first page.
 */
module Slab {
  import opened Ipc
  import opened SlabZones
  import P = SlabPages

  /** ZONE_RELEASE_THRESH. */
  const SPARE_MAX: nat := 2

  /** slab_zone: z_zoneindex, z_nfree, z_nmax, z_uindex and the chunks on z_freechunk. */
  datatype Zone = Zone(index: nat, nfree: int, nmax: int, uindex: nat, free: seq<nat>)

  /** lists is zone_array, spare is zone_free; usage records how many pages each zone and each
      large block has, as memusage does, and pages is the free page list. */
  datatype Heap = Heap(zones: map<nat, Zone>, lists: seq<seq<nat>>, spare: seq<nat>,
                       usage: map<nat, nat>, pages: seq<P.Run>)

  datatype Ptr = Small(zone: nat, k: nat) | Large(page: nat)

  /** Chunk k of a zone has been handed out and not given back. */
  predicate InUse(zone: Zone, k: nat) {
    k <= zone.uindex && k !in zone.free
  }

  /** p has been handed out and not given back. */
  predicate Live(h: Heap, p: Ptr) {
    match p
    case Small(z, k) => z in h.zones && InUse(h.zones[z], k)
    case Large(q) => q in h.usage && q !in h.zones && q !in h.spare
  }

  // ---- The operations ----

  /** A zone gives a chunk never used before, or failing that the first of its free chunks. */
  function Give(zone: Zone): (Zone, Option<nat>) {
    if zone.uindex + 1 != zone.nmax then
      (zone.(nfree := zone.nfree - 1, uindex := zone.uindex + 1), Some(zone.uindex + 1))
    else if zone.free != [] then
      (zone.(nfree := zone.nfree - 1, free := zone.free[1..]), Some(zone.free[0]))
    else (zone, None)
  }

  /** The first zone of list i gives a chunk, and leaves the list with its last one. */
  function TakeChunk(h: Heap, i: nat): (Heap, Option<Ptr>)
    requires i < |h.lists| && h.lists[i] != [] && h.lists[i][0] in h.zones
  {
    var z := h.lists[i][0];
    var (zone, k) := Give(h.zones[z]);
    if k.None? then (h, None)
    else (h.(zones := h.zones[z := zone], lists := if zone.nfree == 0 then h.lists[i := h.lists[i][1..]] else h.lists),
          Some(Small(z, k.value)))
  }

  /** A fresh zone for index i at page z gives its first chunk. */
  function Opened(zoneSize: nat, h: Heap, i: nat, z: nat): Heap
    requires i < |h.lists| && SizeOf(i) > 0
  {
    var nmax := Chunks(zoneSize, SizeOf(i));
    h.(zones := h.zones[z := Zone(i, nmax - 1, nmax, 0, [])], lists := h.lists[i := [z] + h.lists[i]])
  }

  function OpenZone(zoneSize: nat, h: Heap, i: nat): (Heap, Option<Ptr>)
    requires i < |h.lists| && SizeOf(i) > 0
  {
    if h.spare != [] then (Opened(zoneSize, h.(spare := h.spare[1..]), i, h.spare[0]), Some(Small(h.spare[0], 0)))
    else
      var (pages, z) := P.Alloc(h.pages, zoneSize / PAGE);
      if z.None? then (h, None)
      else (Opened(zoneSize, h.(pages := pages, usage := h.usage[z.value := zoneSize / PAGE]), i, z.value),
            Some(Small(z.value, 0)))
  }

  function MallocLarge(h: Heap, npages: nat): (Heap, Option<Ptr>) {
    if npages == 0 then (h, None)
    else
      var (pages, q) := P.Alloc(h.pages, npages);
      if q.None? then (h, None)
      else (h.(pages := pages, usage := h.usage[q.value := npages]), Some(Large(q.value)))
  }

  /** The pages of a large request, in 32-bit arithmetic. */
  function PagesFor(n: nat): nat {
    (n + PAGE - 1) % WORD / PAGE
  }

  /** rt_malloc. */
  function Malloc(zoneSize: nat, h: Heap, n: nat): (Heap, Option<Ptr>)
    requires |h.lists| == NZONES && ZoneSize(zoneSize)
  {
    if n == 0 then (h, None)
    else if n >= ZoneLimit(zoneSize) then MallocLarge(h, PagesFor(n))
    else
      IndexRight(n);
      var i := Index(n);
      if h.lists[i] == [] then OpenZone(zoneSize, h, i)
      else if h.lists[i][0] in h.zones then TakeChunk(h, i) else (h, None)
  }

  /** A zone without a chunk in use leaves its list and is kept for reuse, or goes back to the
      page list once there are enough of those. */
  function Retired(zoneSize: nat, h: Heap, i: nat, z: nat): Heap
    requires i < |h.lists|
  {
    var r := h.(zones := h.zones - {z}, lists := h.lists[i := Off(h.lists[i], z)]);
    if |h.spare| + 1 > SPARE_MAX
    then r.(pages := P.Free(h.pages, z, zoneSize / PAGE), usage := h.usage - {z})
    else r.(spare := [z] + h.spare)
  }

  /** The zone after chunk k has come back. */
  function Back(zone: Zone, k: nat): Zone {
    zone.(nfree := zone.nfree + 1, free := [k] + zone.free)
  }

  /** rt_free of a chunk: it is put first on the zone's free list. */
  function Returned(h: Heap, z: nat, k: nat): Heap
    requires z in h.zones && h.zones[z].index < |h.lists|
  {
    var zone := h.zones[z];
    h.(zones := h.zones[z := Back(zone, k)],
       lists := if zone.nfree == 0 then h.lists[zone.index := [z] + h.lists[zone.index]] else h.lists)
  }

  /** rt_free. */
  function Free(zoneSize: nat, h: Heap, p: Ptr): Heap
    requires Live(h, p) && (p.Small? ==> h.zones[p.zone].index < |h.lists|)
  {
    match p
    case Large(q) => h.(pages := P.Free(h.pages, q, h.usage[q]), usage := h.usage - {q})
    case Small(z, k) =>
      var r := Returned(h, z, k);
      var zone := r.zones[z];
      if zone.nfree == zone.nmax && r.lists[zone.index] != [z] then Retired(zoneSize, r, zone.index, z) else r
  }

  // ---- The invariant ----

  /** Chunks above uindex have never been used, those on the free list have been given back. */
  ghost predicate ZoneOk(zoneSize: nat, z: Zone) {
    && z.index < NZONES && SizeOf(z.index) > 0
    && z.nmax == Chunks(zoneSize, SizeOf(z.index)) && z.nmax >= 2
    && HEADER <= Offset(SizeOf(z.index)) && Offset(SizeOf(z.index)) + z.nmax * SizeOf(z.index) <= zoneSize
    && z.uindex < z.nmax && z.nfree == z.nmax - 1 - z.uindex + |z.free|
    && Distinct(z.free) && forall k: nat :: k in z.free ==> k <= z.uindex
  }

  ghost predicate ZonesOk(zoneSize: nat, zones: map<nat, Zone>) {
    forall z :: z in zones ==> ZoneOk(zoneSize, zones[z])
  }

  /** List i holds exactly the zones of index i with a chunk to give, each once. */
  ghost predicate ListOk(zones: map<nat, Zone>, list: seq<nat>, i: nat) {
    Distinct(list) && forall z: nat :: z in list <==> z in zones && zones[z].index == i && zones[z].nfree > 0
  }

  ghost predicate Listed(zones: map<nat, Zone>, lists: seq<seq<nat>>) {
    |lists| == NZONES && forall i :: 0 <= i < |lists| ==> ListOk(zones, lists[i], i)
  }

  /** Zones in use and spare zones are told apart and have the pages of a zone. */
  ghost predicate Housed(zonePages: nat, h: Heap) {
    && Distinct(h.spare)
    && (forall z :: z in h.zones ==> z in h.usage && h.usage[z] == zonePages && z !in h.spare)
    && (forall z :: z in h.spare ==> z in h.usage && h.usage[z] == zonePages)
  }

  /** The pages handed out are those recorded, do not overlap, and together with the free ones
      make up all pages. */
  ghost predicate Ledger(usage: map<nat, nat>, pages: seq<P.Run>, total: set<nat>) {
    && P.Orderly(pages)
    && (forall a :: a in usage ==> usage[a] > 0)
    && (forall a, b :: a in usage && b in usage && a < b ==> a + usage[a] <= b)
    && (forall a, x :: a in usage && a <= x < a + usage[a] ==> x !in P.Pages(pages))
    && (forall x :: x in total <==> x in P.Pages(pages) || Owned(usage, x))
  }

  ghost predicate Owned(usage: map<nat, nat>, x: nat) {
    exists a :: a in usage && a <= x < a + usage[a]
  }

  ghost predicate Inv(zoneSize: nat, total: set<nat>, h: Heap) {
    && ZoneSize(zoneSize) && ZonesOk(zoneSize, h.zones) && Listed(h.zones, h.lists)
    && Housed(zoneSize / PAGE, h) && Ledger(h.usage, h.pages, total)
  }

  // ---- Pages ----

  lemma LedgerTake(usage: map<nat, nat>, pages: seq<P.Run>, total: set<nat>, n: nat)
    requires Ledger(usage, pages, total) && n > 0 && P.Alloc(pages, n).1.Some?
    ensures var (r, q) := P.Alloc(pages, n);
            q.value !in usage && Ledger(usage[q.value := n], r, total)
  {
    hide P.Orderly, P.Alloc, P.Pages, P.Span, Owned;
    P.AllocOrderly(pages, n);
    P.AllocTakes(pages, n);
    var (r, q) := P.Alloc(pages, n);
    TakenApart(usage, pages, total, q.value, n);
    forall x ensures x in total <==> x in P.Pages(r) || Owned(usage[q.value := n], x) {
      OwnedTake(usage, q.value, n, x);
    }
  }

  /** Pages that were free are apart from those of every run. */
  lemma TakenApart(usage: map<nat, nat>, pages: seq<P.Run>, total: set<nat>, start: nat, n: nat)
    requires Ledger(usage, pages, total) && n > 0 && P.Span(start, n) <= P.Pages(pages)
    ensures start !in usage
    ensures forall a :: a in usage ==> (if a < start then a + usage[a] <= start else start + n <= a)
  {
    hide P.Orderly, P.Pages, Owned;
    var span := P.Span(start, n);
    assert start in span && start in P.Pages(pages);
    forall a | a in usage ensures if a < start then a + usage[a] <= start else start + n <= a {
      if a < start {
        assert a + usage[a] > start ==> start !in P.Pages(pages);
      } else {
        assert a < start + n ==> a in span;
        assert a !in P.Pages(pages);
      }
    }
  }

  lemma OwnedTake(usage: map<nat, nat>, start: nat, n: nat, x: nat)
    requires start !in usage
    ensures Owned(usage[start := n], x) <==> Owned(usage, x) || start <= x < start + n
  {
    var u := usage[start := n];
    if Owned(usage, x) {
      var a :| a in usage && a <= x < a + usage[a];
      assert a in u && a <= x < a + u[a];
    }
    if start <= x < start + n { assert start in u && start <= x < start + u[start]; }
  }

  lemma LedgerGive(usage: map<nat, nat>, pages: seq<P.Run>, total: set<nat>, q: nat)
    requires Ledger(usage, pages, total) && q in usage
    ensures Ledger(usage - {q}, P.Free(pages, q, usage[q]), total)
  {
    hide P.Orderly, P.Free, P.Pages, P.Span, Owned;
    var n, u := usage[q], usage - {q};
    GivenApart(usage, pages, total, q);
    P.ApartFrom(pages, q, n);
    P.FreeOrderly(pages, q, n);
    P.FreeGives(pages, q, n);
    forall x ensures x in total <==> x in P.Pages(P.Free(pages, q, n)) || Owned(u, x) { OwnedGive(usage, q, x); }
  }

  /** The pages of one run are apart from the free ones and from those of the other runs. */
  lemma GivenApart(usage: map<nat, nat>, pages: seq<P.Run>, total: set<nat>, q: nat)
    requires Ledger(usage, pages, total) && q in usage
    ensures forall x :: x in P.Span(q, usage[q]) ==> x !in P.Pages(pages)
    ensures forall a, x :: a in usage && a != q && a <= x < a + usage[a] ==>
              x !in P.Pages(pages) && x !in P.Span(q, usage[q])
  {
    hide P.Orderly, P.Pages, Owned;
    forall x | x in P.Span(q, usage[q]) ensures x !in P.Pages(pages) { assert q <= x < q + usage[q]; }
    forall a, x | a in usage && a != q && a <= x < a + usage[a] ensures x !in P.Span(q, usage[q]) {
      assert if a < q then a + usage[a] <= q else q + usage[q] <= a;
    }
  }

  lemma OwnedGive(usage: map<nat, nat>, q: nat, x: nat)
    requires q in usage
    ensures Owned(usage, x) <==> Owned(usage - {q}, x) || q <= x < q + usage[q]
  {
    var u := usage - {q};
    if Owned(usage, x) {
      var a :| a in usage && a <= x < a + usage[a];
      if a != q { assert a in u && a <= x < a + u[a]; }
    }
    if Owned(u, x) {
      var a :| a in u && a <= x < a + u[a];
      assert a in usage && a <= x < a + usage[a];
    }
  }

  // ---- Zones and lists ----

  /** One zone changes, and its list with it. */
  lemma ListedUpdate(zones: map<nat, Zone>, lists: seq<seq<nat>>, z: nat, zone: Zone, list: seq<nat>)
    requires Listed(zones, lists) && zone.index < NZONES && (z in zones ==> zones[z].index == zone.index)
    requires Distinct(list)
    requires forall y: nat :: y in list <==> (if y == z then zone.nfree > 0 else y in lists[zone.index])
    ensures Listed(zones[z := zone], lists[zone.index := list])
  {
    var zones', lists' := zones[z := zone], lists[zone.index := list];
    forall i | 0 <= i < |lists'| ensures ListOk(zones', lists'[i], i) {
      assert ListOk(zones, lists[i], i);
    }
  }

  /** A zone disappears from its list. */
  lemma ListedRemove(zones: map<nat, Zone>, lists: seq<seq<nat>>, z: nat)
    requires Listed(zones, lists) && z in zones && zones[z].index < NZONES
    ensures Listed(zones - {z}, lists[zones[z].index := Off(lists[zones[z].index], z)])
  {
    hide Off, Distinct;
    var i0 := zones[z].index;
    var lists' := lists[i0 := Off(lists[i0], z)];
    forall i | 0 <= i < |lists'| ensures ListOk(zones - {z}, lists'[i], i) {
      assert ListOk(zones, lists[i], i);
      if i == i0 { OffDistinct(lists[i], z); }
    }
  }

  lemma HeadListed(zones: map<nat, Zone>, lists: seq<seq<nat>>, i: nat)
    requires Listed(zones, lists) && i < |lists| && lists[i] != []
    ensures var z := lists[i][0];
            && z in zones && zones[z].index == i && zones[z].nfree > 0
            && Distinct(lists[i][1..]) && forall y: nat :: y in lists[i][1..] <==> y in lists[i] && y != z
  {
    assert ListOk(zones, lists[i], i);
    var q := lists[i];
    assert q[0] in q && q == [q[0]] + q[1..];
  }

  lemma SameList(lists: seq<seq<nat>>, i: nat)
    requires i < |lists|
    ensures lists[i := lists[i]] == lists
  {
  }

  /** What a zone gives is not in use, and is then; the count of free chunks stays right. */
  lemma GiveFacts(zoneSize: nat, zone: Zone)
    requires ZoneOk(zoneSize, zone) && zone.nfree > 0
    ensures var (r, k) := Give(zone);
            && k.Some? && k.value < zone.nmax && !InUse(zone, k.value) && ZoneOk(zoneSize, r)
            && r.index == zone.index && r.nfree == zone.nfree - 1
            && forall j: nat :: InUse(r, j) <==> InUse(zone, j) || j == k.value
  {
    if zone.uindex + 1 == zone.nmax {
      var k, rest := zone.free[0], zone.free[1..];
      assert k in zone.free && zone.free == [k] + rest;
      assert k !in rest;
      assert forall j: nat :: j in rest ==> j in zone.free;
    }
  }

  /** The first zone of a list has a chunk to give. */
  lemma TakeFacts(zoneSize: nat, h: Heap, i: nat)
    requires ZonesOk(zoneSize, h.zones) && Listed(h.zones, h.lists) && i < |h.lists| && h.lists[i] != []
    ensures var z := h.lists[i][0];
            && z in h.zones && h.zones[z].index == i && Give(h.zones[z]).1.Some?
            && ZoneOk(zoneSize, Give(h.zones[z]).0) && Give(h.zones[z]).0.index == i
            && TakeChunk(h, i).0.zones == h.zones[z := Give(h.zones[z]).0]
            && TakeChunk(h, i).1 == Some(Small(z, Give(h.zones[z]).1.value))
  {
    hide ZoneOk, Give, Listed;
    HeadListed(h.zones, h.lists, i);
    GiveFacts(zoneSize, h.zones[h.lists[i][0]]);
  }

  lemma TakeInv(zoneSize: nat, total: set<nat>, h: Heap, i: nat)
    requires Inv(zoneSize, total, h) && i < NZONES && h.lists[i] != []
    ensures h.lists[i][0] in h.zones && Inv(zoneSize, total, TakeChunk(h, i).0)
  {
    hide ZoneOk, Ledger, Distinct;
    TakeFacts(zoneSize, h, i);
    HeadListed(h.zones, h.lists, i);
    var z, r := h.lists[i][0], TakeChunk(h, i).0;
    assert ListOk(h.zones, h.lists[i], i);
    SameList(h.lists, i);
    ListedUpdate(h.zones, h.lists, z, r.zones[z], r.lists[i]);
  }

  /** A zone that is opened. */
  lemma OpenedInv(zoneSize: nat, total: set<nat>, h: Heap, n: nat, z: nat)
    requires Inv(zoneSize, total, h) && 1 <= n < ZoneLimit(zoneSize) && h.lists[Index(n)] == []
    requires z !in h.zones && z !in h.spare && z in h.usage && h.usage[z] == zoneSize / PAGE
    ensures 0 <= Index(n) < NZONES && SizeOf(Index(n)) > 0 && Inv(zoneSize, total, Opened(zoneSize, h, Index(n), z))
  {
    hide Ledger, Index, Chunk, Offset, Chunks, SizeOf;
    IndexRight(n);
    ZoneHolds(zoneSize, n);
    var i := Index(n);
    var r := Opened(zoneSize, h, i, z);
    assert ZoneOk(zoneSize, r.zones[z]);
    assert [z] + h.lists[i] == [z];
    ListedUpdate(h.zones, h.lists, z, r.zones[z], r.lists[i]);
  }

  lemma SpareInv(zoneSize: nat, total: set<nat>, h: Heap)
    requires Inv(zoneSize, total, h) && h.spare != []
    ensures Inv(zoneSize, total, h.(spare := h.spare[1..]))
    ensures h.spare[0] !in h.zones && h.spare[0] !in h.spare[1..]
    ensures h.spare[0] in h.usage && h.usage[h.spare[0]] == zoneSize / PAGE
  {
    hide Ledger, ZoneOk;
    assert h.spare[0] in h.spare && h.spare == [h.spare[0]] + h.spare[1..];
  }

  lemma PagesInv(zoneSize: nat, total: set<nat>, h: Heap, n: nat)
    requires Inv(zoneSize, total, h) && n > 0 && P.Alloc(h.pages, n).1.Some?
    ensures var (pages, q) := P.Alloc(h.pages, n);
            && q.value !in h.usage && q.value !in h.zones && q.value !in h.spare
            && Inv(zoneSize, total, h.(pages := pages, usage := h.usage[q.value := n]))
  {
    hide Ledger, ZoneOk, P.Alloc;
    LedgerTake(h.usage, h.pages, total, n);
  }

  lemma OpenInv(zoneSize: nat, total: set<nat>, h: Heap, n: nat)
    requires Inv(zoneSize, total, h) && 1 <= n < ZoneLimit(zoneSize)
    ensures 0 <= Index(n) < NZONES && SizeOf(Index(n)) > 0
    ensures h.lists[Index(n)] == [] ==> Inv(zoneSize, total, OpenZone(zoneSize, h, Index(n)).0)
  {
    hide Ledger, ZoneOk, P.Alloc, Index, Chunk, Opened, ZonesOk, Listed, Housed;
    IndexRight(n);
    ListsSize(zoneSize, total, h);
    if h.lists[Index(n)] == [] {
      if h.spare != [] {
        SpareInv(zoneSize, total, h);
        OpenedInv(zoneSize, total, h.(spare := h.spare[1..]), n, h.spare[0]);
      } else if P.Alloc(h.pages, zoneSize / PAGE).1.Some? {
        PagesInv(zoneSize, total, h, zoneSize / PAGE);
        var (pages, q) := P.Alloc(h.pages, zoneSize / PAGE);
        OpenedInv(zoneSize, total, h.(pages := pages, usage := h.usage[q.value := zoneSize / PAGE]), n, q.value);
      }
    }
  }

  lemma ListsSize(zoneSize: nat, total: set<nat>, h: Heap)
    requires Inv(zoneSize, total, h)
    ensures |h.lists| == NZONES && zoneSize / PAGE > 0
  {
  }

  lemma MallocInv(zoneSize: nat, total: set<nat>, h: Heap, n: nat)
    requires Inv(zoneSize, total, h)
    ensures |h.lists| == NZONES && Inv(zoneSize, total, Malloc(zoneSize, h, n).0)
  {
    hide Ledger, ZoneOk, P.Alloc, Index, Chunk, ZonesOk, Listed, Housed, TakeChunk, OpenZone, ZoneLimit, PagesFor;
    ListsSize(zoneSize, total, h);
    if n == 0 {
    } else if n >= ZoneLimit(zoneSize) {
      if PagesFor(n) > 0 && P.Alloc(h.pages, PagesFor(n)).1.Some? { PagesInv(zoneSize, total, h, PagesFor(n)); }
    } else {
      OpenInv(zoneSize, total, h, n);
      if h.lists[Index(n)] != [] { TakeInv(zoneSize, total, h, Index(n)); }
    }
  }

  lemma BackFacts(zoneSize: nat, zone: Zone, k: nat)
    requires ZoneOk(zoneSize, zone) && InUse(zone, k)
    ensures ZoneOk(zoneSize, Back(zone, k)) && 0 <= zone.nfree
    ensures forall j: nat :: InUse(Back(zone, k), j) <==> InUse(zone, j) && j != k
  {
    var r := Back(zone, k);
    assert forall j: nat :: j in r.free <==> j == k || j in zone.free;
  }

  lemma ReturnedInv(zoneSize: nat, total: set<nat>, h: Heap, z: nat, k: nat)
    requires Inv(zoneSize, total, h) && Live(h, Small(z, k))
    ensures h.zones[z].index < |h.lists| && Inv(zoneSize, total, Returned(h, z, k))
    ensures Returned(h, z, k).zones == h.zones[z := Back(h.zones[z], k)]
  {
    hide ZoneOk, Ledger, Distinct;
    var zone := h.zones[z];
    assert ZoneOk(zoneSize, zone);
    IndexBound(zoneSize, zone);
    BackFacts(zoneSize, zone, k);
    var i, r := zone.index, Returned(h, z, k);
    assert ListOk(h.zones, h.lists[i], i);
    SameList(h.lists, i);
    if zone.nfree == 0 { PushDistinct(h.lists[i], z); }
    ListedUpdate(h.zones, h.lists, z, r.zones[z], r.lists[i]);
  }

  lemma IndexBound(zoneSize: nat, zone: Zone)
    requires ZoneOk(zoneSize, zone)
    ensures zone.index < NZONES
  {
  }

  /** A zone all of whose chunks are free has none in use. */
  lemma {:induction false} AllFree(free: seq<nat>, u: nat, k: nat)
    requires Distinct(free) && |free| == u + 1 && (forall j: nat :: j in free ==> j <= u) && k <= u
    ensures k in free
  {
    if k !in free {
      var more := [k] + free;
      PushDistinct(free, k);
      Pigeonhole(more, u + 1);
      assert false;
    }
  }

  lemma NoneInUse(zoneSize: nat, zone: Zone)
    requires ZoneOk(zoneSize, zone) && zone.nfree == zone.nmax
    ensures forall k: nat :: !InUse(zone, k)
  {
    forall k: nat ensures !InUse(zone, k) {
      if k <= zone.uindex { AllFree(zone.free, zone.uindex, k); }
    }
  }

  lemma RetiredInv(zoneSize: nat, total: set<nat>, h: Heap, z: nat)
    requires Inv(zoneSize, total, h) && z in h.zones
    ensures h.zones[z].index < |h.lists| && Inv(zoneSize, total, Retired(zoneSize, h, h.zones[z].index, z))
  {
    hide ZoneOk, Ledger, Distinct, Off, Listed, P.Free;
    assert ZoneOk(zoneSize, h.zones[z]);
    IndexBound(zoneSize, h.zones[z]);
    ListsSize(zoneSize, total, h);
    ListedRemove(h.zones, h.lists, z);
    LedgerGive(h.usage, h.pages, total, z);
    PushDistinct(h.spare, z);
  }

  lemma FreeInv(zoneSize: nat, total: set<nat>, h: Heap, p: Ptr)
    requires Inv(zoneSize, total, h) && Live(h, p)
    ensures p.Small? ==> h.zones[p.zone].index < |h.lists|
    ensures Inv(zoneSize, total, Free(zoneSize, h, p))
  {
    hide ZoneOk, Ledger, Listed, Retired, Returned, P.Free;
    match p
    case Large(q) =>
      LedgerGive(h.usage, h.pages, total, q);
    case Small(z, k) =>
      ReturnedInv(zoneSize, total, h, z, k);
      RetiredInv(zoneSize, total, Returned(h, z, k), z);
  }

  // ---- No chunk is handed out twice ----

  /** rt_malloc hands out something that was not in use, which then is; nothing else changes hands. */
  lemma MallocFresh(zoneSize: nat, total: set<nat>, h: Heap, n: nat)
    requires Inv(zoneSize, total, h)
    ensures |h.lists| == NZONES
    ensures var (r, p) := Malloc(zoneSize, h, n);
            && (p.None? ==> r == h)
            && (p.Some? ==> !Live(h, p.value) && forall q :: Live(r, q) <==> Live(h, q) || q == p.value)
  {
    hide Ledger, ZoneOk, P.Alloc, Index, Chunk, Listed, TakeChunk, OpenZone, ZoneLimit, PagesFor, InUse;
    ListsSize(zoneSize, total, h);
    if n == 0 {
    } else if n >= ZoneLimit(zoneSize) {
      if PagesFor(n) > 0 && P.Alloc(h.pages, PagesFor(n)).1.Some? { PagesInv(zoneSize, total, h, PagesFor(n)); }
    } else {
      OpenInv(zoneSize, total, h, n);
      if h.lists[Index(n)] != [] { TakeFresh(zoneSize, h, Index(n)); } else { OpenFresh(zoneSize, total, h, Index(n)); }
    }
  }

  lemma TakeFresh(zoneSize: nat, h: Heap, i: nat)
    requires ZonesOk(zoneSize, h.zones) && Listed(h.zones, h.lists) && i < |h.lists| && h.lists[i] != []
    ensures h.lists[i][0] in h.zones
    ensures var (r, p) := TakeChunk(h, i);
            p.Some? && !Live(h, p.value) && forall q :: Live(r, q) <==> Live(h, q) || q == p.value
  {
    hide ZoneOk, Give, Listed, InUse;
    TakeFacts(zoneSize, h, i);
    HeadListed(h.zones, h.lists, i);
    GiveFacts(zoneSize, h.zones[h.lists[i][0]]);
  }

  lemma OpenFresh(zoneSize: nat, total: set<nat>, h: Heap, i: nat)
    requires Inv(zoneSize, total, h) && i < |h.lists| && SizeOf(i) > 0
    ensures var (r, p) := OpenZone(zoneSize, h, i);
            && (p.None? ==> r == h)
            && (p.Some? ==> !Live(h, p.value) && forall q :: Live(r, q) <==> Live(h, q) || q == p.value)
  {
    hide ZoneOk, Ledger, Listed, P.Alloc, Chunks, SizeOf, ZonesOk;
    ListsSize(zoneSize, total, h);
    if h.spare != [] {
      SpareInv(zoneSize, total, h);
      assert forall y: nat :: y in h.spare <==> y == h.spare[0] || y in h.spare[1..] by {
        assert h.spare == [h.spare[0]] + h.spare[1..];
      }
    } else if P.Alloc(h.pages, zoneSize / PAGE).1.Some? {
      PagesInv(zoneSize, total, h, zoneSize / PAGE);
    }
  }

  /** rt_free takes back exactly what it is given. */
  lemma FreeExact(zoneSize: nat, total: set<nat>, h: Heap, p: Ptr)
    requires Inv(zoneSize, total, h) && Live(h, p)
    ensures p.Small? ==> h.zones[p.zone].index < |h.lists|
    ensures forall q :: Live(Free(zoneSize, h, p), q) <==> Live(h, q) && q != p
  {
    hide ZoneOk, Ledger, Listed, P.Free, Off, InUse;
    if p.Small? {
      var z, k := p.zone, p.k;
      ReturnedInv(zoneSize, total, h, z, k);
      assert ZoneOk(zoneSize, h.zones[z]);
      BackFacts(zoneSize, h.zones[z], k);
      var zone := Back(h.zones[z], k);
      if zone.nfree == zone.nmax { NoneInUse(zoneSize, zone); }
    }
  }

  // ---- Every run ----

  datatype Op = DoMalloc(n: nat) | DoFree(p: Ptr)

  /** One call; giving back what is not in use is left out. */
  function Apply(zoneSize: nat, h: Heap, op: Op): Heap {
    match op
    case DoMalloc(n) => if |h.lists| == NZONES && ZoneSize(zoneSize) then Malloc(zoneSize, h, n).0 else h
    case DoFree(p) =>
      if Live(h, p) && (p.Small? ==> h.zones[p.zone].index < |h.lists|) then Free(zoneSize, h, p) else h
  }

  function Exec(zoneSize: nat, h: Heap, run: seq<Op>): Heap
    decreases |run|
  {
    if run == [] then h else Apply(zoneSize, Exec(zoneSize, h, run[..|run| - 1]), run[|run| - 1])
  }

  /** In every run: each zone's count of free chunks is right, a zone is on its list exactly while it
      has one, the pages in use do not overlap, and with the free ones they are all the pages. */
  lemma {:induction false} AlwaysInv(zoneSize: nat, total: set<nat>, h: Heap, run: seq<Op>)
    requires Inv(zoneSize, total, h)
    ensures Inv(zoneSize, total, Exec(zoneSize, h, run))
    decreases |run|
  {
    hide Inv, Malloc, Free, Live;
    if run == [] {
    } else {
      var before := Exec(zoneSize, h, run[..|run| - 1]);
      AlwaysInv(zoneSize, total, h, run[..|run| - 1]);
      match run[|run| - 1]
      case DoMalloc(n) => MallocInv(zoneSize, total, before, n);
      case DoFree(p) => if Live(before, p) { FreeInv(zoneSize, total, before, p); }
    }
  }

  /** rt_system_heap_init, once the pages of memusage have been set aside. */
  function Initial(start: nat, count: nat): Heap {
    Heap(map[], seq(NZONES, _ => []), [], map[], [P.Run(start, count)])
  }

  lemma InitialInv(zoneSize: nat, start: nat, count: nat)
    requires ZoneSize(zoneSize) && count > 0
    ensures Inv(zoneSize, P.Span(start, count), Initial(start, count))
  {
    var h := Initial(start, count);
    assert h.pages[1..] == [] && P.Pages(h.pages) == P.Span(start, count);
  }

  // ---- Bytes ----

  /** The page where the run starts that p lies in. */
  function Base(p: Ptr): nat {
    if p.Small? then p.zone else p.page
  }

  /** The address of the first byte of p, and how many there are. */
  function Start(h: Heap, p: Ptr): nat
    requires Live(h, p)
  {
    match p
    case Small(z, k) => z * PAGE + Offset(SizeOf(h.zones[z].index)) + k * SizeOf(h.zones[z].index)
    case Large(q) => q * PAGE
  }

  function Length(h: Heap, p: Ptr): nat
    requires Live(h, p)
  {
    match p
    case Small(z, k) => SizeOf(h.zones[z].index)
    case Large(q) => h.usage[q] * PAGE
  }

  lemma {:induction false} Multiples(k: nat, n: int, size: nat)
    requires k < n
    ensures k * size + size <= n * size
    decreases n - k
  {
    if k + 1 < n {
      Multiples(k, n - 1, size);
      assert n * size == (n - 1) * size + size;
    } else {
      assert n * size == k * size + size;
    }
  }

  /** A live block lies inside its run of pages, and a chunk behind the header of its zone. */
  lemma Enclosed(zoneSize: nat, total: set<nat>, h: Heap, p: Ptr)
    requires Inv(zoneSize, total, h) && Live(h, p)
    ensures Base(p) in h.usage
    ensures Base(p) * PAGE + (if p.Small? then HEADER else 0) <= Start(h, p)
    ensures Start(h, p) + Length(h, p) <= (Base(p) + h.usage[Base(p)]) * PAGE
  {
    hide Ledger, Listed, Offset, SizeOf, Chunks;
    if p.Small? {
      var zone := h.zones[p.zone];
      assert ZoneOk(zoneSize, zone);
      Multiples(p.k, zone.nmax, SizeOf(zone.index));
      assert zoneSize / PAGE * PAGE == zoneSize;
    }
  }

  lemma UsageApart(usage: map<nat, nat>, pages: seq<P.Run>, total: set<nat>, a: nat, b: nat)
    requires Ledger(usage, pages, total) && a in usage && b in usage && a != b
    ensures a + usage[a] <= b || b + usage[b] <= a
  {
    if a < b { assert a + usage[a] <= b; } else { assert b + usage[b] <= a; }
  }

  /** No two live blocks share a byte. */
  lemma LiveApart(zoneSize: nat, total: set<nat>, h: Heap, p: Ptr, q: Ptr)
    requires Inv(zoneSize, total, h) && Live(h, p) && Live(h, q) && p != q
    ensures Start(h, p) + Length(h, p) <= Start(h, q) || Start(h, q) + Length(h, q) <= Start(h, p)
  {
    hide Ledger, Listed, ZonesOk, Offset, SizeOf;
    if Base(p) != Base(q) {
      Enclosed(zoneSize, total, h, p);
      Enclosed(zoneSize, total, h, q);
      UsageApart(h.usage, h.pages, total, Base(p), Base(q));
      hide Start, Length;
    } else {
      var size := SizeOf(h.zones[p.zone].index);
      if p.k < q.k { Multiples(p.k, q.k, size); } else { Multiples(q.k, p.k, size); }
    }
  }

  /** What rt_malloc hands out holds the bytes asked for. */
  lemma MallocHolds(zoneSize: nat, total: set<nat>, h: Heap, n: nat)
    requires Inv(zoneSize, total, h) && n < WORD
    ensures |h.lists| == NZONES
    ensures var (r, p) := Malloc(zoneSize, h, n);
            p.Some? ==> Live(r, p.value) && Length(r, p.value) >= n
  {
    hide Ledger, ZoneOk, P.Alloc, Index, Chunk, Listed, SizeOf, Give, Chunks;
    ListsSize(zoneSize, total, h);
    MallocFresh(zoneSize, total, h, n);
    if n >= ZoneLimit(zoneSize) {
      PagesEnough(n);
    } else if n > 0 {
      BelowLimit(zoneSize, n);
      IndexRight(n);
      if h.lists[Index(n)] != [] { TakeFacts(zoneSize, h, Index(n)); }
    }
  }

  lemma BelowLimit(zoneSize: nat, n: nat)
    requires n < ZoneLimit(zoneSize)
    ensures n < LIMIT
  {
  }

  lemma PagesEnough(n: nat)
    requires n < WORD
    ensures PagesFor(n) > 0 ==> PagesFor(n) * PAGE >= n
  {
  }
}
