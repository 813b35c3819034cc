/**
 The page descriptors of the slab heap, memusage: what rt_free knows of an address. A large
 block is described at its first page only, and its entry stays behind when it is freed.
 */
module SlabUsage {
  import opened Ipc
  import opened SlabZones
  import opened Slab
  import P = SlabPages

  /** PAGE_TYPE_FREE, PAGE_TYPE_SMALL with the page's offset in its zone, PAGE_TYPE_LARGE with the
      number of pages. */
  datatype Desc = FreePage | SmallPage(off: nat) | LargePage(n: nat)

  /** Pages z .. z + k - 1 are described as those of a zone. */
  function Marked(d: seq<Desc>, z: nat, k: nat): (r: seq<Desc>)
    requires z + k <= |d|
    ensures |r| == |d|
  {
    if k == 0 then d else Marked(d, z, k - 1)[z + k - 1 := SmallPage(k - 1)]
  }

  /** Pages z .. z + k - 1 are described as free. */
  function Unmarked(d: seq<Desc>, z: nat, k: nat): (r: seq<Desc>)
    requires z + k <= |d|
    ensures |r| == |d|
  {
    if k == 0 then d else Unmarked(d, z, k - 1)[z + k - 1 := FreePage]
  }

  lemma {:induction false} MarkedAt(d: seq<Desc>, z: nat, k: nat, x: nat)
    requires z + k <= |d| && x < |d|
    ensures Marked(d, z, k)[x] == if z <= x < z + k then SmallPage(x - z) else d[x]
    ensures Unmarked(d, z, k)[x] == if z <= x < z + k then FreePage else d[x]
  {
    if k == 0 {
    } else {
      MarkedAt(d, z, k - 1, x);
    }
  }

  /** The zone at z is described page by page. */
  ghost predicate ZoneDescribed(d: seq<Desc>, z: nat, zonePages: nat) {
    z + zonePages <= |d| && forall j :: 0 <= j < zonePages ==> d[z + j] == SmallPage(j)
  }

  /** The run at q is a zone, in use or spare. */
  predicate IsZone(h: Heap, q: nat) {
    q in h.zones || q in h.spare
  }

  /** The descriptors of every run in use tell what it is. */
  ghost predicate Described(zonePages: nat, h: Heap, d: seq<Desc>, q: nat)
    requires q in h.usage
  {
    if IsZone(h, q) then ZoneDescribed(d, q, zonePages) else q < |d| && d[q] == LargePage(h.usage[q])
  }

  ghost predicate Describes(zonePages: nat, h: Heap, d: seq<Desc>) {
    forall q :: q in h.usage ==> Described(zonePages, h, d, q)
  }

  /** There is a descriptor for every page. */
  ghost predicate Covers(total: set<nat>, d: seq<Desc>) {
    forall x :: x in total ==> x < |d|
  }

  /** The descriptors after an allocation. */
  function AfterMalloc(zoneSize: nat, h: Heap, d: seq<Desc>, n: nat): seq<Desc>
    requires |h.lists| == NZONES && ZoneSize(zoneSize)
  {
    var (r, p) := Malloc(zoneSize, h, n);
    if p.None? then d
    else match p.value
      case Large(q) => if q < |d| then d[q := LargePage(PagesFor(n))] else d
      case Small(z, _) => if z !in h.usage && z + zoneSize / PAGE <= |d| then Marked(d, z, zoneSize / PAGE) else d
  }

  /** The descriptors after a release; a large block leaves an entry of size 0 behind. */
  function AfterFree(zoneSize: nat, h: Heap, d: seq<Desc>, p: Ptr): seq<Desc>
    requires Live(h, p) && (p.Small? ==> h.zones[p.zone].index < |h.lists|)
  {
    match p
    case Large(q) => if q < |d| then d[q := LargePage(0)] else d
    case Small(z, _) =>
      if z !in Free(zoneSize, h, p).usage && z + zoneSize / PAGE <= |d| then Unmarked(d, z, zoneSize / PAGE) else d
  }

  // ---- Every run keeps the descriptors right ----

  /** Descriptors outside the run at q are as they were. */
  ghost predicate Elsewhere(d: seq<Desc>, d': seq<Desc>, q: nat, n: nat) {
    |d| == |d'| && forall x :: 0 <= x < |d| && !(q <= x < q + n) ==> d'[x] == d[x]
  }

  /** A run that does not touch the one at q stays described. */
  lemma StillDescribed(zonePages: nat, h: Heap, d: seq<Desc>, h': Heap, d': seq<Desc>, q: nat, n: nat, a: nat)
    requires a in h.usage && a in h'.usage && h'.usage[a] == h.usage[a] && h.usage[a] > 0
    requires (IsZone(h, a) <==> IsZone(h', a)) && (IsZone(h, a) ==> h.usage[a] == zonePages)
    requires Described(zonePages, h, d, a) && Elsewhere(d, d', q, n)
    requires a + h.usage[a] <= q || q + n <= a
    ensures Described(zonePages, h', d', a)
  {
  }

  lemma InsideTotal(usage: map<nat, nat>, pages: seq<P.Run>, total: set<nat>, d: seq<Desc>, q: nat)
    requires Ledger(usage, pages, total) && Covers(total, d) && q in usage
    ensures usage[q] > 0 && q + usage[q] <= |d|
  {
    var x := q + usage[q] - 1;
    assert q <= x < q + usage[q];
    assert Owned(usage, x);
    assert x in total;
  }

  /** Both heaps have the same zones, spare ones included. */
  ghost predicate SameZones(h: Heap, r: Heap) {
    forall q :: IsZone(h, q) <==> IsZone(r, q)
  }

  /** One run has been added. */
  ghost predicate Added(h: Heap, r: Heap, q: nat, n: nat, zone: bool) {
    && q !in h.usage && n > 0 && r.usage == h.usage[q := n]
    && forall a :: IsZone(r, a) <==> IsZone(h, a) || (zone && a == q)
  }

  /** One run has been taken away. */
  ghost predicate Gone(h: Heap, r: Heap, q: nat) {
    q in h.usage && r.usage == h.usage - {q} && forall a :: a != q ==> (IsZone(r, a) <==> IsZone(h, a))
  }

  lemma ZonesUsed(zoneSize: nat, total: set<nat>, h: Heap, q: nat)
    requires Inv(zoneSize, total, h)
    ensures IsZone(h, q) ==> q in h.usage && h.usage[q] == zoneSize / PAGE
    ensures zoneSize / PAGE > 0
  {
  }

  /** What an allocation does to the runs. */
  lemma MallocRuns(zoneSize: nat, total: set<nat>, h: Heap, n: nat)
    requires Inv(zoneSize, total, h)
    ensures |h.lists| == NZONES
    ensures var (r, p) := Malloc(zoneSize, h, n);
            && (p.None? ==> r == h)
            && (p.Some? && p.value.Large? ==> Added(h, r, p.value.page, PagesFor(n), false))
            && (p.Some? && p.value.Small? && p.value.zone in h.usage ==> r.usage == h.usage && SameZones(h, r))
            && (p.Some? && p.value.Small? && p.value.zone !in h.usage ==>
                  Added(h, r, p.value.zone, zoneSize / PAGE, true))
  {
    hide Ledger, ZoneOk, P.Alloc, Index, Chunk, Listed, TakeChunk, OpenZone, ZoneLimit, PagesFor, InUse, ZonesOk;
    ListsSize(zoneSize, total, h);
    if n == 0 {
    } else if n >= ZoneLimit(zoneSize) {
      if PagesFor(n) > 0 && P.Alloc(h.pages, PagesFor(n)).1.Some? { PagesInv(zoneSize, total, h, PagesFor(n)); }
    } else {
      OpenInv(zoneSize, total, h, n);
      var i := Index(n);
      if h.lists[i] != [] { TakeRuns(zoneSize, total, h, i); } else { OpenRuns(zoneSize, total, h, i); }
    }
  }

  lemma TakeRuns(zoneSize: nat, total: set<nat>, h: Heap, i: nat)
    requires Inv(zoneSize, total, h) && i < |h.lists| && h.lists[i] != []
    ensures h.lists[i][0] in h.zones
    ensures var (r, p) := TakeChunk(h, i);
            p.Some? && p.value.Small? && p.value.zone in h.usage && r.usage == h.usage && SameZones(h, r)
  {
    hide ZoneOk, Ledger, Listed, Give;
    TakeFacts(zoneSize, h, i);
  }

  lemma OpenRuns(zoneSize: nat, total: set<nat>, h: Heap, i: nat)
    requires Inv(zoneSize, total, h) && i < |h.lists| && SizeOf(i) > 0
    ensures var (r, p) := OpenZone(zoneSize, h, i);
            && (p.None? ==> r == h) && (p.Some? ==> p.value.Small?)
            && (p.Some? && p.value.zone in h.usage ==> r.usage == h.usage && SameZones(h, r))
            && (p.Some? && p.value.zone !in h.usage ==> Added(h, r, p.value.zone, zoneSize / PAGE, true))
  {
    hide ZoneOk, Ledger, Listed, P.Alloc, Chunks, SizeOf, ZonesOk;
    ListsSize(zoneSize, total, h);
    if h.spare != [] {
      SpareInv(zoneSize, total, h);
      assert forall y: nat :: y in h.spare <==> y == h.spare[0] || y in h.spare[1..] by {
        assert h.spare == [h.spare[0]] + h.spare[1..];
      }
    } else if P.Alloc(h.pages, zoneSize / PAGE).1.Some? {
      PagesInv(zoneSize, total, h, zoneSize / PAGE);
    }
  }

  /** What a release does to the runs. */
  lemma FreeRuns(zoneSize: nat, total: set<nat>, h: Heap, p: Ptr)
    requires Inv(zoneSize, total, h) && Live(h, p)
    ensures p.Small? ==> h.zones[p.zone].index < |h.lists|
    ensures var r := Free(zoneSize, h, p);
            && (p.Large? ==> Gone(h, r, p.page) && !IsZone(h, p.page))
            && (p.Small? && p.zone in r.usage ==> r.usage == h.usage && SameZones(h, r))
            && (p.Small? && p.zone !in r.usage ==> Gone(h, r, p.zone))
  {
    hide ZoneOk, Ledger, Listed, P.Free, Off, InUse;
    if p.Small? {
      ReturnedInv(zoneSize, total, h, p.zone, p.k);
      assert forall y: nat :: y in [p.zone] + h.spare <==> y == p.zone || y in h.spare;
    }
  }

  lemma AddedDescribes(zoneSize: nat, total: set<nat>, h: Heap, d: seq<Desc>, r: Heap, d': seq<Desc>,
                       q: nat, n: nat, zone: bool)
    requires Inv(zoneSize, total, h) && Inv(zoneSize, total, r) && Describes(zoneSize / PAGE, h, d)
    requires Added(h, r, q, n, zone) && Elsewhere(d, d', q, n) && Described(zoneSize / PAGE, r, d', q)
    ensures Describes(zoneSize / PAGE, r, d')
  {
    hide ZonesOk, Listed, Housed, Described, Elsewhere, Ledger;
    forall a | a in r.usage ensures Described(zoneSize / PAGE, r, d', a) {
      if a != q {
        ZonesUsed(zoneSize, total, h, a);
        UsageApart(r.usage, r.pages, total, a, q);
        UsagePositive(h.usage, h.pages, total, a);
        StillDescribed(zoneSize / PAGE, h, d, r, d', q, n, a);
      }
    }
  }

  lemma UsagePositive(usage: map<nat, nat>, pages: seq<P.Run>, total: set<nat>, a: nat)
    requires Ledger(usage, pages, total) && a in usage
    ensures usage[a] > 0
  {
  }

  lemma GoneDescribes(zoneSize: nat, total: set<nat>, h: Heap, d: seq<Desc>, r: Heap, d': seq<Desc>, q: nat)
    requires Inv(zoneSize, total, h) && Describes(zoneSize / PAGE, h, d)
    requires Gone(h, r, q) && Elsewhere(d, d', q, h.usage[q])
    ensures Describes(zoneSize / PAGE, r, d')
  {
    hide ZonesOk, Listed, Housed, Described, Elsewhere, Ledger;
    forall a | a in r.usage ensures Described(zoneSize / PAGE, r, d', a) {
      ZonesUsed(zoneSize, total, h, a);
      UsageApart(h.usage, h.pages, total, a, q);
      UsagePositive(h.usage, h.pages, total, a);
      StillDescribed(zoneSize / PAGE, h, d, r, d', q, h.usage[q], a);
    }
  }

  lemma SameDescribes(zonePages: nat, h: Heap, d: seq<Desc>, r: Heap)
    requires Describes(zonePages, h, d) && r.usage == h.usage && SameZones(h, r)
    ensures Describes(zonePages, r, d)
  {
    forall q | q in r.usage ensures Described(zonePages, r, d, q) { assert Described(zonePages, h, d, q); }
  }

  lemma MarkedZone(d: seq<Desc>, z: nat, k: nat)
    requires z + k <= |d|
    ensures ZoneDescribed(Marked(d, z, k), z, k) && Elsewhere(d, Marked(d, z, k), z, k)
    ensures Elsewhere(d, Unmarked(d, z, k), z, k)
  {
    MarkedAll(d, z, k);
  }

  /** An allocation keeps the descriptors right. */
  lemma MallocDescribes(zoneSize: nat, total: set<nat>, h: Heap, d: seq<Desc>, n: nat)
    requires Inv(zoneSize, total, h) && Describes(zoneSize / PAGE, h, d) && Covers(total, d)
    ensures |h.lists| == NZONES && |AfterMalloc(zoneSize, h, d, n)| == |d|
    ensures Describes(zoneSize / PAGE, Malloc(zoneSize, h, n).0, AfterMalloc(zoneSize, h, d, n))
  {
    hide Ledger, ZonesOk, Listed, Housed, Malloc, Describes, PagesFor;
    MallocRuns(zoneSize, total, h, n);
    MallocInv(zoneSize, total, h, n);
    var (r, p) := Malloc(zoneSize, h, n);
    var d' := AfterMalloc(zoneSize, h, d, n);
    if p.Some? {
      match p.value
      case Large(q) =>
        InsideTotal(r.usage, r.pages, total, d, q);
        ZonesUsed(zoneSize, total, h, q);
        AddedDescribes(zoneSize, total, h, d, r, d', q, PagesFor(n), false);
      case Small(z, _) =>
        if z in h.usage {
          SameDescribes(zoneSize / PAGE, h, d, r);
        } else {
          InsideTotal(r.usage, r.pages, total, d, z);
          MarkedZone(d, z, zoneSize / PAGE);
          AddedDescribes(zoneSize, total, h, d, r, d', z, zoneSize / PAGE, true);
        }
    }
  }

  /** A release keeps the descriptors right, stale entries notwithstanding. */
  lemma FreeDescribes(zoneSize: nat, total: set<nat>, h: Heap, d: seq<Desc>, p: Ptr)
    requires Inv(zoneSize, total, h) && Describes(zoneSize / PAGE, h, d) && Covers(total, d) && Live(h, p)
    ensures p.Small? ==> h.zones[p.zone].index < |h.lists|
    ensures |AfterFree(zoneSize, h, d, p)| == |d|
    ensures Describes(zoneSize / PAGE, Free(zoneSize, h, p), AfterFree(zoneSize, h, d, p))
  {
    hide Ledger, ZonesOk, Listed, Housed, Free, Describes;
    FreeRuns(zoneSize, total, h, p);
    var r, d' := Free(zoneSize, h, p), AfterFree(zoneSize, h, d, p);
    match p
    case Large(q) =>
      InsideTotal(h.usage, h.pages, total, d, q);
      GoneDescribes(zoneSize, total, h, d, r, d', q);
    case Small(z, _) =>
      ZonesUsed(zoneSize, total, h, z);
      if z in r.usage {
        SameDescribes(zoneSize / PAGE, h, d, r);
      } else {
        InsideTotal(h.usage, h.pages, total, d, z);
        MarkedZone(d, z, zoneSize / PAGE);
        GoneDescribes(zoneSize, total, h, d, r, d', z);
      }
  }

  function ApplyTo(zoneSize: nat, h: Heap, d: seq<Desc>, op: Op): seq<Desc> {
    match op
    case DoMalloc(n) => if |h.lists| == NZONES && ZoneSize(zoneSize) then AfterMalloc(zoneSize, h, d, n) else d
    case DoFree(p) =>
      if Live(h, p) && (p.Small? ==> h.zones[p.zone].index < |h.lists|) then AfterFree(zoneSize, h, d, p) else d
  }

  function ExecUsage(zoneSize: nat, h: Heap, d: seq<Desc>, run: seq<Op>): seq<Desc>
    decreases |run|
  {
    if run == [] then d
    else
      var front := run[..|run| - 1];
      ApplyTo(zoneSize, Exec(zoneSize, h, front), ExecUsage(zoneSize, h, d, front), run[|run| - 1])
  }

  /** In every run the descriptors of every run in use tell what it is. */
  lemma {:induction false} AlwaysDescribes(zoneSize: nat, total: set<nat>, h: Heap, d: seq<Desc>, run: seq<Op>)
    requires Inv(zoneSize, total, h) && Describes(zoneSize / PAGE, h, d) && Covers(total, d)
    ensures Describes(zoneSize / PAGE, Exec(zoneSize, h, run), ExecUsage(zoneSize, h, d, run))
    ensures |ExecUsage(zoneSize, h, d, run)| == |d|
    decreases |run|
  {
    hide Inv, Malloc, Free, Live, Describes, AfterMalloc, AfterFree;
    if run == [] {
    } else {
      var front := run[..|run| - 1];
      var before, usage := Exec(zoneSize, h, front), ExecUsage(zoneSize, h, d, front);
      AlwaysInv(zoneSize, total, h, front);
      AlwaysDescribes(zoneSize, total, h, d, front);
      MallocInv(zoneSize, total, before, 0);
      match run[|run| - 1]
      case DoMalloc(n) =>
        ZoneSizeOk(zoneSize, total, before);
        MallocDescribes(zoneSize, total, before, usage, n);
      case DoFree(p) =>
        if Live(before, p) { FreeDescribes(zoneSize, total, before, usage, p); }
    }
  }

  lemma ZoneSizeOk(zoneSize: nat, total: set<nat>, h: Heap)
    requires Inv(zoneSize, total, h)
    ensures ZoneSize(zoneSize)
  {
  }

  /** The zone OpenZone hands out is a spare one or new, and has descriptors. */
  lemma OpenWhere(zoneSize: nat, total: set<nat>, h: Heap, d: seq<Desc>, i: nat)
    requires Inv(zoneSize, total, h) && Covers(total, d) && i < |h.lists| && SizeOf(i) > 0
    ensures var (r, p) := OpenZone(zoneSize, h, i);
            && (p.Some? ==> p.value.Small? && (p.value.zone in h.usage <==> h.spare != []))
            && (p.Some? && h.spare == [] ==> p.value.zone + zoneSize / PAGE <= |d|)
  {
    hide ZoneOk, Ledger, Listed, P.Alloc, Chunks, SizeOf, ZonesOk, Housed;
    if h.spare != [] {
      SpareInv(zoneSize, total, h);
    } else if P.Alloc(h.pages, zoneSize / PAGE).1.Some? {
      PagesFit(zoneSize, total, h, d, zoneSize / PAGE);
    }
  }

  /** Pages just allocated have descriptors. */
  lemma PagesFit(zoneSize: nat, total: set<nat>, h: Heap, d: seq<Desc>, n: nat)
    requires Inv(zoneSize, total, h) && Covers(total, d) && n > 0 && P.Alloc(h.pages, n).1.Some?
    ensures var q := P.Alloc(h.pages, n).1.value; q !in h.usage && q + n <= |d|
  {
    hide ZonesOk, Listed, Housed, Ledger, P.Alloc;
    PagesInv(zoneSize, total, h, n);
    var (pages, q) := P.Alloc(h.pages, n);
    InsideTotal(h.usage[q.value := n], pages, total, d, q.value);
  }

  // ---- From an address to the block ----

  /** What rt_free makes of an address: the descriptor of its page gives the kind of block and the
      page where its run starts; the zone's header gives the chunk size. */
  function Locate(h: Heap, d: seq<Desc>, addr: nat): Option<Ptr> {
    var page := addr / PAGE;
    if page >= |d| then None
    else if d[page].LargePage? then Some(Large(page))
    else
      var z := page - if d[page].SmallPage? then d[page].off else 0;
      if 0 <= z && z in h.zones && SizeOf(h.zones[z].index) > 0
      then
        var size := SizeOf(h.zones[z].index);
        var k := (addr - z * PAGE - Offset(size)) / size;
        if k >= 0 then Some(Small(z, k)) else None
      else None
  }

  lemma PageOf(z: nat, rest: nat)
    ensures (z * PAGE + rest) / PAGE == z + rest / PAGE
  {
  }

  lemma ChunkNumber(k: nat, size: nat)
    requires size > 0
    ensures k * size / size == k
  {
    Quotient(k, size);
  }

  /** Every live block is found from its address, with its kind, its zone and its size. */
  lemma Located(zoneSize: nat, total: set<nat>, h: Heap, d: seq<Desc>, p: Ptr)
    requires Inv(zoneSize, total, h) && Describes(zoneSize / PAGE, h, d) && Live(h, p)
    ensures Locate(h, d, Start(h, p)) == Some(p)
    ensures p.Large? ==> p.page < |d| && d[p.page] == LargePage(h.usage[p.page])
  {
    hide Ledger, Listed, Offset, SizeOf, Chunks, InUse;
    match p
    case Large(q) =>
      PageOf(q, 0);
      assert Described(zoneSize / PAGE, h, d, q);
    case Small(z, k) =>
      LocatedChunk(zoneSize, total, h, d, z, k);
  }

  lemma LocatedChunk(zoneSize: nat, total: set<nat>, h: Heap, d: seq<Desc>, z: nat, k: nat)
    requires Inv(zoneSize, total, h) && Describes(zoneSize / PAGE, h, d) && Live(h, Small(z, k))
    ensures Locate(h, d, Start(h, Small(z, k))) == Some(Small(z, k))
  {
    hide Ledger, Listed, Offset, SizeOf, Chunks, Housed;
    ZonesUsed(zoneSize, total, h, z);
    var zone := h.zones[z];
    assert ZoneOk(zoneSize, zone);
    var size := SizeOf(zone.index);
    var rest := Offset(size) + k * size;
    Multiples(k, zone.nmax, size);
    assert rest < zoneSize && zoneSize / PAGE * PAGE == zoneSize;
    PageOf(z, rest);
    assert Described(zoneSize / PAGE, h, d, z);
    assert d[z + rest / PAGE] == SmallPage(rest / PAGE);
    ChunkNumber(k, size);
  }

  /** Whatever memusage held at the start, every live block of every run is found from its address. */
  lemma AlwaysLocated(zoneSize: nat, start: nat, count: nat, d: seq<Desc>, run: seq<Op>, p: Ptr)
    requires ZoneSize(zoneSize) && count > 0 && |d| >= start + count
    requires Live(Exec(zoneSize, Initial(start, count), run), p)
    ensures var h := Exec(zoneSize, Initial(start, count), run);
            Locate(h, ExecUsage(zoneSize, Initial(start, count), d, run), Start(h, p)) == Some(p)
  {
    hide Exec, ExecUsage, Locate, Start, Live, Inv;
    var total := P.Span(start, count);
    InitialInv(zoneSize, start, count);
    AlwaysInv(zoneSize, total, Initial(start, count), run);
    AlwaysDescribes(zoneSize, total, Initial(start, count), d, run);
    Located(zoneSize, total, Exec(zoneSize, Initial(start, count), run),
            ExecUsage(zoneSize, Initial(start, count), d, run), p);
  }

  lemma MarkedAll(d: seq<Desc>, z: nat, k: nat)
    requires z + k <= |d|
    ensures forall x :: 0 <= x < |d| ==>
              && Marked(d, z, k)[x] == (if z <= x < z + k then SmallPage(x - z) else d[x])
              && Unmarked(d, z, k)[x] == (if z <= x < z + k then FreePage else d[x])
  {
    forall x | 0 <= x < |d|
      ensures Marked(d, z, k)[x] == if z <= x < z + k then SmallPage(x - z) else d[x]
      ensures Unmarked(d, z, k)[x] == if z <= x < z + k then FreePage else d[x]
    {
      MarkedAt(d, z, k, x);
    }
  }

  /** The descriptors that change: a freed large block leaves an entry of size 0 at its first page, and
      the pages of a released zone are marked free; no other entry changes. */
  lemma FreeMarks(zoneSize: nat, total: set<nat>, h: Heap, d: seq<Desc>, p: Ptr)
    requires Inv(zoneSize, total, h) && Covers(total, d) && Live(h, p)
    ensures p.Small? ==> h.zones[p.zone].index < |h.lists|
    ensures var d' := AfterFree(zoneSize, h, d, p);
            && |d'| == |d|
            && (p.Large? ==> p.page < |d| && d' == d[p.page := LargePage(0)])
            && (p.Small? && p.zone in Free(zoneSize, h, p).usage ==> d' == d)
            && (p.Small? && p.zone !in Free(zoneSize, h, p).usage ==>
                  forall x :: 0 <= x < |d| ==>
                    d'[x] == if p.zone <= x < p.zone + zoneSize / PAGE then FreePage else d[x])
  {
    hide Ledger, ZonesOk, Listed, Housed, Free, Unmarked;
    FreeRuns(zoneSize, total, h, p);
    match p
    case Large(q) =>
      InsideTotal(h.usage, h.pages, total, d, q);
    case Small(z, _) =>
      ZonesUsed(zoneSize, total, h, z);
      InsideTotal(h.usage, h.pages, total, d, z);
      MarkedAll(d, z, zoneSize / PAGE);
  }

  /** An allocation describes the run it takes, and no other page. */
  lemma MallocMarks(zoneSize: nat, total: set<nat>, h: Heap, d: seq<Desc>, n: nat)
    requires Inv(zoneSize, total, h) && Covers(total, d)
    ensures |h.lists| == NZONES
    ensures var p, d' := Malloc(zoneSize, h, n).1, AfterMalloc(zoneSize, h, d, n);
            && |d'| == |d|
            && (p.None? || (p.value.Small? && p.value.zone in h.usage) ==> d' == d)
            && (p.Some? && p.value.Large? ==>
                  p.value.page < |d| && d' == d[p.value.page := LargePage(PagesFor(n))])
            && (p.Some? && p.value.Small? && p.value.zone !in h.usage ==>
                  forall x :: 0 <= x < |d| ==>
                    d'[x] == if p.value.zone <= x < p.value.zone + zoneSize / PAGE
                             then SmallPage(x - p.value.zone) else d[x])
  {
    hide Ledger, ZonesOk, Listed, Housed, Malloc, Marked, PagesFor;
    MallocRuns(zoneSize, total, h, n);
    MallocInv(zoneSize, total, h, n);
    var (r, p) := Malloc(zoneSize, h, n);
    if p.Some? {
      match p.value
      case Large(q) =>
        InsideTotal(r.usage, r.pages, total, d, q);
      case Small(z, _) =>
        if z !in h.usage {
          InsideTotal(r.usage, r.pages, total, d, z);
          MarkedAll(d, z, zoneSize / PAGE);
        }
    }
  }
}
