/** Which zone serves which size, and how a zone is cut into chunks. */
module SlabZones {

  const NZONES: nat := 72
  const PAGE: nat := 4096

  /** sizeof(slab_zone) on a 32-bit machine. */
  const HEADER: nat := 36

  /** ZALLOC_ZONE_LIMIT. */
  const LIMIT: nat := 16384

  /** n rounded up to a multiple of g, a power of two. */
  function RoundUp(n: nat, g: nat): nat
    requires g > 0
  {
    (n + g - 1) / g * g
  }

  /** zoneindex: the chunk size it sets. */
  function Chunk(n: nat): nat {
    if n < 128 then RoundUp(n, 8)
    else if n < 256 then RoundUp(n, 16)
    else if n < 512 then RoundUp(n, 32)
    else if n < 1024 then RoundUp(n, 64)
    else if n < 2048 then RoundUp(n, 128)
    else if n < 4096 then RoundUp(n, 256)
    else if n < 8192 then RoundUp(n, 512)
    else if n < LIMIT then RoundUp(n, 1024)
    else n
  }

  /** zoneindex: the index it returns. */
  function Index(n: nat): int {
    if n < 128 then Chunk(n) / 8 - 1
    else if n < 256 then Chunk(n) / 16 + 7
    else if n < 512 then Chunk(n) / 32 + 15
    else if n < 1024 then Chunk(n) / 64 + 23
    else if n < 2048 then Chunk(n) / 128 + 31
    else if n < 4096 then Chunk(n) / 256 + 39
    else if n < 8192 then Chunk(n) / 512 + 47
    else if n < LIMIT then Chunk(n) / 1024 + 55
    else 0
  }

  /** The chunk size of a zone, by its index. */
  function SizeOf(i: nat): nat {
    if i < 16 then 8 * (i + 1)
    else if i < 24 then 16 * (i - 7)
    else if i < 32 then 32 * (i - 15)
    else if i < 40 then 64 * (i - 23)
    else if i < 48 then 128 * (i - 31)
    else if i < 56 then 256 * (i - 39)
    else if i < 64 then 512 * (i - 47)
    else 1024 * (i - 55)
  }

  lemma Rounding(n: nat, g: nat)
    requires g > 0
    ensures var q := (n + g - 1) / g;
            RoundUp(n, g) == q * g && RoundUp(n, g) / g == q && n <= q * g < n + g
  {
    var x, q := n + g - 1, (n + g - 1) / g;
    assert x == g * q + x % g;
    Quotient(q, g);
  }

  lemma Quotient(q: nat, g: nat)
    requires g > 0
    ensures q * g / g == q
  {
    var d := q * g / g - q;
    assert q * g == g * (q * g / g) + q * g % g;
    assert g * d == -(q * g % g) by { assert g * d == g * (q * g / g) - g * q; }
  }

  /** A request is served by a zone whose chunks are large enough, and the zone's index tells its size. */
  lemma IndexRight(n: nat)
    requires 1 <= n < LIMIT
    ensures 0 <= Index(n) < NZONES && SizeOf(Index(n)) == Chunk(n)
    ensures n <= Chunk(n) <= LIMIT && Chunk(n) % 8 == 0 && Chunk(n) > 0
  {
    hide Chunk, Index, SizeOf;
    ChunkRight(n);
    if n < 256 { IndexTiny(n); } else if n < 2048 { IndexSmall(n); } else { IndexBig(n); }
  }

  lemma IndexTiny(n: nat)
    requires 1 <= n < 256
    ensures 0 <= Index(n) < 24 && SizeOf(Index(n)) == Chunk(n)
  {
    hide RoundUp;
    if n < 128 { Rounding(n, 8); } else { Rounding(n, 16); }
  }

  lemma IndexSmall(n: nat)
    requires 256 <= n < 2048
    ensures 23 <= Index(n) < 48 && SizeOf(Index(n)) == Chunk(n)
  {
    hide RoundUp;
    if n < 512 { Rounding(n, 32); } else if n < 1024 { Rounding(n, 64); } else { Rounding(n, 128); }
  }

  lemma IndexBig(n: nat)
    requires 2048 <= n < LIMIT
    ensures 47 <= Index(n) < NZONES && SizeOf(Index(n)) == Chunk(n)
  {
    hide RoundUp;
    if n < 4096 { Rounding(n, 256); } else if n < 8192 { Rounding(n, 512); } else { Rounding(n, 1024); }
  }

  /** The rounding of each range of sizes. */
  function Grain(n: nat): nat {
    if n < 128 then 8 else if n < 256 then 16 else if n < 512 then 32 else if n < 1024 then 64
    else if n < 2048 then 128 else if n < 4096 then 256 else if n < 8192 then 512 else 1024
  }

  lemma ChunkRight(n: nat)
    requires 1 <= n < LIMIT
    ensures n <= Chunk(n) <= LIMIT && Chunk(n) % 8 == 0 && Chunk(n) < n + Grain(n)
  {
    var g := Grain(n);
    assert Chunk(n) == RoundUp(n, g) by { hide RoundUp; }
    hide RoundUp, Chunk;
    Rounding(n, g);
    Eights((n + g - 1) / g, g);
  }

  lemma Eights(q: nat, g: nat)
    requires g % 8 == 0
    ensures q * g % 8 == 0
  {
    var h := g / 8;
    assert g == 8 * h;
    assert q * g == 8 * (q * h);
    Eightfold(q * h);
  }

  lemma Eightfold(x: nat)
    ensures 8 * x % 8 == 0
  {
  }

  /** Larger indices mean larger chunks. */
  lemma SizesRise(i: nat, j: nat)
    requires i < j < NZONES
    ensures SizeOf(i) < SizeOf(j)
  {
  }

  /** Two sizes share a zone index exactly if they round to the same chunk size. */
  lemma IndexExact(a: nat, b: nat)
    requires 1 <= a < LIMIT && 1 <= b < LIMIT
    ensures Index(a) == Index(b) <==> Chunk(a) == Chunk(b)
  {
    hide Index, Chunk, SizeOf;
    IndexRight(a);
    IndexRight(b);
    if Index(a) < Index(b) { SizesRise(Index(a), Index(b)); }
    if Index(b) < Index(a) { SizesRise(Index(b), Index(a)); }
  }

  // ---- Zones ----

  /** The test (size | size - 1) + 1 == size << 1, for chunk sizes. */
  predicate PowerOfTwo(size: nat) {
    size in {8, 16, 32, 64, 128, 256, 512, 1024, 2048, 4096, 8192, 16384}
  }

  /** Where the chunks of a zone start. */
  function Offset(size: nat): nat {
    if PowerOfTwo(size) then RoundUp(HEADER, size) else RoundUp(HEADER, 8)
  }

  /** How many chunks a zone holds. */
  function Chunks(zoneSize: nat, size: nat): int
    requires size > 0
  {
    (zoneSize - Offset(size)) / size
  }

  /** The zone sizes rt_system_heap_init chooses from. */
  predicate ZoneSize(zoneSize: nat) {
    zoneSize in {0x8000, 0x1_0000, 0x2_0000}
  }

  function ZoneLimit(zoneSize: nat): nat {
    if zoneSize / 4 > LIMIT then LIMIT else zoneSize / 4
  }

  /** A quarter of a zone, but no more than the largest chunk size. */
  lemma LimitIs(zoneSize: nat)
    requires ZoneSize(zoneSize)
    ensures ZoneLimit(zoneSize) <= LIMIT && 4 * ZoneLimit(zoneSize) <= zoneSize
    ensures ZoneLimit(zoneSize) == LIMIT || 4 * ZoneLimit(zoneSize) == zoneSize
  {
  }

  lemma OffsetRight(size: nat)
    requires size % 8 == 0 && size > 0
    ensures HEADER <= Offset(size) <= 64 || (PowerOfTwo(size) && Offset(size) == size && size >= 64)
    ensures HEADER <= Offset(size) && (PowerOfTwo(size) ==> Offset(size) % size == 0)
    ensures Offset(size) <= size + 56
  {
  }

  lemma AtLeast(x: int, size: nat, k: nat)
    requires size > 0 && x >= k * size
    ensures x / size >= k && x / size * size <= x
  {
    var q := x / size;
    assert x == size * q + x % size;
    assert q < k ==> size * q <= size * (k - 1);
  }

  /** Every zone holds at least two chunks behind its header, and they fit. */
  lemma ZoneHolds(zoneSize: nat, n: nat)
    requires ZoneSize(zoneSize) && 1 <= n < ZoneLimit(zoneSize)
    ensures Chunk(n) > 0 && Chunks(zoneSize, Chunk(n)) >= 2
    ensures HEADER <= Offset(Chunk(n)) && Offset(Chunk(n)) + Chunks(zoneSize, Chunk(n)) * Chunk(n) <= zoneSize
  {
    hide RoundUp, Index, SizeOf;
    IndexRight(n);
    SizeBound(zoneSize, n);
    OffsetRight(Chunk(n));
    hide Offset;
    AtLeast(zoneSize - Offset(Chunk(n)), Chunk(n), 2);
  }

  lemma SizeBound(zoneSize: nat, n: nat)
    requires ZoneSize(zoneSize) && 1 <= n < ZoneLimit(zoneSize)
    ensures 4 * Chunk(n) <= zoneSize
  {
    hide RoundUp;
    if n < 128 {
      Rounding(n, 8);
    } else if n < 256 {
      Rounding(n, 16);
    } else if n < 512 {
      Rounding(n, 32);
    } else if n < 1024 {
      Rounding(n, 64);
    } else if n < 2048 {
      Rounding(n, 128);
    } else if n < 4096 {
      Rounding(n, 256);
    } else if n < 8192 {
      Rounding(n, 512);
    } else {
      Rounding(n, 1024);
    }
  }

  /** rt_system_heap_init: the zone size for a heap of limsize bytes. */
  method ChooseZoneSize(limsize: nat) returns (zoneSize: nat)
    ensures ZoneSize(zoneSize)
    ensures zoneSize > 0x8000 ==> zoneSize < limsize / 1024
    ensures zoneSize < 0x2_0000 ==> limsize / 1024 <= 2 * zoneSize
  {
    zoneSize := 0x8000;
    while zoneSize < 0x2_0000 && 2 * zoneSize < limsize / 1024
      invariant ZoneSize(zoneSize) && (zoneSize > 0x8000 ==> zoneSize < limsize / 1024)
      decreases 0x2_0000 - zoneSize
    {
      zoneSize := 2 * zoneSize;
    }
  }
}
