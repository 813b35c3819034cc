/** The masks with which slab.c rounds, and its test for powers of two, agree with the arithmetic of SlabZones. */
module SlabMasks {
  import opened Ffs
  import opened Masks
  import opened SlabZones

  /** (n + g - 1) & ~(g - 1) rounds n up to a multiple of g = 2^k. */
  lemma RoundMask(n: nat, k: nat)
    ensures AndNot(n + Power2(k) - 1, Power2(k) - 1) == RoundUp(n, Power2(k))
  {
    AndNotLow(n + Power2(k) - 1, k);
  }

  /** The powers of two up to 2^14, as numbers. */
  lemma Powers()
    ensures Power2(3) == 8 && Power2(4) == 16 && Power2(5) == 32 && Power2(6) == 64 && Power2(7) == 128
    ensures Power2(8) == 256 && Power2(9) == 512 && Power2(10) == 1024 && Power2(11) == 2048
    ensures Power2(12) == 4096 && Power2(13) == 8192 && Power2(14) == 16384
  {
    assert Power2(4) == 16;
    assert Power2(8) == 256;
    assert Power2(12) == 4096;
  }

  lemma Halfway(k: nat)
    ensures k > 0 ==> Power2(k) == 2 * Power2(k - 1)
    ensures Power2(0) == 1
  {
  }

  lemma {:induction false} Above(k: nat)
    requires k > 14
    ensures Power2(k) > 16384
  {
    hide Power2;
    Powers();
    Halfway(k);
    if k == 15 {
    } else {
      Above(k - 1);
    }
  }

  lemma Below(k: nat)
    requires k < 3
    ensures Power2(k) < 8
  {
  }

  /** Among chunk sizes, the listed ones are the powers of two. */
  lemma Listing(size: nat)
    requires 8 <= size <= LIMIT
    ensures PowerOfTwo(size) <==> IsPower(size)
  {
    hide Power2;
    Powers();
    if IsPower(size) {
      var k: nat :| size == Power2(k);
      if k > 14 { Above(k); assert false; }
      if k < 3 { Below(k); assert false; }
    }
  }

  /** The test on the bits picks the listed sizes. */
  lemma TestRight(size: nat)
    requires 8 <= size <= LIMIT
    ensures PowerOfTwo(size) <==> Or(size, size - 1) + 1 == 2 * size
  {
    hide Or, IsPower, PowerOfTwo;
    Listing(size);
    PowerTest(size);
  }

  lemma GrainIs(n: nat) returns (k: nat)
    ensures Grain(n) == Power2(k)
  {
    hide Power2;
    Powers();
    k := if n < 128 then 3 else if n < 256 then 4 else if n < 512 then 5 else if n < 1024 then 6
         else if n < 2048 then 7 else if n < 4096 then 8 else if n < 8192 then 9 else 10;
  }

  /** zoneindex masks the request to the chunk size. */
  lemma ChunkMask(n: nat)
    requires n < LIMIT
    ensures Chunk(n) == AndNot(n + Grain(n) - 1, Grain(n) - 1)
  {
    hide AndNot, Power2, RoundUp;
    var k := GrainIs(n);
    RoundMask(n, k);
  }

  /** The offset of a zone's chunks, as rt_malloc computes it from the header's size. */
  lemma OffsetMask(size: nat)
    requires 8 <= size <= LIMIT
    ensures Offset(size) == if Or(size, size - 1) + 1 == 2 * size then AndNot(HEADER + size - 1, size - 1)
                            else AndNot(HEADER + 7, 7)
  {
    hide AndNot, Or, Power2, RoundUp, PowerOfTwo, IsPower;
    TestRight(size);
    if PowerOfTwo(size) {
      Listing(size);
      var k := Exponent(size);
      RoundMask(HEADER, k);
    } else {
      Powers();
      RoundMask(HEADER, 3);
    }
  }

  lemma Exponent(v: nat) returns (k: nat)
    requires IsPower(v)
    ensures v == Power2(k)
  {
    k :| v == Power2(k);
  }
}
