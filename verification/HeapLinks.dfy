/** How a list of blocks is stored in the block headers: next, prev and a used flag. */
module HeapLinks {
  import opened Tiling

  /** The headers spell out the blocks; heap_end, at offset `end`, is a used block that points to
      itself. What heap_end holds in prev is not maintained. */
  ghost predicate Links(bs: seq<Block>, end: nat, next: seq<nat>, prev: seq<nat>, used: seq<bool>) {
    && |next| == |prev| == |used| == end + 1
    && next[end] == end && used[end]
    && (forall i :: 0 <= i < |bs| ==> Header(bs, i, end, next, prev, used))
  }

  ghost predicate Header(bs: seq<Block>, i: nat, end: nat, next: seq<nat>, prev: seq<nat>, used: seq<bool>)
    requires i < |bs| && |next| == |prev| == |used| == end + 1
  {
    var s := bs[i].start;
    && s < end
    && next[s] == bs[i].next && used[s] == bs[i].used
    && prev[s] == if i == 0 then 0 else bs[i - 1].start
  }

  lemma Apart(bs: seq<Block>, end: nat, hdr: nat, unit: nat, i: nat, j: nat)
    requires Tiles(bs, end, hdr, unit) && hdr > 0 && i < |bs| && j < |bs| && i != j
    ensures bs[i].start != bs[j].start
  {
    if i < j { Ordered(bs, end, hdr, unit, i, j); } else { Ordered(bs, end, hdr, unit, j, i); }
  }

  /** The offset after block i is the next block or heap_end. */
  lemma After(bs: seq<Block>, end: nat, hdr: nat, unit: nat, i: nat)
    requires Tiles(bs, end, hdr, unit) && hdr > 0 && i < |bs|
    ensures bs[i].start < bs[i].next <= end
    ensures if i + 1 < |bs| then bs[i].next == bs[i + 1].start < end else bs[i].next == end
  {
    Inside(bs, end, hdr, unit, i);
    if i + 1 < |bs| { Inside(bs, end, hdr, unit, i + 1); }
  }

  lemma LinksSetUsed(bs: seq<Block>, end: nat, hdr: nat, unit: nat,
                     next: seq<nat>, prev: seq<nat>, used: seq<bool>, i: nat, u: bool)
    requires Tiles(bs, end, hdr, unit) && hdr > 0 && i < |bs| && Links(bs, end, next, prev, used)
    requires bs[i].start < end
    ensures Links(SetUsed(bs, i, u), end, next, prev, used[bs[i].start := u])
  {
    hide Tiles;
    assert Header(bs, i, end, next, prev, used);
    var r, used' := SetUsed(bs, i, u), used[bs[i].start := u];
    forall k | 0 <= k < |r| ensures Header(r, k, end, next, prev, used') {
      assert Header(bs, k, end, next, prev, used);
      if k != i { Apart(bs, end, hdr, unit, k, i); }
    }
  }

  lemma LinksMerge(bs: seq<Block>, end: nat, hdr: nat, unit: nat,
                   next: seq<nat>, prev: seq<nat>, used: seq<bool>, i: nat)
    requires Tiles(bs, end, hdr, unit) && hdr > 0 && i + 1 < |bs| && Links(bs, end, next, prev, used)
    requires bs[i].start < end && bs[i + 1].next <= end
    ensures Links(Merge(bs, i), end, next[bs[i].start := bs[i + 1].next], prev[bs[i + 1].next := bs[i].start], used)
  {
    hide Merge, Tiles;
    var r := Merge(bs, i);
    MergeAt(bs, i, 0);
    After(bs, end, hdr, unit, i);
    After(bs, end, hdr, unit, i + 1);
    var next', prev' := next[bs[i].start := bs[i + 1].next], prev[bs[i + 1].next := bs[i].start];
    forall k | 0 <= k < |r| ensures Header(r, k, end, next', prev', used) {
      MergeAt(bs, i, k);
      if k > 0 { MergeAt(bs, i, k - 1); }
      var j := if k <= i then k else k + 1;
      assert Header(bs, j, end, next, prev, used) && r[k].start == bs[j].start;
      if j != i { Apart(bs, end, hdr, unit, j, i); }
      if i + 2 < |bs| && j != i + 2 { Apart(bs, end, hdr, unit, j, i + 2); }
    }
  }

  lemma LinksSplit(bs: seq<Block>, end: nat, hdr: nat, unit: nat,
                   next: seq<nat>, prev: seq<nat>, used: seq<bool>, i: nat, at: nat)
    requires Tiles(bs, end, hdr, unit) && hdr > 0 && i < |bs| && Links(bs, end, next, prev, used)
    requires bs[i].start < at < bs[i].next <= end
    ensures Links(Split(bs, i, at), end, next[at := bs[i].next][bs[i].start := at],
                  if bs[i].next == end then prev[at := bs[i].start] else prev[at := bs[i].start][bs[i].next := at],
                  used[at := false])
  {
    hide Split, Tiles;
    var r := Split(bs, i, at);
    SplitAt(bs, i, at, 0);
    After(bs, end, hdr, unit, i);
    var next' := next[at := bs[i].next][bs[i].start := at];
    var prev' := if bs[i].next == end then prev[at := bs[i].start] else prev[at := bs[i].start][bs[i].next := at];
    var used' := used[at := false];
    forall k | 0 <= k < |r| ensures Header(r, k, end, next', prev', used') {
      SplitAt(bs, i, at, k);
      if k > 0 { SplitAt(bs, i, at, k - 1); }
      if k != i + 1 {
        var j := if k <= i then k else k - 1;
        assert Header(bs, j, end, next, prev, used) && r[k].start == bs[j].start;
        Elsewhere(bs, end, hdr, unit, i, at, j);
        if j != i { Apart(bs, end, hdr, unit, j, i); }
        if i + 1 < |bs| && j != i + 1 { Apart(bs, end, hdr, unit, j, i + 1); }
      }
    }
  }

  /** No block starts inside another. */
  lemma Elsewhere(bs: seq<Block>, end: nat, hdr: nat, unit: nat, i: nat, at: nat, j: nat)
    requires Tiles(bs, end, hdr, unit) && hdr > 0 && i < |bs| && j < |bs| && bs[i].start < at < bs[i].next
    ensures bs[j].start != at && at < end
  {
    Inside(bs, end, hdr, unit, i);
    if i < j { Ordered(bs, end, hdr, unit, i, j); } else if j < i { Ordered(bs, end, hdr, unit, j, i); }
  }

  // ---- The lowest free block ----

  ghost predicate Lowest(bs: seq<Block>, end: nat, l: nat) {
    && (forall i :: 0 <= i < |bs| && !bs[i].used ==> l <= bs[i].start)
    && (l == end || exists i :: 0 <= i < |bs| && bs[i].start == l && !bs[i].used)
  }

  lemma LowestMerge(bs: seq<Block>, end: nat, hdr: nat, unit: nat, i: nat, l: nat)
    requires Tiles(bs, end, hdr, unit) && hdr > 0 && i + 1 < |bs| && !bs[i].used && !bs[i + 1].used
    requires Lowest(bs, end, l)
    ensures Lowest(Merge(bs, i), end, l) && l <= bs[i].start && l != bs[i + 1].start
  {
    hide Merge;
    var r := Merge(bs, i);
    MergeAt(bs, i, 0);
    Ordered(bs, end, hdr, unit, i, i + 1);
    After(bs, end, hdr, unit, i);
    forall k | 0 <= k < |r| && !r[k].used ensures l <= r[k].start {
      MergeAt(bs, i, k);
      assert r[k].start == bs[if k <= i then k else k + 1].start;
    }
    assert l != end;
    var m :| 0 <= m < |bs| && bs[m].start == l && !bs[m].used;
    assert m != i + 1;
    var k := if m <= i then m else m - 1;
    MergeAt(bs, i, k);
    assert r[k].start == l && !r[k].used;
  }

  lemma LowestRelease(bs: seq<Block>, end: nat, hdr: nat, unit: nat, i: nat, l: nat)
    requires Tiles(bs, end, hdr, unit) && hdr > 0 && i < |bs| && bs[i].used && Lowest(bs, end, l)
    ensures Lowest(SetUsed(bs, i, false), end, if bs[i].start < l then bs[i].start else l)
  {
    var r := SetUsed(bs, i, false);
    var l' := if bs[i].start < l then bs[i].start else l;
    After(bs, end, hdr, unit, i);
    assert r[i].start == bs[i].start && !r[i].used;
    if l' == l && l != end {
      var m :| 0 <= m < |bs| && bs[m].start == l && !bs[m].used;
      assert r[m].start == l && !r[m].used;
    }
  }

  /** A split leaves a free block at `at`; if block i was free it stays free for now. */
  lemma LowestSplit(bs: seq<Block>, end: nat, hdr: nat, unit: nat, i: nat, at: nat, l: nat)
    requires Tiles(bs, end, hdr, unit) && hdr > 0 && i < |bs| && bs[i].start < at < bs[i].next && Lowest(bs, end, l)
    ensures Lowest(Split(bs, i, at), end, if at < l then at else l)
    ensures !bs[i].used ==> l < at
  {
    hide Split;
    var r := Split(bs, i, at);
    SplitAt(bs, i, at, i + 1);
    After(bs, end, hdr, unit, i);
    var l' := if at < l then at else l;
    forall k | 0 <= k < |r| && !r[k].used ensures l' <= r[k].start {
      SplitAt(bs, i, at, k);
      if k != i + 1 { assert r[k].start == bs[if k <= i then k else k - 1].start; }
    }
    if l' == at {
      assert r[i + 1].start == l' && !r[i + 1].used;
    } else if l != end {
      var m :| 0 <= m < |bs| && bs[m].start == l && !bs[m].used;
      var k := if m <= i then m else m + 1;
      SplitAt(bs, i, at, k);
      assert r[k].start == l && !r[k].used;
    }
  }

  /** Everything before the lowest free block is used. */
  lemma BelowLowest(bs: seq<Block>, end: nat, hdr: nat, unit: nat, k: nat, l: nat)
    requires Tiles(bs, end, hdr, unit) && hdr > 0 && Lowest(bs, end, l) && k <= |bs|
    requires l == if k < |bs| then bs[k].start else end
    ensures forall j :: 0 <= j < k ==> bs[j].used
  {
    forall j | 0 <= j < k ensures bs[j].used {
      Inside(bs, end, hdr, unit, j);
      if k < |bs| { Ordered(bs, end, hdr, unit, j, k); }
    }
  }

  /** The lowest free block has an index, heap_end counting as one past the last. */
  lemma LowestIndex(bs: seq<Block>, end: nat, l: nat) returns (k: nat)
    requires Lowest(bs, end, l)
    ensures k <= |bs| && l == if k < |bs| then bs[k].start else end
    ensures k < |bs| ==> !bs[k].used
  {
    if l == end && !exists i :: 0 <= i < |bs| && bs[i].start == l && !bs[i].used {
      k := |bs|;
    } else {
      k :| 0 <= k < |bs| && bs[k].start == l && !bs[k].used;
    }
  }

  // ---- Bytes ----

  /** One byte of the pool. */
  type Byte = b: nat | b < 256

  /** Byte k lies in a block header. */
  ghost predicate InHeader(bs: seq<Block>, hdr: nat, k: nat) {
    exists i :: 0 <= i < |bs| && bs[i].start <= k < bs[i].start + hdr
  }

  /** Between two moments only header bytes have changed. */
  ghost predicate HeadersOnly(bs: seq<Block>, end: nat, hdr: nat, was: seq<Byte>, now: seq<Byte>) {
    |was| == |now| && forall k :: 0 <= k < |was| && k < end && was[k] != now[k] ==> InHeader(bs, hdr, k)
  }

  /** Then every payload is as it was. */
  lemma PayloadKept(bs: seq<Block>, end: nat, hdr: nat, unit: nat, was: seq<Byte>, now: seq<Byte>, b: Block)
    requires Tiles(bs, end, hdr, unit) && hdr > 0 && HeadersOnly(bs, end, hdr, was, now) && b in bs && |was| >= end
    ensures b.start + hdr <= b.next <= end && |was| == |now|
    ensures was[b.start + hdr..b.next] == now[b.start + hdr..b.next]
  {
    var i :| 0 <= i < |bs| && bs[i] == b;
    Inside(bs, end, hdr, unit, i);
    forall k | b.start + hdr <= k < b.next ensures was[k] == now[k] {
      if InHeader(bs, hdr, k) {
        var j :| 0 <= j < |bs| && bs[j].start <= k < bs[j].start + hdr;
        if i < j { Ordered(bs, end, hdr, unit, i, j); } else if j < i { Ordered(bs, end, hdr, unit, j, i); }
      }
    }
  }

  lemma HeadersMerge(bs: seq<Block>, i: nat, end: nat, hdr: nat, was: seq<Byte>, now: seq<Byte>)
    requires i + 1 < |bs| && HeadersOnly(Merge(bs, i), end, hdr, was, now)
    ensures HeadersOnly(bs, end, hdr, was, now)
  {
    hide Merge;
    var r := Merge(bs, i);
    forall k | 0 <= k < |was| && k < end && was[k] != now[k] ensures InHeader(bs, hdr, k) {
      assert InHeader(r, hdr, k);
      var j :| 0 <= j < |r| && r[j].start <= k < r[j].start + hdr;
      MergeAt(bs, i, 0);
      MergeAt(bs, i, j);
      assert bs[if j <= i then j else j + 1].start == r[j].start;
    }
  }

  lemma HeadersSetUsed(bs: seq<Block>, i: nat, u: bool, end: nat, hdr: nat, was: seq<Byte>, now: seq<Byte>)
    requires i < |bs|
    ensures HeadersOnly(SetUsed(bs, i, u), end, hdr, was, now) <==> HeadersOnly(bs, end, hdr, was, now)
  {
    var r := SetUsed(bs, i, u);
    forall k: nat ensures InHeader(r, hdr, k) <==> InHeader(bs, hdr, k) {
      assert forall j :: 0 <= j < |bs| ==> r[j].start == bs[j].start;
      if InHeader(bs, hdr, k) {
        var j :| 0 <= j < |bs| && bs[j].start <= k < bs[j].start + hdr;
        assert r[j].start <= k < r[j].start + hdr;
      }
    }
  }

  /** Only the header at offset q was written. */
  ghost predicate Stamped(was: seq<Byte>, now: seq<Byte>, q: nat, hdr: nat) {
    |was| == |now| && forall k :: 0 <= k < |was| && !(q <= k < q + hdr) ==> now[k] == was[k]
  }

  lemma HeaderStamped(bs: seq<Block>, end: nat, hdr: nat, was: seq<Byte>, mid: seq<Byte>, now: seq<Byte>, q: nat)
    requires HeadersOnly(bs, end, hdr, was, mid) && Stamped(mid, now, q, hdr)
    requires q == end || exists i :: 0 <= i < |bs| && bs[i].start == q
    ensures HeadersOnly(bs, end, hdr, was, now)
  {
    forall k | 0 <= k < |was| && k < end && was[k] != now[k] ensures InHeader(bs, hdr, k) {
      if was[k] == mid[k] {
        var i :| 0 <= i < |bs| && bs[i].start == q;
        assert bs[i].start <= k < bs[i].start + hdr;
      }
    }
  }

  lemma HeadersChain(bs: seq<Block>, end: nat, hdr: nat, was: seq<Byte>, mid: seq<Byte>, now: seq<Byte>)
    requires HeadersOnly(bs, end, hdr, was, mid) && HeadersOnly(bs, end, hdr, mid, now)
    ensures HeadersOnly(bs, end, hdr, was, now)
  {
  }
}
