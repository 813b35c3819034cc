/** The page allocator under the slab heap: a list of runs of free pages, sorted by address. */
module SlabPages {
  import opened Ipc

  /** count pages from page number start on. */
  datatype Run = Run(start: nat, count: nat)

  /** Runs are not empty, lie in order, and do not touch: two free neighbours are one run. */
  ghost predicate Orderly(runs: seq<Run>) {
    && (forall i :: 0 <= i < |runs| ==> runs[i].count > 0)
    && (forall i, j :: 0 <= i < j < |runs| ==> runs[i].start + runs[i].count < runs[j].start)
  }

  ghost function Span(start: nat, count: nat): (r: set<nat>)
    ensures forall x :: x in r <==> start <= x < start + count
  {
    if count == 0 then {} else Span(start, count - 1) + {start + count - 1}
  }

  /** The free pages. */
  ghost function Pages(runs: seq<Run>): set<nat> {
    if runs == [] then {} else Span(runs[0].start, runs[0].count) + Pages(runs[1..])
  }

  /** rt_page_alloc for n > 0: the list after it, and the first page. */
  function Alloc(runs: seq<Run>, n: nat): (seq<Run>, Option<nat>) {
    if runs == [] then ([], None)
    else
      var b := runs[0];
      if b.count > n then ([Run(b.start + n, b.count - n)] + runs[1..], Some(b.start))
      else if b.count == n then (runs[1..], Some(b.start))
      else
        var (rest, p) := Alloc(runs[1..], n);
        ([b] + rest, p)
  }

  /** rt_page_free. */
  function Free(runs: seq<Run>, p: nat, n: nat): seq<Run> {
    if runs == [] then [Run(p, n)]
    else
      var b := runs[0];
      if b.start + b.count == p then
        if |runs| > 1 && p + n == runs[1].start
        then [Run(b.start, b.count + n + runs[1].count)] + runs[2..]
        else [Run(b.start, b.count + n)] + runs[1..]
      else if b.start == p + n then [Run(p, b.count + n)] + runs[1..]
      else if b.start > p + n then [Run(p, n)] + runs
      else [b] + Free(runs[1..], p, n)
  }

  /** Every run of the list starts after x. */
  ghost predicate After(runs: seq<Run>, x: nat) {
    forall i :: 0 <= i < |runs| ==> x < runs[i].start
  }

  lemma OrderlyTail(runs: seq<Run>)
    requires Orderly(runs) && runs != []
    ensures Orderly(runs[1..])
    ensures After(runs[1..], runs[0].start + runs[0].count)
  {
    assert forall i :: 0 <= i < |runs[1..]| ==> runs[1..][i] == runs[i + 1];
  }

  /** A run before an orderly list makes an orderly list. */
  lemma OrderlyCons(b: Run, rest: seq<Run>)
    requires Orderly(rest) && b.count > 0 && After(rest, b.start + b.count)
    ensures Orderly([b] + rest)
  {
  }

  lemma FirstAfter(runs: seq<Run>, x: nat)
    requires Orderly(runs) && runs != [] && x < runs[0].start
    ensures After(runs, x)
  {
    forall i | 0 <= i < |runs| ensures x < runs[i].start { assert i > 0 ==> runs[0].start < runs[i].start; }
  }

  lemma {:induction false} PagesAfter(runs: seq<Run>, x: nat)
    requires After(runs, x)
    ensures forall y :: y in Pages(runs) ==> x < y
  {
    if runs == [] {
    } else {
      assert After(runs[1..], x) by {
        assert forall i :: 0 <= i < |runs[1..]| ==> runs[1..][i] == runs[i + 1];
      }
      PagesAfter(runs[1..], x);
    }
  }

  lemma {:induction false} AllocAfter(runs: seq<Run>, n: nat, x: nat)
    requires After(runs, x)
    ensures After(Alloc(runs, n).0, x)
  {
    if runs == [] {
    } else {
      assert After(runs[1..], x) by {
        assert forall i :: 0 <= i < |runs[1..]| ==> runs[1..][i] == runs[i + 1];
      }
      AllocAfter(runs[1..], n, x);
    }
  }

  lemma {:induction false} AllocOrderly(runs: seq<Run>, n: nat)
    requires Orderly(runs) && n > 0
    ensures Orderly(Alloc(runs, n).0)
  {
    hide Orderly;
    if runs != [] {
      var b := runs[0];
      OrderlyTail(runs);
      AllocOrderly(runs[1..], n);
      AllocAfter(runs[1..], n, b.start + b.count);
      Positive(runs);
      if b.count > n {
        OrderlyCons(Run(b.start + n, b.count - n), runs[1..]);
      } else if b.count < n {
        OrderlyCons(b, Alloc(runs[1..], n).0);
      }
    }
  }

  lemma Positive(runs: seq<Run>)
    requires Orderly(runs) && runs != []
    ensures runs[0].count > 0
  {
  }

  /** What is allocated was free, and is taken out of the free pages; a refusal changes nothing. */
  lemma {:induction false} AllocTakes(runs: seq<Run>, n: nat)
    requires Orderly(runs) && n > 0
    ensures var (r, p) := Alloc(runs, n);
            if p.None? then r == runs
            else Span(p.value, n) <= Pages(runs) && Pages(r) == Pages(runs) - Span(p.value, n)
  {
    hide Orderly;
    if runs != [] {
      var b := runs[0];
      OrderlyTail(runs);
      PagesAfter(runs[1..], b.start + b.count);
      var (r, p) := Alloc(runs, n);
      if b.count > n {
        assert r[1..] == runs[1..];
        assert Span(b.start, b.count) - Span(b.start, n) == Span(b.start + n, b.count - n);
      } else if b.count < n {
        AllocTakes(runs[1..], n);
        assert r == [b] + Alloc(runs[1..], n).0 && r[1..] == Alloc(runs[1..], n).0;
      }
    }
  }

  /** First fit: the pages come from the front of the first run that is long enough, and the
      allocation fails exactly if none is. */
  lemma {:induction false} AllocFirstFit(runs: seq<Run>, n: nat)
    ensures Alloc(runs, n).1.None? <==> forall i :: 0 <= i < |runs| ==> runs[i].count < n
    ensures Alloc(runs, n).1.Some? ==>
              exists i :: 0 <= i < |runs| && runs[i].start == Alloc(runs, n).1.value && runs[i].count >= n &&
                          forall j :: 0 <= j < i ==> runs[j].count < n
  {
    if runs == [] {
    } else {
      AllocFirstFit(runs[1..], n);
      assert forall i :: 0 <= i < |runs[1..]| ==> runs[1..][i] == runs[i + 1];
      if runs[0].count < n && Alloc(runs[1..], n).1.Some? {
        var i :| 0 <= i < |runs[1..]| && runs[1..][i].start == Alloc(runs, n).1.value && runs[1..][i].count >= n &&
                 forall j :: 0 <= j < i ==> runs[1..][j].count < n;
        assert runs[i + 1].start == Alloc(runs, n).1.value;
        assert forall j :: 0 <= j < i + 1 ==> j == 0 || runs[j] == runs[1..][j - 1];
      }
    }
  }

  /** The pages to be freed are not free yet. */
  ghost predicate Apart(runs: seq<Run>, p: nat, n: nat) {
    forall i :: 0 <= i < |runs| ==> runs[i].start + runs[i].count <= p || p + n <= runs[i].start
  }

  /** Pages that are not free lie beside every run. */
  lemma {:induction false} ApartFrom(runs: seq<Run>, p: nat, n: nat)
    requires Orderly(runs) && n > 0 && Span(p, n) !! Pages(runs)
    ensures Apart(runs, p, n)
  {
    if runs != [] {
      OrderlyTail(runs);
      ApartFrom(runs[1..], p, n);
      var b := runs[0];
      assert b.start in Span(b.start, b.count) && p in Span(p, n);
      assert b.start < p + n && p < b.start + b.count ==>
          (if b.start <= p then p in Span(b.start, b.count) else b.start in Span(p, n));
      forall i | 0 <= i < |runs| ensures runs[i].start + runs[i].count <= p || p + n <= runs[i].start {
        if i > 0 { assert runs[i] == runs[1..][i - 1]; }
      }
    }
  }

  lemma {:induction false} FreeAfter(runs: seq<Run>, p: nat, n: nat, x: nat)
    requires After(runs, x) && x < p
    ensures After(Free(runs, p, n), x)
  {
    if runs == [] {
    } else {
      assert After(runs[1..], x) by {
        assert forall i :: 0 <= i < |runs[1..]| ==> runs[1..][i] == runs[i + 1];
      }
      FreeAfter(runs[1..], p, n, x);
    }
  }

  lemma ApartTail(runs: seq<Run>, p: nat, n: nat)
    requires Apart(runs, p, n) && runs != []
    ensures Apart(runs[1..], p, n) && (runs[0].start + runs[0].count <= p || p + n <= runs[0].start)
  {
    assert forall i :: 0 <= i < |runs[1..]| ==> runs[1..][i] == runs[i + 1];
  }

  /** Freeing keeps the list sorted and maximally joined. */
  lemma {:induction false} FreeOrderly(runs: seq<Run>, p: nat, n: nat)
    requires Orderly(runs) && n > 0 && Apart(runs, p, n)
    ensures Orderly(Free(runs, p, n))
  {
    hide Orderly, Apart, After;
    if runs == [] {
      OrderlyOne(Run(p, n));
    } else {
      var b := runs[0];
      OrderlyTail(runs);
      ApartTail(runs, p, n);
      Positive(runs);
      if b.start + b.count == p {
        FreeBehind(runs, p, n);
      } else if b.start == p + n {
        OrderlyCons(Run(p, b.count + n), runs[1..]);
      } else if b.start > p + n {
        FirstAfter(runs, p + n);
        OrderlyCons(Run(p, n), runs);
      } else {
        FreeOrderly(runs[1..], p, n);
        FreeAfter(runs[1..], p, n, b.start + b.count);
        OrderlyCons(b, Free(runs[1..], p, n));
      }
    }
  }

  lemma OrderlyOne(b: Run)
    requires b.count > 0
    ensures Orderly([b])
  {
  }

  lemma FreeBehind(runs: seq<Run>, p: nat, n: nat)
    requires Orderly(runs) && n > 0 && runs != [] && runs[0].start + runs[0].count == p && Apart(runs, p, n)
    ensures Orderly(Free(runs, p, n))
  {
    hide Orderly, After, Apart;
    var b, rest := runs[0], runs[1..];
    OrderlyTail(runs);
    ApartTail(runs, p, n);
    if rest == [] {
      OrderlyOne(Run(b.start, b.count + n));
      assert [Run(b.start, b.count + n)] + rest == [Run(b.start, b.count + n)];
    } else {
      ApartTail(rest, p, n);
      AfterFirst(rest, p);
      if p + n == rest[0].start {
        assert rest[1..] == runs[2..];
        OrderlyTail(rest);
        OrderlyCons(Run(b.start, b.count + n + rest[0].count), runs[2..]);
      } else {
        FirstAfter(rest, p + n);
        OrderlyCons(Run(b.start, b.count + n), rest);
      }
    }
  }

  lemma AfterFirst(runs: seq<Run>, x: nat)
    requires After(runs, x) && runs != []
    ensures x < runs[0].start
  {
  }

  lemma SpanJoin(start: nat, a: nat, b: nat)
    ensures Span(start, a + b) == Span(start, a) + Span(start + a, b)
  {
  }

  /** The free pages after a free are exactly the old ones and the returned run. */
  lemma {:induction false} FreeGives(runs: seq<Run>, p: nat, n: nat)
    ensures Pages(Free(runs, p, n)) == Pages(runs) + Span(p, n)
  {
    hide Span;
    if runs != [] {
      var b, r := runs[0], Free(runs, p, n);
      if b.start + b.count == p {
        SpanJoin(b.start, b.count, n);
        if |runs| > 1 && p + n == runs[1].start {
          SpanJoin(b.start, b.count + n, runs[1].count);
          assert runs[1..][1..] == runs[2..] && r[1..] == runs[2..] && runs[1..][0] == runs[1];
          assert Pages(runs[1..]) == Span(runs[1].start, runs[1].count) + Pages(runs[2..]);
        } else {
          assert r[1..] == runs[1..];
        }
      } else if b.start == p + n {
        SpanJoin(p, n, b.count);
        assert r[1..] == runs[1..];
      } else if b.start > p + n {
        assert r[1..] == runs;
      } else {
        FreeGives(runs[1..], p, n);
        assert r[1..] == Free(runs[1..], p, n);
      }
    }
  }

  // ---- The list as the source walks it ----

  class PageList {
    var runs: seq<Run>

    constructor (start: nat, count: nat)
      requires count > 0
      ensures Orderly(runs) && runs == [Run(start, count)]
    {
      runs := [Run(start, count)];
    }

    /** rt_page_alloc. */
    method AllocPages(n: nat) returns (p: Option<nat>)
      modifies this
      ensures n == 0 ==> p.None? && runs == old(runs)
      ensures n > 0 ==> (runs, p) == Alloc(old(runs), n)
    {
      hide Alloc;
      if n == 0 { return None; }
      var i := 0;
      while i < |runs|
        invariant i <= |runs| && runs == old(runs)
        invariant forall j :: 0 <= j < i ==> runs[j].count < n
      {
        var b := runs[i];
        AllocSkips(runs, i, n);
        AllocHere(runs, i, n);
        if b.count > n {
          runs := runs[..i] + ([Run(b.start + n, b.count - n)] + runs[i + 1..]);
          return Some(b.start);
        }
        if b.count == n {
          runs := runs[..i] + runs[i + 1..];
          return Some(b.start);
        }
        i := i + 1;
      }
      AllocSkips(runs, i, n);
      AllocEnds(runs, n);
      return None;
    }

    /** rt_page_free. */
    method FreePages(p: nat, n: nat)
      requires n > 0
      modifies this
      ensures runs == Free(old(runs), p, n)
    {
      hide Free;
      var i := 0;
      while i < |runs|
        invariant i <= |runs| && runs == old(runs)
        invariant forall j :: 0 <= j < i ==> Passed(runs[j], p, n)
      {
        var b := runs[i];
        FreeSkips(runs, i, p, n);
        FreeHere(runs, i, p, n);
        if b.start + b.count == p {
          if i + 1 < |runs| && p + n == runs[i + 1].start {
            runs := runs[..i] + ([Run(b.start, b.count + n + runs[i + 1].count)] + runs[i + 2..]);
          } else {
            runs := runs[..i] + ([Run(b.start, b.count + n)] + runs[i + 1..]);
          }
          return;
        }
        if b.start == p + n {
          runs := runs[..i] + ([Run(p, b.count + n)] + runs[i + 1..]);
          return;
        }
        if b.start > p + n { break; }
        i := i + 1;
      }
      if i == |runs| {
        FreeSkips(runs, i, p, n);
        FreeEnds(runs, p, n);
      }
      runs := runs[..i] + ([Run(p, n)] + runs[i..]);
    }
  }

  /** The search goes past this run. */
  predicate Passed(b: Run, p: nat, n: nat) {
    b.start + b.count != p && b.start < p + n
  }

  /** Runs that are too short are passed over. */
  lemma {:induction false} AllocSkips(runs: seq<Run>, i: nat, n: nat)
    requires i <= |runs| && forall j :: 0 <= j < i ==> runs[j].count < n
    ensures Alloc(runs, n).0 == runs[..i] + Alloc(runs[i..], n).0 && Alloc(runs, n).1 == Alloc(runs[i..], n).1
    decreases i
  {
    if i == 0 {
      assert runs[0..] == runs && runs[..0] + Alloc(runs, n).0 == Alloc(runs, n).0;
    } else {
      var rest := runs[1..];
      assert forall j :: 0 <= j < |rest| ==> rest[j] == runs[j + 1];
      AllocSkips(rest, i - 1, n);
      assert rest[i - 1..] == runs[i..];
      assert [runs[0]] + rest[..i - 1] == runs[..i];
      assert runs[..i] + Alloc(runs[i..], n).0 == [runs[0]] + (rest[..i - 1] + Alloc(runs[i..], n).0);
    }
  }

  lemma AllocHere(runs: seq<Run>, i: nat, n: nat)
    requires i < |runs|
    ensures var b, r := runs[i], Alloc(runs[i..], n);
            && (b.count > n ==> r == ([Run(b.start + n, b.count - n)] + runs[i + 1..], Some(b.start)))
            && (b.count == n ==> r == (runs[i + 1..], Some(b.start)))
  {
    assert runs[i..][0] == runs[i] && runs[i..][1..] == runs[i + 1..];
  }

  lemma AllocEnds(runs: seq<Run>, n: nat)
    ensures runs[..|runs|] + Alloc(runs[|runs|..], n).0 == runs && Alloc(runs[|runs|..], n).1 == None
  {
  }

  /** Runs that do not touch the returned pages and lie before them are passed over. */
  lemma {:induction false} FreeSkips(runs: seq<Run>, i: nat, p: nat, n: nat)
    requires i <= |runs| && forall j :: 0 <= j < i ==> Passed(runs[j], p, n)
    ensures Free(runs, p, n) == runs[..i] + Free(runs[i..], p, n)
    decreases i
  {
    if i == 0 {
      assert runs[0..] == runs;
    } else {
      var rest := runs[1..];
      assert forall j :: 0 <= j < |rest| ==> rest[j] == runs[j + 1];
      FreeSkips(rest, i - 1, p, n);
      assert rest[i - 1..] == runs[i..];
      assert Passed(runs[0], p, n);
      assert [runs[0]] + rest[..i - 1] == runs[..i];
      assert runs[..i] + Free(runs[i..], p, n) == [runs[0]] + (rest[..i - 1] + Free(runs[i..], p, n));
    }
  }

  lemma FreeEnds(runs: seq<Run>, p: nat, n: nat)
    ensures Free(runs[|runs|..], p, n) == [Run(p, n)] + runs[|runs|..]
  {
  }

  lemma FreeHere(runs: seq<Run>, i: nat, p: nat, n: nat)
    requires i < |runs|
    ensures var b := runs[i];
            && (b.start + b.count == p && i + 1 < |runs| && p + n == runs[i + 1].start ==>
                  Free(runs[i..], p, n) == [Run(b.start, b.count + n + runs[i + 1].count)] + runs[i + 2..])
            && (b.start + b.count == p && !(i + 1 < |runs| && p + n == runs[i + 1].start) ==>
                  Free(runs[i..], p, n) == [Run(b.start, b.count + n)] + runs[i + 1..])
            && (b.start + b.count != p && b.start == p + n ==>
                  Free(runs[i..], p, n) == [Run(p, b.count + n)] + runs[i + 1..])
            && (b.start + b.count != p && b.start > p + n ==> Free(runs[i..], p, n) == [Run(p, n)] + runs[i..])
  {
    var r := runs[i..];
    assert r[0] == runs[i] && r[1..] == runs[i + 1..];
    if i + 1 < |runs| { assert r[1] == runs[i + 1] && r[2..] == runs[i + 2..]; }
  }
}
