/**
 Circular doubly linked lists whose cells are addressed by number: `next` and `prev`
 give the links stored at each address, `c` the addresses once around.
 */
module Circle {
  import opened Ipc

  function Succ<T>(c: seq<T>, k: nat): T
    requires k < |c|
  {
    if k + 1 == |c| then c[0] else c[k + 1]
  }

  function Pred<T>(c: seq<T>, k: nat): T
    requires k < |c|
  {
    if k == 0 then c[|c| - 1] else c[k - 1]
  }

  ghost predicate Circular(c: seq<nat>, next: seq<nat>, prev: seq<nat>) {
    && |c| > 0 && |next| == |prev| && Distinct(c)
    && forall k :: 0 <= k < |c| ==> Linked(c, k, next, prev)
  }

  ghost predicate Linked(c: seq<nat>, k: nat, next: seq<nat>, prev: seq<nat>)
    requires k < |c| && |next| == |prev|
  {
    c[k] < |next| && next[c[k]] == Succ(c, k) && prev[c[k]] == Pred(c, k)
  }

  function RemoveAt<T>(c: seq<T>, k: nat): seq<T>
    requires k < |c|
  {
    c[..k] + c[k + 1..]
  }

  lemma InsertAt<T>(c: seq<T>, k: nat, x: T, j: nat)
    requires k <= |c| && j <= |c|
    ensures |Insert(c, k, x)| == |c| + 1
    ensures Insert(c, k, x)[j] == if j < k then c[j] else if j == k then x else c[j - 1]
  {
  }

  lemma RemovedAt<T>(c: seq<T>, k: nat, j: nat)
    requires k < |c| && j + 1 < |c|
    ensures |RemoveAt(c, k)| == |c| - 1
    ensures RemoveAt(c, k)[j] == if j < k then c[j] else c[j + 1]
  {
  }

  lemma InsertDistinct<T>(c: seq<T>, k: nat, x: T)
    requires Distinct(c) && x !in c && k <= |c|
    ensures Distinct(Insert(c, k, x))
  {
    hide Insert;
    var r := Insert(c, k, x);
    InsertAt(c, k, x, 0);
    forall i, j | 0 <= i < j < |r| ensures r[i] != r[j] {
      InsertAt(c, k, x, i);
      InsertAt(c, k, x, j);
    }
  }

  lemma RemoveDistinct<T>(c: seq<T>, k: nat)
    requires Distinct(c) && k < |c|
    ensures Distinct(RemoveAt(c, k)) && c[k] !in RemoveAt(c, k)
  {
  }

  /** Cell x is linked in after cell k. */
  lemma InsertLinks(c: seq<nat>, k: nat, x: nat, next: seq<nat>, prev: seq<nat>)
    requires Circular(c, next, prev) && k < |c| && x !in c && x < |next|
    ensures c[k] < |next| && next[c[k]] == Succ(c, k) < |next|
    ensures Circular(Insert(c, k + 1, x), next[x := next[c[k]]][c[k] := x], prev[x := c[k]][next[c[k]] := x])
  {
    hide Insert, Distinct;
    var r := Insert(c, k + 1, x);
    InsertDistinct(c, k + 1, x);
    assert Linked(c, k, next, prev);
    var after := next[c[k]];
    assert Linked(c, if k + 1 == |c| then 0 else k + 1, next, prev);
    var next', prev' := next[x := after][c[k] := x], prev[x := c[k]][after := x];
    InsertAt(c, k + 1, x, |c|);
    InsertAt(c, k + 1, x, 0);
    forall j | 0 <= j < |r| ensures Linked(r, j, next', prev') {
      InsertAt(c, k + 1, x, j);
      if j + 1 < |r| { InsertAt(c, k + 1, x, j + 1); }
      if j > 0 { InsertAt(c, k + 1, x, j - 1); }
      if j != k + 1 {
        var i := if j <= k then j else j - 1;
        assert Linked(c, i, next, prev) && c[i] in c;
        Differ(c, i, k);
        Differ(c, i, if k + 1 == |c| then 0 else k + 1);
      }
    }
  }

  lemma Differ(c: seq<nat>, i: nat, j: nat)
    requires Distinct(c) && i < |c| && j < |c|
    ensures c[i] == c[j] <==> i == j
  {
  }

  /** Cell k is unlinked. */
  lemma RemoveLinks(c: seq<nat>, k: nat, next: seq<nat>, prev: seq<nat>)
    requires Circular(c, next, prev) && k < |c| && |c| >= 2
    ensures var x := c[k];
            && x < |next| && next[x] == Succ(c, k) < |next| && prev[x] == Pred(c, k) < |next|
            && Circular(RemoveAt(c, k), next[prev[x] := next[x]], prev[next[x] := prev[x]])
  {
    hide RemoveAt, Distinct;
    var x, r := c[k], RemoveAt(c, k);
    RemoveDistinct(c, k);
    var before, after := if k == 0 then |c| - 1 else k - 1, if k + 1 == |c| then 0 else k + 1;
    assert Linked(c, k, next, prev) && Linked(c, before, next, prev) && Linked(c, after, next, prev);
    var next', prev' := next[c[before] := c[after]], prev[c[after] := c[before]];
    RemovedAt(c, k, 0);
    RemovedAt(c, k, |c| - 2);
    forall j | 0 <= j < |r| ensures Linked(r, j, next', prev') {
      RemovedAt(c, k, j);
      if j + 1 < |r| { RemovedAt(c, k, j + 1); }
      if j > 0 { RemovedAt(c, k, j - 1); }
      var i := if j < k then j else j + 1;
      assert Linked(c, i, next, prev);
      Differ(c, i, before);
      Differ(c, i, after);
    }
  }

  /** Links cell x in after the cell at, which is cell k. */
  method LinkAfter(next: array<nat>, prev: array<nat>, at: nat, x: nat, ghost c: seq<nat>, ghost k: nat)
    requires next != prev && Circular(c, next[..], prev[..]) && k < |c| && c[k] == at && x !in c && x < next.Length
    modifies next, prev
    ensures Circular(Insert(c, k + 1, x), next[..], prev[..])
  {
    hide Insert, Distinct, Circular;
    ghost var n0, p0 := next[..], prev[..];
    LinkFacts(c, k, x, n0, p0);
    var after := next[at];
    next[x] := after;
    prev[x] := at;
    ghost var n1, p1 := n0[x := after], p0[x := at];
    assert next[..] == n1 && prev[..] == p1;
    prev[after] := x;
    next[at] := x;
    assert next[..] == n1[at := x] && prev[..] == p1[after := x];
  }

  lemma LinkFacts(c: seq<nat>, k: nat, x: nat, next: seq<nat>, prev: seq<nat>)
    requires Circular(c, next, prev) && k < |c| && x !in c && x < |next|
    ensures |next| == |prev| && c[k] < |next| && next[c[k]] < |next|
    ensures var n1, p1 := next[x := next[c[k]]], prev[x := c[k]];
            Circular(Insert(c, k + 1, x), n1[c[k] := x], p1[next[c[k]] := x])
  {
    InsertLinks(c, k, x, next, prev);
  }

  /** Unlinks cell x, which is cell k and not the only one. */
  method Unlink(next: array<nat>, prev: array<nat>, x: nat, ghost c: seq<nat>, ghost k: nat)
    requires next != prev && Circular(c, next[..], prev[..]) && k < |c| && c[k] == x && |c| >= 2
    modifies next, prev
    ensures Circular(RemoveAt(c, k), next[..], prev[..])
  {
    hide RemoveAt, Distinct, Circular;
    ghost var n0, p0 := next[..], prev[..];
    UnlinkFacts(c, k, n0, p0);
    var after, before := next[x], prev[x];
    prev[after] := before;
    next[before] := after;
    assert next[..] == n0[before := after] && prev[..] == p0[after := before];
  }

  lemma UnlinkFacts(c: seq<nat>, k: nat, next: seq<nat>, prev: seq<nat>)
    requires Circular(c, next, prev) && k < |c| && |c| >= 2
    ensures |next| == |prev| && c[k] < |next| && next[c[k]] < |next| && prev[c[k]] < |next|
    ensures Circular(RemoveAt(c, k), next[prev[c[k]] := next[c[k]]], prev[next[c[k]] := prev[c[k]]])
  {
    RemoveLinks(c, k, next, prev);
  }

  /** What cell k says. */
  lemma CellLinks(c: seq<nat>, k: nat, next: seq<nat>, prev: seq<nat>)
    requires Circular(c, next, prev) && k < |c|
    ensures |next| == |prev| && c[k] < |next| && next[c[k]] == Succ(c, k) && prev[c[k]] == Pred(c, k)
  {
    assert Linked(c, k, next, prev);
  }
}
