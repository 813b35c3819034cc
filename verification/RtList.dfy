/** rt_list_t, the circular list under every kernel object, at the level of its pointers. */
module RtList {
  import opened Ipc
  import opened Circle

  class Node {
    var next: Node?
    var prev: Node?

    /** rt_list_init. */
    constructor ()
      ensures Ring([this])
    {
      next := this;
      prev := this;
      new;
      assert Joined([this], 0);
    }
  }

  /** Following next from c[0] visits c in order and comes back; prev goes the other way. */
  ghost predicate Ring(c: seq<Node>)
    reads c
  {
    |c| > 0 && Distinct(c) && forall k :: 0 <= k < |c| ==> Joined(c, k)
  }

  ghost predicate Joined(c: seq<Node>, k: nat)
    requires k < |c|
    reads c
  {
    c[k].next == Succ(c, k) && c[k].prev == Pred(c, k)
  }

  function Before<T>(c: seq<T>, k: nat): nat
    requires k < |c|
  {
    if k == 0 then |c| - 1 else k - 1
  }

  function After<T>(c: seq<T>, k: nat): nat
    requires k < |c|
  {
    if k + 1 == |c| then 0 else k + 1
  }

  lemma Same(c: seq<Node>, i: nat, j: nat)
    requires Distinct(c) && i < |c| && j < |c|
    ensures c[i] == c[j] <==> i == j
  {
  }

  /** Where cell j of the ring with n after cell k comes from. */
  lemma Spliced(c: seq<Node>, k: nat, n: Node, i: nat)
    requires Distinct(c) && k < |c| && n !in c && i < |c|
    ensures var r := Insert(c, k + 1, n);
            && |r| == |c| + 1 && Distinct(r)
            && r[k + 1] == n && Succ(r, k + 1) == Succ(c, k) && Pred(r, k + 1) == c[k]
            && var j := if i <= k then i else i + 1;
               && r[j] == c[i]
               && Succ(r, j) == (if i == k then n else Succ(c, i))
               && Pred(r, j) == (if i == After(c, k) then n else Pred(c, i))
  {
    hide Insert, Distinct;
    InsertDistinct(c, k + 1, n);
    var j := if i <= k then i else i + 1;
    InsertAt(c, k + 1, n, 0);
    InsertAt(c, k + 1, n, |c|);
    InsertAt(c, k + 1, n, k);
    InsertAt(c, k + 1, n, k + 1);
    if k + 2 <= |c| { InsertAt(c, k + 1, n, k + 2); }
    InsertAt(c, k + 1, n, j);
    if j < |c| { InsertAt(c, k + 1, n, j + 1); }
    if j > 0 { InsertAt(c, k + 1, n, j - 1); }
  }

  /** rt_list_insert_after. */
  method InsertAfter(l: Node, n: Node, ghost c: seq<Node>, ghost k: nat)
    requires Ring(c) && k < |c| && c[k] == l && n !in c
    modifies l, Succ(c, k), n
    ensures Ring(Insert(c, k + 1, n))
  {
    hide Insert, Distinct;
    assert Joined(c, k) && Joined(c, After(c, k));
    Apart(c, k, n);
    Apart(c, After(c, k), n);
    l.next.prev := n;
    n.next := l.next;
    l.next := n;
    n.prev := l;
    ghost var r := Insert(c, k + 1, n);
    Spliced(c, k, n, 0);
    forall j | 0 <= j < |r| ensures Joined(r, j) {
      if j != k + 1 {
        ghost var i := if j <= k then j else j - 1;
        Spliced(c, k, n, i);
        assert old(Joined(c, i));
      }
    }
  }

  lemma Apart(c: seq<Node>, k: nat, n: Node)
    requires Distinct(c) && k < |c| && n !in c
    ensures c[k] != n && forall j :: 0 <= j < |c| && j != k ==> c[j] != c[k]
  {
  }

  /** rt_list_insert_before; before the head c[0] is the end of the list. */
  method InsertBefore(l: Node, n: Node, ghost c: seq<Node>, ghost k: nat)
    requires Ring(c) && k < |c| && c[k] == l && n !in c
    modifies l, Pred(c, k), n
    ensures Ring(Insert(c, Before(c, k) + 1, n))
  {
    hide Insert, Distinct;
    assert Joined(c, k) && Joined(c, Before(c, k));
    Apart(c, k, n);
    Apart(c, Before(c, k), n);
    l.prev.next := n;
    n.prev := l.prev;
    l.prev := n;
    n.next := l;
    ghost var r := Insert(c, Before(c, k) + 1, n);
    Spliced(c, Before(c, k), n, 0);
    forall j | 0 <= j < |r| ensures Joined(r, j) {
      if j != Before(c, k) + 1 {
        ghost var i := if j <= Before(c, k) then j else j - 1;
        Spliced(c, Before(c, k), n, i);
        assert old(Joined(c, i));
      }
    }
  }

  /** rt_list_remove: the node leaves the list and is a list of its own; alone it stays so. */
  method Remove(n: Node, ghost c: seq<Node>, ghost k: nat)
    requires Ring(c) && k < |c| && c[k] == n
    modifies n, Pred(c, k), Succ(c, k)
    ensures Ring([n]) && (|c| > 1 ==> Ring(RemoveAt(c, k)) && n !in RemoveAt(c, k))
  {
    hide RemoveAt, Distinct;
    assert Joined(c, k) && Joined(c, Before(c, k)) && Joined(c, After(c, k));
    n.next.prev := n.prev;
    n.prev.next := n.next;
    n.next := n;
    n.prev := n;
    Alone(n);
    assert Joined([n], 0);
    if |c| > 1 {
      ghost var r := RemoveAt(c, k);
      RemoveDistinct(c, k);
      RemovedAt(c, k, 0);
      RemovedAt(c, k, |c| - 2);
      forall j | 0 <= j < |r| ensures Joined(r, j) {
        RemovedAt(c, k, j);
        if j + 1 < |r| { RemovedAt(c, k, j + 1); }
        if j > 0 { RemovedAt(c, k, j - 1); }
        ghost var i := if j < k then j else j + 1;
        assert old(Joined(c, i));
        Same(c, i, k);
        Same(c, i, Before(c, k));
        Same(c, i, After(c, k));
      }
    }
  }

  lemma Alone(n: Node)
    ensures Distinct([n])
  {
  }

  /** rt_list_isempty. */
  method IsEmpty(l: Node, ghost c: seq<Node>) returns (empty: bool)
    requires Ring(c) && c[0] == l
    ensures empty <==> |c| == 1
  {
    assert Joined(c, 0);
    empty := l.next == l;
  }
}
