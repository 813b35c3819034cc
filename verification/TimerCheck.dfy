/**
 rt_timer_check: firing the timers that are due. What the callbacks do is given by a plan:
 plan(k) lists the timers started and stopped by the callback of the k-th timer fired.
 Interrupts stay disabled, so no time passes meanwhile.
 */
module TimerCheck {
  import opened Ipc
  import opened Timer

  /** Setting a timer's time to n ticks and starting it, or stopping it. */
  datatype Op = StartTimer(t: nat, n: nat) | StopTimer(t: nat)

  predicate Fine(c: Config, op: Op) {
    op.t < |c.periodic| && (op.StartTimer? ==> Settable(c, op.t, op.n))
  }

  ghost predicate InRange(c: Config, ops: seq<Op>) {
    forall i :: 0 <= i < |ops| ==> Fine(c, ops[i])
  }

  /** Nothing that is started is due already. */
  ghost predicate Ahead(c: Config, ops: seq<Op>) {
    InRange(c, ops) && forall i :: 0 <= i < |ops| && ops[i].StartTimer? ==> ops[i].n > 0
  }

  /** Callbacks start nothing that is already due. */
  ghost predicate Tame(c: Config, plan: nat -> seq<Op>) {
    forall k :: Ahead(c, plan(k))
  }

  function One(c: Config, s: State, op: Op): (r: State)
    requires Inv(c, s) && Fine(c, op)
    ensures Inv(c, r) && r.time == s.time
  {
    match op
    case StartTimer(t, n) => StartInv(c, s, t, n); AfterStart(s, t, n)
    case StopTimer(t) => StopInv(c, s, t); AfterStop(s, t)
  }

  /** What a callback does. */
  function Perform(c: Config, s: State, ops: seq<Op>): (r: State)
    requires Inv(c, s) && InRange(c, ops)
    ensures Inv(c, r) && r.time == s.time
    decreases |ops|
  {
    if ops == [] then s else Perform(c, One(c, s, ops[0]), ops[1..])
  }

  /** The timer is taken off the list before its callback is called. */
  function Detached(c: Config, s: State, t: nat): State
    requires t < |c.periodic| && t < |s.active|
  {
    s.(queue := Off(s.queue, t),
       active := if c.periodic[t] then s.active else s.active[t := false],
       temp := Some(t))
  }

  /** After the callback: a timer that was neither stopped nor started again is started again if
      it is periodic and active. */
  function Rearmed(c: Config, s: State, t: nat): (r: State)
    requires Inv(c, s) && t < |s.init|
    ensures Inv(c, r) && r.time == s.time
  {
    var s3 := s.(temp := None);
    StartInv(c, s3, t, s.init[t]);
    if s.temp.None? then s else if c.periodic[t] && s.active[t] then AfterStart(s3, t, s.init[t]) else s3
  }

  lemma DetachedInv(c: Config, s: State, t: nat)
    requires Inv(c, s) && t < |s.init|
    ensures Inv(c, Detached(c, s, t))
  {
    RemovedFacts(c, s, t);
    var q := Off(s.queue, t);
    assert forall i :: 0 <= i < |q| ==> q[i] in q && q[i] != t;
  }

  /** One turn of the loop. */
  function Fire(c: Config, s: State, ops: seq<Op>): (r: State)
    requires Inv(c, s) && s.queue != [] && InRange(c, ops)
    ensures Inv(c, r) && r.time == s.time
  {
    var t := s.queue[0];
    DetachedInv(c, s, t);
    Rearmed(c, Perform(c, Detached(c, s, t), ops), t)
  }

  predicate Due(s: State, t: nat)
    requires t < |s.keys|
  {
    s.keys[t].due <= s.time
  }

  // ---- The due timers ----

  /** The timers of a list that are due, in order. */
  function Dues(row: seq<nat>, keys: seq<Key>, time: nat): seq<nat> {
    if row == [] then []
    else (if row[0] < |keys| && keys[row[0]].due <= time then [row[0]] else []) + Dues(row[1..], keys, time)
  }

  function DueNow(s: State): seq<nat> {
    Dues(s.queue, s.keys, s.time)
  }

  lemma {:induction false} DuesConcat(a: seq<nat>, b: seq<nat>, keys: seq<Key>, time: nat)
    ensures Dues(a + b, keys, time) == Dues(a, keys, time) + Dues(b, keys, time)
  {
    if a == [] {
      assert a + b == b;
    } else {
      assert (a + b)[1..] == a[1..] + b;
      DuesConcat(a[1..], b, keys, time);
    }
  }

  lemma {:induction false} DuesRemoved(row: seq<nat>, keys: seq<Key>, time: nat, t: nat)
    ensures Dues(Off(row, t), keys, time) == Off(Dues(row, keys, time), t)
  {
    if row != [] {
      DuesRemoved(row[1..], keys, time, t);
      var d := Dues(row[1..], keys, time);
      if row[0] == t {
        assert Off(row, t) == Off(row[1..], t);
        assert Off([t] + d, t) == Off(d, t) by { assert ([t] + d)[1..] == d; }
        assert [] + d == d;
      } else {
        var r := Off(row[1..], t);
        assert Off(row, t) == [row[0]] + r && ([row[0]] + r)[1..] == r;
        assert Off([row[0]] + d, t) == [row[0]] + Off(d, t) by { assert ([row[0]] + d)[1..] == d; }
      }
    }
  }

  lemma {:induction false} DuesKey(row: seq<nat>, keys: seq<Key>, time: nat, t: nat, k: Key)
    requires t !in row && t < |keys|
    ensures Dues(row, keys[t := k], time) == Dues(row, keys, time)
  {
    if row == [] {
    } else {
      DuesKey(row[1..], keys, time, t, k);
    }
  }

  lemma {:induction false} DuesIn(row: seq<nat>, keys: seq<Key>, time: nat)
    ensures forall x: nat :: x in Dues(row, keys, time) <==> x in row && x < |keys| && keys[x].due <= time
  {
    if row == [] {
    } else {
      DuesIn(row[1..], keys, time);
      assert row == [row[0]] + row[1..];
    }
  }

  lemma PlacedDues(row: seq<nat>, keys: seq<Key>, time: nat, t: nat)
    requires t < |keys| && keys[t].due > time && Known(row, |keys|)
    ensures Dues(Placed(row, keys, t), keys, time) == Dues(row, keys, time)
  {
    var p := Place(row, keys, keys[t].due, 0);
    DuesConcat(row[..p] + [t], row[p..], keys, time);
    DuesConcat(row[..p], [t], keys, time);
    DuesConcat(row[..p], row[p..], keys, time);
    assert row == row[..p] + row[p..];
    assert Dues([t], keys, time) == [];
  }

  lemma StartDues(c: Config, s: State, t: nat, n: nat)
    requires Inv(c, s) && t < |s.init| && n > 0
    ensures DueNow(AfterStart(s, t, n)) == Off(DueNow(s), t)
  {
    hide Sorted, Older, Near, Dues, Place, Placed, Off;
    var key := Key(s.time + n, s.starts);
    var q, keys := Off(s.queue, t), s.keys[t := key];
    RemovedFacts(c, s, t);
    NotIn(s.queue, t);
    InRow(c, s.(queue := q));
    PlacedDues(q, keys, s.time, t);
    DuesKey(q, s.keys, s.time, t, key);
    DuesRemoved(s.queue, s.keys, s.time, t);
  }

  lemma InRow(c: Config, s: State)
    requires Inv(c, s)
    ensures Known(s.queue, |s.keys|)
  {
  }

  lemma {:induction false} RemovedSame(row: seq<nat>, t: nat)
    requires t !in row
    ensures Off(row, t) == row
  {
    if row == [] {
    } else {
      RemovedSame(row[1..], t);
    }
  }

  /** Starting or stopping a timer takes it out of the due ones and adds none. */
  lemma OneDues(c: Config, s: State, op: Op)
    requires Inv(c, s) && Ahead(c, [op])
    ensures Fine(c, op) && DueNow(One(c, s, op)) == Off(DueNow(s), op.t)
  {
    assert [op][0] == op;
    if op.StartTimer? {
      StartDues(c, s, op.t, op.n);
    } else if s.active[op.t] {
      DuesRemoved(s.queue, s.keys, s.time, op.t);
    } else {
      DuesIn(s.queue, s.keys, s.time);
      RemovedSame(DueNow(s), op.t);
    }
  }

  /** The timers of d that ops do not mention. */
  function Minus(d: seq<nat>, ops: seq<Op>): (r: seq<nat>)
    ensures forall x: nat :: x in r ==> x in d
    ensures |r| <= |d|
    decreases |ops|
  {
    if ops == [] then d
    else
      RemovedLength(d, ops[0].t);
      Minus(Off(d, ops[0].t), ops[1..])
  }

  lemma {:induction false} RemovedLength(d: seq<nat>, t: nat)
    ensures |Off(d, t)| <= |d|
  {
    if d == [] {
    } else {
      RemovedLength(d[1..], t);
      assert |Off(d, t)| <= 1 + |Off(d[1..], t)|;
    }
  }

  lemma {:induction false} PerformDues(c: Config, s: State, ops: seq<Op>)
    requires Inv(c, s) && Ahead(c, ops)
    ensures DueNow(Perform(c, s, ops)) == Minus(DueNow(s), ops)
    decreases |ops|
  {
    hide Sorted, Older, Near, Dues, Off, One;
    if ops == [] {
    } else {
      assert forall i :: 0 <= i < |ops[1..]| ==> ops[1..][i] == ops[i + 1];
      OneDues(c, s, ops[0]);
      PerformDues(c, One(c, s, ops[0]), ops[1..]);
    }
  }

  lemma {:induction false} NoDues(row: seq<nat>, keys: seq<Key>, time: nat)
    requires forall j :: 0 <= j < |row| ==> row[j] < |keys| && keys[row[j]].due > time
    ensures Dues(row, keys, time) == []
  {
    if row == [] {
    } else {
      NoDues(row[1..], keys, time);
    }
  }

  lemma FirstDue(c: Config, s: State)
    requires Inv(c, s) && s.queue != []
    ensures s.queue[0] < |s.keys| && Off(s.queue, s.queue[0]) == s.queue[1..] && s.queue[0] !in s.queue[1..]
    ensures Due(s, s.queue[0]) ==> DueNow(s) == [s.queue[0]] + Dues(s.queue[1..], s.keys, s.time)
    ensures !Due(s, s.queue[0]) ==> DueNow(s) == []
  {
    var t := s.queue[0];
    assert t !in s.queue[1..];
    RemovedSame(s.queue[1..], t);
    assert Off(s.queue, t) == Off(s.queue[1..], t);
    DuesIn(s.queue, s.keys, s.time);
    if !Due(s, t) {
      forall j | 0 <= j < |s.queue| ensures s.keys[s.queue[j]].due > s.time {
        assert j > 0 ==> Sooner(s.keys[s.queue[0]], s.keys[s.queue[j]]);
      }
      NoDues(s.queue, s.keys, s.time);
    }
  }

  /** One turn fires the first due timer; of the others, those its callback does not mention stay due. */
  lemma FireDues(c: Config, s: State, ops: seq<Op>)
    requires Inv(c, s) && s.queue != [] && Due(s, s.queue[0]) && Ahead(c, ops)
    ensures DueNow(s) != [] && DueNow(s)[0] == s.queue[0]
    ensures DueNow(Fire(c, s, ops)) == Minus(DueNow(s)[1..], ops)
  {
    hide Sorted, Older, Near, Dues, Off, Perform, Minus;
    var t := s.queue[0];
    FirstDue(c, s);
    DetachedInv(c, s, t);
    var s1 := Detached(c, s, t);
    assert DueNow(s)[1..] == DueNow(s1);
    PerformDues(c, s1, ops);
    var s2 := Perform(c, s1, ops);
    RearmedDues(c, s2, t);
    NotDue(s, t);
    RemovedSame(DueNow(s2), t);
  }

  lemma NotDue(s: State, t: nat)
    requires s.queue != [] && t !in s.queue[1..]
    ensures t !in Dues(s.queue[1..], s.keys, s.time)
  {
    DuesIn(s.queue[1..], s.keys, s.time);
  }

  lemma RearmedDues(c: Config, s: State, t: nat)
    requires Inv(c, s) && t < |s.init|
    ensures DueNow(Rearmed(c, s, t)) == DueNow(s) || DueNow(Rearmed(c, s, t)) == Off(DueNow(s), t)
  {
    hide Sorted, Older, Near, Dues, Off;
    if c.periodic[t] { StartDues(c, s.(temp := None), t, s.init[t]); }
  }

  // ---- The whole check ----

  /** rt_timer_check, with the timers it fires. */
  function Check(c: Config, s: State, plan: nat -> seq<Op>, k: nat): (r: (State, seq<nat>))
    requires Inv(c, s) && Tame(c, plan)
    ensures Inv(c, r.0)
    decreases |DueNow(s)|
  {
    if s.queue == [] || !Due(s, s.queue[0]) then (s, [])
    else
      assert Ahead(c, plan(k));
      FireDues(c, s, plan(k));
      var (r, log) := Check(c, Fire(c, s, plan(k)), plan, k + 1);
      (r, [s.queue[0]] + log)
  }

  /** The due timers that get fired: each in turn, unless an earlier callback mentioned it. */
  function Expected(d: seq<nat>, plan: nat -> seq<Op>, k: nat): seq<nat>
    decreases |d|
  {
    if d == [] then [] else [d[0]] + Expected(Minus(d[1..], plan(k)), plan, k + 1)
  }

  /** The check fires exactly the due timers that no earlier callback has stopped or restarted, in
      the order of the list, and afterwards no timer is due. */
  lemma {:induction false} CheckFires(c: Config, s: State, plan: nat -> seq<Op>, k: nat)
    requires Inv(c, s) && Tame(c, plan)
    ensures Check(c, s, plan, k).1 == Expected(DueNow(s), plan, k)
    ensures DueNow(Check(c, s, plan, k).0) == []
    decreases |DueNow(s)|
  {
    hide Sorted, Older, Near, Dues, Off, Fire, Minus;
    if s.queue == [] {
      NoneDue(s);
    } else {
      FirstDue(c, s);
      if Due(s, s.queue[0]) {
        assert Ahead(c, plan(k));
        FireDues(c, s, plan(k));
        CheckFires(c, Fire(c, s, plan(k)), plan, k + 1);
      }
    }
  }

  lemma NoneDue(s: State)
    requires s.queue == []
    ensures DueNow(s) == []
  {
  }

  /** Timer x is mentioned by one of the callbacks from..to - 1. */
  ghost predicate Mentioned(plan: nat -> seq<Op>, from: nat, to: nat, x: nat) {
    exists k, i :: from <= k < to && 0 <= i < |plan(k)| && plan(k)[i].t == x
  }

  ghost predicate Names(ops: seq<Op>, x: nat) {
    exists i :: 0 <= i < |ops| && ops[i].t == x
  }

  lemma {:induction false} MinusNames(d: seq<nat>, ops: seq<Op>, x: nat)
    ensures x in Minus(d, ops) <==> x in d && !Names(ops, x)
    decreases |ops|
  {
    hide Off;
    if ops == [] {
    } else {
      MinusNames(Off(d, ops[0].t), ops[1..], x);
      if Names(ops[1..], x) {
        var i :| 0 <= i < |ops[1..]| && ops[1..][i].t == x;
        assert ops[i + 1].t == x;
      }
      if Names(ops, x) && ops[0].t != x {
        var i :| 0 <= i < |ops| && ops[i].t == x;
        assert ops[1..][i - 1].t == x;
      }
    }
  }

  /** What is fired was due at the start; what was due and is not fired was mentioned by the
      callback of a timer fired before. */
  lemma {:induction false} ExpectedIs(d: seq<nat>, plan: nat -> seq<Op>, k: nat, x: nat)
    ensures x in Expected(d, plan, k) ==> x in d
    ensures x in d && x !in Expected(d, plan, k) ==> Mentioned(plan, k, k + |Expected(d, plan, k)|, x)
    decreases |d|
  {
    if d != [] {
      var rest := Minus(d[1..], plan(k));
      var log := Expected(rest, plan, k + 1);
      ExpectedIs(rest, plan, k + 1, x);
      MinusNames(d[1..], plan(k), x);
      assert d == [d[0]] + d[1..];
      if x in d && x != d[0] && x !in log {
        if Names(plan(k), x) {
          var i :| 0 <= i < |plan(k)| && plan(k)[i].t == x;
          assert k <= k < k + 1 + |log|;
        } else {
          var j, i :| k + 1 <= j < k + 1 + |log| && 0 <= i < |plan(j)| && plan(j)[i].t == x;
          assert k <= j < k + 1 + |log|;
        }
      }
    }
  }

  // ---- The order, and what becomes of each timer ----

  lemma {:induction false} DuesSorted(row: seq<nat>, keys: seq<Key>, time: nat)
    requires Sorted(row, keys)
    ensures Sorted(Dues(row, keys, time), keys)
  {
    if row == [] {
    } else {
      assert forall i :: 0 <= i < |row[1..]| ==> row[1..][i] == row[i + 1];
      DuesSorted(row[1..], keys, time);
      DuesIn(row[1..], keys, time);
      var d := Dues(row[1..], keys, time);
      forall j | 0 <= j < |d| ensures Sooner(keys[row[0]], keys[d[j]]) { assert d[j] in row[1..]; }
    }
  }

  lemma {:induction false} MinusSorted(d: seq<nat>, keys: seq<Key>, ops: seq<Op>)
    requires Sorted(d, keys)
    ensures Sorted(Minus(d, ops), keys)
    decreases |ops|
  {
    hide Sorted, Off;
    if ops == [] {
    } else {
      RemovedSorted(d, keys, ops[0].t);
      MinusSorted(Off(d, ops[0].t), keys, ops[1..]);
    }
  }

  lemma {:induction false} ExpectedSorted(d: seq<nat>, keys: seq<Key>, plan: nat -> seq<Op>, k: nat)
    requires Sorted(d, keys)
    ensures Sorted(Expected(d, plan, k), keys)
    decreases |d|
  {
    if d == [] {
    } else {
      assert forall i :: 0 <= i < |d[1..]| ==> d[1..][i] == d[i + 1];
      MinusSorted(d[1..], keys, plan(k));
      var rest := Minus(d[1..], plan(k));
      ExpectedSorted(rest, keys, plan, k + 1);
      var log := Expected(rest, plan, k + 1);
      forall j | 0 <= j < |log| ensures Sooner(keys[d[0]], keys[log[j]]) {
        ExpectedIs(rest, plan, k + 1, log[j]);
        assert log[j] in log && log[j] in d[1..];
      }
    }
  }

  /** Timers are fired in the order of their deadlines, those with equal deadlines in the order
      they were started, each at most once. */
  lemma FiresInOrder(c: Config, s: State, plan: nat -> seq<Op>, k: nat)
    requires Inv(c, s) && Tame(c, plan)
    ensures Sorted(Check(c, s, plan, k).1, s.keys)
  {
    CheckFires(c, s, plan, k);
    DuesSorted(s.queue, s.keys, s.time);
    ExpectedSorted(DueNow(s), s.keys, plan, k);
  }

  /** For timer x nothing has changed. */
  ghost predicate Same(s: State, r: State, x: nat) {
    && x < |s.keys| == |r.keys| && x < |s.active| == |r.active| && x < |s.init| == |r.init| && r.init[x] == s.init[x]
    && (x in r.queue <==> x in s.queue) && r.keys[x] == s.keys[x] && r.active[x] == s.active[x]
    && (r.temp == Some(x) <==> s.temp == Some(x))
  }

  lemma OneSame(c: Config, s: State, op: Op, x: nat)
    requires Inv(c, s) && Fine(c, op) && x < |s.init| && op.t != x
    ensures Same(s, One(c, s, op), x)
  {
    hide Sorted, Older, Near, Off, Placed;
    if op.StartTimer? {
      var q := Off(s.queue, op.t);
      RemovedFacts(c, s, op.t);
      InRow(c, s.(queue := q));
      PlacedMembers(q, s.keys[op.t := Key(s.time + op.n, s.starts)], op.t);
    }
  }

  lemma {:induction false} PerformSame(c: Config, s: State, ops: seq<Op>, x: nat)
    requires Inv(c, s) && InRange(c, ops) && x < |s.init| && !Names(ops, x)
    ensures Same(s, Perform(c, s, ops), x)
    decreases |ops|
  {
    hide Sorted, Older, Near, One;
    if ops == [] {
    } else {
      OneSame(c, s, ops[0], x);
      assert forall i :: 0 <= i < |ops[1..]| ==> ops[1..][i] == ops[i + 1];
      PerformSame(c, One(c, s, ops[0]), ops[1..], x);
    }
  }

  /** A timer that is not fired and not mentioned by the callback is left alone. */
  lemma FireSame(c: Config, s: State, ops: seq<Op>, x: nat)
    requires Inv(c, s) && s.queue != [] && InRange(c, ops) && x < |s.init| && !Names(ops, x) && x != s.queue[0]
    requires s.temp == None
    ensures Same(s, Fire(c, s, ops), x)
  {
    hide Sorted, Older, Near, Off, Perform, One, AfterStart;
    var t := s.queue[0];
    DetachedInv(c, s, t);
    var s2 := Perform(c, Detached(c, s, t), ops);
    PerformSame(c, Detached(c, s, t), ops, x);
    OneSame(c, s2.(temp := None), StartTimer(t, s2.init[t]), x);
    OneStart(c, s2.(temp := None), t, s2.init[t]);
  }

  lemma OneStart(c: Config, s: State, t: nat, n: nat)
    requires Inv(c, s) && Settable(c, t, n)
    ensures One(c, s, StartTimer(t, n)) == AfterStart(s, t, n)
  {
  }

  /** The timer fired, when its own callback does not mention it: periodic, it runs again from
      now; one-shot, it is inactive. */
  lemma FireSelf(c: Config, s: State, ops: seq<Op>)
    requires Inv(c, s) && s.queue != [] && InRange(c, ops) && !Names(ops, s.queue[0])
    ensures Settled(c, s, Fire(c, s, ops), s.queue[0])
  {
    hide Sorted, Older, Near, Off, Perform, Placed;
    var t := s.queue[0];
    DetachedInv(c, s, t);
    var s1 := Detached(c, s, t);
    var s2 := Perform(c, s1, ops);
    PerformSame(c, s1, ops, t);
    NotIn(s.queue, t);
    var s3 := s2.(temp := None);
    RemovedFacts(c, s3, t);
    InRow(c, s3.(queue := Off(s3.queue, t)));
    PlacedMembers(Off(s3.queue, t), s3.keys[t := Key(s3.time + s3.init[t], s3.starts)], t);
  }

  ghost predicate Settled(c: Config, s: State, r: State, x: nat) {
    && x < |s.init| && x < |c.periodic| && x < |r.keys| && x < |r.active| && x < |r.init| && r.init[x] == s.init[x]
    && (c.periodic[x] ==> x in r.queue && r.active[x] && r.keys[x].due == s.time + s.init[x])
    && (!c.periodic[x] ==> x !in r.queue && !r.active[x])
  }

  /** The temporary list is empty again after each turn. */
  lemma FireTemp(c: Config, s: State, ops: seq<Op>)
    requires Inv(c, s) && s.queue != [] && InRange(c, ops)
    ensures Fire(c, s, ops).temp == None
  {
  }

  /** Over a whole check a timer no callback mentions is fired exactly if it is due; then it runs
      again from now if periodic and is inactive if not; otherwise nothing changes for it. */
  lemma {:induction false} CheckSettles(c: Config, s: State, plan: nat -> seq<Op>, k: nat, x: nat)
    requires Inv(c, s) && Tame(c, plan) && s.temp == None && x < |s.init|
    requires forall j: nat :: !Names(plan(j), x)
    ensures var (r, log) := Check(c, s, plan, k);
            && (x in log <==> x in DueNow(s))
            && if x in log then Settled(c, s, r, x) else Same(s, r, x)
    decreases |DueNow(s)|
  {
    hide Sorted, Older, Near, Dues, Off, Fire, Minus, Settled, Same;
    if s.queue == [] {
      NoneDue(s);
      SameSame(c, s, x);
    } else {
      FirstDue(c, s);
      if !Due(s, s.queue[0]) {
        SameSame(c, s, x);
      } else {
        SettlesStep(c, s, plan, k, x);
      }
    }
  }

  lemma SameSame(c: Config, s: State, x: nat)
    requires Inv(c, s) && x < |s.init|
    ensures Same(s, s, x)
  {
  }

  lemma SettlesStep(c: Config, s: State, plan: nat -> seq<Op>, k: nat, x: nat)
    requires Inv(c, s) && Tame(c, plan) && s.temp == None && x < |s.init| && s.queue != [] && Due(s, s.queue[0])
    requires forall j: nat :: !Names(plan(j), x)
    ensures var (r, log) := Check(c, s, plan, k);
            && (x in log <==> x in DueNow(s))
            && if x in log then Settled(c, s, r, x) else Same(s, r, x)
    decreases |DueNow(s)|, 0
  {
    hide Sorted, Older, Near, Dues, Off, Fire, Minus;
    var t, ops := s.queue[0], plan(k);
    assert Ahead(c, ops);
    FirstDue(c, s);
    FireDues(c, s, ops);
    FireTemp(c, s, ops);
    var s1 := Fire(c, s, ops);
    MinusNames(DueNow(s)[1..], ops, x);
    assert DueNow(s) == [t] + DueNow(s)[1..];
    CheckSettles(c, s1, plan, k + 1, x);
    if x == t {
      FireSelf(c, s, ops);
      NotDue(s, t);
    } else {
      FireSame(c, s, ops, x);
    }
  }

  // ---- Every run ----

  /** What happens between and at ticks. */
  datatype Event = Ran(op: Op) | Tick(plan: nat -> seq<Op>)

  /** Between ticks no running timer is overdue, and one that is due had no delay. */
  ghost predicate OnTime(s: State) {
    && s.temp == None && |s.init| == |s.keys|
    && forall i :: 0 <= i < |s.queue| ==> s.queue[i] < |s.keys| && Punctual(s, s.queue[i])
  }

  predicate Punctual(s: State, t: nat)
    requires t < |s.keys| == |s.init|
  {
    s.keys[t].due >= s.time && (s.keys[t].due == s.time ==> s.init[t] == 0)
  }

  ghost predicate Allowed(c: Config, e: Event) {
    match e
    case Ran(op) => Fine(c, op)
    case Tick(plan) => Tame(c, plan)
  }

  function Later(s: State): State { s.(time := s.time + 1) }

  ghost function Step(c: Config, s: State, e: Event): (r: State)
    requires Inv(c, s) && OnTime(s) && Allowed(c, e)
    ensures Inv(c, r) && OnTime(r)
  {
    match e
    case Ran(op) => OneOnTime(c, s, op); One(c, s, op)
    case Tick(plan) => LaterInv(c, s); TickOnTime(c, Later(s), plan); Check(c, Later(s), plan, 0).0
  }

  lemma LaterInv(c: Config, s: State)
    requires Inv(c, s) && OnTime(s)
    ensures Inv(c, Later(s))
  {
  }

  lemma OneOnTime(c: Config, s: State, op: Op)
    requires Inv(c, s) && OnTime(s) && Fine(c, op)
    ensures OnTime(One(c, s, op))
  {
    hide Sorted, Older, Near, Off, Placed;
    var r := One(c, s, op);
    var q := Off(s.queue, op.t);
    RemovedFacts(c, s, op.t);
    InRow(c, s.(queue := q));
    InRow(c, r);
    if op.StartTimer? { PlacedMembers(q, s.keys[op.t := Key(s.time + op.n, s.starts)], op.t); }
    forall i | 0 <= i < |r.queue| ensures Punctual(r, r.queue[i]) {
      if r.queue[i] != op.t { assert r.queue[i] in s.queue; }
    }
  }

  lemma TickOnTime(c: Config, s: State, plan: nat -> seq<Op>)
    requires Inv(c, s) && Tame(c, plan) && s.temp == None
    ensures OnTime(Check(c, s, plan, 0).0)
  {
    hide Sorted, Older, Near, Dues, Check;
    CheckFires(c, s, plan, 0);
    CheckTemp(c, s, plan, 0);
    var r := Check(c, s, plan, 0).0;
    InRow(c, r);
    DuesIn(r.queue, r.keys, r.time);
    forall i | 0 <= i < |r.queue| ensures Punctual(r, r.queue[i]) {
      assert r.queue[i] in r.queue && r.queue[i] !in DueNow(r);
    }
  }

  lemma {:induction false} CheckTemp(c: Config, s: State, plan: nat -> seq<Op>, k: nat)
    requires Inv(c, s) && Tame(c, plan) && s.temp == None
    ensures Check(c, s, plan, k).0.temp == None && Check(c, s, plan, k).0.time == s.time
    decreases |DueNow(s)|
  {
    hide Sorted, Older, Near, Dues, Fire;
    if s.queue == [] {
    } else {
      InRow(c, s);
      if Due(s, s.queue[0]) {
        assert Ahead(c, plan(k));
        FireDues(c, s, plan(k));
        FireTemp(c, s, plan(k));
        CheckTemp(c, Fire(c, s, plan(k)), plan, k + 1);
      }
    }
  }

  ghost function Exec(c: Config, s: State, run: seq<Event>): (r: State)
    requires Inv(c, s) && OnTime(s) && forall i :: 0 <= i < |run| ==> Allowed(c, run[i])
    ensures Inv(c, r) && OnTime(r)
    decreases |run|
  {
    if run == [] then s
    else
      assert forall i :: 0 <= i < |run[1..]| ==> run[1..][i] == run[i + 1];
      Exec(c, Step(c, s, run[0]), run[1..])
  }

  /** In every run a timer fires exactly at its tick, or one tick later if it was started with no
      delay at all. */
  lemma FiresAtItsTick(c: Config, s: State, run: seq<Event>, plan: nat -> seq<Op>)
    requires Inv(c, s) && OnTime(s) && (forall i :: 0 <= i < |run| ==> Allowed(c, run[i])) && Tame(c, plan)
    ensures var before := Exec(c, s, run);
            Inv(c, Later(before)) &&
            var (r, log) := Check(c, Later(before), plan, 0);
            && (forall t :: t in log ==>
                  && t < |before.keys| == |before.init|
                  && (|| before.keys[t].due == before.time + 1
                      || (before.keys[t].due == before.time && before.init[t] == 0)))
            && (forall t :: t in r.queue ==> t < |r.keys| && r.keys[t].due > before.time + 1)
  {
    hide Sorted, Older, Near, Dues, Check, Expected, Exec;
    var before := Exec(c, s, run);
    LaterInv(c, before);
    var now := Later(before);
    var (r, log) := Check(c, now, plan, 0);
    CheckFires(c, now, plan, 0);
    CheckTemp(c, now, plan, 0);
    DuesIn(now.queue, now.keys, now.time);
    forall t | t in log
      ensures t < |before.keys| == |before.init|
      ensures before.keys[t].due == before.time + 1 || (before.keys[t].due == before.time && before.init[t] == 0)
    {
      ExpectedIs(DueNow(now), plan, 0, t);
      assert t in before.queue && Punctual(before, t);
    }
    InRow(c, r);
    DuesIn(r.queue, r.keys, r.time);
    forall t | t in r.queue ensures t < |r.keys| && r.keys[t].due > before.time + 1 {
      assert t !in DueNow(r);
    }
  }
}
