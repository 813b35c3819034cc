/**
 Timers: the list of running timers as a plain list sorted by deadline, starting and
 stopping timers, and the check that fires those that are due. Deadlines and time are
 true, unbounded ticks here.
 */
module Timer {
  import opened Ipc

  /** RT_TICK_MAX / 2. */
  const HALF: nat := 0x7fff_ffff

  /** When a timer is due, and the number of the start that set it. */
  datatype Key = Key(due: nat, born: nat)

  predicate Sooner(a: Key, b: Key) {
    a.due < b.due || (a.due == b.due && a.born < b.born)
  }

  /** The list holds only timers below n. */
  ghost predicate Known(row: seq<nat>, n: nat) {
    forall i :: 0 <= i < |row| ==> row[i] < n
  }

  /** Timers in the order of their deadlines, those with equal deadlines in the order they were started. */
  ghost predicate Sorted(row: seq<nat>, keys: seq<Key>) {
    && Known(row, |keys|)
    && (forall i, j :: 0 <= i < j < |row| ==> Sooner(keys[row[i]], keys[row[j]]))
  }

  /** The first position from k on of a timer due later than d, or |row|. */
  function Place(row: seq<nat>, keys: seq<Key>, d: nat, k: nat): (p: nat)
    requires k <= |row| && Known(row, |keys|)
    ensures k <= p <= |row|
    ensures forall i :: k <= i < p ==> keys[row[i]].due <= d
    ensures p < |row| ==> keys[row[p]].due > d
    decreases |row| - k
  {
    if k == |row| || keys[row[k]].due > d then k else Place(row, keys, d, k + 1)
  }

  /** The list with timer t inserted behind every timer due no later. */
  function Placed(row: seq<nat>, keys: seq<Key>, t: nat): seq<nat>
    requires t < |keys| && Known(row, |keys|)
  {
    Insert(row, Place(row, keys, keys[t].due, 0), t)
  }

  lemma {:induction false} RemovedSorted(row: seq<nat>, keys: seq<Key>, t: nat)
    requires Sorted(row, keys)
    ensures Sorted(Off(row, t), keys) && |Off(row, t)| <= |row|
  {
    if row != [] {
      assert forall i :: 0 <= i < |row[1..]| ==> row[1..][i] == row[i + 1];
      RemovedSorted(row[1..], keys, t);
      var r := Off(row[1..], t);
      if row[0] != t {
        forall j | 0 <= j < |r| ensures Sooner(keys[row[0]], keys[r[j]]) {
          assert r[j] in row[1..];
        }
        assert Off(row, t) == [row[0]] + r;
      } else {
        assert Off(row, t) == r;
      }
    }
  }

  /** Started before now: its key is older than start number n. */
  ghost predicate Older(row: seq<nat>, keys: seq<Key>, n: nat) {
    forall i :: 0 <= i < |row| ==> row[i] < |keys| && keys[row[i]].born < n
  }

  /** Plain insertion keeps the list sorted, ties included. */
  lemma PlacedSorted(row: seq<nat>, keys: seq<Key>, t: nat)
    requires Sorted(row, keys) && t < |keys| && Older(row, keys, keys[t].born)
    ensures Sorted(Placed(row, keys, t), keys)
  {
    var p, r := Place(row, keys, keys[t].due, 0), Placed(row, keys, t);
    forall i | 0 <= i < |r| ensures r[i] < |keys| {
      assert r[i] == if i < p then row[i] else if i == p then t else row[i - 1];
    }
    forall i, j | 0 <= i < j < |r| ensures Sooner(keys[r[i]], keys[r[j]]) {
      assert r[i] == if i < p then row[i] else if i == p then t else row[i - 1];
      assert r[j] == if j < p then row[j] else if j == p then t else row[j - 1];
      if i < p && j > p { assert Sooner(keys[row[i]], keys[row[j - 1]]); }
      if i == p && j > p && p < j - 1 { assert Sooner(keys[row[p]], keys[row[j - 1]]); }
    }
  }

  /** A change of the keys of other timers does not matter. */
  lemma SortedElsewhere(row: seq<nat>, keys: seq<Key>, t: nat, k: Key)
    requires Sorted(row, keys) && t !in row && t < |keys|
    ensures Sorted(row, keys[t := k])
  {
  }

  // ---- Starting and stopping ----

  /** Whether RT_TIMER_FLAG_PERIODIC is set, for each timer, and a bound on all times set. */
  datatype Config = Config(periodic: seq<bool>, longest: nat)

  /** queue lists the running timers, init the init_tick of each; temp is the timer whose callback is
      being called while it has neither been stopped nor started again. */
  datatype State = State(time: nat, queue: seq<nat>, keys: seq<Key>, starts: nat,
                         init: seq<nat>, active: seq<bool>, temp: Option<nat>)

  ghost predicate Sized(c: Config, s: State) {
    |s.init| == |c.periodic| == |s.keys| == |s.active|
  }

  /** A time that may be set for timer t: within bounds, and a period is positive. */
  predicate Settable(c: Config, t: nat, n: nat) {
    t < |c.periodic| && n <= c.longest && (c.periodic[t] ==> n > 0)
  }

  /** The running timers are sorted and active, and their deadlines lie close enough to the present. */
  ghost predicate Inv(c: Config, s: State) {
    && Sized(c, s) && c.longest < HALF && (forall t :: 0 <= t < |s.init| ==> Settable(c, t, s.init[t]))
    && Sorted(s.queue, s.keys) && Older(s.queue, s.keys, s.starts)
    && (forall i :: 0 <= i < |s.queue| ==> s.queue[i] < |s.active| && s.active[s.queue[i]])
    && Near(c.longest, s.time, s.queue, s.keys)
  }

  /** Running timers, and any timer started now, are due within half a word of each other. */
  ghost predicate Near(longest: nat, time: nat, row: seq<nat>, keys: seq<Key>) {
    forall i :: 0 <= i < |row| ==> row[i] < |keys| && Close(longest, time, keys[row[i]].due)
  }

  predicate Close(longest: nat, time: nat, due: nat) {
    time < due + HALF && due < time + HALF && time + longest < due + HALF + 3
  }

  function Leave(temp: Option<nat>, t: nat): Option<nat> {
    if temp == Some(t) then None else temp
  }

  /** rt_timer_start of a timer whose time has been set to n ticks. */
  function AfterStart(s: State, t: nat, n: nat): State
    requires t < |s.init| == |s.keys| == |s.active| && Known(s.queue, |s.keys|)
  {
    var keys := s.keys[t := Key(s.time + n, s.starts)];
    State(s.time, Placed(Off(s.queue, t), keys, t), keys, s.starts + 1,
          s.init[t := n], s.active[t := true], Leave(s.temp, t))
  }

  /** rt_timer_stop; a timer that is not active is left alone. */
  function AfterStop(s: State, t: nat): State
    requires t < |s.active|
  {
    if !s.active[t] then s
    else s.(queue := Off(s.queue, t), active := s.active[t := false], temp := Leave(s.temp, t))
  }

  lemma RemovedFacts(c: Config, s: State, t: nat)
    requires Inv(c, s)
    ensures var s' := s.(queue := Off(s.queue, t)); Inv(c, s')
  {
    var q := Off(s.queue, t);
    RemovedSorted(s.queue, s.keys, t);
    forall i | 0 <= i < |q|
      ensures q[i] < |s.keys| && s.keys[q[i]].born < s.starts && s.active[q[i]]
      ensures Close(c.longest, s.time, s.keys[q[i]].due)
    {
      assert q[i] in q && q[i] in s.queue;
    }
  }

  lemma StartInv(c: Config, s: State, t: nat, n: nat)
    requires Inv(c, s) && Settable(c, t, n)
    ensures Inv(c, AfterStart(s, t, n))
  {
    hide Sorted, Place, Placed, Off, Near, Older;
    RemovedFacts(c, s, t);
    var q, key := Off(s.queue, t), Key(s.time + n, s.starts);
    var keys := s.keys[t := key];
    NotIn(s.queue, t);
    SortedElsewhere(q, s.keys, t, key);
    OlderElsewhere(q, s.keys, t, key, s.starts);
    PlacedSorted(q, keys, t);
    PlacedMembers(q, keys, t);
    StartMembers(c, s, t, n, Placed(q, keys, t));
  }

  lemma OlderElsewhere(row: seq<nat>, keys: seq<Key>, t: nat, k: Key, n: nat)
    requires Older(row, keys, n) && t !in row && t < |keys|
    ensures Older(row, keys[t := k], n)
  {
    assert forall i :: 0 <= i < |row| ==> row[i] in row && row[i] != t;
  }

  lemma PlacedMembers(row: seq<nat>, keys: seq<Key>, t: nat)
    requires t < |keys| && Known(row, |keys|)
    ensures forall i :: 0 <= i < |Placed(row, keys, t)| ==>
              Placed(row, keys, t)[i] == t || Placed(row, keys, t)[i] in row
    ensures forall x: nat :: x in Placed(row, keys, t) <==> x == t || x in row
  {
    var r, p := Placed(row, keys, t), Place(row, keys, keys[t].due, 0);
    assert row == row[..p] + row[p..];
    assert forall i :: 0 <= i < |r| ==> r[i] in r;
  }

  lemma NotIn(row: seq<nat>, t: nat)
    ensures t !in Off(row, t)
  {
  }

  lemma StartMembers(c: Config, s: State, t: nat, n: nat, r: seq<nat>)
    requires Sized(c, s) && t < |s.init| && n <= c.longest < HALF
    requires var s' := s.(queue := Off(s.queue, t));
             && Older(s'.queue, s.keys, s.starts) && Near(c.longest, s.time, s'.queue, s.keys)
             && (forall i :: 0 <= i < |s'.queue| ==> s'.queue[i] < |s.active| && s.active[s'.queue[i]])
             && forall i :: 0 <= i < |r| ==> r[i] == t || r[i] in s'.queue
    ensures var keys := s.keys[t := Key(s.time + n, s.starts)];
            && Older(r, keys, s.starts + 1) && Near(c.longest, s.time, r, keys)
            && forall i :: 0 <= i < |r| ==> r[i] < |s.active| && s.active[t := true][r[i]]
  {
  }

  lemma StopInv(c: Config, s: State, t: nat)
    requires Inv(c, s) && t < |s.active|
    ensures Inv(c, AfterStop(s, t))
  {
    RemovedFacts(c, s, t);
    var q := Off(s.queue, t);
    assert forall i :: 0 <= i < |q| ==> q[i] in q && q[i] != t;
  }
}
