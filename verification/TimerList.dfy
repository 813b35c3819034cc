/**
 Timers as timer.c keeps them: a skip list with any number of rows, the last of which
 holds every running timer, ordered by deadlines in 32-bit ticks that wrap around.
 */
module TimerList {
  import opened Ipc
  import opened Timer
  import opened TimerCheck

  // ---- Comparing ticks that wrap around ----

  /** a - b in 32-bit arithmetic. */
  function Ahead32(a: nat, b: nat): (d: nat)
    ensures d < WORD
  {
    (a - b) % WORD
  }

  /** The comparison of rt_timer_start: deadline a is behind deadline b. */
  predicate Behind(a: nat, b: nat) {
    Ahead32(a, b) != 0 && Ahead32(a, b) < HALF
  }

  /** For true deadlines a and b less than a word apart, the comparison is right exactly while a is
      less than half a word ahead of b or at most half a word and two behind it. */
  lemma BehindExact(a: nat, b: nat)
    requires a < b + WORD && b < a + WORD
    ensures (Behind(a % WORD, b % WORD) <==> a > b) <==> b < a + WORD - HALF + 1 && a < b + HALF
  {
    WrapDifference(a, b);
  }

  lemma WrapDifference(a: nat, b: nat)
    requires a < b + WORD && b < a + WORD
    ensures Ahead32(a % WORD, b % WORD) == if a >= b then a - b else a - b + WORD
  {
    assert a % WORD - b % WORD == a - b - WORD * (a / WORD - b / WORD);
    var k := a / WORD - b / WORD;
    assert (a % WORD - b % WORD) % WORD == (a - b - WORD * k) % WORD;
    var d := if a >= b then a - b else a - b + WORD;
    assert 0 <= d < WORD && (a % WORD - b % WORD) - d == WORD * (if a >= b then -k else -k - 1);
    Remainder(a % WORD - b % WORD, d, if a >= b then -k else -k - 1);
  }

  lemma Remainder(x: int, d: nat, q: int)
    requires d < WORD && x == d + WORD * q
    ensures x % WORD == d
  {
  }

  /** The test of rt_timer_check: a timer near the present is due. */
  lemma DueTest(time: nat, due: nat)
    requires time < due + HALF && due < time + HALF
    ensures Ahead32(time % WORD, due % WORD) < HALF <==> due <= time
  {
    WrapDifference(time, due);
  }

  // ---- Rows ----

  /** Each row is sorted, and its timers are all in the next row too. */
  ghost predicate Ladder(rows: seq<seq<nat>>, keys: seq<Key>) {
    forall r :: 0 <= r < |rows| ==> Rung(rows, r, keys)
  }

  ghost predicate Rung(rows: seq<seq<nat>>, r: nat, keys: seq<Key>)
    requires r < |rows|
  {
    Sorted(rows[r], keys) && (r + 1 < |rows| ==> Within(rows[r], rows[r + 1]))
  }

  ghost predicate Within(a: seq<nat>, b: seq<nat>) {
    forall x :: x in a ==> x in b
  }

  /** a can be had from b by leaving timers out. */
  predicate Subsequence(a: seq<nat>, b: seq<nat>) {
    a == [] || (b != [] && if a[0] == b[0] then Subsequence(a[1..], b[1..]) else Subsequence(a, b[1..]))
  }

  /** So each row is a subsequence of the one below. */
  lemma {:induction false} RungSubsequence(a: seq<nat>, b: seq<nat>, keys: seq<Key>)
    requires Sorted(a, keys) && Sorted(b, keys) && Within(a, b)
    ensures Subsequence(a, b)
    decreases |b|
  {
    if a != [] {
      assert a[0] in a && a[0] in b;
      var j :| 0 <= j < |b| && b[j] == a[0];
      assert forall i :: 0 <= i < |b[1..]| ==> b[1..][i] == b[i + 1];
      if a[0] == b[0] {
        assert forall i :: 0 <= i < |a[1..]| ==> a[1..][i] == a[i + 1];
        forall x | x in a[1..] ensures x in b[1..] { StrictlyAfter(a, b, keys, x); }
        RungSubsequence(a[1..], b[1..], keys);
      } else {
        forall x | x in a ensures x in b[1..] {
          var i :| 0 <= i < |a| && a[i] == x;
          var m :| 0 <= m < |b| && b[m] == x;
          assert i > 0 ==> Sooner(keys[a[0]], keys[a[i]]);
          assert j > 0 && Sooner(keys[b[0]], keys[b[j]]);
          assert m > 0;
          assert b[1..][m - 1] == x;
        }
        RungSubsequence(a, b[1..], keys);
      }
    }
  }

  lemma StrictlyAfter(a: seq<nat>, b: seq<nat>, keys: seq<Key>, x: nat)
    requires Sorted(a, keys) && Sorted(b, keys) && Within(a, b) && a != [] && b != [] && a[0] == b[0] && x in a[1..]
    ensures x in b[1..]
  {
    var i :| 0 <= i < |a[1..]| && a[1..][i] == x;
    assert a[i + 1] == x && Sooner(keys[a[0]], keys[a[i + 1]]);
    assert x in a && x in b;
    var m :| 0 <= m < |b| && b[m] == x;
    assert m > 0;
    assert b[1..][m - 1] == x;
  }

  /** The row j above the last is reached by start number nr. */
  predicate Reach(nr: nat, j: nat) {
    j == 0 || (nr % 4 == 0 && Reach(nr / 4, j - 1))
  }

  function Power4(j: nat): nat {
    if j == 0 then 1 else 4 * Power4(j - 1)
  }

  /** One start in 4 reaches the next row: row j above the last is reached by the multiples of 4^j. */
  lemma {:induction false} ReachPower(nr: nat, j: nat)
    ensures Power4(j) > 0 && (Reach(nr, j) <==> nr % Power4(j) == 0)
  {
    if j == 0 {
    } else {
      ReachPower(nr / 4, j - 1);
      var p := Power4(j - 1);
      FourTimes(nr, p);
    }
  }

  lemma FourTimes(nr: nat, p: nat)
    requires p > 0
    ensures nr % (4 * p) == 0 <==> nr % 4 == 0 && nr / 4 % p == 0
  {
    if nr % (4 * p) == 0 {
      var q := nr / (4 * p);
      assert nr == 4 * p * q;
      assert nr == 4 * (p * q);
      assert nr / 4 == p * q;
      Multiple(p, q);
    }
    if nr % 4 == 0 && nr / 4 % p == 0 {
      var q := nr / 4 / p;
      assert nr / 4 == p * q;
      assert nr == 4 * p * q;
      Multiple(4 * p, q);
    }
  }

  lemma Multiple(p: nat, q: nat)
    requires p > 0
    ensures p * q % p == 0
  {
    assert p * q == p * q + 0;
    assert (p * q) / p * p + (p * q) % p == p * q;
    var r := (p * q) % p;
    var d := q - (p * q) / p;
    assert p * d == r by { assert p * d == p * q - p * ((p * q) / p); }
  }

  lemma {:induction false} ReachDown(nr: nat, j: nat)
    requires Reach(nr, j + 1)
    ensures Reach(nr, j)
  {
    if j == 0 {
    } else {
      ReachDown(nr / 4, j - 1);
    }
  }

  // ---- Rows as they change ----

  /** Every row without timer t. */
  ghost function Stripped(rows: seq<seq<nat>>, t: nat): seq<seq<nat>> {
    seq(|rows|, r requires 0 <= r < |rows| => Off(rows[r], t))
  }

  lemma StrippedLadder(rows: seq<seq<nat>>, keys: seq<Key>, t: nat, k: Key)
    requires Ladder(rows, keys) && t < |keys|
    ensures Ladder(Stripped(rows, t), keys[t := k])
  {
    hide Sorted, Off;
    var q, keys' := Stripped(rows, t), keys[t := k];
    forall r | 0 <= r < |q| ensures Rung(q, r, keys') {
      assert Rung(rows, r, keys);
      RemovedSorted(rows[r], keys, t);
      NotIn(rows[r], t);
      SortedElsewhere(Off(rows[r], t), keys, t, k);
      if r + 1 < |q| { RemovedWithin(rows[r], rows[r + 1], t); }
    }
  }

  lemma RemovedWithin(a: seq<nat>, b: seq<nat>, t: nat)
    requires Within(a, b)
    ensures Within(Off(a, t), Off(b, t))
  {
  }

  /** Row r of `now` is row r of `was`, with t inserted if the row is among the last n and reached. */
  ghost predicate RaisedRow(was: seq<seq<nat>>, now: seq<seq<nat>>, keys: seq<Key>, t: nat, nr: nat, n: nat, r: nat)
    requires r < |was| == |now| && t < |keys| && Known(was[r], |keys|)
  {
    var j := |was| - 1 - r;
    now[r] == if j < n && Reach(nr, j) then Placed(was[r], keys, t) else was[r]
  }

  ghost predicate Raised(was: seq<seq<nat>>, now: seq<seq<nat>>, keys: seq<Key>, t: nat, nr: nat, n: nat) {
    && |was| == |now| && t < |keys|
    && forall r :: 0 <= r < |was| ==>
         Known(was[r], |keys|) && RaisedRow(was, now, keys, t, nr, n, r)
  }

  /** Inserting the timer into the rows it reaches keeps the ladder. */
  lemma RaisedLadder(was: seq<seq<nat>>, now: seq<seq<nat>>, keys: seq<Key>, t: nat, nr: nat)
    requires Ladder(was, keys) && Raised(was, now, keys, t, nr, |was|) && t < |keys|
    requires was != [] && Older(was[|was| - 1], keys, keys[t].born)
    ensures Ladder(now, keys)
  {
    hide Sorted, Placed, Reach, Older;
    forall r | 0 <= r < |now| ensures Rung(now, r, keys) {
      assert Rung(was, r, keys) && RaisedRow(was, now, keys, t, nr, |was|, r);
      RowOlder(was, keys, keys[t].born, r);
      PlacedSorted(was[r], keys, t);
      PlacedMembers(was[r], keys, t);
      if r + 1 < |now| {
        assert RaisedRow(was, now, keys, t, nr, |was|, r + 1);
        PlacedMembers(was[r + 1], keys, t);
        if Reach(nr, |was| - 1 - r) { ReachDown(nr, |was| - 2 - r); }
      }
    }
  }

  /** Every row holds timers of the last row only. */
  lemma {:induction false} RowWithin(rows: seq<seq<nat>>, keys: seq<Key>, r: nat)
    requires Ladder(rows, keys) && r < |rows|
    ensures Within(rows[r], rows[|rows| - 1])
    decreases |rows| - r
  {
    hide Sorted;
    assert Rung(rows, r, keys);
    if r == |rows| - 1 {
    } else {
      RowWithin(rows, keys, r + 1);
    }
  }

  lemma RowOlder(rows: seq<seq<nat>>, keys: seq<Key>, n: nat, r: nat)
    requires Ladder(rows, keys) && r < |rows| && Older(rows[|rows| - 1], keys, n)
    ensures Older(rows[r], keys, n)
  {
    RowWithin(rows, keys, r);
    forall i | 0 <= i < |rows[r]| ensures rows[r][i] < |keys| && keys[rows[r][i]].born < n {
      assert rows[r][i] in rows[r] && rows[r][i] in rows[|rows| - 1];
    }
  }

  // ---- Finding the place ----

  /** Where timer x stands in a row. */
  function IndexOf(row: seq<nat>, x: nat): (i: nat)
    requires x in row
    ensures i < |row| && row[i] == x
  {
    if row[0] == x then 0 else 1 + IndexOf(row[1..], x)
  }

  lemma {:induction false} PlaceSkips(row: seq<nat>, keys: seq<Key>, d: nat, j: nat, k: nat)
    requires j <= k <= |row| && Known(row, |keys|)
    requires forall i :: j <= i < k ==> keys[row[i]].due <= d
    ensures Place(row, keys, d, j) == Place(row, keys, d, k)
    decreases k - j
  {
    if j == k {
    } else {
      PlaceSkips(row, keys, d, j + 1, k);
    }
  }

  /** Going down a row from a timer that is due in time skips only timers that are due in time. */
  lemma Descend(row: seq<nat>, keys: seq<Key>, d: nat, x: nat)
    requires Sorted(row, keys) && x in row && x < |keys| && keys[x].due <= d
    ensures Place(row, keys, d, 0) == Place(row, keys, d, IndexOf(row, x) + 1)
  {
    var k := IndexOf(row, x);
    forall i | 0 <= i < k + 1 ensures keys[row[i]].due <= d {
      assert i < k ==> Sooner(keys[row[i]], keys[row[k]]);
    }
    PlaceSkips(row, keys, d, 0, k + 1);
  }

  /** The stored ticks are the deadlines modulo 2^32. */
  ghost predicate Ticks(keys: seq<Key>, tick: seq<nat>) {
    |tick| == |keys| && forall t :: 0 <= t < |keys| ==> tick[t] == keys[t].due % WORD
  }

  /** The deadlines of a row lie close enough to d for the comparison to be right. */
  ghost predicate Comparable(row: seq<nat>, keys: seq<Key>, d: nat) {
    forall i :: 0 <= i < |row| ==> row[i] < |keys| && keys[row[i]].due < d + HALF && d < keys[row[i]].due + HALF + 3
  }

  lemma RowComparable(rows: seq<seq<nat>>, keys: seq<Key>, d: nat, r: nat)
    requires Ladder(rows, keys) && r < |rows| && Comparable(rows[|rows| - 1], keys, d)
    ensures Comparable(rows[r], keys, d)
  {
    RowWithin(rows, keys, r);
    forall i | 0 <= i < |rows[r]|
      ensures var x := rows[r][i]; x < |keys| && keys[x].due < d + HALF && d < keys[x].due + HALF + 3
    {
      assert rows[r][i] in rows[r] && rows[r][i] in rows[|rows| - 1];
    }
  }

  /** One step of the search: the wrapped comparison decides as the true one. */
  lemma PlaceStep(row: seq<nat>, keys: seq<Key>, d: nat, k: nat)
    requires Comparable(row, keys, d) && k < |row|
    ensures row[k] < |keys|
    ensures Place(row, keys, d, k) ==
            if Behind(keys[row[k]].due % WORD, d % WORD) then k else Place(row, keys, d, k + 1)
  {
    BehindExact(keys[row[k]].due, d);
  }

  class TimerRows {
    const c: Config
    const levels: nat
    const tick: array<nat>
    const init: array<nat>
    const active: array<bool>
    var rows: seq<seq<nat>>
    var temp: Option<nat>
    var now: nat
    var randomNr: nat
    ghost var time: nat
    ghost var keys: seq<Key>
    ghost var starts: nat

    ghost function Value(): State
      requires 0 < levels == |rows|
      reads this, init, active
    {
      State(time, rows[levels - 1], keys, starts, init[..], active[..], temp)
    }

    ghost predicate Valid()
      reads this, tick, init, active
    {
      && tick != init && 0 < levels == |rows| && now == time % WORD && Ticks(keys, tick[..])
      && Ladder(rows, keys) && Inv(c, Value())
    }

    /** rt_system_timer_init and rt_timer_init: empty rows, no timer running. */
    constructor (c: Config, levels: nat)
      requires levels > 0 && 0 < c.longest < HALF
      ensures Valid() && OnTime(Value()) && Value().queue == [] && this.c == c
      ensures fresh(tick) && fresh(init) && fresh(active)
    {
      this.c := c;
      this.levels := levels;
      tick := new nat[|c.periodic|](_ => 0);
      init := new nat[|c.periodic|](_ => 1);
      active := new bool[|c.periodic|](_ => false);
      rows := seq(levels, _ => []);
      temp := None;
      now, randomNr := 0, 0;
      time, starts := 0, 0;
      keys := seq(|c.periodic|, _ => Key(0, 0));
      new;
      forall r | 0 <= r < |rows| ensures Rung(rows, r, keys) {}
    }

    /** rt_tick_increase up to the check: the tick wraps, true time does not. */
    method Advance()
      requires Valid() && OnTime(Value())
      modifies this`now, this`time
      ensures Valid() && Value() == Later(old(Value()))
    {
      hide Ladder, Ticks;
      LaterInv(c, Value());
      AddWrap(time, 1);
      now := (now + 1) % WORD;
      time := time + 1;
    }

    /** _rt_timer_remove. */
    method Detach(t: nat)
      requires |rows| == levels
      modifies this`rows, this`temp
      ensures rows == Stripped(old(rows), t) && temp == Leave(old(temp), t)
    {
      hide Off;
      for i := 0 to levels
        invariant |rows| == levels && temp == old(temp)
        invariant forall r :: 0 <= r < levels ==> rows[r] == if r < i then Off(old(rows)[r], t) else old(rows)[r]
      {
        rows := rows[i := Off(rows[i], t)];
      }
      temp := Leave(temp, t);
      assert rows == Stripped(old(rows), t);
    }

    /** The search in one row, from a place known to be early enough. */
    method SearchRow(row: seq<nat>, t: nat, from: nat) returns (p: nat)
      requires t < |keys| && Ticks(keys, tick[..]) && Comparable(row, keys, keys[t].due)
      requires Known(row, |keys|) && from <= |row|
      requires Place(row, keys, keys[t].due, 0) == Place(row, keys, keys[t].due, from)
      ensures p == Place(row, keys, keys[t].due, 0)
    {
      hide Place, Comparable, Behind;
      ghost var d := keys[t].due;
      p := from;
      while p < |row| && !Behind(tick[row[p]], tick[t])
        invariant p <= |row| && Place(row, keys, d, 0) == Place(row, keys, d, p)
      {
        PlaceStep(row, keys, d, p);
        p := p + 1;
      }
      PlaceEnd(row, keys, d, p, tick[..]);
    }

    /** The search loops of rt_timer_start: row by row, the place behind every timer due no later. */
    method FindPlaces(t: nat) returns (heads: seq<nat>)
      requires 0 < levels == |rows| && t < |keys| && Ticks(keys, tick[..]) && Ladder(rows, keys)
      requires Comparable(rows[levels - 1], keys, keys[t].due)
      ensures Found(rows, keys, keys[t].due, heads, levels)
    {
      hide Sorted, Place, Comparable, Found, Ladder, Known, Ticks;
      ghost var d := keys[t].due;
      heads := [];
      FoundNone(rows, keys, d);
      for r := 0 to levels
        invariant |heads| == r && Found(rows, keys, d, heads, r)
      {
        RowFacts(rows, keys, d, r);
        var from := 0;
        if r > 0 && heads[r - 1] != 0 {
          FoundBefore(rows, keys, d, heads, r);
          var x := rows[r - 1][heads[r - 1] - 1];
          Descend(rows[r], keys, d, x);
          from := IndexOf(rows[r], x) + 1;
        }
        var p := SearchRow(rows[r], t, from);
        FoundMore(rows, keys, d, heads, p);
        heads := heads + [p];
      }
    }

    /** The insertion loop of rt_timer_start. */
    method Raise(t: nat, heads: seq<nat>)
      requires 0 < levels == |rows| && t < |keys| && Ladder(rows, keys) && Found(rows, keys, keys[t].due, heads, levels)
      modifies this`rows
      ensures |rows| == levels && Raised(old(rows), rows, keys, t, randomNr, levels)
    {
      hide Sorted, Place, Placed, Reach, Found, Ladder, Known, Raised, Tracks, Insert;
      ghost var was := rows;
      LadderIn(was, keys);
      var nr := randomNr;
      FoundAt(was, keys, heads, t, levels - 1);
      rows := rows[levels - 1 := Insert(rows[levels - 1], heads[levels - 1], t)];
      RaisedFirst(was, rows, keys, t, randomNr);
      TracksSelf(nr);
      var j := 1;
      while j < levels && nr % 4 == 0
        invariant 1 <= j <= levels && |rows| == levels && Raised(was, rows, keys, t, randomNr, j)
        invariant Tracks(nr, randomNr, j)
      {
        var r := levels - 1 - j;
        ReachOn(nr, randomNr, j);
        RowStill(was, rows, keys, t, randomNr, j);
        FoundAt(was, keys, heads, t, r);
        ghost var before := rows;
        rows := rows[r := Insert(rows[r], heads[r], t)];
        RaisedNext(was, before, rows, keys, t, randomNr, j);
        nr := nr / 4;
        j := j + 1;
      }
      RaisedAll(was, rows, keys, t, randomNr, j, nr);
    }

    /** rt_timer_control with RT_TIMER_CTRL_SET_TIME. */
    method SetTime(t: nat, n: nat)
      requires Valid() && Settable(c, t, n)
      modifies init
      ensures Valid() && Value() == old(Value()).(init := old(Value()).init[t := n])
    {
      hide Sorted, Ladder, Known, Ticks, Near, Older;
      ghost var was := init[..];
      init[t] := n;
      assert init[..] == was[t := n];
    }

    /** rt_timer_start: the last row changes as the plain sorted list does, and each row above gets
        the timer at its place if the count of starts reaches it. */
    method Start(t: nat)
      requires Valid() && t < |c.periodic|
      modifies this, tick, active
      ensures Valid() && Value() == AfterStart(old(Value()), t, init[t])
      ensures Raised(Stripped(old(rows), t), rows, keys, t, randomNr, levels)
    {
      hide Sorted, Place, Placed, Reach, Found, Ladder, Known, Raised, Ticks, Comparable, Stripped, Off, Near, Older;
      ghost var s, t0, was := Value(), tick[..], rows;
      StartInv(c, s, t, init[t]);
      StartFacts(c, s, was, t, init[t], t0);
      assert s.init[t := init[t]] == s.init;
      Detach(t);
      active[t] := false;
      tick[t] := (now + init[t]) % WORD;
      AddWrap(time, init[t]);
      keys := keys[t := Key(time + init[t], starts)];
      starts := starts + 1;
      ghost var w: nat := keys[t].due % WORD;
      assert tick[..] == t0[t := w];
      LinkIn(t);
      active[t] := true;
      assert active[..] == s.active[t := true];
    }

    /** Finds the timer's places and inserts it into the rows it reaches. */
    method LinkIn(t: nat)
      requires 0 < levels == |rows| && t < |keys| && Ticks(keys, tick[..]) && Ladder(rows, keys)
      requires Comparable(rows[levels - 1], keys, keys[t].due) && Older(rows[levels - 1], keys, keys[t].born)
      modifies this`rows, this`randomNr
      ensures |rows| == levels && Raised(old(rows), rows, keys, t, randomNr, levels) && Ladder(rows, keys)
      ensures Known(old(rows)[levels - 1], |keys|) && rows[levels - 1] == Placed(old(rows)[levels - 1], keys, t)
    {
      hide Sorted, Place, Placed, Reach, Found, Ladder, Known, Raised, Ticks, Comparable, Older;
      var heads := FindPlaces(t);
      randomNr := (randomNr + 1) % WORD;
      Raise(t, heads);
      RaisedLadder(old(rows), rows, keys, t, randomNr);
      LastRow(old(rows), rows, keys, t, randomNr);
    }

    /** rt_timer_stop. */
    method Stop(t: nat) returns (ok: bool)
      requires Valid() && t < |c.periodic|
      modifies this`rows, this`temp, active
      ensures Valid() && Value() == AfterStop(old(Value()), t) && ok == old(active[t])
    {
      hide Sorted, Ladder, Known, Ticks, Stripped, Off, Near, Older;
      ghost var s, was := Value(), rows;
      StopInv(c, s, t);
      ok := active[t];
      if ok {
        Detach(t);
        active[t] := false;
        assert active[..] == s.active[t := false];
        StrippedLadder(was, keys, t, keys[t]);
        assert keys[t := keys[t]] == keys;
        StrippedLast(was, t);
      }
    }

    /** A callback: the timers it starts and stops. */
    method Callback(ops: seq<Op>)
      requires Valid() && InRange(c, ops)
      modifies this, tick, init, active
      ensures Valid() && Value() == Perform(c, old(Value()), ops)
    {
      hide Sorted, Ladder, Known, Ticks, Off, Near, Older, AfterStart, AfterStop;
      for i := 0 to |ops|
        invariant Valid()
        invariant Perform(c, old(Value()), ops) == Perform(c, Value(), ops[i..])
      {
        assert ops[i..][0] == ops[i] && ops[i..][1..] == ops[i + 1..];
        InRow(c, Value());
        match ops[i] {
          case StartTimer(t, n) =>
            SetThenStart(Value(), t, n);
            SetTime(t, n);
            Start(t);
          case StopTimer(t) => var ok := Stop(t);
        }
      }
    }

    /** rt_timer_check: what it fires and the state it leaves are those of the plain list. */
    method CheckTimers(plan: nat -> seq<Op>) returns (fired: seq<nat>)
      requires Valid() && Tame(c, plan)
      modifies this, tick, init, active
      ensures Valid() && (Value(), fired) == Check(c, old(Value()), plan, 0)
    {
      hide Sorted, Ladder, Known, Ticks, Off, Near, Older, Fire, DueNow, Stripped, Check, Tame, InRange, Due;
      var k := 0;
      fired := [];
      ghost var goal := Check(c, Value(), plan, 0);
      FrontFacts(c, Value(), tick[..]);
      while rows[levels - 1] != [] && Ahead32(now, tick[rows[levels - 1][0]]) < HALF
        invariant Valid()
        invariant Front(Value(), tick[..])
        invariant goal.0 == Check(c, Value(), plan, k).0 && goal.1 == fired + Check(c, Value(), plan, k).1
        decreases |DueNow(Value())|
      {
        var t := rows[levels - 1][0];
        CheckTurn(c, Value(), plan, k, fired);
        FireOne(t, plan(k));
        FrontFacts(c, Value(), tick[..]);
        fired := fired + [t];
        k := k + 1;
      }
      CheckOver(c, Value(), plan, k);
      assert fired + [] == fired;
    }

    /** One turn of the loop: detach, call, and start again if periodic. */
    method FireOne(t: nat, ops: seq<Op>)
      requires Valid() && rows[levels - 1] != [] && rows[levels - 1][0] == t && InRange(c, ops)
      modifies this, tick, init, active
      ensures Valid() && Value() == Fire(c, old(Value()), ops)
    {
      hide Sorted, Ladder, Known, Ticks, Off, Near, Older, AfterStart, Stripped, Perform;
      ghost var s, was := Value(), rows;
      FrontIn(c, s);
      DetachedInv(c, s, t);
      StrippedLadder(was, keys, t, keys[t]);
      assert keys[t := keys[t]] == keys;
      StrippedLast(was, t);
      Detach(t);
      if !c.periodic[t] { active[t] := false; }
      temp := Some(t);
      assert active[..] == Detached(c, s, t).active;
      assert Value() == Detached(c, s, t);
      Callback(ops);
      if temp.Some? {
        temp := None;
        if c.periodic[t] && active[t] { Start(t); }
      }
    }
  }

  lemma SetThenStart(s: State, t: nat, n: nat)
    requires t < |s.init| == |s.keys| == |s.active| && Known(s.queue, |s.keys|)
    ensures AfterStart(s.(init := s.init[t := n]), t, n) == AfterStart(s, t, n)
  {
    assert s.init[t := n][t := n] == s.init[t := n];
  }

  lemma AddWrap(time: nat, init: nat)
    ensures (time % WORD + init) % WORD == (time + init) % WORD
  {
    var q := time / WORD;
    var x := time % WORD + init;
    Remainder(time + init, x % WORD, q + x / WORD);
  }

  lemma StrippedLast(rows: seq<seq<nat>>, t: nat)
    requires rows != []
    ensures |Stripped(rows, t)| == |rows| && Stripped(rows, t)[|rows| - 1] == Off(rows[|rows| - 1], t)
  {
  }

  /** What rt_timer_start needs to know of the lists. */
  lemma StartFacts(c: Config, s: State, rows: seq<seq<nat>>, t: nat, n: nat, tick: seq<nat>)
    requires Inv(c, s) && rows != [] && s.queue == rows[|rows| - 1] && Ladder(rows, s.keys) && Ticks(s.keys, tick)
    requires Settable(c, t, n)
    ensures var key := Key(s.time + n, s.starts);
            var keys, q := s.keys[t := key], Stripped(rows, t);
            var w: nat := key.due % WORD;
            && |tick| == |keys| && |q| == |rows| && q[|q| - 1] == Off(s.queue, t)
            && Ladder(q, keys) && Older(q[|q| - 1], keys, s.starts)
            && Comparable(q[|q| - 1], keys, key.due) && Ticks(keys, tick[t := w])
            && Known(s.queue, |s.keys|)
  {
    hide Ladder, Sorted;
    var key := Key(s.time + n, s.starts);
    RemovedFacts(c, s, t);
    StrippedLadder(rows, s.keys, t, key);
    StrippedLast(rows, t);
    InRow(c, s);
    var q := Off(s.queue, t);
    NotIn(s.queue, t);
    OlderElsewhere(q, s.keys, t, key, s.starts);
    assert forall i :: 0 <= i < |q| ==> q[i] in q && q[i] != t;
  }

  lemma LastRow(was: seq<seq<nat>>, now: seq<seq<nat>>, keys: seq<Key>, t: nat, nr: nat)
    requires Raised(was, now, keys, t, nr, |was|) && was != []
    ensures Known(was[|was| - 1], |keys|) && now[|was| - 1] == Placed(was[|was| - 1], keys, t)
  {
    assert RaisedRow(was, now, keys, t, nr, |was|, |was| - 1);
  }

  lemma FrontIn(c: Config, s: State)
    requires Inv(c, s) && s.queue != []
    ensures s.queue[0] < |s.keys| == |s.init| == |c.periodic|
  {
  }

  /** The wrapped test tells whether the first timer is due. */
  ghost predicate Front(s: State, tick: seq<nat>) {
    s.queue != [] ==>
      s.queue[0] < |tick| == |s.keys| && (Ahead32(s.time % WORD, tick[s.queue[0]]) < HALF <==> Due(s, s.queue[0]))
  }

  lemma CheckTurn(c: Config, s: State, plan: nat -> seq<Op>, k: nat, fired: seq<nat>)
    requires Inv(c, s) && Tame(c, plan) && s.queue != [] && s.queue[0] < |s.keys| && Due(s, s.queue[0])
    ensures InRange(c, plan(k)) && |DueNow(Fire(c, s, plan(k)))| < |DueNow(s)|
    ensures var s' := Fire(c, s, plan(k));
            && Check(c, s, plan, k).0 == Check(c, s', plan, k + 1).0
            && fired + Check(c, s, plan, k).1 == fired + [s.queue[0]] + Check(c, s', plan, k + 1).1
  {
    hide Sorted, Near, Older, Fire, Dues;
    assert TimerCheck.Ahead(c, plan(k));
    FireDues(c, s, plan(k));
  }

  lemma CheckOver(c: Config, s: State, plan: nat -> seq<Op>, k: nat)
    requires Inv(c, s) && Tame(c, plan) && (s.queue != [] ==> s.queue[0] < |s.keys| && !Due(s, s.queue[0]))
    ensures Check(c, s, plan, k) == (s, [])
  {
  }

  lemma FrontFacts(c: Config, s: State, tick: seq<nat>)
    requires Inv(c, s) && Ticks(s.keys, tick)
    ensures Front(s, tick)
  {
    if s.queue != [] { DueTest(s.time, s.keys[s.queue[0]].due); }
  }

  /** After j - 1 divisions by 4: nr stands for what is left of nr0. */
  ghost predicate Tracks(nr: nat, nr0: nat, j: nat) {
    j > 0 && forall m: nat :: Reach(nr, m) <==> Reach(nr0, j - 1 + m)
  }

  lemma TracksSelf(nr: nat)
    ensures Tracks(nr, nr, 1)
  {
  }

  /** A row not yet reached is as it was. */
  lemma RowStill(was: seq<seq<nat>>, now: seq<seq<nat>>, keys: seq<Key>, t: nat, nr: nat, j: nat)
    requires Raised(was, now, keys, t, nr, j) && j < |was|
    ensures now[|was| - 1 - j] == was[|was| - 1 - j]
  {
    assert RaisedRow(was, now, keys, t, nr, j, |was| - 1 - j);
  }

  /** The heads found so far are the places in the first n rows. */
  ghost predicate Found(rows: seq<seq<nat>>, keys: seq<Key>, d: nat, heads: seq<nat>, n: nat) {
    n <= |rows| && n <= |heads| && forall r :: 0 <= r < n ==>
      Known(rows[r], |keys|) && heads[r] == Place(rows[r], keys, d, 0)
  }

  lemma RowFacts(rows: seq<seq<nat>>, keys: seq<Key>, d: nat, r: nat)
    requires Ladder(rows, keys) && r < |rows| && Comparable(rows[|rows| - 1], keys, d)
    ensures Sorted(rows[r], keys) && Known(rows[r], |keys|) && Comparable(rows[r], keys, d)
  {
    assert Rung(rows, r, keys);
    RowComparable(rows, keys, d, r);
  }

  lemma FoundNone(rows: seq<seq<nat>>, keys: seq<Key>, d: nat)
    ensures Found(rows, keys, d, [], 0)
  {
  }

  lemma FoundMore(rows: seq<seq<nat>>, keys: seq<Key>, d: nat, heads: seq<nat>, p: nat)
    requires Found(rows, keys, d, heads, |heads|) && |heads| < |rows|
    requires Known(rows[|heads|], |keys|)
    requires p == Place(rows[|heads|], keys, d, 0)
    ensures Found(rows, keys, d, heads + [p], |heads| + 1)
  {
  }

  /** The timer before the place in the row above is due in time and in this row too. */
  lemma FoundBefore(rows: seq<seq<nat>>, keys: seq<Key>, d: nat, heads: seq<nat>, r: nat)
    requires Ladder(rows, keys) && Found(rows, keys, d, heads, r) && 0 < r < |rows| && r <= |heads| && heads[r - 1] != 0
    ensures heads[r - 1] <= |rows[r - 1]|
    ensures var x := rows[r - 1][heads[r - 1] - 1]; x < |keys| && keys[x].due <= d && x in rows[r]
  {
    assert Rung(rows, r - 1, keys);
    var x := rows[r - 1][heads[r - 1] - 1];
    assert x in rows[r - 1];
  }

  lemma FoundAt(rows: seq<seq<nat>>, keys: seq<Key>, heads: seq<nat>, t: nat, r: nat)
    requires t < |keys| && Found(rows, keys, keys[t].due, heads, |rows|) && r < |rows|
    ensures r < |heads| && heads[r] <= |rows[r]| && Known(rows[r], |keys|)
    ensures Placed(rows[r], keys, t) == Insert(rows[r], heads[r], t)
  {
  }

  lemma PlaceEnd(row: seq<nat>, keys: seq<Key>, d: nat, p: nat, tick: seq<nat>)
    requires Comparable(row, keys, d) && Ticks(keys, tick) && p <= |row|
    requires p < |row| ==> row[p] < |tick| && Behind(tick[row[p]], d % WORD)
    ensures Known(row, |keys|)
    ensures Place(row, keys, d, p) == p
  {
    if p < |row| { PlaceStep(row, keys, d, p); }
  }

  lemma LadderIn(rows: seq<seq<nat>>, keys: seq<Key>)
    requires Ladder(rows, keys)
    ensures forall r :: 0 <= r < |rows| ==> Known(rows[r], |keys|)
  {
    forall r | 0 <= r < |rows| ensures Known(rows[r], |keys|) {
      assert Rung(rows, r, keys);
    }
  }

  lemma RaisedFirst(was: seq<seq<nat>>, now: seq<seq<nat>>, keys: seq<Key>, t: nat, nr: nat)
    requires was != [] && t < |keys| && (forall r :: 0 <= r < |was| ==> Known(was[r], |keys|))
    requires now == was[|was| - 1 := Placed(was[|was| - 1], keys, t)]
    ensures Raised(was, now, keys, t, nr, 1)
  {
  }

  lemma RaisedNext(was: seq<seq<nat>>, before: seq<seq<nat>>, now: seq<seq<nat>>, keys: seq<Key>,
                   t: nat, nr: nat, j: nat)
    requires Raised(was, before, keys, t, nr, j) && 0 < j < |was| && Reach(nr, j)
    requires now == before[|was| - 1 - j := Placed(was[|was| - 1 - j], keys, t)]
    ensures Raised(was, now, keys, t, nr, j + 1)
  {
    hide Placed, Reach;
    var n := j + 1;
    forall r | 0 <= r < |was| ensures RaisedRow(was, now, keys, t, nr, n, r) {
      assert RaisedRow(was, before, keys, t, nr, j, r);
    }
  }

  lemma RaisedAll(was: seq<seq<nat>>, now: seq<seq<nat>>, keys: seq<Key>, t: nat, nr0: nat, j: nat, nr: nat)
    requires Raised(was, now, keys, t, nr0, j) && 0 < j <= |was| && Tracks(nr, nr0, j) && (j < |was| ==> nr % 4 != 0)
    ensures Raised(was, now, keys, t, nr0, |was|)
  {
    hide Placed, Reach, Known, Tracks;
    forall r | 0 <= r < |was| ensures RaisedRow(was, now, keys, t, nr0, |was|, r) {
      assert RaisedRow(was, now, keys, t, nr0, j, r);
      if j <= |was| - 1 - r { ReachStops(nr, nr0, j, |was| - 1 - r); }
    }
  }

  lemma ReachOn(nr: nat, nr0: nat, j: nat)
    requires nr % 4 == 0 && Tracks(nr, nr0, j)
    ensures Reach(nr0, j) && Tracks(nr / 4, nr0, j + 1)
  {
    hide Reach;
    ReachStep(nr, 0);
    assert Reach(nr0, j - 1 + 1);
    forall m: nat ensures Reach(nr / 4, m) <==> Reach(nr0, j + m) {
      ReachStep(nr, m);
      assert j - 1 + (m + 1) == j + m;
    }
  }

  lemma ReachStep(nr: nat, m: nat)
    requires nr % 4 == 0
    ensures (Reach(nr, m + 1) <==> Reach(nr / 4, m)) && Reach(nr / 4, 0)
  {
  }

  lemma ReachStops(nr: nat, nr0: nat, j: nat, m: nat)
    requires nr % 4 != 0 && Tracks(nr, nr0, j) && j <= m
    ensures !Reach(nr0, m)
  {
    assert !Reach(nr, m - j + 1);
    assert m == j - 1 + (m - j + 1);
  }
}
