/**
 What starting and stopping a timer means: the deadline it gets, the tick at which it then fires
 in every run, and what a callback that names it makes of it.
 */
module TimerRuns {
  import opened Ipc
  import opened Timer
  import opened TimerCheck

  /** Timer t runs and is due n ticks from the time of s. */
  ghost predicate RunsFor(s: State, t: nat, n: nat) {
    && t in s.queue && t < |s.keys| == |s.active| == |s.init|
    && s.active[t] && s.keys[t].due == s.time + n && s.init[t] == n
  }

  /** Timer t does not run. */
  ghost predicate Stopped(s: State, t: nat) {
    t !in s.queue && t < |s.active| && !s.active[t]
  }

  /** A started timer runs and is due after exactly the ticks asked for, behind those due at the same
      tick; nothing changes for any other timer. */
  lemma StartSets(c: Config, s: State, t: nat, n: nat)
    requires Inv(c, s) && Settable(c, t, n)
    ensures var r := AfterStart(s, t, n);
            && Inv(c, r) && RunsFor(r, t, n) && r.time == s.time && r.temp != Some(t)
            && (forall x :: 0 <= x < |s.keys| && x != t ==> Same(s, r, x))
            && (forall x :: x in r.queue && x != t ==> x < |r.keys| && r.keys[x].born < r.keys[t].born)
  {
    hide Sorted, Near, Off, Placed;
    StartInv(c, s, t, n);
    OneStart(c, s, t, n);
    var r := AfterStart(s, t, n);
    forall x | 0 <= x < |s.keys| && x != t ensures Same(s, r, x) { OneSame(c, s, StartTimer(t, n), x); }
    var q := Off(s.queue, t);
    RemovedFacts(c, s, t);
    InRow(c, s.(queue := q));
    PlacedMembers(q, r.keys, t);
    forall x | x in r.queue && x != t ensures x < |r.keys| && r.keys[x].born < r.keys[t].born { assert x in s.queue; }
  }

  /** A stopped timer does not run; nothing changes for any other timer, and nothing at all if it did
      not run before. */
  lemma StopClears(c: Config, s: State, t: nat)
    requires Inv(c, s) && t < |s.active|
    ensures var r := AfterStop(s, t);
            && Inv(c, r) && Stopped(r, t) && r.time == s.time && (!s.active[t] ==> r == s)
            && (forall x :: 0 <= x < |s.keys| && x != t ==> Same(s, r, x))
  {
    hide Sorted, Near, Off, Older;
    StopInv(c, s, t);
    NotIn(s.queue, t);
    var r := AfterStop(s, t);
    forall x | 0 <= x < |s.keys| && x != t ensures Same(s, r, x) { OneSame(c, s, StopTimer(t), x); }
  }

  // ---- When a timer fires ----

  /** The event does not name timer t. */
  ghost predicate Silent(e: TimerCheck.Event, t: nat) {
    match e
    case Ran(op) => op.t != t
    case Tick(plan) => forall k: nat :: !Names(plan(k), t)
  }

  ghost predicate LeftAlone(c: Config, run: seq<TimerCheck.Event>, t: nat) {
    forall i :: 0 <= i < |run| ==> Allowed(c, run[i]) && Silent(run[i], t)
  }

  function Ticks(run: seq<TimerCheck.Event>): nat {
    if run == [] then 0 else Ticks(run[1..]) + if run[0].Tick? then 1 else 0
  }

  /** Timer t waits for m more ticks. */
  ghost predicate Waits(s: State, t: nat, m: nat, n: nat) {
    && t in s.queue && t < |s.keys| == |s.active| == |s.init|
    && s.active[t] && s.keys[t].due == s.time + m && s.init[t] == n
  }

  lemma StepWaits(c: Config, s: State, e: TimerCheck.Event, t: nat, m: nat, n: nat)
    requires Inv(c, s) && OnTime(s) && Allowed(c, e) && Silent(e, t) && Waits(s, t, m, n)
    requires e.Tick? ==> m > 1
    ensures Waits(Step(c, s, e), t, if e.Tick? then m - 1 else m, n)
  {
    hide Sorted, Older, Near, Dues, Check, One, Settled;
    match e
    case Ran(op) =>
      OneSame(c, s, op, t);
    case Tick(plan) =>
      LaterInv(c, s);
      var now := Later(s);
      NotYet(now, t);
      CheckSettles(c, now, plan, 0, t);
      CheckTemp(c, now, plan, 0);
  }

  lemma NotYet(s: State, t: nat)
    requires t < |s.keys|
    ensures t in DueNow(s) <==> t in s.queue && s.keys[t].due <= s.time
  {
    DuesIn(s.queue, s.keys, s.time);
  }

  lemma {:induction false} ExecWaits(c: Config, s: State, run: seq<TimerCheck.Event>, t: nat, m: nat, n: nat)
    requires Inv(c, s) && OnTime(s) && LeftAlone(c, run, t) && Waits(s, t, m, n) && Ticks(run) < m
    ensures Waits(Exec(c, s, run), t, m - Ticks(run), n)
    decreases |run|
  {
    hide Inv, Step, Waits, OnTime;
    if run == [] {
    } else {
      assert forall i :: 0 <= i < |run[1..]| ==> run[1..][i] == run[i + 1];
      StepWaits(c, s, run[0], t, m, n);
      ExecWaits(c, Step(c, s, run[0]), run[1..], t, if run[0].Tick? then m - 1 else m, n);
    }
  }

  /** A timer started with n > 0 ticks, and left alone from then on, fires at the n-th tick and at none
      before, whatever else is started, stopped or fired meanwhile; then it runs again from that tick if
      it is periodic and has stopped if not. */
  lemma FiresAfter(c: Config, s: State, t: nat, n: nat, run: seq<TimerCheck.Event>, plan: nat -> seq<Op>)
    requires Inv(c, s) && OnTime(s) && Settable(c, t, n) && n > 0
    requires LeftAlone(c, run, t) && Ticks(run) < n && Tame(c, plan) && Silent(Tick(plan), t)
    ensures var before := Exec(c, Step(c, s, Ran(StartTimer(t, n))), run);
            && Inv(c, Later(before))
            && var (r, log) := Check(c, Later(before), plan, 0);
            && (t in log <==> Ticks(run) + 1 == n)
            && (Ticks(run) + 1 == n ==> if c.periodic[t] then RunsFor(r, t, n) else t !in r.queue && !r.active[t])
  {
    hide Sorted, Older, Near, Dues, Check, Exec;
    StartSets(c, s, t, n);
    OneStart(c, s, t, n);
    var started := Step(c, s, Ran(StartTimer(t, n)));
    ExecWaits(c, started, run, t, n, n);
    var before := Exec(c, started, run);
    LaterInv(c, before);
    var now := Later(before);
    NotYet(now, t);
    CheckSettles(c, now, plan, 0, t);
    CheckTemp(c, now, plan, 0);
  }

  lemma StepStopped(c: Config, s: State, e: TimerCheck.Event, t: nat)
    requires Inv(c, s) && OnTime(s) && Allowed(c, e) && Silent(e, t) && Stopped(s, t)
    ensures Stopped(Step(c, s, e), t)
  {
    hide Sorted, Older, Near, Dues, Check, One, Settled;
    match e
    case Ran(op) =>
      OneSame(c, s, op, t);
    case Tick(plan) =>
      LaterInv(c, s);
      NotYet(Later(s), t);
      CheckSettles(c, Later(s), plan, 0, t);
  }

  /** A timer that has been stopped, and is left alone from then on, never fires. */
  lemma {:induction false} StaysStopped(c: Config, s: State, run: seq<TimerCheck.Event>, t: nat, plan: nat -> seq<Op>)
    requires Inv(c, s) && OnTime(s) && LeftAlone(c, run, t) && Stopped(s, t)
    requires Tame(c, plan) && Silent(Tick(plan), t)
    ensures var before := Exec(c, s, run);
            Stopped(before, t) && Inv(c, Later(before)) && t !in Check(c, Later(before), plan, 0).1
    decreases |run|
  {
    hide Sorted, Older, Near, Dues, Check, Step;
    if run == [] {
      LaterInv(c, s);
      NotYet(Later(s), t);
      CheckSettles(c, Later(s), plan, 0, t);
    } else {
      assert forall i :: 0 <= i < |run[1..]| ==> run[1..][i] == run[i + 1];
      StepStopped(c, s, run[0], t);
      StaysStopped(c, Step(c, s, run[0]), run[1..], t, plan);
    }
  }

  // ---- What a callback makes of the timers it names ----

  /** The last operation that names x. */
  function LastOn(ops: seq<Op>, x: nat): Option<Op> {
    if ops == [] then None
    else if ops[|ops| - 1].t == x then Some(ops[|ops| - 1]) else LastOn(ops[..|ops| - 1], x)
  }

  /** The operation has had its effect on the timer it names. */
  ghost predicate Effected(s: State, op: Op) {
    match op
    case StartTimer(t, n) => RunsFor(s, t, n) && s.temp != Some(t)
    case StopTimer(t) => Stopped(s, t)
  }

  lemma {:induction false} PerformSplit(c: Config, s: State, a: seq<Op>, op: Op)
    requires Inv(c, s) && InRange(c, a) && Fine(c, op)
    ensures InRange(c, a + [op]) && Perform(c, s, a + [op]) == One(c, Perform(c, s, a), op)
    decreases |a|
  {
    hide Inv, One, Fine;
    var all := a + [op];
    if a == [] {
      assert all[0] == op && all[1..] == [];
    } else {
      assert all[0] == a[0] && all[1..] == a[1..] + [op];
      assert forall i :: 0 <= i < |a[1..]| ==> a[1..][i] == a[i + 1];
      PerformSplit(c, One(c, s, a[0]), a[1..], op);
    }
  }

  /** What counts for a timer is the last operation that names it. */
  lemma {:induction false} LastCounts(c: Config, s: State, ops: seq<Op>, x: nat)
    requires Inv(c, s) && InRange(c, ops) && x < |s.init| && LastOn(ops, x).Some?
    ensures Effected(Perform(c, s, ops), LastOn(ops, x).value)
    decreases |ops|
  {
    hide Inv, Perform, One, RunsFor, Stopped;
    var front, op := ops[..|ops| - 1], ops[|ops| - 1];
    assert ops == front + [op] && Fine(c, op);
    PerformSplit(c, s, front, op);
    var before := Perform(c, s, front);
    if op.t == x {
      OneEffects(c, before, op);
    } else {
      LastCounts(c, s, front, x);
      LastNames(front, x);
      OneKeeps(c, before, op, LastOn(front, x).value);
    }
  }

  lemma OneEffects(c: Config, s: State, op: Op)
    requires Inv(c, s) && Fine(c, op)
    ensures Effected(One(c, s, op), op)
  {
    hide Sorted, Near, Off, Placed, Older;
    match op
    case StartTimer(t, n) => StartSets(c, s, t, n); OneStart(c, s, t, n);
    case StopTimer(t) => StopClears(c, s, t);
  }

  lemma OneKeeps(c: Config, s: State, op: Op, done: Op)
    requires Inv(c, s) && Fine(c, op) && Effected(s, done) && done.t != op.t
    ensures Effected(One(c, s, op), done)
  {
    hide Sorted, Near, Off, Placed, Older, One;
    OneSame(c, s, op, done.t);
  }

  lemma {:induction false} TempStays(c: Config, s: State, ops: seq<Op>)
    requires Inv(c, s) && InRange(c, ops)
    ensures Perform(c, s, ops).temp == s.temp || Perform(c, s, ops).temp == None
    decreases |ops|
  {
    hide Sorted, Near, Off, Placed, Older;
    if ops == [] {
    } else {
      assert forall i :: 0 <= i < |ops[1..]| ==> ops[1..][i] == ops[i + 1];
      TempStays(c, One(c, s, ops[0]), ops[1..]);
    }
  }

  /** After the turn that fires a timer, every timer its callback names, itself included, is as the last
      operation on it says. */
  lemma CallbackCounts(c: Config, s: State, ops: seq<Op>, x: nat)
    requires Inv(c, s) && s.queue != [] && InRange(c, ops) && x < |s.init| && LastOn(ops, x).Some?
    ensures Effected(Fire(c, s, ops), LastOn(ops, x).value)
  {
    hide Sorted, Near, Off, Placed, Older, Perform, AfterStart;
    var t, op := s.queue[0], LastOn(ops, x).value;
    DetachedInv(c, s, t);
    var s1 := Detached(c, s, t);
    LastCounts(c, s1, ops, x);
    TempStays(c, s1, ops);
    var s2 := Perform(c, s1, ops);
    LastNames(ops, x);
    if x != t {
      OneStart(c, s2.(temp := None), t, s2.init[t]);
      OneKeeps(c, s2.(temp := None), StartTimer(t, s2.init[t]), op);
    }
  }

  lemma LastNames(ops: seq<Op>, x: nat)
    requires LastOn(ops, x).Some?
    ensures LastOn(ops, x).value.t == x
  {
  }
}
