/**
 The scheduler on one processor: 32 ready queues, the running thread, and the operations
 of thread.c that move threads between them. There is no bitmap here.
 */
module Scheduler {
  import opened Ipc

  datatype Stat = Initial | Ready | Suspended | Running

  /** What a thread is doing, whether it has asked to yield, and its current priority; and the
      thread that has the processor. */
  datatype State = State(queues: seq<seq<Tid>>, stat: seq<Stat>, asks: seq<bool>, prio: seq<nat>, current: Tid)

  ghost predicate Sized(s: State) {
    && |s.queues| == PRIORITY_MAX && |s.stat| == |s.asks| == |s.prio| && s.current < |s.stat|
    && forall t :: 0 <= t < |s.prio| ==> s.prio[t] < PRIORITY_MAX
  }

  /** Queue p holds exactly the ready threads of priority p, each once. */
  ghost predicate Home(s: State, p: nat)
    requires p < |s.queues| && |s.stat| == |s.prio|
  {
    && Distinct(s.queues[p])
    && forall t: Tid :: t in s.queues[p] <==> t < |s.stat| && s.stat[t] == Ready && s.prio[t] == p
  }

  ghost predicate Homes(s: State)
    requires |s.stat| == |s.prio|
  {
    forall p :: 0 <= p < |s.queues| ==> Home(s, p)
  }

  /** Only the current thread runs, and it is not in a queue. */
  ghost predicate OneRuns(s: State)
    requires s.current < |s.stat|
  {
    s.stat[s.current] != Ready && forall t :: 0 <= t < |s.stat| && s.stat[t] == Running ==> t == s.current
  }

  ghost predicate Inv(s: State) {
    Sized(s) && Homes(s) && OneRuns(s)
  }

  // ---- The operations ----

  /** rt_schedule_insert_thread. */
  function AfterInsert(s: State, t: Tid): State
    requires t < |s.stat| && t < |s.prio| && s.prio[t] < |s.queues|
  {
    if t == s.current then s.(stat := s.stat[t := Running])
    else s.(stat := s.stat[t := Ready], queues := s.queues[s.prio[t] := s.queues[s.prio[t]] + [t]])
  }

  /** rt_schedule_remove_thread. */
  function AfterRemove(s: State, t: Tid): State
    requires t < |s.prio| && s.prio[t] < |s.queues|
  {
    s.(queues := s.queues[s.prio[t] := Off(s.queues[s.prio[t]], t)])
  }

  /** The most urgent priority with a ready thread from k on, or |queues|. */
  function Top(queues: seq<seq<Tid>>, k: nat): (p: nat)
    requires k <= |queues|
    ensures k <= p <= |queues|
    ensures p < |queues| ==> queues[p] != []
    ensures forall j :: k <= j < p ==> queues[j] == []
    decreases |queues| - k
  {
    if k == |queues| || queues[k] != [] then k else Top(queues, k + 1)
  }

  /** Thread `to`, which is ready, gets the processor. */
  function Switch(s: State, to: Tid): State
    requires to < |s.stat| && to < |s.prio| && s.prio[to] < |s.queues|
  {
    var r := AfterRemove(s.(current := to), to);
    r.(stat := r.stat[to := Running])
  }

  /** The running thread keeps the processor: it is more urgent than any ready thread, or as urgent
      and has not asked to yield. */
  predicate Stays(s: State, top: nat)
    requires s.current < |s.prio| && s.current < |s.asks|
  {
    s.prio[s.current] < top || (s.prio[s.current] == top && !s.asks[s.current])
  }

  /** rt_schedule. */
  function AfterSchedule(s: State, locked: bool): State
    requires Inv(s)
  {
    var top := Top(s.queues, 0);
    if locked || top == |s.queues| then s
    else
      var from, to := s.current, s.queues[top][0];
      assert Home(s, top) && to in s.queues[top];
      if s.stat[from] != Running then Switch(s, to)
      else
        var s0 := s.(asks := s.asks[from := false]);
        if Stays(s, top) then
          var r := AfterRemove(s0, from);
          r.(stat := r.stat[from := Running])
        else Switch(AfterInsert(s0.(current := to), from), to)
  }

  /** rt_thread_suspend; a thread that is neither ready nor running is refused. */
  function AfterSuspend(s: State, t: Tid): (State, bool)
    requires t < |s.stat| && t < |s.prio| && s.prio[t] < |s.queues|
  {
    if s.stat[t] != Ready && s.stat[t] != Running then (s, false)
    else
      var r := AfterRemove(s, t);
      (r.(stat := r.stat[t := Suspended]), true)
  }

  /** rt_thread_resume. */
  function AfterResume(s: State, t: Tid): (State, bool)
    requires t < |s.stat| && t < |s.prio| && s.prio[t] < |s.queues|
  {
    if s.stat[t] != Suspended then (s, false) else (AfterInsert(s, t), true)
  }

  /** rt_thread_control with RT_THREAD_CTRL_CHANGE_PRIORITY. */
  function AfterChange(s: State, t: Tid, p: nat): State
    requires t < |s.stat| && t < |s.prio| && s.prio[t] < |s.queues| && p < |s.queues|
  {
    if s.stat[t] == Ready then
      var r := AfterRemove(s, t);
      AfterInsert(r.(prio := r.prio[t := p]), t)
    else s.(prio := s.prio[t := p])
  }

  /** rt_thread_startup of a thread that has just been initialised. */
  function Launched(s: State, t: Tid, p: nat): State
    requires t < |s.stat| && t < |s.prio| && p < |s.queues|
  {
    AfterInsert(s.(prio := s.prio[t := p], stat := s.stat[t := Suspended]), t)
  }

  // ---- What they keep ----

  lemma AtHome(s: State, t: Tid)
    requires Inv(s) && t < |s.stat|
    ensures s.prio[t] < |s.queues| && (t in s.queues[s.prio[t]] <==> s.stat[t] == Ready)
  {
    assert Home(s, s.prio[t]);
  }

  /** A ready thread joins the end of its queue. */
  lemma InsertHomes(s: State, t: Tid)
    requires Sized(s) && Homes(s) && t < |s.stat| && s.stat[t] != Ready
    ensures Homes(AfterInsert(s, t))
  {
    var r := AfterInsert(s, t);
    forall p | 0 <= p < |r.queues| ensures Home(r, p) {
      assert Home(s, p);
      if t != s.current && p == s.prio[t] { AppendDistinct(s.queues[p], t); }
    }
  }

  lemma AppendDistinct(q: seq<Tid>, t: Tid)
    requires Distinct(q) && t !in q
    ensures Distinct(q + [t]) && forall x: Tid :: x in q + [t] <==> x in q || x == t
  {
  }

  /** A thread leaves the queues and is not ready any more. */
  lemma RemoveHomes(s: State, t: Tid, x: Stat)
    requires Sized(s) && Homes(s) && t < |s.stat| && x != Ready
    ensures var r := AfterRemove(s, t); Homes(r.(stat := r.stat[t := x]))
  {
    hide Off, Distinct;
    var q := AfterRemove(s, t);
    var r := q.(stat := q.stat[t := x]);
    forall p | 0 <= p < |r.queues| ensures Home(r, p) {
      assert Home(s, p);
      OffDistinct(s.queues[p], t);
    }
  }

  lemma SwitchInv(s: State, to: Tid)
    requires Sized(s) && Homes(s) && to < |s.stat|
    requires forall t :: 0 <= t < |s.stat| && s.stat[t] == Running ==> t == to
    ensures Inv(Switch(s, to))
  {
    hide Homes;
    CurrentHomes(s, to);
    RemoveHomes(s.(current := to), to, Running);
  }

  lemma CurrentHomes(s: State, to: Tid)
    requires Sized(s) && Homes(s)
    ensures Homes(s.(current := to))
  {
    forall p | 0 <= p < |s.queues| ensures Home(s.(current := to), p) { assert Home(s, p); }
  }

  lemma YieldsHomes(s: State, asks: seq<bool>)
    requires Sized(s) && Homes(s)
    ensures Homes(s.(asks := asks))
  {
    forall p | 0 <= p < |s.queues| ensures Home(s.(asks := asks), p) { assert Home(s, p); }
  }

  lemma TopThread(s: State)
    requires Inv(s) && Top(s.queues, 0) < |s.queues|
    ensures var to := s.queues[Top(s.queues, 0)][0];
            to < |s.stat| && s.stat[to] == Ready && s.prio[to] == Top(s.queues, 0) && to != s.current
  {
    var top := Top(s.queues, 0);
    assert Home(s, top) && s.queues[top][0] in s.queues[top];
  }

  lemma ScheduleInv(s: State, locked: bool)
    requires Inv(s)
    ensures Inv(AfterSchedule(s, locked))
  {
    hide Homes, Top, Off;
    var top := Top(s.queues, 0);
    if !locked && top < |s.queues| {
      TopThread(s);
      var from, to := s.current, s.queues[top][0];
      if s.stat[from] != Running {
        SwitchInv(s, to);
      } else {
        var s0 := s.(asks := s.asks[from := false]);
        YieldsHomes(s, s0.asks);
        if Stays(s, top) {
          RemoveHomes(s0, from, Running);
        } else {
          CurrentHomes(s0, to);
          InsertHomes(s0.(current := to), from);
          SwitchInv(AfterInsert(s0.(current := to), from), to);
        }
      }
    }
  }

  lemma SuspendInv(s: State, t: Tid)
    requires Inv(s) && t < |s.stat|
    ensures Inv(AfterSuspend(s, t).0)
  {
    hide Homes, Off;
    RemoveHomes(s, t, Suspended);
  }

  lemma ResumeInv(s: State, t: Tid)
    requires Inv(s) && t < |s.stat|
    ensures Inv(AfterResume(s, t).0)
  {
    hide Homes;
    if s.stat[t] == Suspended { InsertHomes(s, t); }
  }

  lemma PrioHomes(s: State, t: Tid, p: nat)
    requires Sized(s) && Homes(s) && t < |s.stat| && s.stat[t] != Ready && p < PRIORITY_MAX
    ensures Homes(s.(prio := s.prio[t := p]))
  {
    var r := s.(prio := s.prio[t := p]);
    forall q | 0 <= q < |r.queues| ensures Home(r, q) { assert Home(s, q); }
  }

  lemma StatHomes(s: State, t: Tid, x: Stat)
    requires Sized(s) && Homes(s) && t < |s.stat| && s.stat[t] != Ready && x != Ready
    ensures Homes(s.(stat := s.stat[t := x]))
  {
    var r := s.(stat := s.stat[t := x]);
    forall q | 0 <= q < |r.queues| ensures Home(r, q) { assert Home(s, q); }
  }

  lemma ChangeInv(s: State, t: Tid, p: nat)
    requires Inv(s) && t < |s.stat| && p < PRIORITY_MAX
    ensures Inv(AfterChange(s, t, p))
  {
    hide Homes, Off;
    if s.stat[t] != Ready {
      PrioHomes(s, t, p);
    } else {
      ChangeReady(s, t, p);
    }
  }

  lemma ChangeReady(s: State, t: Tid, p: nat)
    requires Inv(s) && t < |s.stat| && p < PRIORITY_MAX && s.stat[t] == Ready
    ensures Inv(AfterChange(s, t, p))
  {
    hide Homes, Off, Distinct;
    var r := AfterRemove(s, t);
    RemoveHomes(s, t, Suspended);
    var a := r.(stat := r.stat[t := Suspended]);
    PrioHomes(a, t, p);
    InsertHomes(a.(prio := a.prio[t := p]), t);
    assert AfterInsert(a.(prio := a.prio[t := p]), t) == AfterChange(s, t, p) by {
      assert a.stat[t := Ready] == s.stat;
      assert r.stat[t := Ready] == s.stat;
    }
  }

  lemma LaunchInv(s: State, t: Tid, p: nat)
    requires Inv(s) && t < |s.stat| && s.stat[t] == Initial && p < PRIORITY_MAX
    ensures Inv(Launched(s, t, p))
  {
    hide Homes;
    PrioHomes(s, t, p);
    StatHomes(s.(prio := s.prio[t := p]), t, Suspended);
    InsertHomes(s.(prio := s.prio[t := p], stat := s.stat[t := Suspended]), t);
  }

  // ---- Every run ----

  /** One step; locked says whether the scheduler is locked at the time. */
  datatype Op =
    | Schedule(locked: bool)
    | Yield(locked: bool)
    | Suspend(t: Tid)
    | Resume(t: Tid)
    | Timeout(t: Tid, locked: bool)
    | Change(t: Tid, p: nat)
    | Startup(t: Tid, p: nat, locked: bool)

  predicate Allowed(s: State, op: Op) {
    match op
    case Schedule(_) => true
    case Yield(_) => true
    case Suspend(t) => t < |s.stat|
    case Resume(t) => t < |s.stat|
    case Timeout(t, _) => t < |s.stat| && s.stat[t] == Suspended
    case Change(t, p) => t < |s.stat| && p < PRIORITY_MAX
    case Startup(t, p, _) => t < |s.stat| && p < PRIORITY_MAX && s.stat[t] == Initial
  }

  function Asked(s: State): State
    requires s.current < |s.asks|
  {
    s.(asks := s.asks[s.current := true])
  }

  lemma AskedInv(s: State)
    requires Inv(s)
    ensures Inv(Asked(s))
  {
    YieldsHomes(s, s.asks[s.current := true]);
  }

  function Step(s: State, op: Op): (r: State)
    requires Inv(s) && Allowed(s, op)
    ensures Inv(r)
  {
    match op
    case Schedule(locked) => ScheduleInv(s, locked); AfterSchedule(s, locked)
    case Yield(locked) => AskedInv(s); ScheduleInv(Asked(s), locked); AfterSchedule(Asked(s), locked)
    case Suspend(t) => SuspendInv(s, t); AfterSuspend(s, t).0
    case Resume(t) => ResumeInv(s, t); AfterResume(s, t).0
    case Timeout(t, locked) =>
      ResumeInv(s, t);
      ScheduleInv(AfterInsert(s, t), locked);
      AfterSchedule(AfterInsert(s, t), locked)
    case Change(t, p) => ChangeInv(s, t, p); AfterChange(s, t, p)
    case Startup(t, p, locked) =>
      LaunchInv(s, t, p);
      ScheduleInv(Launched(s, t, p), locked);
      AfterSchedule(Launched(s, t, p), locked)
  }

  /** A run; a step whose caller breaks the contract is left out. */
  function Exec(s: State, run: seq<Op>): (r: State)
    requires Inv(s)
    ensures Inv(r)
    decreases |run|
  {
    if run == [] then s
    else
      var before := Exec(s, run[..|run| - 1]);
      if Allowed(before, run[|run| - 1]) then Step(before, run[|run| - 1]) else before
  }

  // ---- The choice ----

  /** Unlocked, with a thread ready, rt_schedule leaves a running thread that is at least as urgent
      as every ready one. */
  lemma ScheduleChooses(s: State)
    requires Inv(s) && Top(s.queues, 0) < |s.queues|
    ensures var r := Step(s, Schedule(false));
            && r.current < |r.stat| && r.stat[r.current] == Running
            && forall t :: 0 <= t < |r.stat| && r.stat[t] == Ready ==> r.prio[r.current] <= r.prio[t]
  {
    hide Off;
    ScheduleInv(s, false);
    TopThread(s);
    var top, r := Top(s.queues, 0), Step(s, Schedule(false));
    forall t | 0 <= t < |r.stat| && r.stat[t] == Ready ensures r.prio[r.current] <= r.prio[t] {
      AtHome(s, t);
      assert s.stat[t] == Ready ==> top <= s.prio[t];
    }
  }

  /** A running thread that has not asked to yield loses the processor exactly to a more urgent one;
      otherwise rt_schedule changes nothing. */
  lemma NoNeedlessSwitch(s: State)
    requires Inv(s) && s.stat[s.current] == Running && !s.asks[s.current]
    ensures var r := Step(s, Schedule(false));
            && (r.current != s.current <==> Top(s.queues, 0) < s.prio[s.current])
            && (r.current == s.current ==> r == s)
  {
    hide Top;
    var top := Top(s.queues, 0);
    if top < |s.queues| { TopThread(s); }
    AtHome(s, s.current);
    assert Home(s, s.prio[s.current]);
    OffDistinct(s.queues[s.prio[s.current]], s.current);
    assert s.asks[s.current := false] == s.asks && s.stat[s.current := Running] == s.stat;
    assert s.queues[s.prio[s.current] := s.queues[s.prio[s.current]]] == s.queues;
  }

  /** A locked scheduler, or one with nothing ready, leaves everything as it is. */
  lemma LockedStays(s: State, locked: bool)
    requires Inv(s) && (locked || forall t :: 0 <= t < |s.stat| ==> s.stat[t] != Ready)
    ensures Step(s, Schedule(locked)) == s
  {
    var top := Top(s.queues, 0);
    if top < |s.queues| { TopThread(s); }
  }

  /** The running thread and the queue behind it. */
  function Line(s: State, p: nat): seq<Tid>
    requires p < |s.queues|
  {
    [s.current] + s.queues[p]
  }

  /** rt_thread_yield by a running thread of the most urgent priority passes the processor to the
      next thread of that priority and puts the yielding one at the end. */
  lemma YieldRotates(s: State)
    requires Inv(s) && s.stat[s.current] == Running && Top(s.queues, 0) == s.prio[s.current]
    ensures var p, r := s.prio[s.current], Step(s, Yield(false));
            && Line(r, p) == Line(s, p)[1..] + [s.current]
            && r.stat[r.current] == Running && r.prio[r.current] == p && Top(r.queues, 0) == p
  {
    AskedInv(s);
    TopThread(s);
    ScheduleInv(Asked(s), false);
    var p, from, to := s.prio[s.current], s.current, s.queues[s.prio[s.current]][0];
    var q := s.queues[p];
    assert Home(s, p);
    assert (q + [from])[1..] == q[1..] + [from];
    assert Distinct(q + [from]) by { AtHome(s, from); AppendDistinct(q, from); }
    OffFirst(q + [from]);
    TopStays(s.queues, Step(s, Yield(false)).queues, p);
  }

  lemma OffFirst(q: seq<Tid>)
    requires Distinct(q) && q != []
    ensures Off(q, q[0]) == q[1..]
  {
    OffDistinct(q[1..], q[0]);
    assert q[0] !in q[1..];
  }

  lemma TopStays(a: seq<seq<Tid>>, b: seq<seq<Tid>>, p: nat)
    requires |a| == |b| && p < |a| && Top(a, 0) == p && b[p] != [] && forall j :: 0 <= j < p ==> b[j] == a[j]
    ensures Top(b, 0) == p
  {
    assert forall j :: 0 <= j < p ==> b[j] == [];
  }

  function Yields(s: State, k: nat): (r: State)
    requires Inv(s)
    ensures Inv(r)
  {
    if k == 0 then s
    else Step(Yields(s, k - 1), Yield(false))
  }

  function Rotated(line: seq<Tid>, k: nat): seq<Tid>
    requires k <= |line|
  {
    line[k..] + line[..k]
  }

  /** Round robin: while only yields happen, the threads of the most urgent priority run in the
      order of their queue, each once in a round. */
  lemma {:induction false} RoundRobin(s: State, k: nat)
    requires Inv(s) && s.stat[s.current] == Running && Top(s.queues, 0) == s.prio[s.current]
    requires k <= |s.queues[s.prio[s.current]]| + 1
    ensures var p, r := s.prio[s.current], Yields(s, k);
            && Line(r, p) == Rotated(Line(s, p), k)
            && r.stat[r.current] == Running && r.prio[r.current] == p && Top(r.queues, 0) == p
    ensures k < |Line(s, s.prio[s.current])| ==> Yields(s, k).current == Line(s, s.prio[s.current])[k]
  {
    hide Step;
    var p := s.prio[s.current];
    var line := Line(s, p);
    if k == 0 {
    } else {
      RoundRobin(s, k - 1);
      var before := Yields(s, k - 1);
      YieldRotates(before);
      assert Rotated(line, k - 1)[1..] + [line[k - 1]] == Rotated(line, k);
      assert Line(before, p)[0] == line[k - 1];
    }
    assert Line(Yields(s, k), p)[0] == Yields(s, k).current;
  }
}
