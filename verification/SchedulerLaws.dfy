/**
 What each operation of the scheduler does to every thread: who changes state, who leaves or
 joins which queue and where, and that nothing else changes.
 */
module SchedulerLaws {
  import opened Ipc
  import opened Scheduler

  /** Everything but the state of t and one queue is as it was. */
  ghost predicate ButFor(s: State, r: State, t: Tid, p: nat) {
    && |r.queues| == |s.queues| && |r.stat| == |s.stat| && r.asks == s.asks && r.current == s.current
    && (forall u :: 0 <= u < |s.stat| && u != t ==> r.stat[u] == s.stat[u])
    && (forall q :: 0 <= q < |s.queues| && q != p ==> r.queues[q] == s.queues[q])
  }

  /** Thread t has left the line, the others are in order. */
  ghost predicate LeftLine(line: seq<Tid>, rest: seq<Tid>, t: Tid) {
    exists k :: 0 <= k < |line| && line[k] == t && rest == line[..k] + line[k + 1..]
  }

  lemma OffLeaves(line: seq<Tid>, t: Tid)
    requires Distinct(line) && t in line
    ensures LeftLine(line, Off(line, t), t)
  {
    var k :| 0 <= k < |line| && line[k] == t;
    OffAt(line, k);
  }

  /** rt_thread_suspend refuses exactly a thread that is neither ready nor running and then changes
      nothing; otherwise the thread is suspended, a ready one leaves its queue, and nothing else
      changes. */
  lemma SuspendLaw(s: State, t: Tid)
    requires Inv(s) && t < |s.stat|
    ensures var (r, ok) := AfterSuspend(s, t);
            var p := s.prio[t];
            && (ok <==> s.stat[t] == Ready || s.stat[t] == Running)
            && (!ok ==> r == s)
            && (ok ==> && ButFor(s, r, t, p) && r.prio == s.prio && r.stat[t] == Suspended
                       && (s.stat[t] == Ready ==> LeftLine(s.queues[p], r.queues[p], t))
                       && (s.stat[t] == Running ==> r.queues == s.queues)
                       && forall q :: 0 <= q < |r.queues| ==> t !in r.queues[q])
  {
    hide Off, Distinct;
    var p := s.prio[t];
    AtHome(s, t);
    assert Home(s, p);
    OffDistinct(s.queues[p], t);
    if s.stat[t] == Ready {
      OffLeaves(s.queues[p], t);
    } else {
      assert s.queues[p := s.queues[p]] == s.queues;
    }
    SuspendInv(s, t);
    var r := AfterSuspend(s, t).0;
    forall q | 0 <= q < |r.queues| && AfterSuspend(s, t).1 ensures t !in r.queues[q] { assert Home(r, q); }
  }

  /** rt_thread_resume refuses exactly a thread that is not suspended and then changes nothing; the
      current thread runs on; any other becomes ready, last of its priority. */
  lemma ResumeLaw(s: State, t: Tid)
    requires Inv(s) && t < |s.stat|
    ensures var (r, ok) := AfterResume(s, t);
            var p := s.prio[t];
            && (ok <==> s.stat[t] == Suspended)
            && (!ok ==> r == s)
            && (ok ==> && ButFor(s, r, t, p) && r.prio == s.prio
                       && (t == s.current ==> r.stat[t] == Running && r.queues == s.queues)
                       && (t != s.current ==> r.stat[t] == Ready && r.queues[p] == s.queues[p] + [t]))
  {
  }

  /** A change of priority changes that priority only, and moves a ready thread to the end of its new
      queue. */
  lemma ChangeLaw(s: State, t: Tid, p: nat)
    requires Inv(s) && t < |s.stat| && p < PRIORITY_MAX
    ensures var r := AfterChange(s, t, p);
            var was := s.prio[t];
            && r.prio == s.prio[t := p] && r.stat == s.stat && r.asks == s.asks && r.current == s.current
            && |r.queues| == |s.queues|
            && (s.stat[t] != Ready ==> r.queues == s.queues)
            && (s.stat[t] == Ready ==>
                  && (p != was ==> LeftLine(s.queues[was], r.queues[was], t) && r.queues[p] == s.queues[p] + [t])
                  && (p == was ==> exists rest :: LeftLine(s.queues[p], rest, t) && r.queues[p] == rest + [t])
                  && forall q :: 0 <= q < |s.queues| && q != p && q != was ==> r.queues[q] == s.queues[q])
  {
    hide Off, Distinct;
    var was := s.prio[t];
    AtHome(s, t);
    assert Home(s, was);
    if s.stat[t] == Ready {
      OffLeaves(s.queues[was], t);
      assert s.stat[t := Ready] == s.stat;
    }
  }

  /** rt_thread_startup gives the thread its priority and makes it ready, last of that priority. */
  lemma LaunchLaw(s: State, t: Tid, p: nat)
    requires Inv(s) && t < |s.stat| && s.stat[t] == Initial && p < PRIORITY_MAX
    ensures var r := Launched(s, t, p);
            && ButFor(s, r, t, p) && r.prio == s.prio[t := p]
            && (t == s.current ==> r.stat[t] == Running && r.queues == s.queues)
            && (t != s.current ==> r.stat[t] == Ready && r.queues[p] == s.queues[p] + [t])
  {
  }

  /** The first thread of queue p gets the processor. */
  ghost predicate Dispatched(s: State, r: State, p: nat)
    requires p < |s.queues| == |r.queues| && s.queues[p] != []
  {
    r.current == s.queues[p][0] && r.current < |r.stat| && r.stat[r.current] == Running
  }

  /** rt_schedule, exactly: priorities never change; a thread that is not running hands over to the
      first of the most urgent queue; a running one drops its wish to yield, and if it has to go it
      becomes ready, last of its priority; nobody else is touched. */
  lemma ScheduleLaw(s: State)
    requires Inv(s) && Top(s.queues, 0) < |s.queues|
    ensures var top, from, r := Top(s.queues, 0), s.current, AfterSchedule(s, false);
            && r.prio == s.prio && |r.stat| == |s.stat| && |r.queues| == |s.queues|
            && r.asks == (if s.stat[from] == Running then s.asks[from := false] else s.asks)
            && (s.stat[from] == Running && Stays(s, top) ==>
                  r.current == from && r.stat == s.stat && r.queues == s.queues)
            && (s.stat[from] == Running && !Stays(s, top) ==>
                  && Dispatched(s, r, top) && r.stat == s.stat[from := Ready][r.current := Running]
                  && r.queues == Requeued(s.queues, top, s.prio[from], from))
            && (s.stat[from] != Running ==>
                  && Dispatched(s, r, top) && r.stat == s.stat[r.current := Running]
                  && r.queues == s.queues[top := s.queues[top][1..]])
  {
    hide Off, Top, Homes;
    var top, from := Top(s.queues, 0), s.current;
    TopThread(s);
    HomeOf(s, top);
    HomeOf(s, s.prio[from]);
    AtHome(s, from);
    OffFirst(s.queues[top]);
    OffDistinct(s.queues[s.prio[from]], from);
    assert s.queues[s.prio[from] := s.queues[s.prio[from]]] == s.queues;
    if s.stat[from] == Running { assert s.stat[from := Running] == s.stat; }
    if s.stat[from] == Running && !Stays(s, top) { RequeuedOff(s.queues, top, s.prio[from], from); }
  }

  lemma HomeOf(s: State, p: nat)
    requires |s.stat| == |s.prio| && Homes(s) && p < |s.queues|
    ensures Home(s, p)
  {
  }

  /** Thread t joins the end of queue p, and queue `top` loses its first thread. */
  function Requeued(queues: seq<seq<Tid>>, top: nat, p: nat, t: Tid): seq<seq<Tid>>
    requires top < |queues| && p < |queues| && queues[top] != []
  {
    var longer := queues[p := queues[p] + [t]];
    longer[top := longer[top][1..]]
  }

  lemma RequeuedOff(queues: seq<seq<Tid>>, top: nat, p: nat, t: Tid)
    requires top < |queues| && p < |queues| && queues[top] != [] && Distinct(queues[top]) && t !in queues[top]
    ensures var longer := queues[p := queues[p] + [t]];
            longer[top] != [] && longer[top := Off(longer[top], queues[top][0])] == Requeued(queues, top, p, t)
  {
    var line := if top == p then queues[top] + [t] else queues[top];
    AppendDistinct(queues[top], t);
    OffFirst(line);
  }

  // ---- Whole calls ----

  predicate Runnable(x: Stat) { x == Ready || x == Running }

  /** Which threads can run and their priorities are the same. */
  ghost predicate SameRunnable(s: State, r: State) {
    |r.stat| == |s.stat| && r.prio == s.prio && forall u :: 0 <= u < |s.stat| ==>
      (Runnable(r.stat[u]) <==> Runnable(s.stat[u])) && (!Runnable(s.stat[u]) ==> r.stat[u] == s.stat[u])
  }

  /** The thread that has the processor runs and is at least as urgent as every ready thread. */
  ghost predicate WellChosen(r: State) {
    forall t :: 0 <= t < |r.stat| && r.stat[t] == Ready && t < |r.prio| && r.current < |r.prio| ==>
      r.current < |r.stat| && r.stat[r.current] == Running && r.prio[r.current] <= r.prio[t]
  }

  /** rt_schedule makes nobody able or unable to run; unlocked, it leaves the processor with the right
      thread, and locked with the same. */
  lemma ScheduleServes(s: State, locked: bool)
    requires Inv(s)
    ensures var r := AfterSchedule(s, locked);
            SameRunnable(s, r) && (if locked then r == s else WellChosen(r))
  {
    hide Off, Top, Homes;
    if !locked {
      if Top(s.queues, 0) < |s.queues| {
        ScheduleLaw(s);
        TopThread(s);
        ScheduleChooses(s);
      } else {
        NoneReadyThen(s);
      }
    }
  }

  lemma NoneReadyThen(s: State)
    requires Inv(s) && Top(s.queues, 0) == |s.queues|
    ensures forall t :: 0 <= t < |s.stat| ==> s.stat[t] != Ready
  {
    forall t | 0 <= t < |s.stat| ensures s.stat[t] != Ready { AtHome(s, t); }
  }

  /** A call that ends with rt_schedule makes exactly its thread able to run, and leaves the processor
      with the right thread, unless the scheduler is locked. */
  lemma CallsServe(s: State, op: Op)
    requires Inv(s) && Allowed(s, op) && (op.Yield? || op.Timeout? || op.Startup?)
    ensures var r := Step(s, op);
            && (if op.locked then r.current == s.current else WellChosen(r))
            && (op.Yield? ==> SameRunnable(s, r))
            && (!op.Yield? ==> && |r.stat| == |s.stat| && Runnable(r.stat[op.t])
                               && r.prio == (if op.Startup? then s.prio[op.t := op.p] else s.prio)
                               && forall u :: 0 <= u < |s.stat| && u != op.t ==>
                                    (Runnable(r.stat[u]) <==> Runnable(s.stat[u])))
  {
    hide Off, Top, Homes, AfterSchedule;
    match op
    case Yield(locked) =>
      AskedInv(s);
      ScheduleServes(Asked(s), locked);
    case Timeout(t, locked) =>
      ResumeInv(s, t);
      ResumeLaw(s, t);
      ScheduleServes(AfterInsert(s, t), locked);
    case Startup(t, p, locked) =>
      LaunchInv(s, t, p);
      LaunchLaw(s, t, p);
      ScheduleServes(Launched(s, t, p), locked);
  }
}
