/**
 The mutex: recursive ownership, direct hand-over to the first waiter and
 priority inheritance, for threads whose priorities nothing else changes.
 */
module Mutex {
  import opened Ipc

  /** RT_MUTEX_HOLD_MAX, RT_MUTEX_VALUE_MAX and the mark of a mutex nobody owns. */
  const HOLD_MAX: nat := 0xff
  const VALUE_MAX: nat := 0xffff
  const NO_PRIORITY: nat := 0xff

  datatype Code = Ok | Full | TimedOut | Error | Suspended

  /** A mutex, its waiting list and the current priority of every thread. The last two
      fields are what the threads know: their own base priority, and how many takes they
      have been granted and not released. */
  datatype State = State(flag: Flag, value: nat, owner: Option<Tid>, hold: nat, original: nat,
                         waiters: seq<Tid>, prio: seq<nat>, base: seq<nat>, granted: seq<int>)
  {
    predicate Threads() {
      && |base| == |prio| == |granted|
      && (owner.Some? ==> owner.value < |prio|) && (value > 0 || owner.Some?)
      && Below(waiters, |prio|)
    }
  }

  predicate Below(list: seq<Tid>, n: nat) {
    forall i :: 0 <= i < |list| ==> list[i] < n
  }

  function Prios(list: seq<Tid>, prio: seq<nat>): (r: seq<nat>)
    requires Below(list, |prio|)
    ensures |r| == |list|
    ensures forall i :: 0 <= i < |list| ==> r[i] == prio[list[i]]
  {
    if list == [] then [] else [prio[list[0]]] + Prios(list[1..], prio)
  }

  /** The most urgent of p and the priorities of the list. */
  function Best(p: nat, ps: seq<nat>): (r: nat)
    ensures r <= p && (r == p || r in ps)
    ensures forall i :: 0 <= i < |ps| ==> r <= ps[i]
  {
    if ps == [] then p else Best(if p < ps[0] then p else ps[0], ps[1..])
  }

  /** Where a thread of priority p is linked into the waiting list. */
  function Place(flag: Flag, ps: seq<nat>, p: nat): (k: nat)
    ensures k <= |ps|
    ensures flag.Fifo? ==> k == |ps|
    ensures flag.Prio? ==> forall i :: 0 <= i < k ==> ps[i] <= p
    ensures flag.Prio? && k < |ps| ==> p < ps[k]
  {
    if flag.Fifo? then |ps|
    else if ps == [] || p < ps[0] then 0
    else 1 + Place(flag, ps[1..], p)
  }

  /** rt_mutex_take up to the point where the caller has the mutex, has failed or sleeps. */
  function AfterTake(s: State, t: Tid, time: int): (State, Code)
    requires s.Threads() && t < |s.prio| && t !in s.waiters
  {
    if s.owner == Some(t) then
      if s.hold < HOLD_MAX then (s.(hold := s.hold + 1, granted := s.granted[t := s.granted[t] + 1]), Ok)
      else (s, Full)
    else if s.value > 0 then
      var s1 := s.(value := s.value - 1, owner := Some(t), original := s.prio[t]);
      if s.hold < HOLD_MAX then (s1.(hold := s.hold + 1, granted := s.granted[t := s.granted[t] + 1]), Ok)
      else (s1, Full)
    else if time == 0 then (s, TimedOut)
    else (GoToSleep(s, t), Suspended)
  }

  /** The owner inherits from the caller, and the caller joins the waiting list. */
  function GoToSleep(s: State, t: Tid): State
    requires s.Threads() && t < |s.prio| && s.owner.Some?
  {
    var o := s.owner.value;
    var prio := if s.prio[t] < s.prio[o] then s.prio[o := s.prio[t]] else s.prio;
    s.(prio := prio, waiters := Insert(s.waiters, Place(s.flag, Prios(s.waiters, prio), prio[t]), t))
  }

  /** rt_mutex_release. */
  function AfterRelease(s: State, t: Tid): (State, Code)
    requires s.Threads() && t < |s.prio|
  {
    if s.owner != Some(t) then (s, Error)
    else
      var s1 := s.(hold := if s.hold == 0 then HOLD_MAX else s.hold - 1, granted := s.granted[t := s.granted[t] - 1]);
      (if s1.hold > 0 then s1 else LetGo(s1, t), Ok)
  }

  /** The last release: back to the saved priority, and the mutex is passed on or free. */
  function LetGo(s: State, t: Tid): State
    requires s.Threads() && t < |s.prio|
  {
    var s1 := s.(prio := s.prio[t := s.original]);
    if s.waiters != [] then PassOn(s1)
    else s1.(value := s.value + 1, owner := None, original := NO_PRIORITY)
  }

  /** The first waiter becomes the owner; under FIFO it inherits from those still waiting. */
  function PassOn(s: State): State
    requires s.Threads() && s.waiters != []
  {
    var n := s.waiters[0];
    s.(owner := Some(n), original := s.prio[n], hold := s.hold + 1,
       prio := if s.flag.Fifo? then s.prio[n := Best(PRIORITY_MAX - 1, Prios(s.waiters, s.prio))] else s.prio,
       waiters := s.waiters[1..],
       granted := s.granted[n := s.granted[n] + 1])
  }

  /** rt_thread_timeout of a waiting thread. */
  function AfterExpire(s: State, t: Tid): State {
    s.(waiters := Without(s.waiters, t))
  }

  datatype Action = TakeIt(t: Tid, time: int) | ReleaseIt(t: Tid) | ExpireIt(t: Tid)

  /** One step of a thread that is not asleep, or of the timer of one that is. */
  function Next(s: State, a: Action): State {
    if !s.Threads() then s
    else match a
      case TakeIt(t, time) => if t < |s.prio| && t !in s.waiters then AfterTake(s, t, time).0 else s
      case ReleaseIt(t) => if t < |s.prio| && t !in s.waiters then AfterRelease(s, t).0 else s
      case ExpireIt(t) => AfterExpire(s, t)
  }

  // ---- Invariant ----

  /** value, owner and hold always agree, and nobody waits for a free mutex. */
  ghost predicate Ownership(s: State) {
    && (s.value == 1 <==> s.owner.None?) && (s.hold == 0 <==> s.owner.None?)
    && s.value <= 1 && s.hold <= HOLD_MAX
    && Distinct(s.waiters) && (s.waiters != [] ==> s.owner.Some?)
    && (s.owner.Some? ==> s.owner.value !in s.waiters)
  }

  /** A thread that does not own the mutex runs at its own priority; the owner runs at least
      as urgently as itself and as every waiter, and will be put back to its own priority. */
  ghost predicate Inheritance(s: State) {
    && s.Threads()
    && (forall t :: 0 <= t < |s.base| ==> s.base[t] < PRIORITY_MAX)
    && (forall t :: 0 <= t < |s.prio| && s.owner != Some(t) ==> s.prio[t] == s.base[t])
    && (s.owner.Some? ==>
          var o := s.owner.value;
          s.original == s.base[o] && s.prio[o] <= s.base[o] && forall w :: w in s.waiters ==> s.prio[o] <= s.base[w])
    && (s.flag.Prio? ==> MostUrgentFirst(Prios(s.waiters, s.base)))
  }

  /** Only the owner has takes to its name, as many as the hold count says. */
  ghost predicate Exclusive(s: State) {
    s.Threads() &&
    forall t :: 0 <= t < |s.granted| ==> s.granted[t] == if s.owner == Some(t) then s.hold else 0
  }

  ghost predicate Inv(s: State) {
    s.Threads() && Ownership(s) && Inheritance(s) && Exclusive(s)
  }

  ghost predicate Initial(s: State) {
    && s.Threads() && s.value == 1 && s.owner.None? && s.hold == 0 && s.original == NO_PRIORITY && s.waiters == []
    && s.prio == s.base && (forall t :: 0 <= t < |s.base| ==> s.base[t] < PRIORITY_MAX)
    && (forall t :: 0 <= t < |s.granted| ==> s.granted[t] == 0)
  }

  lemma InsertOne(s: seq<Tid>, k: nat, x: Tid)
    requires k <= |s| && Distinct(s) && x !in s
    ensures Distinct(Insert(s, k, x))
    ensures forall y :: y in Insert(s, k, x) <==> y == x || y in s
  {
    var r := Insert(s, k, x);
    assert forall i :: 0 <= i < |s| ==> s[i] == r[if i < k then i else i + 1];
  }

  /** Priorities outside the list do not matter to it. */
  lemma PriosFrame(list: seq<Tid>, prio: seq<nat>, prio': seq<nat>)
    requires Below(list, |prio|) && Below(list, |prio'|)
    requires forall i :: 0 <= i < |list| ==> prio[list[i]] == prio'[list[i]]
    ensures Prios(list, prio) == Prios(list, prio')
  {
  }

  /** Inserting a thread inserts its priority at the same place. */
  lemma PriosInsert(list: seq<Tid>, k: nat, t: Tid, prio: seq<nat>)
    requires Below(list, |prio|) && k <= |list| && t < |prio|
    ensures Below(Insert(list, k, t), |prio|)
    ensures Prios(Insert(list, k, t), prio) == Insert(Prios(list, prio), k, prio[t])
  {
  }

  lemma SuspendKeeps(s: State, t: Tid, time: int)
    requires Inv(s) && t < |s.prio| && t !in s.waiters && AfterTake(s, t, time).1.Suspended?
    ensures Inv(AfterTake(s, t, time).0)
  {
    hide Prios, Place;
    var s' := AfterTake(s, t, time).0;
    var k := Place(s.flag, Prios(s.waiters, s'.prio), s'.prio[t]);
    InsertOne(s.waiters, k, t);
    PriosFrame(s.waiters, s'.prio, s.base);
    PriosInsert(s.waiters, k, t, s.base);
    if s.flag.Prio? { SortedInsert(Prios(s.waiters, s.base), k, s.base[t]); }
  }

  lemma SortedInsert(ps: seq<nat>, k: nat, p: nat)
    requires k <= |ps| && MostUrgentFirst(ps)
    requires (forall i :: 0 <= i < k ==> ps[i] <= p) && (k < |ps| ==> p < ps[k])
    ensures MostUrgentFirst(Insert(ps, k, p))
  {
  }

  lemma TakeKeeps(s: State, t: Tid, time: int)
    requires Inv(s) && t < |s.prio| && t !in s.waiters
    ensures Inv(AfterTake(s, t, time).0)
  {
    if AfterTake(s, t, time).1.Suspended? { SuspendKeeps(s, t, time); }
  }

  lemma FirstLeast(ps: seq<nat>)
    requires MostUrgentFirst(ps) && ps != []
    ensures MostUrgentFirst(ps[1..]) && forall i :: 0 <= i < |ps| ==> ps[0] <= ps[i]
  {
  }

  /** What the new owner runs at is as urgent as itself and all it leaves behind. */
  lemma FirstBest(flag: Flag, list: seq<Tid>, prio: seq<nat>)
    requires list != [] && Below(list, |prio|) && (flag.Prio? ==> MostUrgentFirst(Prios(list, prio)))
    ensures var p := if flag.Fifo? then Best(PRIORITY_MAX - 1, Prios(list, prio)) else prio[list[0]];
            forall w :: w in list ==> w < |prio| && p <= prio[w]
    ensures Below(list[1..], |prio|)
    ensures flag.Prio? ==> MostUrgentFirst(Prios(list[1..], prio))
  {
    hide Prios, Best, MostUrgentFirst;
    var ps := Prios(list, prio);
    assert Below(list[1..], |prio|);
    assert Prios(list[1..], prio) == ps[1..];
    if flag.Prio? { FirstLeast(ps); }
    var p := if flag.Fifo? then Best(PRIORITY_MAX - 1, ps) else prio[list[0]];
    forall w | w in list ensures w < |prio| && p <= prio[w] {
      var i :| 0 <= i < |list| && list[i] == w;
      assert p <= ps[i] == prio[w];
    }
  }

  /** The mutex goes to the first waiter, who inherits from those left behind. */
  lemma HandOverKeeps(s: State, t: Tid)
    requires Inv(s) && s.owner == Some(t) && s.hold == 1 && s.waiters != []
    ensures Inv(AfterRelease(s, t).0)
  {
    hide Prios, Best;
    var n := s.waiters[0];
    assert s.waiters == [n] + s.waiters[1..] && n !in s.waiters[1..];
    assert s.prio[t := s.original] == s.base;
    FirstBest(s.flag, s.waiters, s.base);
    var s' := AfterRelease(s, t).0;
    assert s'.Threads() && Ownership(s') by { hide MostUrgentFirst; }
  }

  lemma ReleaseKeeps(s: State, t: Tid)
    requires Inv(s) && t < |s.prio| && t !in s.waiters
    ensures Inv(AfterRelease(s, t).0)
  {
    if s.owner == Some(t) && s.hold == 1 {
      if s.waiters != [] { HandOverKeeps(s, t); }
    }
  }

  lemma {:induction false} WithoutPrios(list: seq<Tid>, x: Tid, prio: seq<nat>)
    requires Below(list, |prio|) && MostUrgentFirst(Prios(list, prio))
    ensures Below(Without(list, x), |prio|) && MostUrgentFirst(Prios(Without(list, x), prio))
  {
    if list == [] {
    } else {
      var rest := Without(list[1..], x);
      var ps := Prios(list, prio);
      assert Prios(list[1..], prio) == ps[1..];
      WithoutPrios(list[1..], x, prio);
      if list[0] != x {
        var qs := Prios(Without(list, x), prio);
        assert qs == [ps[0]] + Prios(rest, prio);
        forall i | 0 <= i < |rest| ensures ps[0] <= Prios(rest, prio)[i] {
          assert rest[i] in list[1..];
          var j :| 0 <= j < |list[1..]| && list[1..][j] == rest[i];
          assert ps[j + 1] == prio[rest[i]];
        }
      }
    }
  }

  lemma ExpireKeeps(s: State, t: Tid)
    requires Inv(s)
    ensures Inv(AfterExpire(s, t))
  {
    WithoutDistinct(s.waiters, t);
    assert forall i :: 0 <= i < |Without(s.waiters, t)| ==> Without(s.waiters, t)[i] in s.waiters;
    if s.flag.Prio? { WithoutPrios(s.waiters, t, s.base); }
  }

  lemma NextKeeps(s: State, a: Action)
    requires Inv(s)
    ensures Inv(Next(s, a))
  {
    match a
    case TakeIt(t, time) => if t < |s.prio| && t !in s.waiters { TakeKeeps(s, t, time); }
    case ReleaseIt(t) => if t < |s.prio| && t !in s.waiters { ReleaseKeeps(s, t); }
    case ExpireIt(t) => ExpireKeeps(s, t);
  }

  function Exec(s: State, run: seq<Action>): State
    decreases |run|
  {
    if run == [] then s else Next(Exec(s, run[..|run| - 1]), run[|run| - 1])
  }

  /** In every reachable state: the owner is the only thread with takes to its name; value,
      owner and hold agree; waiters have an owner to wait for; the owner is at least as urgent
      as every waiter, and everybody else is at their own priority. */
  lemma {:induction false} ReachableInv(s: State, run: seq<Action>)
    requires Initial(s)
    ensures Inv(Exec(s, run))
    decreases |run|
  {
    if run == [] {
    } else {
      ReachableInv(s, run[..|run| - 1]);
      NextKeeps(Exec(s, run[..|run| - 1]), run[|run| - 1]);
    }
  }

  /** Mutual exclusion: two threads that both hold a granted take are the same thread. */
  lemma MutualExclusion(s: State, run: seq<Action>, t: Tid, u: Tid)
    requires Initial(s)
    requires var r := Exec(s, run);
             t < |r.granted| && u < |r.granted| && r.granted[t] > 0 && r.granted[u] > 0
    ensures var r := Exec(s, run);
            t == u && r.owner == Some(t) && r.granted[t] == r.hold
  {
    ReachableInv(s, run);
  }

  /** No inversion: whoever waits, the thread it waits for runs at least as urgently. */
  lemma NoInversion(s: State, run: seq<Action>, w: Tid)
    requires Initial(s) && w in Exec(s, run).waiters
    ensures var r := Exec(s, run);
            && r.Threads() && r.owner.Some? && w < |r.prio|
            && r.prio[r.owner.value] <= r.prio[w] == r.base[w]
  {
    ReachableInv(s, run);
  }

  // ---- What each call answers and does ----

  /** A free mutex is granted. */
  lemma FreeIsGranted(s: State, t: Tid, time: int)
    requires Inv(s) && t < |s.prio| && s.owner == None
    ensures t !in s.waiters
    ensures var (r, code) := AfterTake(s, t, time);
            && code == Ok && r.owner == Some(t) && r.hold == 1 && r.value == 0 && r.original == s.base[t]
            && r.granted == s.granted[t := 1]
            && r.prio == s.prio && r.waiters == s.waiters == [] && r.base == s.base && r.flag == s.flag
  {
  }

  /** The owner's takes nest up to the maximum and fail there. */
  lemma OwnerNests(s: State, t: Tid, time: int)
    requires Inv(s) && s.owner == Some(t)
    ensures var (r, code) := AfterTake(s, t, time);
            if s.hold < HOLD_MAX
            then code == Ok && r == s.(hold := r.hold, granted := r.granted) && r.hold == s.hold + 1 &&
                 r.granted == s.granted[t := r.hold]
            else code == Full && r == s
  {
  }

  /** The place a thread takes in the waiting list. */
  ghost predicate JoinsAt(list: seq<Tid>, longer: seq<Tid>, k: nat, t: Tid, prio: seq<nat>, flag: Flag)
    requires Below(list, |prio|) && t < |prio|
  {
    && k <= |list| && |longer| == |list| + 1 && longer[k] == t && list == longer[..k] + longer[k + 1..]
    && SuspendsAt(Prios(list, prio), prio[t], flag, k)
  }

  /** A mutex that another thread owns is refused without waiting; otherwise the caller waits, in its
      place, and the owner becomes as urgent as the caller unless it is more urgent already. */
  lemma OthersWait(s: State, t: Tid, time: int)
    requires Inv(s) && t < |s.prio| && t !in s.waiters && s.owner.Some? && s.owner != Some(t)
    ensures var (r, code) := AfterTake(s, t, time);
            && (time == 0 ==> code == TimedOut && r == s)
            && (time != 0 ==>
                  var o := s.owner.value;
                  && code == Suspended && t in r.waiters && r == s.(waiters := r.waiters, prio := r.prio)
                  && r.prio == s.prio[o := if s.base[t] < s.prio[o] then s.base[t] else s.prio[o]]
                  && exists k :: JoinsAt(s.waiters, r.waiters, k, t, s.base, s.flag))
  {
    hide Prios, Place, Insert, JoinsAt;
    if time != 0 {
      var r := AfterTake(s, t, time).0;
      PriosFrame(s.waiters, r.prio, s.base);
      var k := Place(s.flag, Prios(s.waiters, s.base), s.base[t]);
      assert r.waiters == Insert(s.waiters, k, t);
      Joining(s.waiters, t, s.base, s.flag);
    }
  }

  lemma Joining(list: seq<Tid>, t: Tid, prio: seq<nat>, flag: Flag)
    requires Below(list, |prio|) && t < |prio|
    ensures var k := Place(flag, Prios(list, prio), prio[t]);
            JoinsAt(list, Insert(list, k, t), k, t, prio, flag) && t in Insert(list, k, t)
  {
    hide Prios, Place;
    var k := Place(flag, Prios(list, prio), prio[t]);
    assert Insert(list, k, t)[k] == t;
  }

  /** Only the owner releases; before the last time, only the count changes; the last time it is
      back at its own priority, and without waiters the mutex is free. */
  lemma ReleaseFrees(s: State, t: Tid)
    requires Inv(s) && t < |s.prio|
    ensures var (r, code) := AfterRelease(s, t);
            && (s.owner != Some(t) ==> code == Error && r == s)
            && (s.owner == Some(t) ==> code == Ok && r.granted[t] == s.granted[t] - 1)
            && (s.owner == Some(t) && s.hold > 1 ==>
                  r == s.(hold := r.hold, granted := s.granted[t := r.hold]) && r.hold == s.hold - 1)
            && (s.owner == Some(t) && s.hold == 1 && s.waiters == [] ==>
                  && r.owner == None && r.value == 1 && r.hold == 0 && r.waiters == [] && r.prio == s.base
                  && r.granted == s.granted[t := 0] && r.base == s.base && r.flag == s.flag)
  {
    if s.owner == Some(t) && s.hold == 1 { assert s.prio[t := s.original] == s.base; }
  }

  /** p is the most urgent of the listed threads' priorities. */
  ghost predicate MostUrgentOf(p: nat, list: seq<Tid>, prio: seq<nat>) {
    && (exists w :: w in list && w < |prio| && prio[w] == p)
    && forall w :: w in list ==> w < |prio| && p <= prio[w]
  }

  /** The last release with waiters makes the first one the owner; it runs as urgently as the most
      urgent of them, and everybody else at their own priority. */
  lemma ReleaseHandsOver(s: State, t: Tid)
    requires Inv(s) && s.owner == Some(t) && s.hold == 1 && s.waiters != []
    ensures var (r, code) := AfterRelease(s, t);
            var n := s.waiters[0];
            && code == Ok && r.owner == Some(n) && r.hold == 1 && r.value == 0 && r.original == s.base[n]
            && r.waiters == s.waiters[1..] && n < |s.base| && MostUrgentOf(r.prio[n], s.waiters, s.base)
            && r.prio == s.base[n := r.prio[n]]
            && r.granted == s.granted[t := 0][n := 1] && r.base == s.base && r.flag == s.flag
  {
    hide Prios, Best;
    var r, n := AfterRelease(s, t).0, s.waiters[0];
    assert s.prio[t := s.original] == s.base;
    FirstBest(s.flag, s.waiters, s.base);
    BestIsThere(s.waiters, s.base);
    assert n in s.waiters && n != t;
  }

  lemma BestIsThere(list: seq<Tid>, prio: seq<nat>)
    requires list != [] && Below(list, |prio|) && forall t :: 0 <= t < |prio| ==> prio[t] < PRIORITY_MAX
    ensures var p := Best(PRIORITY_MAX - 1, Prios(list, prio));
            exists w :: w in list && w < |prio| && prio[w] == p
  {
    hide Prios, Best;
    var ps := Prios(list, prio);
    var p := Best(PRIORITY_MAX - 1, ps);
    assert p <= ps[0];
    var i := if p in ps then IndexOf(ps, p) else 0;
    assert ps[i] == p;
    assert list[i] in list && prio[list[i]] == p;
  }

  ghost function IndexOf(s: seq<nat>, x: nat): (i: nat)
    requires x in s
    ensures i < |s| && s[i] == x
  {
    var i :| 0 <= i < |s| && s[i] == x;
    i
  }

  /** A timeout takes the thread off the list, the others stay in order. */
  lemma ExpiryLeaves(s: State, t: Tid)
    requires Inv(s)
    ensures var r := AfterExpire(s, t);
            && r == s.(waiters := r.waiters) && (t !in s.waiters ==> r == s)
            && forall k :: 0 <= k < |s.waiters| && s.waiters[k] == t ==>
                 r.waiters == s.waiters[..k] + s.waiters[k + 1..]
  {
    WithoutDistinct(s.waiters, t);
    forall k | 0 <= k < |s.waiters| && s.waiters[k] == t
      ensures AfterExpire(s, t).waiters == s.waiters[..k] + s.waiters[k + 1..]
    {
      WithoutAt(s.waiters, k);
    }
  }

  /** The object itself: its fields and the threads' current priorities, updated in place. */
  class MutexObject {
    const flag: Flag
    var value: nat
    var owner: Option<Tid>
    var hold: nat
    var original: nat
    var waiters: seq<Tid>
    const current: array<nat>
    ghost const base: seq<nat>
    ghost var granted: seq<int>

    ghost function Value(): State
      reads this, current
    {
      State(flag, value, owner, hold, original, waiters, current[..], base, granted)
    }

    ghost predicate Valid()
      reads this, current
    {
      Inv(Value())
    }

    /** rt_mutex_init over threads with the given priorities. */
    constructor (f: Flag, priorities: array<nat>)
      requires forall t :: 0 <= t < priorities.Length ==> priorities[t] < PRIORITY_MAX
      ensures Valid() && Initial(Value()) && current == priorities && Value().prio == old(priorities[..])
    {
      flag := f;
      value, owner, hold, original, waiters := 1, None, 0, NO_PRIORITY, [];
      current, base := priorities, priorities[..];
      granted := seq(priorities.Length, _ => 0);
    }

    /** rt_mutex_take. Only a full hold count makes the owner's take fail; the overflow
        branch of a first take cannot be reached. */
    method Take(t: Tid, time: int) returns (code: Code)
      requires Valid() && t < current.Length && t !in waiters
      modifies this, current
      ensures Valid() && (Value(), code) == old(AfterTake(Value(), t, time))
      ensures code.Full? <==> old(owner) == Some(t) && old(hold) == HOLD_MAX
    {
      hide Inheritance, Exclusive, GoToSleep;
      TakeKeeps(Value(), t, time);
      if owner == Some(t) {
        if hold < HOLD_MAX {
          hold := hold + 1;
          granted := granted[t := granted[t] + 1];
          code := Ok;
        } else {
          code := Full;
        }
      } else if value > 0 {
        value := value - 1;
        owner := Some(t);
        original := current[t];
        if hold < HOLD_MAX {
          hold := hold + 1;
          granted := granted[t := granted[t] + 1];
          code := Ok;
        } else {
          assert false;
        }
      } else if time == 0 {
        code := TimedOut;
      } else {
        Wait(t);
        code := Suspended;
      }
    }

    /** Raise the owner if the caller is more urgent, and suspend the caller. */
    method Wait(t: Tid)
      requires Value().Threads() && t < current.Length && owner.Some?
      modifies this, current
      ensures Value() == old(GoToSleep(Value(), t))
    {
      ghost var was := current[..];
      if current[t] < current[owner.value] {
        current[owner.value] := current[t];
      }
      assert current[..] == if was[t] < was[owner.value] then was[owner.value := was[t]] else was;
      var ps := Prios(waiters, current[..]);
      var k := SuspendPosition(ps, current[t], flag);
      PlaceUnique(flag, ps, current[t], k);
      hide Prios, Place;
      waiters := Insert(waiters, k, t);
    }

    /** rt_mutex_release. */
    method Release(t: Tid) returns (code: Code)
      requires Valid() && t < current.Length && t !in waiters
      modifies this, current
      ensures Valid() && (Value(), code) == old(AfterRelease(Value(), t))
      ensures code.Error? <==> old(owner) != Some(t)
    {
      hide Inheritance, Exclusive, Prios, Best, LetGo;
      ReleaseKeeps(Value(), t);
      if owner != Some(t) {
        return Error;
      }
      hold := hold - 1;
      granted := granted[t := granted[t] - 1];
      if hold == 0 {
        LetGoOf(t);
      }
      code := Ok;
    }

    /** The last release. The overflow branch of value cannot be reached. */
    method LetGoOf(t: Tid)
      requires Value().Threads() && t < current.Length && hold == 0 && value < VALUE_MAX
      modifies this, current
      ensures Value() == old(LetGo(Value(), t))
    {
      hide PassOn;
      ghost var was := Value();
      if original != current[t] {
        current[t] := original;
      }
      assert Value() == was.(prio := was.prio[t := original]);
      if waiters != [] {
        HandOver();
      } else {
        if value < VALUE_MAX {
          value := value + 1;
        } else {
          assert false;
        }
        owner := None;
        original := NO_PRIORITY;
      }
    }

    /** The first waiter becomes the owner. The overflow branch of hold cannot be reached. */
    method HandOver()
      requires Value().Threads() && waiters != [] && hold == 0
      modifies this, current
      ensures Value() == old(PassOn(Value()))
    {
      hide Prios, Best;
      var n := waiters[0];
      owner := Some(n);
      original := current[n];
      var ps := Prios(waiters, current[..]);
      var best := HighestPriority(ps);
      BestUnique(ps, best);
      ghost var was := current[..];
      if flag == Fifo && current[n] != best {
        current[n] := best;
      }
      assert current[..] == if flag.Fifo? then was[n := best] else was;
      if hold < HOLD_MAX {
        hold := hold + 1;
      } else {
        assert false;
      }
      granted := granted[n := granted[n] + 1];
      waiters := waiters[1..];
    }

    /** rt_thread_timeout of a waiting thread. */
    method Expire(t: Tid)
      requires Valid()
      modifies this`waiters
      ensures Valid() && Value() == old(AfterExpire(Value(), t))
    {
      ExpireKeeps(Value(), t);
      waiters := Without(waiters, t);
    }
  }

  lemma {:induction false} PlaceUnique(flag: Flag, ps: seq<nat>, p: nat, k: nat)
    requires k <= |ps| && (flag.Fifo? ==> k == |ps|)
    requires flag.Prio? ==> (forall i :: 0 <= i < k ==> ps[i] <= p) && (k < |ps| ==> p < ps[k])
    ensures Place(flag, ps, p) == k
  {
  }

  lemma BestUnique(ps: seq<nat>, best: nat)
    requires best <= PRIORITY_MAX - 1 && (best == PRIORITY_MAX - 1 || best in ps)
    requires forall i :: 0 <= i < |ps| ==> best <= ps[i]
    ensures Best(PRIORITY_MAX - 1, ps) == best
  {
  }
}
