/**
 The parts shared by every kernel IPC object: the list of suspended threads
 (ordered FIFO or by priority) and the book-keeping that makes a wake-up count.
 */
module Ipc {

  /** A thread, identified by its control block. */
  type Tid = nat

  /** RT_THREAD_PRIORITY_MAX; a smaller number is more urgent. */
  const PRIORITY_MAX: nat := 32

  /** RT_UINT16_MAX, the value of RT_MB_ENTRY_MAX and RT_MQ_ENTRY_MAX. */
  const ENTRY_MAX: nat := 0xffff

  /** Addresses, sizes and ticks have 32 bits. */
  const WORD: nat := 0x1_0000_0000

  /** RT_IPC_FLAG_FIFO and RT_IPC_FLAG_PRIO. */
  datatype Flag = Fifo | Prio

  datatype Option<+T> = None | Some(value: T)

  function Insert<T>(s: seq<T>, k: nat, x: T): seq<T>
    requires k <= |s|
  {
    s[..k] + [x] + s[k..]
  }

  function Without<T(==,!new)>(s: seq<T>, x: T): (r: seq<T>)
    ensures x !in r
    ensures forall y :: y != x ==> (y in r <==> y in s)
  {
    if s == [] then []
    else if s[0] == x then Without(s[1..], x)
    else [s[0]] + Without(s[1..], x)
  }

  ghost predicate Distinct<T>(s: seq<T>) {
    forall i, j :: 0 <= i < j < |s| ==> s[i] != s[j]
  }

  ghost predicate MostUrgentFirst(prio: seq<nat>) {
    forall i, j :: 0 <= i < j < |prio| ==> prio[i] <= prio[j]
  }

  lemma {:induction false} WithoutDistinct<T(!new)>(s: seq<T>, x: T)
    requires Distinct(s)
    ensures Distinct(Without(s, x))
    ensures x !in s ==> Without(s, x) == s
    ensures x in s ==> |Without(s, x)| == |s| - 1
  {
    if s == [] {
    } else {
      WithoutDistinct(s[1..], x);
      assert s == [s[0]] + s[1..];
      if s[0] != x { JoinDistinct(s[0], Without(s[1..], x), s[1..]); }
    }
  }

  lemma JoinDistinct<T>(x: T, r: seq<T>, all: seq<T>)
    requires Distinct(r) && (forall y :: y in r ==> y in all) && Distinct([x] + all)
    ensures Distinct([x] + r)
  {
    var s := [x] + all;
    forall i | 0 <= i < |all| ensures all[i] != x { assert s[0] != s[i + 1]; }
    forall i | 0 <= i < |r| ensures r[i] != x { assert r[i] in all; }
  }

  /** A list of numbers without x. */
  function Off(row: seq<nat>, x: nat): (r: seq<nat>)
    ensures x !in r && forall y: nat :: y != x ==> (y in r <==> y in row)
    ensures forall i :: 0 <= i < |r| ==> r[i] in row
  {
    var r := Without<nat>(row, x);
    assert forall i :: 0 <= i < |r| ==> r[i] in r;
    r
  }

  /** Taking one element out leaves the others in order. */
  lemma {:induction false} WithoutAt<T(!new)>(s: seq<T>, k: nat)
    requires Distinct(s) && k < |s|
    ensures Without(s, s[k]) == s[..k] + s[k + 1..]
    decreases k
  {
    if k == 0 {
      WithoutDistinct(s[1..], s[0]);
      assert s[0] !in s[1..];
    } else {
      WithoutAt(s[1..], k - 1);
      assert s[1..][..k - 1] == s[1..k] && s[1..][k..] == s[k + 1..];
      assert [s[0]] + (s[1..k] + s[k + 1..]) == s[..k] + s[k + 1..];
    }
  }

  lemma OffDistinct(row: seq<nat>, x: nat)
    requires Distinct(row)
    ensures Distinct(Off(row, x)) && x !in Off(row, x)
    ensures forall y: nat :: y in Off(row, x) <==> y in row && y != x
    ensures x !in row ==> Off(row, x) == row
  {
    WithoutDistinct<nat>(row, x);
  }

  /** Taking out the element at position k. */
  lemma {:induction false} OffAt(row: seq<nat>, k: nat)
    requires Distinct(row) && k < |row|
    ensures Off(row, row[k]) == row[..k] + row[k + 1..]
    decreases k
  {
    if k == 0 {
      WithoutDistinct<nat>(row[1..], row[0]);
    } else {
      OffAt(row[1..], k - 1);
    }
  }

  lemma PushDistinct(row: seq<nat>, x: nat)
    requires Distinct(row) && x !in row
    ensures Distinct([x] + row) && forall y: nat :: y in [x] + row <==> y == x || y in row
  {
  }

  /** Distinct numbers below n are at most n many. */
  lemma {:induction false} Pigeonhole(s: seq<nat>, n: nat)
    requires Distinct(s) && forall k :: k in s ==> k < n
    ensures |s| <= n
    decreases n
  {
    if s == [] {
    } else {
      assert s[0] in s;
      var r: seq<nat> := Without<nat>(s, n - 1);
      WithoutDistinct<nat>(s, n - 1);
      Pigeonhole(r, n - 1);
    }
  }

  /** Position k is where a thread of priority p belongs in a list whose threads have the given
      priorities: at the end, or behind every thread at least as urgent. */
  predicate SuspendsAt(prio: seq<nat>, p: nat, flag: Flag, k: nat) {
    && k <= |prio| && (flag.Fifo? ==> k == |prio|)
    && (flag.Prio? ==> (forall i :: 0 <= i < k ==> prio[i] <= p) && (k < |prio| ==> p < prio[k]))
  }

  /** rt_ipc_list_suspend: where a thread of priority p is linked in. */
  method SuspendPosition(prio: seq<nat>, p: nat, flag: Flag) returns (k: nat)
    ensures SuspendsAt(prio, p, flag, k)
    ensures flag.Prio? && MostUrgentFirst(prio) ==> MostUrgentFirst(Insert(prio, k, p))
  {
    match flag
    case Fifo =>
      k := |prio|;
    case Prio =>
      k := 0;
      while k < |prio| && prio[k] <= p
        invariant k <= |prio|
        invariant forall i :: 0 <= i < k ==> prio[i] <= p
      {
        k := k + 1;
      }
  }

  /** rt_ipc_get_highest_priority: the most urgent priority of a list. */
  method HighestPriority(prio: seq<nat>) returns (p: nat)
    ensures p <= PRIORITY_MAX - 1
    ensures forall i :: 0 <= i < |prio| ==> p <= prio[i]
    ensures p == PRIORITY_MAX - 1 || p in prio
  {
    p := PRIORITY_MAX - 1;
    for n := 0 to |prio|
      invariant p <= PRIORITY_MAX - 1
      invariant forall i :: 0 <= i < n ==> p <= prio[i]
      invariant p == PRIORITY_MAX - 1 || p in prio
    {
      p := if p < prio[n] then p else prio[n];
    }
  }

  /** One side of a resource with `avail` units. The waiting list holds exactly the
      sleeping threads, each once; and no wake-up is lost: threads sleep only while
      every unit already has a woken thread on its way to fetch it. */
  ghost predicate Fair(avail: nat, waiting: seq<Tid>, asleep: set<Tid>, woken: set<Tid>) {
    && multiset(waiting) == multiset(asleep)
    && asleep !! woken
    && (waiting != [] ==> avail <= |woken|)
  }

  lemma Cancel(a: multiset<Tid>, b: multiset<Tid>, w: Tid)
    requires a + multiset{w} == b + multiset{w}
    ensures a == b
  {
    forall x ensures a[x] == b[x] {
      assert (a + multiset{w})[x] == (b + multiset{w})[x];
    }
  }

  /** One more unit, and the first sleeper is woken for it. */
  lemma GiveFair(avail: nat, waiting: seq<Tid>, asleep: set<Tid>, woken: set<Tid>)
    requires Fair(avail, waiting, asleep, woken)
    ensures waiting == [] ==> Fair(avail + 1, waiting, asleep, woken)
    ensures waiting != [] ==> waiting[0] in asleep && waiting[0] !in woken
    ensures waiting != [] ==> Fair(avail + 1, waiting[1..], asleep - {waiting[0]}, woken + {waiting[0]})
  {
    if waiting != [] {
      var w := waiting[0];
      assert waiting == [w] + waiting[1..];
      assert w in multiset(waiting);
      assert multiset(asleep) == multiset(asleep - {w}) + multiset{w};
      Cancel(multiset(waiting[1..]), multiset(asleep - {w}), w);
    }
  }

  /** A thread that reaches the resource takes a unit, or leaves if there is none. */
  lemma TakeFair(avail: nat, waiting: seq<Tid>, asleep: set<Tid>, woken: set<Tid>, t: Tid)
    requires Fair(avail, waiting, asleep, woken)
    ensures Fair(if avail > 0 then avail - 1 else 0, waiting, asleep, woken - {t})
  {
    if t in woken {
      assert |woken - {t}| == |woken| - 1;
    } else {
      assert woken - {t} == woken;
    }
  }

  /** A thread that finds no unit goes to sleep at some position of the list. */
  lemma SleepFair(waiting: seq<Tid>, asleep: set<Tid>, woken: set<Tid>, t: Tid, k: nat)
    requires Fair(0, waiting, asleep, woken) && t !in asleep && k <= |waiting|
    ensures Fair(0, Insert(waiting, k, t), asleep + {t}, woken - {t})
  {
    assert waiting == waiting[..k] + waiting[k..];
    assert multiset(Insert(waiting, k, t)) == multiset(waiting) + multiset{t};
    assert multiset(asleep + {t}) == multiset(asleep) + multiset{t};
  }

  /** A sleeper whose timer expires leaves the list. */
  lemma ExpireFair(avail: nat, waiting: seq<Tid>, asleep: set<Tid>, woken: set<Tid>, t: Tid)
    requires Fair(avail, waiting, asleep, woken)
    ensures Fair(avail, Without(waiting, t), asleep - {t}, woken)
  {
    WithoutCounts(waiting, t);
    assert multiset(Without(waiting, t)) == multiset(asleep - {t});
  }

  lemma {:induction false} WithoutCounts(s: seq<Tid>, x: Tid)
    ensures multiset(Without(s, x)) == multiset(s)[x := 0]
  {
    if s == [] {
    } else {
      WithoutCounts(s[1..], x);
      assert s == [s[0]] + s[1..];
    }
  }

  /** What happens to the plain double-ended queue behind a mailbox or message queue. */
  datatype Event<T> = Append(msg: T) | Prepend(msg: T) | Pop(msg: T) | Clear

  function Apply<T(==)>(d: seq<T>, e: Event<T>): Option<seq<T>> {
    match e
    case Append(m) => Some(d + [m])
    case Prepend(m) => Some([m] + d)
    case Pop(m) => if d != [] && d[0] == m then Some(d[1..]) else None
    case Clear => Some([])
  }

  /** The contents after a log of events; a Pop must have returned the front. */
  function Replay<T(==)>(log: seq<Event<T>>): Option<seq<T>> {
    if log == [] then Some([])
    else
      var before := Replay(log[..|log| - 1]);
      if before.None? then None else Apply(before.value, log[|log| - 1])
  }

  lemma ReplayStep<T>(log: seq<Event<T>>, e: Event<T>)
    requires Replay(log).Some?
    ensures Replay(log + [e]) == Apply(Replay(log).value, e)
  {
    assert (log + [e])[..|log|] == log;
  }

  function Rest<T>(s: seq<T>): seq<T> {
    if s == [] then [] else s[1..]
  }

  function First<T>(s: seq<T>): Option<T> {
    if s == [] then None else Some(s[0])
  }

  /** A woken thread subtracts the ticks it slept from a positive timeout. */
  function Remaining(timeout: int, woken: bool, elapsed: nat): int {
    if woken && timeout > 0 then (if timeout < elapsed then 0 else timeout - elapsed) else timeout
  }
}
