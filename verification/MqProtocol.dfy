/**
 Threads using one message queue. Every critical region is one step; the payload
 is copied between regions, so any other thread, a timer expiry or a reset may
 run while a slot is half filled or half drained.

 `Next` takes one step, `Exec` a whole interleaving, and the theorems at the end
 hold after every interleaving.
 */
module MqProtocol {
  import opened Ipc
  import opened MessageQueue

  type Byte = bv8
  type Msg = seq<Byte>

  /** How far a thread is in its call. */
  datatype Pc =
    | Idle
    | Sending(msg: Msg, urgent: bool, timeout: int, woken: bool)
    | SendBlocked(msg: Msg, timeout: int)
    | Filling(msg: Msg, urgent: bool, node: nat)
    | Linking(msg: Msg, urgent: bool, node: nat)
    | Receiving(size: nat, timeout: int, woken: bool)
    | RecvBlocked(size: nat, timeout: int)
    | Draining(size: nat, node: nat, msg: Msg)
    | Returning(size: nat, node: nat, msg: Msg, got: Msg)

  predicate Holds(p: Pc, n: nat) {
    (p.Filling? || p.Linking? || p.Draining? || p.Returning?) && p.node == n
  }

  datatype State = State(msgSize: nat, q: Queue, data: seq<Msg>, pc: map<Tid, Pc>,
                         contents: seq<Msg>, log: seq<Event<Msg>>)

  datatype Action =
    | StartSend(t: Tid, msg: Msg, urgent: bool, timeout: int)
    | SendRegion(t: Tid, elapsed: nat, pos: nat)
    | Fill(t: Tid)
    | LinkRegion(t: Tid)
    | StartRecv(t: Tid, size: nat, timeout: int)
    | RecvRegion(t: Tid, elapsed: nat, pos: nat)
    | Drain(t: Tid)
    | ReleaseRegion(t: Tid)
    | Expire(t: Tid)
    | ResetAll

  function Min(a: nat, b: nat): nat { if a < b then a else b }

  /** rt_ipc_list_resume: the thread leaves its list and will test again. */
  function Wake(pc: map<Tid, Pc>, who: Option<Tid>): map<Tid, Pc> {
    if who.None? || who.value !in pc then pc
    else match pc[who.value]
      case RecvBlocked(size, timeout) => pc[who.value := Receiving(size, timeout, true)]
      case SendBlocked(msg, timeout) => pc[who.value := Sending(msg, false, timeout, true)]
      case _ => pc
  }

  /** One step; a step that is not enabled changes nothing. */
  function Next(s: State, a: Action): State {
    match a
    case StartSend(t, msg, urgent, timeout) =>
      if t in s.pc && s.pc[t].Idle? && |msg| <= s.msgSize
      then s.(pc := s.pc[t := Sending(msg, urgent, if urgent then 0 else timeout, false)]) else s
    case SendRegion(t, elapsed, pos) =>
      if t in s.pc && s.pc[t].Sending? && pos <= |s.q.senders| then NextSend(s, t, elapsed, pos) else s
    case Fill(t) =>
      if t in s.pc && s.pc[t].Filling? && s.pc[t].node < |s.data| &&
         |s.pc[t].msg| <= |s.data[s.pc[t].node]|
      then NextFill(s, t) else s
    case LinkRegion(t) =>
      if t in s.pc && s.pc[t].Linking? then NextLink(s, t) else s
    case StartRecv(t, size, timeout) =>
      if t in s.pc && s.pc[t].Idle? then s.(pc := s.pc[t := Receiving(size, timeout, false)]) else s
    case RecvRegion(t, elapsed, pos) =>
      if t in s.pc && s.pc[t].Receiving? && pos <= |s.q.receivers| && |s.q.queue| == |s.contents| == s.q.entry
      then NextRecv(s, t, elapsed, pos) else s
    case Drain(t) =>
      if t in s.pc && s.pc[t].Draining? && s.pc[t].node < |s.data| then NextDrain(s, t) else s
    case ReleaseRegion(t) =>
      if t in s.pc && s.pc[t].Returning? then NextRelease(s, t) else s
    case Expire(t) =>
      if t in s.pc && (s.pc[t].RecvBlocked? || s.pc[t].SendBlocked?) && s.pc[t].timeout > 0
      then NextExpire(s, t) else s
    case ResetAll => NextReset(s)
  }

  function NextSend(s: State, t: Tid, elapsed: nat, pos: nat): State
    requires t in s.pc && s.pc[t].Sending? && pos <= |s.q.senders|
  {
    var Sending(msg, urgent, timeout, woken) := s.pc[t];
    var left := Remaining(timeout, woken, elapsed);
    var (q, r) := s.q.SendTest(t, left, pos);
    s.(q := q, pc := s.pc[t := match r
                               case Refused => Idle
                               case Blocked => SendBlocked(msg, left)
                               case Got(n) => Filling(msg, urgent, n)])
  }

  /** The copy overwrites the front of the slot; the rest keeps what it held. */
  function NextFill(s: State, t: Tid): State
    requires t in s.pc && s.pc[t].Filling? && s.pc[t].node < |s.data|
    requires |s.pc[t].msg| <= |s.data[s.pc[t].node]|
  {
    var Filling(msg, urgent, n) := s.pc[t];
    s.(data := s.data[n := msg + s.data[n][|msg|..]], pc := s.pc[t := Linking(msg, urgent, n)])
  }

  function NextLink(s: State, t: Tid): State
    requires t in s.pc && s.pc[t].Linking?
  {
    var Linking(msg, urgent, n) := s.pc[t];
    s.(q := s.q.Link(n, urgent),
       pc := Wake(s.pc[t := Idle], First(s.q.receivers)),
       contents := if urgent then [msg] + s.contents else s.contents + [msg],
       log := s.log + [if urgent then Prepend(msg) else Append(msg)])
  }

  function NextRecv(s: State, t: Tid, elapsed: nat, pos: nat): State
    requires t in s.pc && s.pc[t].Receiving? && pos <= |s.q.receivers|
    requires |s.q.queue| == |s.contents| == s.q.entry
  {
    var Receiving(size, timeout, woken) := s.pc[t];
    var left := Remaining(timeout, woken, elapsed);
    var (q, r) := s.q.RecvTest(t, left, pos);
    match r
    case Refused => s.(q := q, pc := s.pc[t := Idle])
    case Blocked => s.(q := q, pc := s.pc[t := RecvBlocked(size, left)])
    case Got(n) =>
      s.(q := q, pc := s.pc[t := Draining(size, n, s.contents[0])],
         contents := s.contents[1..], log := s.log + [Pop(s.contents[0])])
  }

  function NextDrain(s: State, t: Tid): State
    requires t in s.pc && s.pc[t].Draining? && s.pc[t].node < |s.data|
  {
    var Draining(size, n, msg) := s.pc[t];
    s.(pc := s.pc[t := Returning(size, n, msg, s.data[n][..Min(Min(size, s.msgSize), |s.data[n]|)])])
  }

  function NextRelease(s: State, t: Tid): State
    requires t in s.pc && s.pc[t].Returning?
  {
    s.(q := s.q.Release(s.pc[t].node), pc := Wake(s.pc[t := Idle], First(s.q.senders)))
  }

  /** rt_thread_timeout of the thread's timer: it leaves its list and the call fails. */
  function NextExpire(s: State, t: Tid): State
    requires t in s.pc
  {
    s.(q := s.q.(receivers := Without(s.q.receivers, t), senders := Without(s.q.senders, t)),
       pc := s.pc[t := Idle])
  }

  function NextReset(s: State): State {
    s.(q := s.q.Reset(),
       pc := map t | t in s.pc :: if s.pc[t].RecvBlocked? || s.pc[t].SendBlocked? then Idle else s.pc[t],
       contents := [],
       log := s.log + [Clear])
  }

  function Exec(s: State, run: seq<Action>): State
    decreases |run|
  {
    if run == [] then s else Next(Exec(s, run[..|run| - 1]), run[|run| - 1])
  }

  ghost predicate Initial(s: State) {
    && s.q.max <= ENTRY_MAX
    && s.q == Queue(s.q.max, InitialFree(s.q.max), [], 0, [], [])
    && |s.data| == s.q.max && (forall n :: 0 <= n < |s.data| ==> |s.data[n]| == s.msgSize)
    && (forall t :: t in s.pc ==> s.pc[t] == Idle)
    && s.contents == [] && s.log == []
  }

  // ---- Invariants ----

  function Holders(pc: map<Tid, Pc>, n: nat): set<Tid> {
    set t | t in pc && Holds(pc[t], n)
  }

  function WokenReceivers(pc: map<Tid, Pc>): set<Tid> {
    set t | t in pc && pc[t].Receiving? && pc[t].woken
  }

  function WokenSenders(pc: map<Tid, Pc>): set<Tid> {
    set t | t in pc && pc[t].Sending? && pc[t].woken
  }

  /** In how many places slot n is: on the free list, in the queue, or with a thread. */
  ghost function Places(q: Queue, pc: map<Tid, Pc>, n: nat): nat {
    Listed(q, n) + |Holders(pc, n)|
  }

  ghost function Listed(q: Queue, n: nat): nat {
    multiset(q.free)[n] + multiset(q.queue)[n]
  }

  function HeldBy(p: Pc, n: nat): nat {
    if Holds(p, n) then 1 else 0
  }

  ghost predicate Conserved(q: Queue, pc: map<Tid, Pc>) {
    forall n: nat :: Places(q, pc, n) == if n < q.max then 1 else 0
  }

  function SleepingReceivers(pc: map<Tid, Pc>): set<Tid> {
    set t | t in pc && pc[t].RecvBlocked?
  }

  function SleepingSenders(pc: map<Tid, Pc>): set<Tid> {
    set t | t in pc && pc[t].SendBlocked?
  }

  /** Queued messages are the receivers' units, free slots the senders'. */
  ghost predicate BothFair(q: Queue, pc: map<Tid, Pc>) {
    && Fair(q.entry, q.receivers, SleepingReceivers(pc), WokenReceivers(pc))
    && Fair(|q.free|, q.senders, SleepingSenders(pc), WokenSenders(pc))
  }

  /** The counter, the message list and the log tell the same story. */
  ghost predicate Shape(s: State) {
    && s.q.max <= ENTRY_MAX && s.q.entry == |s.q.queue| == |s.contents|
    && |s.data| == s.q.max && (forall n :: 0 <= n < |s.data| ==> |s.data[n]| == s.msgSize)
    && Replay(s.log) == Some(s.contents)
  }

  ghost predicate Carries(slot: Msg, msg: Msg) {
    |msg| <= |slot| && slot[..|msg|] == msg
  }

  /** What the slot of a thread in the middle of a copy holds. */
  ghost predicate Intact(p: Pc, data: seq<Msg>, msgSize: nat) {
    match p
    case Sending(msg, _, _, _) => |msg| <= msgSize
    case SendBlocked(msg, _) => |msg| <= msgSize
    case Filling(msg, _, n) => |msg| <= msgSize
    case Linking(msg, _, n) => n < |data| && Carries(data[n], msg)
    case Draining(_, n, msg) => n < |data| && Carries(data[n], msg)
    case Returning(size, n, msg, got) =>
      |got| == Min(size, msgSize) && forall i :: 0 <= i < |got| && i < |msg| ==> got[i] == msg[i]
    case _ => true
  }

  ghost predicate AllIntact(pc: map<Tid, Pc>, data: seq<Msg>, msgSize: nat) {
    forall t :: t in pc ==> Intact(pc[t], data, msgSize)
  }

  ghost predicate PayloadsIntact(s: State) {
    && (forall i :: 0 <= i < |s.q.queue| && i < |s.contents| ==>
          s.q.queue[i] < |s.data| && Carries(s.data[s.q.queue[i]], s.contents[i]))
    && AllIntact(s.pc, s.data, s.msgSize)
  }

  ghost predicate Inv(s: State) {
    Shape(s) && Conserved(s.q, s.pc) && BothFair(s.q, s.pc) && PayloadsIntact(s)
  }

  // ---- Book-keeping lemmas ----

  lemma HoldersStep(pc: map<Tid, Pc>, t: Tid, p: Pc, n: nat)
    requires t in pc
    ensures Holders(pc[t := p], n) == if Holds(p, n) then Holders(pc, n) + {t} else Holders(pc, n) - {t}
    ensures t in Holders(pc, n) <==> Holds(pc[t], n)
  {
  }

  lemma HoldersCount(pc: map<Tid, Pc>, t: Tid, p: Pc, n: nat)
    requires t in pc
    ensures |Holders(pc[t := p], n)| ==
            |Holders(pc, n)| - HeldBy(pc[t], n) + HeldBy(p, n)
  {
    HoldersStep(pc, t, p, n);
    var h := Holders(pc, n);
    if Holds(p, n) && t in h { assert h + {t} == h; }
    if !Holds(p, n) && t !in h { assert h - {t} == h; }
  }

  /** How the four sets of threads change when one thread moves. */
  lemma PcStep(pc: map<Tid, Pc>, t: Tid, p: Pc)
    requires t in pc
    ensures SleepingReceivers(pc[t := p]) ==
            if p.RecvBlocked? then SleepingReceivers(pc) + {t} else SleepingReceivers(pc) - {t}
    ensures SleepingSenders(pc[t := p]) ==
            if p.SendBlocked? then SleepingSenders(pc) + {t} else SleepingSenders(pc) - {t}
    ensures WokenReceivers(pc[t := p]) ==
            if p.Receiving? && p.woken then WokenReceivers(pc) + {t} else WokenReceivers(pc) - {t}
    ensures WokenSenders(pc[t := p]) ==
            if p.Sending? && p.woken then WokenSenders(pc) + {t} else WokenSenders(pc) - {t}
    ensures !pc[t].RecvBlocked? && !p.RecvBlocked? ==> SleepingReceivers(pc[t := p]) == SleepingReceivers(pc)
    ensures !pc[t].SendBlocked? && !p.SendBlocked? ==> SleepingSenders(pc[t := p]) == SleepingSenders(pc)
    ensures !(pc[t].Receiving? && pc[t].woken) && !(p.Receiving? && p.woken) ==>
              WokenReceivers(pc[t := p]) == WokenReceivers(pc)
    ensures !(pc[t].Sending? && pc[t].woken) && !(p.Sending? && p.woken) ==>
              WokenSenders(pc[t := p]) == WokenSenders(pc)
  {
  }

  /** Conserved slots give the object its well-formedness, and holders exclusive slots. */
  lemma ConservedApart(q: Queue, pc: map<Tid, Pc>)
    requires Conserved(q, pc)
    ensures q.Apart()
    ensures forall t, n :: t in pc && Holds(pc[t], n) ==> q.Held(n)
    ensures forall t, u, n :: t in pc && u in pc && Holds(pc[t], n) && Holds(pc[u], n) ==> t == u
  {
    forall n: nat
      ensures multiset(q.free)[n] + multiset(q.queue)[n] + |Holders(pc, n)| <= 1
      ensures n >= q.max ==> multiset(q.free)[n] + multiset(q.queue)[n] + |Holders(pc, n)| == 0
    {
      assert Places(q, pc, n) == if n < q.max then 1 else 0;
    }
    forall n | n in q.free ensures n < q.max && n !in q.queue { assert n in multiset(q.free); }
    forall n | n in q.queue ensures n < q.max { assert n in multiset(q.queue); }
    CountsDistinct(q.free);
    CountsDistinct(q.queue);
    forall t, n | t in pc && Holds(pc[t], n) ensures q.Held(n) {
      assert t in Holders(pc, n);
    }
    forall t, u, n | t in pc && u in pc && Holds(pc[t], n) && Holds(pc[u], n) ensures t == u {
      assert t in Holders(pc, n) && u in Holders(pc, n);
      if t != u { SubsetCount({t, u}, Holders(pc, n)); }
    }
  }

  lemma {:induction false} SubsetCount(a: set<Tid>, b: set<Tid>)
    requires a <= b
    ensures |a| <= |b|
  {
    if a != {} {
      var x :| x in a;
      SubsetCount(a - {x}, b - {x});
    }
  }

  lemma CountsDistinct(s: seq<nat>)
    requires forall n: nat :: multiset(s)[n] <= 1
    ensures Distinct(s)
  {
    forall i, j | 0 <= i < j < |s| ensures s[i] != s[j] {
      assert s == s[..i] + [s[i]] + s[i + 1..j] + [s[j]] + s[j + 1..];
      assert multiset(s)[s[i]] <= 1;
    }
  }

  lemma HeadTail<T>(s: seq<T>)
    requires s != []
    ensures s == [s[0]] + s[1..]
    ensures multiset(s) == multiset{s[0]} + multiset(s[1..])
  {
    assert s == [s[0]] + s[1..];
  }

  // ---- Every step keeps each part of the invariant ----

  /** A thread that hands slots between itself and the lists conserves them. */
  lemma HandOver(q: Queue, q': Queue, pc: map<Tid, Pc>, t: Tid, p: Pc)
    requires Conserved(q, pc) && t in pc && q'.max == q.max
    requires forall n: nat :: Listed(q', n) + HeldBy(p, n) == Listed(q, n) + HeldBy(pc[t], n)
    ensures Conserved(q', pc[t := p])
  {
    var pc' := pc[t := p];
    forall n: nat ensures Places(q', pc', n) == if n < q'.max then 1 else 0 {
      HoldersCount(pc, t, p, n);
      assert Places(q, pc, n) == if n < q.max then 1 else 0;
      assert Listed(q', n) + HeldBy(p, n) == Listed(q, n) + HeldBy(pc[t], n);
    }
  }

  /** Waking a sleeper moves no slot. */
  lemma WakeConserves(q: Queue, pc: map<Tid, Pc>, who: Option<Tid>)
    requires Conserved(q, pc)
    ensures Conserved(q, Wake(pc, who))
  {
    if who.Some? && who.value in pc { HandOver(q, q, pc, who.value, Wake(pc, who)[who.value]); }
  }

  lemma ResetConserves(s: State)
    requires Conserved(s.q, s.pc)
    ensures Conserved(NextReset(s).q, NextReset(s).pc)
  {
    var s' := NextReset(s);
    ReverseCounts(s.q.queue);
    forall n: nat ensures Places(s'.q, s'.pc, n) == if n < s'.q.max then 1 else 0 {
      assert Holders(s'.pc, n) == Holders(s.pc, n);
      assert Places(s.q, s.pc, n) == if n < s.q.max then 1 else 0;
    }
  }

  lemma {:induction false} ReverseCounts(s: seq<nat>)
    ensures multiset(Reverse(s)) == multiset(s)
  {
    if s == [] {
    } else {
      ReverseCounts(s[1..]);
      HeadTail(s);
    }
  }

  lemma SendConserves(s: State, t: Tid, elapsed: nat, pos: nat)
    requires Conserved(s.q, s.pc) && t in s.pc && s.pc[t].Sending? && pos <= |s.q.senders|
    ensures Conserved(NextSend(s, t, elapsed, pos).q, NextSend(s, t, elapsed, pos).pc)
  {
    var s' := NextSend(s, t, elapsed, pos);
    if s.q.free != [] { HeadTail(s.q.free); }
    HandOver(s.q, s'.q, s.pc, t, s'.pc[t]);
  }

  lemma RecvConserves(s: State, t: Tid, elapsed: nat, pos: nat)
    requires Conserved(s.q, s.pc) && t in s.pc && s.pc[t].Receiving? && pos <= |s.q.receivers|
    requires |s.q.queue| == |s.contents| == s.q.entry
    ensures Conserved(NextRecv(s, t, elapsed, pos).q, NextRecv(s, t, elapsed, pos).pc)
  {
    var s' := NextRecv(s, t, elapsed, pos);
    if s.q.queue != [] { HeadTail(s.q.queue); }
    HandOver(s.q, s'.q, s.pc, t, s'.pc[t]);
  }

  lemma LinkConserves(s: State, t: Tid)
    requires Conserved(s.q, s.pc) && t in s.pc && s.pc[t].Linking?
    ensures Conserved(NextLink(s, t).q, NextLink(s, t).pc)
  {
    var q' := NextLink(s, t).q;
    HandOver(s.q, q', s.pc, t, Idle);
    WakeConserves(q', s.pc[t := Idle], First(s.q.receivers));
  }

  lemma ReleaseConserves(s: State, t: Tid)
    requires Conserved(s.q, s.pc) && t in s.pc && s.pc[t].Returning?
    ensures Conserved(NextRelease(s, t).q, NextRelease(s, t).pc)
  {
    var q' := NextRelease(s, t).q;
    HandOver(s.q, q', s.pc, t, Idle);
    WakeConserves(q', s.pc[t := Idle], First(s.q.senders));
  }

  lemma ConservedNext(s: State, a: Action)
    requires Conserved(s.q, s.pc)
    ensures Conserved(Next(s, a).q, Next(s, a).pc)
  {
    var s' := Next(s, a);
    if s' != s {
      match a
      case LinkRegion(t) => LinkConserves(s, t);
      case ReleaseRegion(t) => ReleaseConserves(s, t);
      case SendRegion(t, elapsed, pos) => SendConserves(s, t, elapsed, pos);
      case RecvRegion(t, elapsed, pos) => RecvConserves(s, t, elapsed, pos);
      case ResetAll => ResetConserves(s);
      case _ => HandOver(s.q, s'.q, s.pc, a.t, s'.pc[a.t]);
    }
  }

  /** Neither asleep nor on the way to a unit. */
  predicate Bystander(p: Pc) {
    !p.RecvBlocked? && !p.SendBlocked? && !(p.Receiving? && p.woken) && !(p.Sending? && p.woken)
  }

  lemma BystanderFair(q: Queue, pc: map<Tid, Pc>, t: Tid, p: Pc)
    requires BothFair(q, pc) && t in pc && Bystander(pc[t]) && Bystander(p)
    ensures BothFair(q, pc[t := p])
  {
    PcStep(pc, t, p);
  }

  /** A message becomes available and the first receiver is woken. */
  lemma MessageArrives(q: Queue, q': Queue, pc: map<Tid, Pc>)
    requires BothFair(q, pc) && q'.entry == q.entry + 1 && |q'.free| == |q.free|
    requires q'.receivers == Rest(q.receivers) && q'.senders == q.senders
    ensures BothFair(q', Wake(pc, First(q.receivers)))
  {
    hide Fair;
    GiveFair(q.entry, q.receivers, SleepingReceivers(pc), WokenReceivers(pc));
    if q.receivers != [] {
      var w := q.receivers[0];
      PcStep(pc, w, Receiving(pc[w].size, pc[w].timeout, true));
    }
  }

  /** A slot becomes free and the first sender is woken. */
  lemma SlotArrives(q: Queue, q': Queue, pc: map<Tid, Pc>)
    requires BothFair(q, pc) && q'.entry == q.entry && |q'.free| == |q.free| + 1
    requires q'.senders == Rest(q.senders) && q'.receivers == q.receivers
    ensures BothFair(q', Wake(pc, First(q.senders)))
  {
    hide Fair;
    GiveFair(|q.free|, q.senders, SleepingSenders(pc), WokenSenders(pc));
    if q.senders != [] {
      var w := q.senders[0];
      PcStep(pc, w, Sending(pc[w].msg, false, pc[w].timeout, true));
    }
  }

  /** A sender at its test takes a slot or gives up. */
  lemma SenderLeaves(q: Queue, q': Queue, pc: map<Tid, Pc>, t: Tid, p: Pc)
    requires BothFair(q, pc) && t in pc && pc[t].Sending? && (p.Idle? || p.Filling?)
    requires q'.entry == q.entry && q'.receivers == q.receivers && q'.senders == q.senders
    requires |q'.free| == if q.free == [] then 0 else |q.free| - 1
    ensures BothFair(q', pc[t := p])
  {
    hide Fair;
    PcStep(pc, t, p);
    TakeFair(|q.free|, q.senders, SleepingSenders(pc), WokenSenders(pc), t);
  }

  lemma SenderSleeps(q: Queue, pc: map<Tid, Pc>, t: Tid, p: Pc, k: nat)
    requires BothFair(q, pc) && t in pc && pc[t].Sending? && p.SendBlocked? && q.free == [] && k <= |q.senders|
    ensures BothFair(q.(senders := Insert(q.senders, k, t)), pc[t := p])
  {
    hide Fair;
    PcStep(pc, t, p);
    SleepFair(q.senders, SleepingSenders(pc), WokenSenders(pc), t, k);
  }

  lemma SendFair(s: State, t: Tid, elapsed: nat, pos: nat)
    requires BothFair(s.q, s.pc) && t in s.pc && s.pc[t].Sending? && pos <= |s.q.senders|
    ensures BothFair(NextSend(s, t, elapsed, pos).q, NextSend(s, t, elapsed, pos).pc)
  {
    hide BothFair;
    var s' := NextSend(s, t, elapsed, pos);
    if s'.pc[t].SendBlocked? {
      SenderSleeps(s.q, s.pc, t, s'.pc[t], pos);
    } else {
      SenderLeaves(s.q, s'.q, s.pc, t, s'.pc[t]);
    }
  }

  /** A receiver at its test unlinks a message or gives up. */
  lemma ReceiverLeaves(q: Queue, q': Queue, pc: map<Tid, Pc>, t: Tid, p: Pc)
    requires BothFair(q, pc) && t in pc && pc[t].Receiving? && (p.Idle? || p.Draining?)
    requires q'.free == q.free && q'.receivers == q.receivers && q'.senders == q.senders
    requires q'.entry == if q.entry == 0 then 0 else q.entry - 1
    ensures BothFair(q', pc[t := p])
  {
    hide Fair;
    PcStep(pc, t, p);
    TakeFair(q.entry, q.receivers, SleepingReceivers(pc), WokenReceivers(pc), t);
  }

  lemma ReceiverSleeps(q: Queue, pc: map<Tid, Pc>, t: Tid, p: Pc, k: nat)
    requires BothFair(q, pc) && t in pc && pc[t].Receiving? && p.RecvBlocked? && q.entry == 0 && k <= |q.receivers|
    ensures BothFair(q.(receivers := Insert(q.receivers, k, t)), pc[t := p])
  {
    hide Fair;
    PcStep(pc, t, p);
    SleepFair(q.receivers, SleepingReceivers(pc), WokenReceivers(pc), t, k);
  }

  lemma RecvFair(s: State, t: Tid, elapsed: nat, pos: nat)
    requires BothFair(s.q, s.pc) && t in s.pc && s.pc[t].Receiving? && pos <= |s.q.receivers|
    requires |s.q.queue| == |s.contents| == s.q.entry
    ensures BothFair(NextRecv(s, t, elapsed, pos).q, NextRecv(s, t, elapsed, pos).pc)
  {
    hide BothFair;
    var s' := NextRecv(s, t, elapsed, pos);
    if s'.pc[t].RecvBlocked? {
      ReceiverSleeps(s.q, s.pc, t, s'.pc[t], pos);
    } else {
      ReceiverLeaves(s.q, s'.q, s.pc, t, s'.pc[t]);
    }
  }

  lemma ExpireFairly(s: State, t: Tid)
    requires BothFair(s.q, s.pc) && t in s.pc && (s.pc[t].RecvBlocked? || s.pc[t].SendBlocked?)
    ensures BothFair(NextExpire(s, t).q, NextExpire(s, t).pc)
  {
    PcStep(s.pc, t, Idle);
    ExpireFair(s.q.entry, s.q.receivers, SleepingReceivers(s.pc), WokenReceivers(s.pc), t);
    ExpireFair(|s.q.free|, s.q.senders, SleepingSenders(s.pc), WokenSenders(s.pc), t);
  }

  lemma FairNext(s: State, a: Action)
    requires BothFair(s.q, s.pc)
    ensures BothFair(Next(s, a).q, Next(s, a).pc)
  {
    var s' := Next(s, a);
    if s' != s {
      match a
      case SendRegion(t, elapsed, pos) => SendFair(s, t, elapsed, pos);
      case RecvRegion(t, elapsed, pos) => RecvFair(s, t, elapsed, pos);
      case Expire(t) => ExpireFairly(s, t);
      case LinkRegion(t) =>
        BystanderFair(s.q, s.pc, t, Idle);
        MessageArrives(s.q, s'.q, s.pc[t := Idle]);
      case ReleaseRegion(t) =>
        BystanderFair(s.q, s.pc, t, Idle);
        SlotArrives(s.q, s'.q, s.pc[t := Idle]);
      case ResetAll =>
        assert SleepingReceivers(s'.pc) == {} && SleepingSenders(s'.pc) == {};
      case _ =>
        BystanderFair(s.q, s.pc, a.t, s'.pc[a.t]);
    }
  }

  lemma ShapeNext(s: State, a: Action)
    requires Shape(s)
    ensures Shape(Next(s, a))
  {
    hide Replay;
    var s' := Next(s, a);
    if |s'.log| > |s.log| { ReplayStep(s.log, s'.log[|s.log|]); }
  }

  /** Filling a slot disturbs no other thread's copy and no queued message. */
  lemma FillIntact(s: State, t: Tid)
    requires Shape(s) && Conserved(s.q, s.pc) && PayloadsIntact(s) && t in s.pc && s.pc[t].Filling?
    requires s.pc[t].node < |s.data| && |s.pc[t].msg| <= |s.data[s.pc[t].node]|
    ensures PayloadsIntact(NextFill(s, t))
  {
    var s' := NextFill(s, t);
    var n := s.pc[t].node;
    ConservedApart(s.q, s.pc);
    assert Holds(s.pc[t], n) && s.q.Held(n);
    forall i | 0 <= i < |s.q.queue| ensures Carries(s'.data[s.q.queue[i]], s.contents[i]) {
      assert s.q.queue[i] in s.q.queue;
      assert s.data[s.q.queue[i]] == s'.data[s.q.queue[i]];
    }
    forall u | u in s'.pc ensures Intact(s'.pc[u], s'.data, s.msgSize) {
      if u != t { assert !Holds(s.pc[u], n); }
    }
  }

  lemma DrainIntact(s: State, t: Tid)
    requires Shape(s) && PayloadsIntact(s) && t in s.pc && s.pc[t].Draining? && s.pc[t].node < |s.data|
    ensures Intact(NextDrain(s, t).pc[t], s.data, s.msgSize)
  {
    var slot := s.data[s.pc[t].node];
    var msg := s.pc[t].msg;
    assert Intact(s.pc[t], s.data, s.msgSize);
    assert forall i :: 0 <= i < |msg| ==> slot[i] == slot[..|msg|][i];
  }

  /** When the slots keep their bytes, a thread may move to a state that is intact. */
  lemma MoveIntact(pc: map<Tid, Pc>, t: Tid, p: Pc, data: seq<Msg>, msgSize: nat)
    requires AllIntact(pc, data, msgSize) && t in pc && Intact(p, data, msgSize)
    ensures AllIntact(pc[t := p], data, msgSize)
  {
  }

  lemma WakeIntact(pc: map<Tid, Pc>, who: Option<Tid>, data: seq<Msg>, msgSize: nat)
    requires AllIntact(pc, data, msgSize)
    ensures AllIntact(Wake(pc, who), data, msgSize)
  {
    if who.Some? && who.value in pc {
      assert Intact(pc[who.value], data, msgSize);
      MoveIntact(pc, who.value, Wake(pc, who)[who.value], data, msgSize);
    }
  }

  lemma LinkIntact(s: State, t: Tid)
    requires Shape(s) && PayloadsIntact(s) && t in s.pc && s.pc[t].Linking?
    ensures PayloadsIntact(NextLink(s, t))
  {
    assert Intact(s.pc[t], s.data, s.msgSize);
    MoveIntact(s.pc, t, Idle, s.data, s.msgSize);
    WakeIntact(s.pc[t := Idle], First(s.q.receivers), s.data, s.msgSize);
  }

  lemma PayloadNext(s: State, a: Action)
    requires Shape(s) && Conserved(s.q, s.pc) && PayloadsIntact(s)
    ensures PayloadsIntact(Next(s, a))
  {
    var s' := Next(s, a);
    if s' != s {
      match a
      case Fill(t) => FillIntact(s, t);
      case LinkRegion(t) => LinkIntact(s, t);
      case ReleaseRegion(t) =>
        MoveIntact(s.pc, t, Idle, s.data, s.msgSize);
        WakeIntact(s.pc[t := Idle], First(s.q.senders), s.data, s.msgSize);
      case ResetAll =>
      case Drain(t) =>
        DrainIntact(s, t);
        MoveIntact(s.pc, t, s'.pc[t], s.data, s.msgSize);
      case _ =>
        assert Intact(s.pc[a.t], s.data, s.msgSize);
        MoveIntact(s.pc, a.t, s'.pc[a.t], s.data, s.msgSize);
    }
  }

  lemma InitialInv(s: State)
    requires Initial(s)
    ensures Inv(s)
  {
    InitialFreeAll(s.q.max);
    assert SleepingReceivers(s.pc) == {} && SleepingSenders(s.pc) == {};
    forall n: nat ensures Places(s.q, s.pc, n) == if n < s.q.max then 1 else 0 {
      assert Holders(s.pc, n) == {};
      InitialFreeCount(s.q.max, n);
    }
  }

  lemma {:induction false} InitialFreeCount(max: nat, n: nat)
    ensures multiset(InitialFree(max))[n] == if n < max then 1 else 0
  {
    if max == 0 {
    } else {
      InitialFreeCount(max - 1, n);
    }
  }

  // ---- Theorems over every interleaving ----

  /** Every interleaving of calls, expiries and resets keeps all the invariants. */
  lemma {:induction false} ReachableInv(s: State, run: seq<Action>)
    requires Initial(s)
    ensures Inv(Exec(s, run))
    decreases |run|
  {
    if run == [] {
      InitialInv(s);
    } else {
      var before, a := Exec(s, run[..|run| - 1]), run[|run| - 1];
      ReachableInv(s, run[..|run| - 1]);
      ShapeNext(before, a);
      ConservedNext(before, a);
      FairNext(before, a);
      PayloadNext(before, a);
    }
  }

  /** No wake-up is lost: while receivers sleep, every queued message already has a
      woken receiver that has yet to test, and likewise for senders and free slots. */
  lemma NoWakeUpLost(s: State, run: seq<Action>)
    requires Initial(s)
    ensures var r := Exec(s, run);
            (r.q.receivers != [] ==> r.q.entry <= |WokenReceivers(r.pc)|) &&
            (r.q.senders != [] ==> |r.q.free| <= |WokenSenders(r.pc)|)
  {
    ReachableInv(s, run);
  }

  /** Each pool slot is in exactly one place, entry counts the queue, and a slot in
      flight belongs to one thread only. */
  lemma SlotsConserved(s: State, run: seq<Action>)
    requires Initial(s)
    ensures var r := Exec(s, run);
            && r.q.WellFormed()
            && (forall n: nat :: n < r.q.max <==> (n in r.q.free || n in r.q.queue || Holders(r.pc, n) != {}))
            && (forall t, n :: t in r.pc && Holds(r.pc[t], n) ==> r.q.Held(n))
            && (forall t, u, n :: t in r.pc && u in r.pc && Holds(r.pc[t], n) && Holds(r.pc[u], n) ==> t == u)
  {
    ReachableInv(s, run);
    var r := Exec(s, run);
    ConservedApart(r.q, r.pc);
    forall n: nat
      ensures n < r.q.max <==> (n in r.q.free || n in r.q.queue || Holders(r.pc, n) != {})
    {
      assert Places(r.q, r.pc, n) == if n < r.q.max then 1 else 0;
      assert n in r.q.free <==> n in multiset(r.q.free);
      assert n in r.q.queue <==> n in multiset(r.q.queue);
    }
  }

  /** The object behaves as one double-ended queue: replaying the linked and unlinked
      messages in order gives the contents, and a receiver that has copied its message
      out holds the bytes of the message it unlinked. */
  lemma ActsAsDeque(s: State, run: seq<Action>)
    requires Initial(s)
    ensures var r := Exec(s, run);
            && Replay(r.log) == Some(r.contents) && r.q.entry == |r.contents|
            && (forall t :: t in r.pc && r.pc[t].Returning? ==>
                  |r.pc[t].got| == Min(r.pc[t].size, r.msgSize) &&
                  forall i :: 0 <= i < |r.pc[t].got| && i < |r.pc[t].msg| ==> r.pc[t].got[i] == r.pc[t].msg[i])
  {
    ReachableInv(s, run);
    var r := Exec(s, run);
    forall t | t in r.pc && r.pc[t].Returning?
      ensures |r.pc[t].got| == Min(r.pc[t].size, r.msgSize)
      ensures forall i :: 0 <= i < |r.pc[t].got| && i < |r.pc[t].msg| ==> r.pc[t].got[i] == r.pc[t].msg[i]
    {
      assert Intact(r.pc[t], r.data, r.msgSize);
    }
  }

  /** The queue cannot deadlock: when no thread is inside a call except asleep, the two
      waiting lists are not both occupied, sleeping receivers mean an empty queue with
      every slot free, and sleeping senders mean a full one. */
  lemma NoDeadlock(s: State, run: seq<Action>)
    requires Initial(s) && s.q.max > 0
    requires var r := Exec(s, run);
             forall t :: t in r.pc ==> r.pc[t].Idle? || r.pc[t].RecvBlocked? || r.pc[t].SendBlocked?
    ensures var r := Exec(s, run);
            && (r.q.receivers == [] || r.q.senders == [])
            && (r.q.receivers != [] ==> r.q.queue == [] && forall n: nat :: n < s.q.max ==> n in r.q.free)
            && (r.q.senders != [] ==> r.q.free == [] && forall n: nat :: n < s.q.max ==> n in r.q.queue)
  {
    ReachableInv(s, run);
    SlotsConserved(s, run);
    SameMax(s, run);
    var r := Exec(s, run);
    assert WokenReceivers(r.pc) == {} && WokenSenders(r.pc) == {};
    assert forall n: nat :: Holders(r.pc, n) == {};
    assert 0 in r.q.free || 0 in r.q.queue;
  }

  lemma {:induction false} SameMax(s: State, run: seq<Action>)
    ensures Exec(s, run).q.max == s.q.max
    decreases |run|
  {
    if run == [] {
    } else {
      SameMax(s, run[..|run| - 1]);
    }
  }
}
