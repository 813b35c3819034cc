/**
 Threads sharing one mailbox, one critical region per step. A woken thread has to
 test again, and any other thread may get there first.
 */
module MailboxProtocol {
  import opened Ipc
  import opened Mailbox

  datatype Pc =
    | Idle
    | Sending(mail: int, timeout: int, woken: bool)
    | SendBlocked(mail: int, timeout: int)
    | Receiving(timeout: int, woken: bool)
    | RecvBlocked(timeout: int)

  datatype State = State(box: Box, pc: map<Tid, Pc>, log: seq<Event<int>>)

  datatype Action =
    | StartSend(t: Tid, mail: int, timeout: int)
    | SendRegion(t: Tid, elapsed: nat, pos: nat)
    | UrgentRegion(t: Tid, mail: int)
    | StartRecv(t: Tid, timeout: int)
    | RecvRegion(t: Tid, elapsed: nat, pos: nat)
    | Expire(t: Tid)
    | ResetAll

  function Wake(pc: map<Tid, Pc>, who: Option<Tid>): map<Tid, Pc> {
    if who.None? || who.value !in pc then pc
    else match pc[who.value]
      case RecvBlocked(timeout) => pc[who.value := Receiving(timeout, true)]
      case SendBlocked(mail, timeout) => pc[who.value := Sending(mail, timeout, true)]
      case _ => pc
  }

  /** One step; a step that is not enabled changes nothing. */
  function Next(s: State, a: Action): State {
    match a
    case StartSend(t, mail, timeout) =>
      if t in s.pc && s.pc[t].Idle? then s.(pc := s.pc[t := Sending(mail, timeout, false)]) else s
    case SendRegion(t, elapsed, pos) =>
      if t in s.pc && s.pc[t].Sending? && pos <= |s.box.senders| then NextSend(s, t, elapsed, pos) else s
    case UrgentRegion(t, mail) =>
      if t in s.pc && s.pc[t].Idle? then NextUrgent(s, mail) else s
    case StartRecv(t, timeout) =>
      if t in s.pc && s.pc[t].Idle? then s.(pc := s.pc[t := Receiving(timeout, false)]) else s
    case RecvRegion(t, elapsed, pos) =>
      if t in s.pc && s.pc[t].Receiving? && pos <= |s.box.receivers| then NextRecv(s, t, elapsed, pos) else s
    case Expire(t) =>
      if t in s.pc && (s.pc[t].RecvBlocked? || s.pc[t].SendBlocked?) && s.pc[t].timeout > 0
      then NextExpire(s, t) else s
    case ResetAll => NextReset(s)
  }

  function NextSend(s: State, t: Tid, elapsed: nat, pos: nat): State
    requires t in s.pc && s.pc[t].Sending? && pos <= |s.box.senders|
  {
    var Sending(mail, timeout, woken) := s.pc[t];
    var left := Remaining(timeout, woken, elapsed);
    var (box, r) := s.box.Send(t, mail, left, pos);
    match r
    case Sent => State(box, Wake(s.pc[t := Idle], First(s.box.receivers)), s.log + [Append(mail)])
    case Blocked => s.(box := box, pc := s.pc[t := SendBlocked(mail, left)])
    case _ => s.(pc := s.pc[t := Idle])
  }

  function NextUrgent(s: State, mail: int): State {
    var (box, r) := s.box.Urgent(mail);
    if r.Sent? then State(box, Wake(s.pc, First(s.box.receivers)), s.log + [Prepend(mail)]) else s
  }

  function NextRecv(s: State, t: Tid, elapsed: nat, pos: nat): State
    requires t in s.pc && s.pc[t].Receiving? && pos <= |s.box.receivers|
  {
    var Receiving(timeout, woken) := s.pc[t];
    var left := Remaining(timeout, woken, elapsed);
    var (box, r) := s.box.Recv(t, left, pos);
    match r
    case Received(mail) => State(box, Wake(s.pc[t := Idle], First(s.box.senders)), s.log + [Pop(mail)])
    case Blocked => s.(box := box, pc := s.pc[t := RecvBlocked(left)])
    case _ => s.(pc := s.pc[t := Idle])
  }

  function NextExpire(s: State, t: Tid): State
    requires t in s.pc
  {
    s.(box := s.box.(receivers := Without(s.box.receivers, t), senders := Without(s.box.senders, t)),
       pc := s.pc[t := Idle])
  }

  function NextReset(s: State): State {
    State(s.box.Reset(),
          map t | t in s.pc :: if s.pc[t].RecvBlocked? || s.pc[t].SendBlocked? then Idle else s.pc[t],
          s.log + [Clear])
  }

  function Exec(s: State, run: seq<Action>): State
    decreases |run|
  {
    if run == [] then s else Next(Exec(s, run[..|run| - 1]), run[|run| - 1])
  }

  ghost predicate Initial(s: State) {
    && s.box == Box(s.box.size, [], [], []) && s.log == []
    && (forall t :: t in s.pc ==> s.pc[t] == Idle)
  }

  function WokenReceivers(pc: map<Tid, Pc>): set<Tid> {
    set t | t in pc && pc[t].Receiving? && pc[t].woken
  }

  function WokenSenders(pc: map<Tid, Pc>): set<Tid> {
    set t | t in pc && pc[t].Sending? && pc[t].woken
  }

  function SleepingReceivers(pc: map<Tid, Pc>): set<Tid> {
    set t | t in pc && pc[t].RecvBlocked?
  }

  function SleepingSenders(pc: map<Tid, Pc>): set<Tid> {
    set t | t in pc && pc[t].SendBlocked?
  }

  /** Mails are the receivers' units, free slots the senders'. */
  ghost predicate BothFair(box: Box, pc: map<Tid, Pc>) {
    && |box.mails| <= box.size
    && Fair(|box.mails|, box.receivers, SleepingReceivers(pc), WokenReceivers(pc))
    && Fair(box.size - |box.mails|, box.senders, SleepingSenders(pc), WokenSenders(pc))
  }

  ghost predicate Inv(s: State) {
    BothFair(s.box, s.pc) && Replay(s.log) == Some(s.box.mails)
  }

  /** How the four sets of threads change when one thread moves. */
  lemma PcStep(pc: map<Tid, Pc>, t: Tid, p: Pc)
    requires t in pc
    ensures SleepingReceivers(pc[t := p]) ==
            if p.RecvBlocked? then SleepingReceivers(pc) + {t} else SleepingReceivers(pc) - {t}
    ensures SleepingSenders(pc[t := p]) ==
            if p.SendBlocked? then SleepingSenders(pc) + {t} else SleepingSenders(pc) - {t}
    ensures WokenReceivers(pc[t := p]) ==
            if p.Receiving? && p.woken then WokenReceivers(pc) + {t} else WokenReceivers(pc) - {t}
    ensures WokenSenders(pc[t := p]) ==
            if p.Sending? && p.woken then WokenSenders(pc) + {t} else WokenSenders(pc) - {t}
    ensures !pc[t].RecvBlocked? && !p.RecvBlocked? ==> SleepingReceivers(pc[t := p]) == SleepingReceivers(pc)
    ensures !pc[t].SendBlocked? && !p.SendBlocked? ==> SleepingSenders(pc[t := p]) == SleepingSenders(pc)
    ensures !(pc[t].Receiving? && pc[t].woken) && !(p.Receiving? && p.woken) ==>
              WokenReceivers(pc[t := p]) == WokenReceivers(pc)
    ensures !(pc[t].Sending? && pc[t].woken) && !(p.Sending? && p.woken) ==>
              WokenSenders(pc[t := p]) == WokenSenders(pc)
  {
  }

  /** Neither asleep nor on the way to a unit. */
  predicate Bystander(p: Pc) {
    !p.RecvBlocked? && !p.SendBlocked? && !(p.Receiving? && p.woken) && !(p.Sending? && p.woken)
  }

  lemma BystanderFair(box: Box, pc: map<Tid, Pc>, t: Tid, p: Pc)
    requires BothFair(box, pc) && t in pc && Bystander(pc[t]) && Bystander(p)
    ensures BothFair(box, pc[t := p])
  {
    PcStep(pc, t, p);
  }

  /** A new mail and the wake-up of the first receiver. */
  lemma MailArrives(box: Box, box': Box, pc: map<Tid, Pc>)
    requires |box.mails| < box.size && |box'.mails| == |box.mails| + 1 && box'.size == box.size
    requires Fair(|box.mails|, box.receivers, SleepingReceivers(pc), WokenReceivers(pc))
    requires Fair(box.size - |box.mails| - 1, box.senders, SleepingSenders(pc), WokenSenders(pc))
    requires box'.receivers == Rest(box.receivers) && box'.senders == box.senders
    ensures BothFair(box', Wake(pc, First(box.receivers)))
  {
    hide Fair;
    GiveFair(|box.mails|, box.receivers, SleepingReceivers(pc), WokenReceivers(pc));
    if box.receivers != [] {
      var w := box.receivers[0];
      PcStep(pc, w, Receiving(pc[w].timeout, true));
    }
  }

  /** A slot becomes free and the first sender is woken. */
  lemma MailLeaves(box: Box, box': Box, pc: map<Tid, Pc>)
    requires 0 < |box.mails| <= box.size && |box'.mails| == |box.mails| - 1 && box'.size == box.size
    requires Fair(|box.mails| - 1, box.receivers, SleepingReceivers(pc), WokenReceivers(pc))
    requires Fair(box.size - |box.mails|, box.senders, SleepingSenders(pc), WokenSenders(pc))
    requires box'.senders == Rest(box.senders) && box'.receivers == box.receivers
    ensures BothFair(box', Wake(pc, First(box.senders)))
  {
    hide Fair;
    GiveFair(box.size - |box.mails|, box.senders, SleepingSenders(pc), WokenSenders(pc));
    if box.senders != [] {
      var w := box.senders[0];
      PcStep(pc, w, Sending(pc[w].mail, pc[w].timeout, true));
    }
  }

  /** A sender at its test takes a slot or gives up. */
  lemma SenderLeaves(box: Box, pc: map<Tid, Pc>, t: Tid)
    requires BothFair(box, pc) && t in pc && pc[t].Sending?
    ensures Fair(|box.mails|, box.receivers, SleepingReceivers(pc[t := Idle]), WokenReceivers(pc[t := Idle]))
    ensures var room := box.size - |box.mails|;
            Fair(if room > 0 then room - 1 else 0, box.senders,
                 SleepingSenders(pc[t := Idle]), WokenSenders(pc[t := Idle]))
  {
    hide Fair;
    PcStep(pc, t, Idle);
    TakeFair(box.size - |box.mails|, box.senders, SleepingSenders(pc), WokenSenders(pc), t);
  }

  lemma SenderSleeps(box: Box, pc: map<Tid, Pc>, t: Tid, p: Pc, k: nat)
    requires BothFair(box, pc) && t in pc && pc[t].Sending? && p.SendBlocked?
    requires |box.mails| == box.size && k <= |box.senders|
    ensures BothFair(box.(senders := Insert(box.senders, k, t)), pc[t := p])
  {
    hide Fair;
    PcStep(pc, t, p);
    SleepFair(box.senders, SleepingSenders(pc), WokenSenders(pc), t, k);
  }

  lemma SendKeeps(s: State, t: Tid, elapsed: nat, pos: nat)
    requires Inv(s) && t in s.pc && s.pc[t].Sending? && pos <= |s.box.senders|
    ensures Inv(NextSend(s, t, elapsed, pos))
  {
    hide Fair;
    var s' := NextSend(s, t, elapsed, pos);
    SenderLeaves(s.box, s.pc, t);
    if |s.box.mails| != s.box.size {
      MailArrives(s.box, s'.box, s.pc[t := Idle]);
      ReplayStep(s.log, Append(s.pc[t].mail));
    } else if s'.pc[t].SendBlocked? {
      SenderSleeps(s.box, s.pc, t, s'.pc[t], pos);
    }
  }

  lemma UrgentKeeps(s: State, mail: int)
    requires Inv(s)
    ensures Inv(NextUrgent(s, mail))
  {
    hide Fair;
    if |s.box.mails| != s.box.size {
      OneSlotFewer(s.box, s.pc);
      MailArrives(s.box, NextUrgent(s, mail).box, s.pc);
      ReplayStep(s.log, Prepend(mail));
    }
  }

  /** An urgent mail takes a slot that no sender was woken for. */
  lemma OneSlotFewer(box: Box, pc: map<Tid, Pc>)
    requires BothFair(box, pc) && |box.mails| < box.size
    ensures Fair(box.size - |box.mails| - 1, box.senders, SleepingSenders(pc), WokenSenders(pc))
  {
  }

  /** A receiver at its test takes a mail or gives up. */
  lemma ReceiverLeaves(box: Box, pc: map<Tid, Pc>, t: Tid)
    requires BothFair(box, pc) && t in pc && pc[t].Receiving?
    ensures Fair(if box.mails == [] then 0 else |box.mails| - 1, box.receivers,
                 SleepingReceivers(pc[t := Idle]), WokenReceivers(pc[t := Idle]))
    ensures Fair(box.size - |box.mails|, box.senders, SleepingSenders(pc[t := Idle]), WokenSenders(pc[t := Idle]))
  {
    hide Fair;
    PcStep(pc, t, Idle);
    TakeFair(|box.mails|, box.receivers, SleepingReceivers(pc), WokenReceivers(pc), t);
  }

  lemma ReceiverSleeps(box: Box, pc: map<Tid, Pc>, t: Tid, p: Pc, k: nat)
    requires BothFair(box, pc) && t in pc && pc[t].Receiving? && p.RecvBlocked?
    requires box.mails == [] && k <= |box.receivers|
    ensures BothFair(box.(receivers := Insert(box.receivers, k, t)), pc[t := p])
  {
    hide Fair;
    PcStep(pc, t, p);
    SleepFair(box.receivers, SleepingReceivers(pc), WokenReceivers(pc), t, k);
  }

  lemma RecvKeeps(s: State, t: Tid, elapsed: nat, pos: nat)
    requires Inv(s) && t in s.pc && s.pc[t].Receiving? && pos <= |s.box.receivers|
    ensures Inv(NextRecv(s, t, elapsed, pos))
  {
    hide Fair;
    var s' := NextRecv(s, t, elapsed, pos);
    ReceiverLeaves(s.box, s.pc, t);
    if s.box.mails != [] {
      MailLeaves(s.box, s'.box, s.pc[t := Idle]);
      ReplayStep(s.log, Pop(s.box.mails[0]));
    } else if s'.pc[t].RecvBlocked? {
      ReceiverSleeps(s.box, s.pc, t, s'.pc[t], pos);
    }
  }

  lemma ExpireKeeps(s: State, t: Tid)
    requires Inv(s) && t in s.pc && (s.pc[t].RecvBlocked? || s.pc[t].SendBlocked?)
    ensures Inv(NextExpire(s, t))
  {
    PcStep(s.pc, t, Idle);
    ExpireFair(|s.box.mails|, s.box.receivers, SleepingReceivers(s.pc), WokenReceivers(s.pc), t);
    ExpireFair(s.box.size - |s.box.mails|, s.box.senders, SleepingSenders(s.pc), WokenSenders(s.pc), t);
  }

  lemma ResetKeeps(s: State)
    requires Inv(s)
    ensures Inv(NextReset(s))
  {
    ReplayStep(s.log, Clear);
    var pc := NextReset(s).pc;
    assert SleepingReceivers(pc) == {} && SleepingSenders(pc) == {};
  }

  lemma NextKeeps(s: State, a: Action)
    requires Inv(s)
    ensures Inv(Next(s, a))
  {
    match a
    case StartSend(t, mail, timeout) =>
      if t in s.pc && s.pc[t].Idle? { BystanderFair(s.box, s.pc, t, Sending(mail, timeout, false)); }
    case SendRegion(t, elapsed, pos) =>
      if t in s.pc && s.pc[t].Sending? && pos <= |s.box.senders| { SendKeeps(s, t, elapsed, pos); }
    case UrgentRegion(t, mail) =>
      UrgentKeeps(s, mail);
    case StartRecv(t, timeout) =>
      if t in s.pc && s.pc[t].Idle? { BystanderFair(s.box, s.pc, t, Receiving(timeout, false)); }
    case RecvRegion(t, elapsed, pos) =>
      if t in s.pc && s.pc[t].Receiving? && pos <= |s.box.receivers| { RecvKeeps(s, t, elapsed, pos); }
    case Expire(t) =>
      if t in s.pc && (s.pc[t].RecvBlocked? || s.pc[t].SendBlocked?) { ExpireKeeps(s, t); }
    case ResetAll =>
      ResetKeeps(s);
  }

  /** Every interleaving of calls, expiries and resets keeps the invariant: no wake-up is
      lost on either side, and the log of sends and receives replays to the contents. */
  lemma {:induction false} ReachableInv(s: State, run: seq<Action>)
    requires Initial(s)
    ensures Inv(Exec(s, run))
    decreases |run|
  {
    if run == [] {
      assert SleepingReceivers(s.pc) == {} && SleepingSenders(s.pc) == {};
    } else {
      ReachableInv(s, run[..|run| - 1]);
      NextKeeps(Exec(s, run[..|run| - 1]), run[|run| - 1]);
    }
  }

  /** A mailbox with room for a mail cannot deadlock: when threads are idle or asleep,
      receivers sleep only on an empty box and senders only on a full one. */
  lemma NoDeadlock(s: State, run: seq<Action>)
    requires Initial(s) && s.box.size > 0
    requires var r := Exec(s, run);
             forall t :: t in r.pc ==> r.pc[t].Idle? || r.pc[t].RecvBlocked? || r.pc[t].SendBlocked?
    ensures var r := Exec(s, run);
            && (r.box.receivers == [] || r.box.senders == [])
            && (r.box.receivers != [] ==> r.box.mails == [])
            && (r.box.senders != [] ==> |r.box.mails| == s.box.size)
  {
    ReachableInv(s, run);
    SameSize(s, run);
    var r := Exec(s, run);
    assert WokenReceivers(r.pc) == {} && WokenSenders(r.pc) == {};
  }

  lemma {:induction false} SameSize(s: State, run: seq<Action>)
    ensures Exec(s, run).box.size == s.box.size
    decreases |run|
  {
    if run == [] {
    } else {
      SameSize(s, run[..|run| - 1]);
    }
  }
}
