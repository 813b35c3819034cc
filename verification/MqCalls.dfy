/**
 What the callers of a message queue asked for, told from the run: the call each thread is in,
 and the story of messages that the calls make up. The protocol does what they say.
 */
module MqCalls {
  import opened Ipc
  import opened MessageQueue
  import opened MqProtocol

  /** The last call a thread has begun, with the ticks it has slept in it; a receive also with
      the message it has taken. */
  datatype Call =
    | NoCall
    | SendCall(msg: Msg, urgent: bool, timeout: int, slept: nat)
    | RecvCall(size: nat, timeout: int, slept: nat, taken: Option<Msg>)

  function Slept(c: Call, ticks: nat): Call {
    match c
    case NoCall => NoCall
    case SendCall(msg, urgent, timeout, slept) => SendCall(msg, urgent, timeout, slept + ticks)
    case RecvCall(size, timeout, slept, taken) => RecvCall(size, timeout, slept + ticks, taken)
  }

  function Took(c: Call, m: Option<Msg>): Call {
    if c.RecvCall? then RecvCall(c.size, c.timeout, c.slept, m) else c
  }

  predicate MayStart(s: State, t: Tid) { t in s.pc && s.pc[t].Idle? }

  predicate AtSend(s: State, t: Tid, pos: nat) { t in s.pc && s.pc[t].Sending? && pos <= |s.q.senders| }

  predicate AtRecv(s: State, t: Tid, pos: nat) { t in s.pc && s.pc[t].Receiving? && pos <= |s.q.receivers| }

  predicate AtLink(s: State, t: Tid) { t in s.pc && s.pc[t].Linking? }

  /** Thread t's call after one more action, of whichever thread; `front` is the message in front. */
  function Follow(s: State, c: Call, front: Option<Msg>, a: Action, t: Tid): Call {
    match a
    case StartSend(u, msg, urgent, timeout) =>
      if u == t && MayStart(s, t) && |msg| <= s.msgSize
      then SendCall(msg, urgent, if urgent then 0 else timeout, 0) else c
    case StartRecv(u, size, timeout) =>
      if u == t && MayStart(s, t) then RecvCall(size, timeout, 0, None) else c
    case SendRegion(u, elapsed, pos) =>
      if u == t && AtSend(s, t, pos) && s.pc[t].woken then Slept(c, elapsed) else c
    case RecvRegion(u, elapsed, pos) =>
      if u == t && AtRecv(s, t, pos)
      then Took(if s.pc[t].woken then Slept(c, elapsed) else c, front) else c
    case _ => c
  }

  function Front(story: seq<Event<Msg>>): Option<Msg> {
    var d := Replay(story);
    if d.Some? && d.value != [] then Some(d.value[0]) else None
  }

  /** The story after one more action: a link puts in the message of its caller's send, at the end
      its caller asked for; a receive that finds a message removes the front; a reset removes all. */
  function Tell(s: State, story: seq<Event<Msg>>, c: Call, a: Action): seq<Event<Msg>> {
    match a
    case LinkRegion(t) =>
      if AtLink(s, t) && c.SendCall? then story + [if c.urgent then Prepend(c.msg) else Append(c.msg)] else story
    case RecvRegion(t, _, pos) =>
      if AtRecv(s, t, pos) && Front(story).Some? then story + [Pop(Front(story).value)] else story
    case ResetAll => story + [Clear]
    case _ => story
  }

  function Actor(a: Action): Tid { if a.ResetAll? then 0 else a.t }

  /** What thread t asked for, from the run. */
  function Track(s: State, run: seq<Action>, t: Tid): Call
    decreases |run|, 0
  {
    if run == [] then NoCall
    else
      var front := run[..|run| - 1];
      Follow(Exec(s, front), Track(s, front, t), Front(Story(s, front)), run[|run| - 1], t)
  }

  /** What the calls of the run add up to. */
  function Story(s: State, run: seq<Action>): seq<Event<Msg>>
    decreases |run|, 1
  {
    if run == [] then []
    else
      var front, a := run[..|run| - 1], run[|run| - 1];
      Tell(Exec(s, front), Story(s, front), Track(s, front, Actor(a)), a)
  }

  /** The thread is in the call it began, with its message, its size and what is left of its timeout. */
  predicate Matches(p: Pc, c: Call) {
    match p
    case Idle => true
    case Sending(msg, urgent, timeout, woken) =>
      && c.SendCall? && c.msg == msg && c.urgent == urgent && timeout == Remaining(c.timeout, true, c.slept)
      && (urgent ==> c.timeout == 0)
    case SendBlocked(msg, timeout) =>
      c.SendCall? && c.msg == msg && !c.urgent && timeout == Remaining(c.timeout, true, c.slept) != 0
    case Filling(msg, urgent, _) => c.SendCall? && c.msg == msg && c.urgent == urgent
    case Linking(msg, urgent, _) => c.SendCall? && c.msg == msg && c.urgent == urgent
    case Receiving(size, timeout, _) =>
      c.RecvCall? && c.size == size && timeout == Remaining(c.timeout, true, c.slept) && c.taken == None
    case RecvBlocked(size, timeout) =>
      c.RecvCall? && c.size == size && timeout == Remaining(c.timeout, true, c.slept) != 0 && c.taken == None
    case Draining(size, _, msg) => c.RecvCall? && c.size == size && c.taken == Some(msg)
    case Returning(size, _, msg, _) => c.RecvCall? && c.size == size && c.taken == Some(msg)
  }

  /** Sleeping twice uses up as much as sleeping once for as long; nothing is left exactly when the
      whole timeout has been slept. */
  lemma RemainingAdds(timeout: int, a: nat, b: nat)
    ensures Remaining(Remaining(timeout, true, a), true, b) == Remaining(timeout, true, a + b)
    ensures timeout > 0 ==> (Remaining(timeout, true, a) == 0 <==> timeout <= a)
    ensures timeout <= 0 ==> Remaining(timeout, true, a) == timeout
    ensures Remaining(timeout, true, 0) == timeout
  {
  }

  lemma SendMatches(s: State, t: Tid, elapsed: nat, pos: nat, c: Call)
    requires AtSend(s, t, pos) && Matches(s.pc[t], c)
    ensures Matches(NextSend(s, t, elapsed, pos).pc[t], if s.pc[t].woken then Slept(c, elapsed) else c)
  {
    RemainingAdds(c.timeout, c.slept, elapsed);
  }

  lemma RecvMatches(s: State, t: Tid, elapsed: nat, pos: nat, c: Call)
    requires AtRecv(s, t, pos) && Matches(s.pc[t], c) && |s.q.queue| == |s.contents| == s.q.entry
    ensures Matches(NextRecv(s, t, elapsed, pos).pc[t],
                    Took(if s.pc[t].woken then Slept(c, elapsed) else c, First(s.contents)))
  {
    RemainingAdds(c.timeout, c.slept, elapsed);
  }

  /** One step keeps every thread in the call it began. */
  lemma FollowMatches(s: State, a: Action, t: Tid, c: Call)
    requires |s.q.queue| == |s.contents| == s.q.entry && t in s.pc && Matches(s.pc[t], c)
    ensures t in Next(s, a).pc && Matches(Next(s, a).pc[t], Follow(s, c, First(s.contents), a, t))
  {
    hide Matches, Queue.SendTest, Queue.RecvTest;
    MatchFacts(s.pc[t], c);
    match a
    case StartSend(_, _, _, _) =>
    case StartRecv(_, _, _) =>
    case SendRegion(u, elapsed, pos) => if u == t && AtSend(s, t, pos) { SendMatches(s, t, elapsed, pos, c); }
    case RecvRegion(u, elapsed, pos) => if u == t && AtRecv(s, t, pos) { RecvMatches(s, t, elapsed, pos, c); }
    case _ =>
  }

  /** How matching carries over to the states a thread is moved to. */
  lemma MatchFacts(p: Pc, c: Call)
    requires Matches(p, c)
    ensures Matches(Idle, c)
    ensures forall msg, urgent, timeout :: (urgent ==> timeout == 0) ==>
              Matches(Sending(msg, urgent, timeout, false), SendCall(msg, urgent, timeout, 0))
    ensures forall size, timeout :: Matches(Receiving(size, timeout, false), RecvCall(size, timeout, 0, None))
    ensures p.SendBlocked? ==> Matches(Sending(p.msg, false, p.timeout, true), c)
    ensures p.RecvBlocked? ==> Matches(Receiving(p.size, p.timeout, true), c)
    ensures p.Filling? ==> Matches(Linking(p.msg, p.urgent, p.node), c)
    ensures p.Draining? ==> forall got :: Matches(Returning(p.size, p.node, p.msg, got), c)
    ensures p.Linking? ==> c == SendCall(p.msg, p.urgent, c.timeout, c.slept)
  {
  }

  /** One step adds to the log what the calls say. */
  lemma TellsLog(s: State, a: Action, c: Call)
    requires |s.q.queue| == |s.contents| == s.q.entry && Replay(s.log) == Some(s.contents)
    requires Actor(a) in s.pc ==> Matches(s.pc[Actor(a)], c)
    ensures Next(s, a).log == Tell(s, s.log, c, a)
  {
    hide Replay;
    if a.LinkRegion? && AtLink(s, a.t) { MatchFacts(s.pc[a.t], c); }
  }

  ghost predicate AllMatch(s: State, run: seq<Action>) {
    forall t :: t in Exec(s, run).pc ==> Matches(Exec(s, run).pc[t], Track(s, run, t))
  }

  /** In every run each thread is in the call it last began, with the message, urgency, size and
      timeout it was called with, and the log is the story the calls tell. */
  lemma {:induction false} DoneAsAsked(s: State, run: seq<Action>)
    requires Initial(s)
    ensures AllMatch(s, run) && Exec(s, run).log == Story(s, run)
    decreases |run|
  {
    hide Initial, Inv, Matches, Next, Follow, Tell, Replay;
    if run == [] {
      AllIdle(s);
    } else {
      var front, a := run[..|run| - 1], run[|run| - 1];
      var before := Exec(s, front);
      DoneAsAsked(s, front);
      Contents(s, front);
      TellsLog(before, a, Track(s, front, Actor(a)));
      SameThreads(before, a);
      forall t | t in Exec(s, run).pc ensures Matches(Exec(s, run).pc[t], Track(s, run, t)) {
        FollowMatches(before, a, t, Track(s, front, t));
      }
    }
  }

  lemma AllIdle(s: State)
    requires Initial(s)
    ensures s.log == [] && forall t, c :: t in s.pc ==> Matches(s.pc[t], c)
  {
  }

  lemma SameThreads(s: State, a: Action)
    ensures forall t :: t in Next(s, a).pc <==> t in s.pc
  {
  }

  lemma Contents(s: State, run: seq<Action>)
    requires Initial(s)
    ensures var r := Exec(s, run);
            && |r.q.queue| == |r.contents| == r.q.entry && Replay(r.log) == Some(r.contents)
            && Front(r.log) == First(r.contents)
  {
    ReachableInv(s, run);
  }

  /** End to end: the contents are what the story makes them, and a receiver that has copied its
      message out has as many bytes as it asked for and a slot holds, those of the message in front
      when it took it. */
  lemma DeliversAsAsked(s: State, run: seq<Action>)
    requires Initial(s)
    ensures var r := Exec(s, run);
            && Replay(Story(s, run)) == Some(r.contents)
            && forall t :: t in r.pc && r.pc[t].Returning? ==> Delivered(Track(s, run, t), r.pc[t].got, r.msgSize)
  {
    hide Initial, Inv, Next, Follow, Tell, Replay, Exec, Track, Story;
    DoneAsAsked(s, run);
    Contents(s, run);
    ActsAsDeque(s, run);
    var r := Exec(s, run);
    forall t | t in r.pc && r.pc[t].Returning? ensures Delivered(Track(s, run, t), r.pc[t].got, r.msgSize) {
      assert Matches(r.pc[t], Track(s, run, t));
    }
  }

  ghost predicate Delivered(c: Call, got: Msg, msgSize: nat) {
    && c.RecvCall? && c.taken.Some? && |got| == Min(c.size, msgSize)
    && forall i :: 0 <= i < |got| && i < |c.taken.value| ==> got[i] == c.taken.value[i]
  }

  /** The call began with an action of the run. */
  ghost predicate Begun(run: seq<Action>, msg: Msg, urgent: bool) {
    exists i :: 0 <= i < |run| && run[i].StartSend? && run[i].msg == msg && run[i].urgent == urgent
  }

  lemma BegunLater(run: seq<Action>, a: Action, msg: Msg, urgent: bool)
    requires Begun(run, msg, urgent)
    ensures Begun(run + [a], msg, urgent)
  {
    var i :| 0 <= i < |run| && run[i].StartSend? && run[i].msg == msg && run[i].urgent == urgent;
    assert (run + [a])[i] == run[i];
  }

  lemma {:induction false} TrackBegun(s: State, run: seq<Action>, t: Tid)
    ensures var c := Track(s, run, t); c.SendCall? ==> Begun(run, c.msg, c.urgent)
    decreases |run|
  {
    hide Exec, Story, Front;
    if run == [] {
    } else {
      var front, a := run[..|run| - 1], run[|run| - 1];
      assert run == front + [a];
      TrackBegun(s, front, t);
      var c, c' := Track(s, front, t), Track(s, run, t);
      if c.SendCall? { BegunLater(front, a, c.msg, c.urgent); }
      if a.StartSend? && c' != c { assert run[|front|] == a; }
    }
  }

  /** Every message ever linked is that of a send in the run, and prepended exactly if that was urgent. */
  lemma {:induction false} LinkedWasSent(s: State, run: seq<Action>, k: nat)
    requires k < |Story(s, run)|
    ensures var e := Story(s, run)[k];
            && (e.Append? ==> Begun(run, e.msg, false)) && (e.Prepend? ==> Begun(run, e.msg, true))
    decreases |run|
  {
    hide Exec, Track, Front;
    var front, a := run[..|run| - 1], run[|run| - 1];
    assert run == front + [a];
    TrackBegun(s, front, Actor(a));
    var c := Track(s, front, Actor(a));
    if k < |Story(s, front)| {
      LinkedWasSent(s, front, k);
      var e := Story(s, front)[k];
      if e.Append? { BegunLater(front, a, e.msg, false); }
      if e.Prepend? { BegunLater(front, a, e.msg, true); }
    } else if c.SendCall? {
      BegunLater(front, a, c.msg, c.urgent);
    }
  }

  // ---- What each region decides ----

  /** Nothing but the queue and one thread has changed. */
  ghost predicate Only(s: State, r: State, t: Tid) {
    && t in s.pc && t in r.pc && r == s.(q := r.q, pc := s.pc[t := r.pc[t]])
  }

  /** An idle thread begins a call, unless its message is larger than a slot; a busy one does not. */
  lemma CallsBegin(s: State, t: Tid, msg: Msg, urgent: bool, size: nat, timeout: int)
    ensures var r := Next(s, StartSend(t, msg, urgent, timeout));
            if MayStart(s, t) && |msg| <= s.msgSize then Only(s, r, t) && r.q == s.q && r.pc[t].Sending? else r == s
    ensures var r := Next(s, StartRecv(t, size, timeout));
            if MayStart(s, t) then Only(s, r, t) && r.q == s.q && r.pc[t].Receiving? else r == s
  {
  }

  /** A send takes the first free slot if there is one; if not, it fails without any time left and
      sleeps at its place otherwise. */
  lemma SendDecides(s: State, t: Tid, elapsed: nat, pos: nat)
    requires AtSend(s, t, pos)
    ensures var r := Next(s, SendRegion(t, elapsed, pos));
            var left := Remaining(s.pc[t].timeout, s.pc[t].woken, elapsed);
            && Only(s, r, t)
            && (s.q.free != [] ==> r.pc[t].Filling? && s.q.free == [r.pc[t].node] + r.q.free &&
                                   r.q == s.q.(free := r.q.free))
            && (s.q.free == [] && left == 0 ==> r.pc[t].Idle? && r.q == s.q)
            && (s.q.free == [] && left != 0 ==> r.pc[t].SendBlocked? && r.q == s.q.(senders := r.q.senders) &&
                                                |r.q.senders| == |s.q.senders| + 1 && r.q.senders[pos] == t &&
                                                s.q.senders == r.q.senders[..pos] + r.q.senders[pos + 1..])
  {
  }

  /** A receive takes the first message if there is one; if not, it fails without any time left and
      sleeps at its place otherwise. */
  lemma RecvDecides(s: State, t: Tid, elapsed: nat, pos: nat)
    requires AtRecv(s, t, pos) && |s.q.queue| == |s.contents| == s.q.entry
    ensures var r := Next(s, RecvRegion(t, elapsed, pos));
            var left := Remaining(s.pc[t].timeout, s.pc[t].woken, elapsed);
            && (s.q.queue != [] ==> && r.pc[t].Draining? && s.q.queue == [r.pc[t].node] + r.q.queue
                                    && r.q == s.q.(queue := r.q.queue, entry := |r.q.queue|)
                                    && s.contents == [r.pc[t].msg] + r.contents)
            && (s.q.queue == [] ==> Only(s, r, t))
            && (s.q.queue == [] && left == 0 ==> r.pc[t].Idle? && r.q == s.q)
            && (s.q.queue == [] && left != 0 ==> r.pc[t].RecvBlocked? && r.q == s.q.(receivers := r.q.receivers) &&
                                                 |r.q.receivers| == |s.q.receivers| + 1 && r.q.receivers[pos] == t &&
                                                 s.q.receivers == r.q.receivers[..pos] + r.q.receivers[pos + 1..])
  {
  }

  /** Copies move a call on. */
  lemma CopiesMoveOn(s: State, t: Tid)
    requires Inv(s) && t in s.pc && (s.pc[t].Filling? || s.pc[t].Draining?)
    ensures var r := Next(s, if s.pc[t].Filling? then Fill(t) else Drain(t));
            t in r.pc && r.q == s.q && (if s.pc[t].Filling? then r.pc[t].Linking? else r.pc[t].Returning?)
  {
    hide BothFair, Conserved, Replay, Queue.Apart;
    var n := s.pc[t].node;
    assert Intact(s.pc[t], s.data, s.msgSize);
    ConservedApart(s.q, s.pc);
    assert Holds(s.pc[t], n) && s.q.Held(n);
    assert |s.data[n]| == s.msgSize;
  }

  /** A link ends the send and wakes the first receiver. */
  lemma LinkEnds(s: State, t: Tid)
    requires BothFair(s.q, s.pc) && AtLink(s, t)
    ensures var r := Next(s, LinkRegion(t));
            && t in r.pc && r.pc[t].Idle? && r.q.receivers == Rest(s.q.receivers) && r.q.senders == s.q.senders
            && r.q.queue == (if s.pc[t].urgent then [s.pc[t].node] + s.q.queue else s.q.queue + [s.pc[t].node])
            && (s.q.receivers != [] ==> s.q.receivers[0] in r.pc && r.pc[s.q.receivers[0]].Receiving?)
  {
    hide SleepingSenders, WokenSenders, WokenReceivers;
    if s.q.receivers != [] { Asleep(s.q.receivers, SleepingReceivers(s.pc)); }
  }

  /** A release ends the receive and wakes the first sender. */
  lemma ReleaseEnds(s: State, t: Tid)
    requires BothFair(s.q, s.pc) && t in s.pc && s.pc[t].Returning?
    ensures var r := Next(s, ReleaseRegion(t));
            && t in r.pc && r.pc[t].Idle? && r.q.senders == Rest(s.q.senders) && r.q.receivers == s.q.receivers
            && r.q.free == [s.pc[t].node] + s.q.free && r.q.queue == s.q.queue
            && (s.q.senders != [] ==> s.q.senders[0] in r.pc && r.pc[s.q.senders[0]].Sending?)
  {
    hide SleepingReceivers, WokenSenders, WokenReceivers;
    if s.q.senders != [] { Asleep(s.q.senders, SleepingSenders(s.pc)); }
  }

  lemma Asleep(list: seq<Tid>, asleep: set<Tid>)
    requires multiset(list) == multiset(asleep) && list != []
    ensures list[0] in asleep
  {
    assert list[0] in multiset(list);
  }

  /** A timeout ends the call of a sleeper with a limit and takes it off its list; nobody else is touched. */
  lemma ExpiryEnds(s: State, t: Tid)
    requires Inv(s) && t in s.pc
    ensures var r := Next(s, Expire(t));
            if (s.pc[t].RecvBlocked? || s.pc[t].SendBlocked?) && s.pc[t].timeout > 0
            then && Only(s, r, t) && r.pc[t].Idle? && t !in r.q.receivers && t !in r.q.senders
                 && r.q == s.q.(receivers := r.q.receivers, senders := r.q.senders)
                 && (forall u :: u != t ==> (u in r.q.receivers <==> u in s.q.receivers))
                 && (forall u :: u != t ==> (u in r.q.senders <==> u in s.q.senders))
            else r == s
  {
  }

  /** A reset leaves no message and nobody asleep. */
  lemma ResetEnds(s: State)
    ensures var r := Next(s, ResetAll);
            && r.contents == [] && r.q.queue == [] && r.q.entry == 0 && r.q.receivers == [] && r.q.senders == []
            && |r.q.free| == |s.q.queue| + |s.q.free| && r.q.free[|s.q.queue|..] == s.q.free
            && (forall i :: 0 <= i < |s.q.queue| ==> r.q.free[i] == s.q.queue[|s.q.queue| - 1 - i])
            && (forall t :: t in r.pc <==> t in s.pc)
            && forall t :: t in s.pc ==>
                 r.pc[t] == if s.pc[t].RecvBlocked? || s.pc[t].SendBlocked? then Idle else s.pc[t]
  {
    hide Reverse;
    var q := s.q.queue;
    ReverseSize(q);
    forall i | 0 <= i < |q| ensures Reverse(q)[i] == q[|q| - 1 - i] { ReverseAt(q, i); }
  }

  lemma {:induction false} ReverseSize(s: seq<nat>)
    ensures |Reverse(s)| == |s|
  {
    if s == [] {
    } else {
      ReverseSize(s[1..]);
    }
  }

  lemma {:induction false} ReverseAt(s: seq<nat>, i: nat)
    requires i < |s|
    ensures |Reverse(s)| == |s| && Reverse(s)[i] == s[|s| - 1 - i]
  {
    ReverseSize(s);
    ReverseSize(s[1..]);
    if i == |s| - 1 {
    } else {
      ReverseAt(s[1..], i);
    }
  }
}
