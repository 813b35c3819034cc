/**
 What the callers of a mailbox asked for, told from the run, and the story their calls make up.
 The protocol does what they say.
 */
module MailboxCalls {
  import opened Ipc
  import opened Mailbox
  import opened MailboxProtocol

  /** The last call a thread has begun, with the ticks it has slept in it. */
  datatype Call =
    | NoCall
    | SendCall(mail: int, timeout: int, slept: nat)
    | RecvCall(timeout: int, slept: nat)

  function Slept(c: Call, ticks: nat): Call {
    match c
    case NoCall => NoCall
    case SendCall(mail, timeout, slept) => SendCall(mail, timeout, slept + ticks)
    case RecvCall(timeout, slept) => RecvCall(timeout, slept + ticks)
  }

  predicate MayStart(s: State, t: Tid) { t in s.pc && s.pc[t].Idle? }

  predicate AtSend(s: State, t: Tid, pos: nat) { t in s.pc && s.pc[t].Sending? && pos <= |s.box.senders| }

  predicate AtRecv(s: State, t: Tid, pos: nat) { t in s.pc && s.pc[t].Receiving? && pos <= |s.box.receivers| }

  /** Thread t's call after one more action, of whichever thread. */
  function Follow(s: State, c: Call, a: Action, t: Tid): Call {
    match a
    case StartSend(u, mail, timeout) => if u == t && MayStart(s, t) then SendCall(mail, timeout, 0) else c
    case StartRecv(u, timeout) => if u == t && MayStart(s, t) then RecvCall(timeout, 0) else c
    case SendRegion(u, elapsed, pos) =>
      if u == t && AtSend(s, t, pos) && s.pc[t].woken then Slept(c, elapsed) else c
    case RecvRegion(u, elapsed, pos) =>
      if u == t && AtRecv(s, t, pos) && s.pc[t].woken then Slept(c, elapsed) else c
    case _ => c
  }

  /** The mails the story leaves in a box. */
  function Mails(story: seq<Event<int>>): seq<int> {
    if Replay(story).Some? then Replay(story).value else []
  }

  /** The story after one more action: with room, a send puts its caller's mail last and an urgent
      send puts its mail first; a receive removes the first mail; a reset removes all. */
  function Tell(s: State, story: seq<Event<int>>, c: Call, a: Action): seq<Event<int>> {
    match a
    case SendRegion(t, _, pos) =>
      if AtSend(s, t, pos) && c.SendCall? && |Mails(story)| < s.box.size then story + [Append(c.mail)] else story
    case UrgentRegion(t, mail) =>
      if MayStart(s, t) && |Mails(story)| < s.box.size then story + [Prepend(mail)] else story
    case RecvRegion(t, _, pos) =>
      if AtRecv(s, t, pos) && Mails(story) != [] then story + [Pop(Mails(story)[0])] else story
    case ResetAll => story + [Clear]
    case _ => story
  }

  function Actor(a: Action): Tid { if a.ResetAll? then 0 else a.t }

  /** What thread t asked for, from the run. */
  function Track(s: State, run: seq<Action>, t: Tid): Call
    decreases |run|
  {
    if run == [] then NoCall
    else
      var front := run[..|run| - 1];
      Follow(Exec(s, front), Track(s, front, t), run[|run| - 1], t)
  }

  /** What the calls of the run add up to. */
  function Story(s: State, run: seq<Action>): seq<Event<int>>
    decreases |run|
  {
    if run == [] then []
    else
      var front, a := run[..|run| - 1], run[|run| - 1];
      Tell(Exec(s, front), Story(s, front), Track(s, front, Actor(a)), a)
  }

  /** The thread is in the call it began, with its mail and what is left of its timeout. */
  predicate Matches(p: Pc, c: Call) {
    match p
    case Idle => true
    case Sending(mail, timeout, _) => c.SendCall? && c.mail == mail && timeout == Remaining(c.timeout, true, c.slept)
    case SendBlocked(mail, timeout) =>
      c.SendCall? && c.mail == mail && timeout == Remaining(c.timeout, true, c.slept) != 0
    case Receiving(timeout, _) => c.RecvCall? && timeout == Remaining(c.timeout, true, c.slept)
    case RecvBlocked(timeout) => c.RecvCall? && timeout == Remaining(c.timeout, true, c.slept) != 0
  }

  /** One step keeps every thread in the call it began. */
  lemma FollowMatches(s: State, a: Action, t: Tid, c: Call)
    requires t in s.pc && Matches(s.pc[t], c)
    ensures t in Next(s, a).pc && Matches(Next(s, a).pc[t], Follow(s, c, a, t))
  {
    hide Matches, Box.Send, Box.Recv, Box.Urgent;
    MatchFacts(s.pc[t], c);
    match a
    case SendRegion(u, elapsed, pos) => if u == t && AtSend(s, t, pos) { SendMatches(s, t, elapsed, pos, c); }
    case RecvRegion(u, elapsed, pos) => if u == t && AtRecv(s, t, pos) { RecvMatches(s, t, elapsed, pos, c); }
    case _ =>
  }

  lemma SendMatches(s: State, t: Tid, elapsed: nat, pos: nat, c: Call)
    requires AtSend(s, t, pos) && Matches(s.pc[t], c)
    ensures var r := NextSend(s, t, elapsed, pos);
            t in r.pc && Matches(r.pc[t], if s.pc[t].woken then Slept(c, elapsed) else c)
  {
  }

  lemma RecvMatches(s: State, t: Tid, elapsed: nat, pos: nat, c: Call)
    requires AtRecv(s, t, pos) && Matches(s.pc[t], c)
    ensures var r := NextRecv(s, t, elapsed, pos);
            t in r.pc && Matches(r.pc[t], if s.pc[t].woken then Slept(c, elapsed) else c)
  {
  }

  /** How matching carries over to the states a thread is moved to. */
  lemma MatchFacts(p: Pc, c: Call)
    requires Matches(p, c)
    ensures Matches(Idle, c)
    ensures forall mail, timeout :: Matches(Sending(mail, timeout, false), SendCall(mail, timeout, 0))
    ensures forall timeout :: Matches(Receiving(timeout, false), RecvCall(timeout, 0))
    ensures p.SendBlocked? ==> Matches(Sending(p.mail, p.timeout, true), c)
    ensures p.RecvBlocked? ==> Matches(Receiving(p.timeout, true), c)
  {
  }

  /** One step adds to the log what the calls say. */
  lemma TellsLog(s: State, a: Action, c: Call)
    requires |s.box.mails| <= s.box.size && Replay(s.log) == Some(s.box.mails)
    requires Actor(a) in s.pc ==> Matches(s.pc[Actor(a)], c)
    ensures Next(s, a).log == Tell(s, s.log, c, a)
  {
    hide Replay;
  }

  ghost predicate AllMatch(s: State, run: seq<Action>) {
    forall t :: t in Exec(s, run).pc ==> Matches(Exec(s, run).pc[t], Track(s, run, t))
  }

  /** In every run each thread is in the call it last began, with the mail and the timeout it was
      called with, and the mails are those of the story the calls tell. */
  lemma {:induction false} DoneAsAsked(s: State, run: seq<Action>)
    requires Initial(s)
    ensures AllMatch(s, run) && Exec(s, run).log == Story(s, run)
    ensures Replay(Story(s, run)) == Some(Exec(s, run).box.mails)
    decreases |run|
  {
    hide BothFair, Matches, Next, Follow, Tell, Replay;
    ReachableInv(s, run);
    if run == [] {
      AllIdle(s);
    } else {
      var front, a := run[..|run| - 1], run[|run| - 1];
      var before := Exec(s, front);
      DoneAsAsked(s, front);
      ReachableInv(s, front);
      NotOverfull(before);
      TellsLog(before, a, Track(s, front, Actor(a)));
      SameThreads(before, a);
      forall t | t in Exec(s, run).pc ensures Matches(Exec(s, run).pc[t], Track(s, run, t)) {
        FollowMatches(before, a, t, Track(s, front, t));
      }
    }
  }

  lemma AllIdle(s: State)
    requires Initial(s)
    ensures s.log == [] && forall t, c :: t in s.pc ==> Matches(s.pc[t], c)
  {
  }

  lemma NotOverfull(s: State)
    requires BothFair(s.box, s.pc)
    ensures |s.box.mails| <= s.box.size
  {
  }

  lemma SameThreads(s: State, a: Action)
    ensures forall t :: t in Next(s, a).pc <==> t in s.pc
  {
  }

  // ---- What each region decides ----

  /** Nothing but the box and one thread has changed. */
  ghost predicate Only(s: State, r: State, t: Tid) {
    t in s.pc && t in r.pc && r == s.(box := r.box, pc := s.pc[t := r.pc[t]])
  }

  /** An idle thread begins a call; a busy one does not. */
  lemma CallsBegin(s: State, t: Tid, mail: int, timeout: int)
    ensures var r := Next(s, StartSend(t, mail, timeout));
            if MayStart(s, t) then Only(s, r, t) && r.box == s.box && r.pc[t].Sending? else r == s
    ensures var r := Next(s, StartRecv(t, timeout));
            if MayStart(s, t) then Only(s, r, t) && r.box == s.box && r.pc[t].Receiving? else r == s
  {
  }

  /** A send into a box with room ends and wakes the first receiver; on a full box it fails without
      any time left and sleeps at its place otherwise. */
  lemma SendDecides(s: State, t: Tid, elapsed: nat, pos: nat)
    requires Inv(s) && AtSend(s, t, pos)
    ensures var r := Next(s, SendRegion(t, elapsed, pos));
            var left := Remaining(s.pc[t].timeout, s.pc[t].woken, elapsed);
            && (|s.box.mails| < s.box.size ==>
                  && t in r.pc && r.pc[t].Idle? && r.box.mails == s.box.mails + [s.pc[t].mail]
                  && r.box == s.box.(mails := r.box.mails, receivers := Rest(s.box.receivers)))
            && (|s.box.mails| == s.box.size ==> Only(s, r, t))
            && (|s.box.mails| == s.box.size && left == 0 ==> r.pc[t].Idle? && r.box == s.box)
            && (|s.box.mails| == s.box.size && left != 0 ==>
                  && r.pc[t].SendBlocked? && r.box == s.box.(senders := r.box.senders)
                  && |r.box.senders| == |s.box.senders| + 1 && r.box.senders[pos] == t
                  && s.box.senders == r.box.senders[..pos] + r.box.senders[pos + 1..])
  {
    hide Fair, Replay;
  }

  /** An urgent send puts its mail first and wakes the first receiver, or fails on a full box. */
  lemma UrgentDecides(s: State, t: Tid, mail: int)
    requires Inv(s) && MayStart(s, t)
    ensures var r := Next(s, UrgentRegion(t, mail));
            if |s.box.mails| < s.box.size
            then && r.box.mails == [mail] + s.box.mails
                 && r.box == s.box.(mails := r.box.mails, receivers := Rest(s.box.receivers))
            else r == s
  {
    hide Fair, Replay;
  }

  /** A receive takes the first mail and wakes the first sender; from an empty box it fails without
      any time left and sleeps at its place otherwise. */
  lemma RecvDecides(s: State, t: Tid, elapsed: nat, pos: nat)
    requires AtRecv(s, t, pos)
    ensures var r := Next(s, RecvRegion(t, elapsed, pos));
            var left := Remaining(s.pc[t].timeout, s.pc[t].woken, elapsed);
            && (s.box.mails != [] ==>
                  && t in r.pc && r.pc[t].Idle? && s.box.mails == [s.box.mails[0]] + r.box.mails
                  && r.log == s.log + [Pop(s.box.mails[0])]
                  && r.box == s.box.(mails := r.box.mails, senders := Rest(s.box.senders)))
            && (s.box.mails == [] ==> Only(s, r, t))
            && (s.box.mails == [] && left == 0 ==> r.pc[t].Idle? && r.box == s.box)
            && (s.box.mails == [] && left != 0 ==>
                  && r.pc[t].RecvBlocked? && r.box == s.box.(receivers := r.box.receivers)
                  && |r.box.receivers| == |s.box.receivers| + 1 && r.box.receivers[pos] == t
                  && s.box.receivers == r.box.receivers[..pos] + r.box.receivers[pos + 1..])
  {
  }

  /** A timeout ends the call of a sleeper with a limit and takes it off its list; a reset ends those
      of all sleepers and empties the box. */
  lemma OthersEnd(s: State, t: Tid)
    requires t in s.pc
    ensures var r := Next(s, Expire(t));
            if (s.pc[t].RecvBlocked? || s.pc[t].SendBlocked?) && s.pc[t].timeout > 0
            then && Only(s, r, t) && r.pc[t].Idle? && t !in r.box.receivers && t !in r.box.senders
                 && r.box == s.box.(receivers := r.box.receivers, senders := r.box.senders)
                 && (forall u :: u != t ==> (u in r.box.receivers <==> u in s.box.receivers))
                 && (forall u :: u != t ==> (u in r.box.senders <==> u in s.box.senders))
            else r == s
    ensures var r := Next(s, ResetAll);
            && r.box == Box(s.box.size, [], [], []) && t in r.pc
            && r.pc[t] == if s.pc[t].RecvBlocked? || s.pc[t].SendBlocked? then Idle else s.pc[t]
  {
  }
}
