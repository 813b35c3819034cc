/**
 The links of a message queue under every interleaving: each step of the protocol with what
 it does to the links. A sender clears the link of its slot outside the critical regions.
 */
module MqLinks {
  import opened Ipc
  import opened MessageQueue
  import opened MqProtocol

  /** The links after a step, decided by the links and by what the thread holds. */
  function NextLinks(s: State, l: Links, a: Action): Links {
    match a
    case SendRegion(t, _, pos) =>
      if t in s.pc && s.pc[t].Sending? && pos <= |s.q.senders| && l.freeHead != NULL then l.Claim() else l
    case Fill(t) =>
      if t in s.pc && s.pc[t].Filling? && !s.pc[t].urgent then l.Set(s.pc[t].node, NULL) else l
    case LinkRegion(t) =>
      if t in s.pc && s.pc[t].Linking?
      then if s.pc[t].urgent then l.Prepend(s.pc[t].node) else l.Append(s.pc[t].node) else l
    case RecvRegion(t, _, pos) =>
      if t in s.pc && s.pc[t].Receiving? && pos <= |s.q.receivers| && s.q.entry > 0 then l.Unlink() else l
    case ReleaseRegion(t) =>
      if t in s.pc && s.pc[t].Returning? then l.PutFree(s.pc[t].node) else l
    case ResetAll => l.Flush(s.q.entry)
    case _ => l
  }

  function ExecLinks(s: State, l: Links, run: seq<Action>): Links
    decreases |run|
  {
    if run == [] then l
    else
      var front := run[..|run| - 1];
      NextLinks(Exec(s, front), ExecLinks(s, l, front), run[|run| - 1])
  }

  /** A sender about to link at the tail finds the link of its slot cleared. */
  ghost predicate Cleared(l: Links, pc: map<Tid, Pc>) {
    forall t :: t in pc && pc[t].Linking? && !pc[t].urgent ==> l.At(pc[t].node) == NULL
  }

  /** Threads that are about to link are all in place already. */
  ghost predicate Fewer(pc: map<Tid, Pc>, pc': map<Tid, Pc>) {
    forall u :: u in pc' && pc'[u].Linking? ==> u in pc && pc[u] == pc'[u]
  }

  lemma FewerCleared(l: Links, pc: map<Tid, Pc>, pc': map<Tid, Pc>)
    requires Cleared(l, pc) && Fewer(pc, pc')
    ensures Cleared(l, pc')
  {
  }

  /** The slots of the threads about to link, other than t, are held and not `but`. */
  ghost predicate OthersHeld(q: Queue, pc: map<Tid, Pc>, t: Tid, but: int) {
    forall u :: u in pc && u != t && pc[u].Linking? ==> q.Held(pc[u].node) && pc[u].node != but
  }

  lemma OthersCleared(q: Queue, l: Links, l': Links, pc: map<Tid, Pc>, t: Tid, but: int)
    requires Cleared(l, pc) && HeldKeep(q, l, l', but) && OthersHeld(q, pc, t, but)
    ensures Cleared(l', pc - {t})
  {
  }

  /** The slot of a thread in mid-copy is held by that thread alone. */
  lemma Holding(s: State, t: Tid)
    requires Inv(s) && t in s.pc && (s.pc[t].Filling? || s.pc[t].Linking? || s.pc[t].Returning?)
    ensures s.q.WellFormed() && s.q.Held(s.pc[t].node) && OthersHeld(s.q, s.pc, t, s.pc[t].node)
    ensures OthersHeld(s.q, s.pc, t, NULL)
  {
    hide BothFair, PayloadsIntact, Conserved, Shape;
    Well(s);
    ConservedApart(s.q, s.pc);
    assert Holds(s.pc[t], s.pc[t].node);
    forall u | u in s.pc && u != t && s.pc[u].Linking?
      ensures s.q.Held(s.pc[u].node) && s.pc[u].node != s.pc[t].node
    {
      assert Holds(s.pc[u], s.pc[u].node);
    }
  }

  lemma Well(s: State)
    requires Inv(s)
    ensures s.q.WellFormed() && s.q.entry == |s.q.queue| == |s.contents|
  {
    ConservedApart(s.q, s.pc);
  }

  lemma FillEnabled(s: State, t: Tid)
    requires Inv(s) && t in s.pc && s.pc[t].Filling?
    ensures s.pc[t].node < |s.data| && |s.pc[t].msg| <= |s.data[s.pc[t].node]|
  {
    hide BothFair, Conserved;
    Holding(s, t);
    assert Intact(s.pc[t], s.data, s.msgSize);
  }

  lemma WakeFewer(pc: map<Tid, Pc>, who: Option<Tid>)
    ensures Fewer(pc, Wake(pc, who))
  {
  }

  lemma SendLinks(s: State, l: Links, t: Tid, elapsed: nat, pos: nat)
    requires Inv(s) && l.Spell(s.q) && Cleared(l, s.pc)
    ensures var a := SendRegion(t, elapsed, pos);
            NextLinks(s, l, a).Spell(Next(s, a).q) && Cleared(NextLinks(s, l, a), Next(s, a).pc)
  {
    hide Inv, Chain;
    SpellClaim(l, s.q);
    FewerCleared(NextLinks(s, l, SendRegion(t, elapsed, pos)), s.pc, Next(s, SendRegion(t, elapsed, pos)).pc);
  }

  lemma FillLinks(s: State, l: Links, t: Tid)
    requires Inv(s) && l.Spell(s.q) && Cleared(l, s.pc)
    ensures NextLinks(s, l, Fill(t)).Spell(Next(s, Fill(t)).q) && Cleared(NextLinks(s, l, Fill(t)), Next(s, Fill(t)).pc)
  {
    hide Inv, Chain;
    if t in s.pc && s.pc[t].Filling? {
      Holding(s, t);
      FillEnabled(s, t);
      var n := s.pc[t].node;
      SpellSet(l, s.q, n, NULL);
      OthersCleared(s.q, l, l.Set(n, NULL), s.pc, t, n);
    }
  }

  lemma LinkLinks(s: State, l: Links, t: Tid)
    requires Inv(s) && l.Spell(s.q) && Cleared(l, s.pc)
    ensures var a := LinkRegion(t);
            NextLinks(s, l, a).Spell(Next(s, a).q) && Cleared(NextLinks(s, l, a), Next(s, a).pc)
  {
    hide Inv, Chain, HeldKeep, OthersHeld, Links.Spell, Queue.WellFormed;
    if t in s.pc && s.pc[t].Linking? {
      Holding(s, t);
      var n, l' := s.pc[t].node, NextLinks(s, l, LinkRegion(t));
      if s.pc[t].urgent {
        SpellPrepend(l, s.q, n);
        OthersCleared(s.q, l, l', s.pc, t, n);
      } else {
        SpellAppend(l, s.q, n);
        OthersCleared(s.q, l, l', s.pc, t, NULL);
      }
      WakeFewer(s.pc[t := Idle], First(s.q.receivers));
      FewerCleared(l', s.pc - {t}, Next(s, LinkRegion(t)).pc);
    }
  }

  lemma RecvLinks(s: State, l: Links, t: Tid, elapsed: nat, pos: nat)
    requires Inv(s) && l.Spell(s.q) && Cleared(l, s.pc)
    ensures var a := RecvRegion(t, elapsed, pos);
            NextLinks(s, l, a).Spell(Next(s, a).q) && Cleared(NextLinks(s, l, a), Next(s, a).pc)
  {
    hide Inv, Chain, Distinct;
    Well(s);
    SpellUnlink(l, s.q);
    FewerCleared(NextLinks(s, l, RecvRegion(t, elapsed, pos)), s.pc, Next(s, RecvRegion(t, elapsed, pos)).pc);
  }

  lemma ReleaseLinks(s: State, l: Links, t: Tid)
    requires Inv(s) && l.Spell(s.q) && Cleared(l, s.pc)
    ensures var a := ReleaseRegion(t);
            NextLinks(s, l, a).Spell(Next(s, a).q) && Cleared(NextLinks(s, l, a), Next(s, a).pc)
  {
    hide Inv, Chain, HeldKeep, OthersHeld, Queue.WellFormed;
    if t in s.pc && s.pc[t].Returning? {
      Holding(s, t);
      var n, l' := s.pc[t].node, NextLinks(s, l, ReleaseRegion(t));
      SpellPutFree(l, s.q, n);
      OthersCleared(s.q, l, l', s.pc, t, n);
      WakeFewer(s.pc[t := Idle], First(s.q.senders));
      FewerCleared(l', s.pc - {t}, Next(s, ReleaseRegion(t)).pc);
    }
  }

  lemma AllHeld(s: State)
    requires Inv(s)
    ensures forall u :: u in s.pc && s.pc[u].Linking? ==> s.q.Held(s.pc[u].node)
  {
    hide BothFair, PayloadsIntact, Conserved, Shape;
    ConservedApart(s.q, s.pc);
    forall u | u in s.pc && s.pc[u].Linking? ensures s.q.Held(s.pc[u].node) {
      assert Holds(s.pc[u], s.pc[u].node);
    }
  }

  lemma ResetLinks(s: State, l: Links)
    requires Inv(s) && l.Spell(s.q) && Cleared(l, s.pc)
    ensures NextLinks(s, l, ResetAll).Spell(Next(s, ResetAll).q)
    ensures Cleared(NextLinks(s, l, ResetAll), Next(s, ResetAll).pc)
  {
    hide Inv, Chain, Distinct, Reverse;
    Well(s);
    AllHeld(s);
    SpellFlush(l, s.q);
    FewerCleared(NextLinks(s, l, ResetAll), s.pc, Next(s, ResetAll).pc);
  }

  /** One step of any thread. */
  lemma LinksNext(s: State, l: Links, a: Action)
    requires Inv(s) && l.Spell(s.q) && Cleared(l, s.pc)
    ensures NextLinks(s, l, a).Spell(Next(s, a).q) && Cleared(NextLinks(s, l, a), Next(s, a).pc)
  {
    match a
    case SendRegion(t, elapsed, pos) => SendLinks(s, l, t, elapsed, pos);
    case Fill(t) => FillLinks(s, l, t);
    case LinkRegion(t) => LinkLinks(s, l, t);
    case RecvRegion(t, elapsed, pos) => RecvLinks(s, l, t, elapsed, pos);
    case ReleaseRegion(t) => ReleaseLinks(s, l, t);
    case ResetAll => ResetLinks(s, l);
    case _ => OtherLinks(s, l, a);
  }

  lemma OtherLinks(s: State, l: Links, a: Action)
    requires l.Spell(s.q) && Cleared(l, s.pc)
    requires a.StartSend? || a.StartRecv? || a.Drain? || a.Expire?
    ensures NextLinks(s, l, a).Spell(Next(s, a).q) && Cleared(NextLinks(s, l, a), Next(s, a).pc)
  {
    hide Chain;
    FewerCleared(l, s.pc, Next(s, a).pc);
  }

  /** After every interleaving the links spell out the free list and the message list, tail marks
      the end of the latter, and a thread about to link at the tail finds its link cleared. */
  lemma {:induction false} LinksFollow(s: State, l: Links, run: seq<Action>)
    requires Initial(s) && l.Spell(s.q)
    ensures ExecLinks(s, l, run).Spell(Exec(s, run).q) && Cleared(ExecLinks(s, l, run), Exec(s, run).pc)
    decreases |run|
  {
    hide Inv, Chain, Next, NextLinks;
    if run == [] {
    } else {
      var front := run[..|run| - 1];
      LinksFollow(s, l, front);
      ReachableInv(s, front);
      LinksNext(Exec(s, front), ExecLinks(s, l, front), run[|run| - 1]);
    }
  }
}
