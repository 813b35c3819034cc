/**
 The event object: a 32-bit set of flags and a list of threads, each waiting for
 all or any of the flags it asked for, and possibly consuming what it receives.
 */
module Event {
  import opened Ipc
  import opened EventBits

  datatype Code = Ok | Error | Invalid | TimedOut | Suspended

  /** A suspended thread with its event_set and event_info. */
  datatype Waiter = Waiter(tid: Tid, want: Bits, info: Info)

  predicate HasMode(info: Info) { WantsAll(info) || WantsAny(info) }

  /** The test that both rt_event_send and rt_event_recv apply; AND wins over OR. */
  predicate Met(want: Bits, info: Info, flags: Bits) {
    if WantsAll(info) then Common(want, flags) == want
    else WantsAny(info) && Common(want, flags) != NONE
  }

  /** AND asks for all of the flags, OR for some flag that is wanted and set. */
  lemma MetIs(want: Bits, info: Info, flags: Bits)
    ensures WantsAll(info) ==> (Met(want, info, flags) <==> Subset(want, flags))
    ensures !WantsAll(info) && WantsAny(info) ==>
              (Met(want, info, flags) <==> exists f :: f != NONE && Subset(f, want) && Subset(f, flags))
    ensures !HasMode(info) ==> !Met(want, info, flags)
  {
    hide WantsAll, WantsAny;
    var c := Common(want, flags);
    assert Subset(c, want) && Subset(c, flags);
    forall f | f != NONE && Subset(f, want) && Subset(f, flags) ensures c != NONE { BothParts(f, want, flags); }
  }

  /** What a thread finds in its event_set when it is woken. */
  function Got(w: Waiter, flags: Bits): Bits {
    if WantsAll(w.info) then w.want else Common(w.want, flags)
  }

  /** The flags left after a satisfied thread has taken what it received. */
  function Left(w: Waiter, flags: Bits): Bits {
    if Consumes(w.info) then Minus(flags, Got(w, flags)) else flags
  }

  datatype State = State(flags: Bits, waiters: seq<Waiter>)

  /** A woken thread: what it waited for, the flags at that moment, what it received. */
  datatype Wake = Wake(waiter: Waiter, flags: Bits, got: Bits)

  datatype Outcome = Outcome(state: State, woken: seq<Wake>, code: Code)

  /** The waiter loop of rt_event_send; a waiter with neither AND nor OR stops it. */
  function Scan(flags: Bits, waiters: seq<Waiter>): Outcome
    decreases waiters
  {
    if waiters == [] then Outcome(State(flags, []), [], Ok)
    else
      var w := waiters[0];
      if !HasMode(w.info) then Outcome(State(flags, waiters), [], Invalid)
      else if Met(w.want, w.info, flags) then
        var r := Scan(Left(w, flags), waiters[1..]);
        r.(woken := [Wake(w, flags, Got(w, flags))] + r.woken)
      else
        var r := Scan(flags, waiters[1..]);
        r.(state := r.state.(waiters := [w] + r.state.waiters))
  }

  function AfterSend(s: State, flags: Bits): Outcome {
    if flags == NONE then Outcome(s, [], Error) else Scan(Union(s.flags, flags), s.waiters)
  }

  /** rt_event_recv up to the point where the caller has its flags, has failed or sleeps. */
  function AfterRecv(s: State, t: Tid, want: Bits, info: Info, timeout: int, pos: nat): (State, Code, Bits)
    requires pos <= |s.waiters|
  {
    if want == NONE then (s, Error, NONE)
    else if Met(want, info, s.flags) then
      (s.(flags := if Consumes(info) then Minus(s.flags, want) else s.flags), Ok, Common(s.flags, want))
    else if timeout == 0 then (s, TimedOut, NONE)
    else (s.(waiters := Insert(s.waiters, pos, Waiter(t, want, info))), Suspended, NONE)
  }

  // ---- One send ----

  ghost predicate AllValid(waiters: seq<Waiter>) {
    forall i :: 0 <= i < |waiters| ==> HasMode(waiters[i].info)
  }

  /** No suspended thread could go on with the flags as they are. */
  ghost predicate Quiet(s: State) {
    forall i :: 0 <= i < |s.waiters| ==> !Met(s.waiters[i].want, s.waiters[i].info, s.flags)
  }

  /** Clearing flags can only make a waiting condition false. */
  lemma MetMonotone(want: Bits, info: Info, fewer: Bits, more: Bits)
    requires Subset(fewer, more) && Met(want, info, fewer)
    ensures Met(want, info, more)
  {
    hide WantsAll, WantsAny;
    CommonGrows(want, fewer, more);
  }

  lemma LeftSubset(w: Waiter, flags: Bits)
    ensures Subset(Left(w, flags), flags)
  {
    hide Consumes, Got, Minus, Subset;
    MinusSubset(flags, Got(w, flags));
    SubsetSelf(flags);
  }

  /** The scan only clears flags; if it meets no invalid waiter, nobody is left satisfied. */
  lemma {:induction false} ScanQuiet(flags: Bits, waiters: seq<Waiter>)
    ensures var r := Scan(flags, waiters);
            && Subset(r.state.flags, flags)
            && (r.code.Ok? ==> Quiet(r.state))
            && (r.code.Ok? <==> AllValid(waiters)) && (r.code.Ok? || r.code.Invalid?)
    decreases waiters
  {
    hide Subset, Met, Left, HasMode;
    var r := Scan(flags, waiters);
    SubsetSelf(flags);
    if waiters != [] && HasMode(waiters[0].info) {
      var w := waiters[0];
      var flags' := if Met(w.want, w.info, flags) then Left(w, flags) else flags;
      ScanQuiet(flags', waiters[1..]);
      LeftSubset(w, flags);
      SubsetTrans(r.state.flags, flags', flags);
      assert AllValid(waiters) <==> AllValid(waiters[1..]) by {
        assert forall i :: 1 <= i < |waiters| ==> waiters[1..][i - 1] == waiters[i];
      }
      if !Met(w.want, w.info, flags) && Met(w.want, w.info, r.state.flags) {
        MetMonotone(w.want, w.info, r.state.flags, flags);
        assert false;
      }
    }
  }

  /** Every woken thread had its condition met by the flags of that moment and received
      exactly its share of them. */
  lemma {:induction false} ScanWakes(flags: Bits, waiters: seq<Waiter>)
    ensures AllProper(Scan(flags, waiters).woken, flags)
    decreases waiters
  {
    hide Subset, Met, Left, HasMode, Got, Common;
    if waiters != [] && HasMode(waiters[0].info) {
      var w := waiters[0];
      var met := Met(w.want, w.info, flags);
      var flags' := if met then Left(w, flags) else flags;
      var r, r' := Scan(flags, waiters), Scan(flags', waiters[1..]);
      ScanWakes(flags', waiters[1..]);
      LeftSubset(w, flags);
      SubsetSelf(flags);
      forall k | 0 <= k < |r'.woken| ensures Proper(r'.woken[k], flags) {
        assert Proper(r'.woken[k], flags');
        SubsetTrans(r'.woken[k].flags, flags', flags);
      }
      if met {
        GotShare(w, flags);
        assert r.woken == [Wake(w, flags, Got(w, flags))] + r'.woken;
      } else {
        assert r.woken == r'.woken;
      }
    }
  }

  /** Nobody is lost or woken twice. */
  lemma {:induction false} ScanCounts(flags: Bits, waiters: seq<Waiter>)
    ensures var r := Scan(flags, waiters);
            multiset(r.state.waiters) + multiset(Woken(r.woken)) == multiset(waiters)
    decreases waiters
  {
    hide Met, Left, HasMode, Got;
    if waiters != [] && HasMode(waiters[0].info) {
      var w := waiters[0];
      assert waiters == [w] + waiters[1..];
      ScanCounts(if Met(w.want, w.info, flags) then Left(w, flags) else flags, waiters[1..]);
    }
  }

  ghost predicate Proper(k: Wake, flags: Bits) {
    && Subset(k.flags, flags) && Met(k.waiter.want, k.waiter.info, k.flags)
    && k.got == Common(k.waiter.want, k.flags)
  }

  ghost predicate AllProper(ks: seq<Wake>, flags: Bits) {
    forall k :: 0 <= k < |ks| ==> Proper(ks[k], flags)
  }

  function Woken(ks: seq<Wake>): seq<Waiter> {
    if ks == [] then [] else [ks[0].waiter] + Woken(ks[1..])
  }

  lemma GotShare(w: Waiter, flags: Bits)
    requires Met(w.want, w.info, flags)
    ensures Got(w, flags) == Common(w.want, flags)
  {
  }

  ghost predicate Once(ks: seq<Wake>, left: Bits) {
    && (forall i, j :: 0 <= i < j < |ks| && Consumes(ks[i].waiter.info) ==> Common(ks[i].got, ks[j].got) == NONE)
    && (forall i :: 0 <= i < |ks| && Consumes(ks[i].waiter.info) ==> Common(ks[i].got, left) == NONE)
  }

  /** A consumed flag is delivered once: a thread that clears what it receives leaves nothing
      of it to any thread woken after it, nor in the event. */
  lemma {:induction false} DeliveredOnce(flags: Bits, waiters: seq<Waiter>)
    ensures Once(Scan(flags, waiters).woken, Scan(flags, waiters).state.flags)
    decreases waiters
  {
    hide Subset, Met, Left, HasMode, Got, Common, Consumes;
    var r := Scan(flags, waiters);
    if waiters != [] && HasMode(waiters[0].info) {
      var w := waiters[0];
      if !Met(w.want, w.info, flags) {
        DeliveredOnce(flags, waiters[1..]);
        assert r.woken == Scan(flags, waiters[1..]).woken;
      } else {
        var rest := Left(w, flags);
        var r' := Scan(rest, waiters[1..]);
        DeliveredOnce(rest, waiters[1..]);
        ScanWakes(rest, waiters[1..]);
        ScanQuiet(rest, waiters[1..]);
        if Consumes(w.info) {
          var g := Got(w, flags);
          assert rest == Minus(flags, g) by { LeftIs(w, flags); }
          forall j | 0 <= j < |r'.woken| ensures Common(g, r'.woken[j].got) == NONE {
            assert Proper(r'.woken[j], rest);
            Disjoint(g, flags, r'.woken[j].flags);
            DisjointPart(g, r'.woken[j].waiter.want, r'.woken[j].flags);
          }
          Disjoint(g, flags, r'.state.flags);
        }
      }
    }
  }

  lemma LeftIs(w: Waiter, flags: Bits)
    requires Consumes(w.info)
    ensures Left(w, flags) == Minus(flags, Got(w, flags))
  {
  }

  /** A thread that arrives after the flags gets what it would have been woken with. */
  lemma RecvLikeSend(s: State, t: Tid, want: Bits, info: Info, timeout: int, pos: nat)
    requires pos <= |s.waiters| && want != NONE && Met(want, info, s.flags)
    ensures var w := Waiter(t, want, info);
            AfterRecv(s, t, want, info, timeout, pos) == (s.(flags := Left(w, s.flags)), Ok, Got(w, s.flags))
  {
    hide Common, Minus, WantsAll, WantsAny, Consumes;
    ClearsAgree(want, s.flags);
    CommonSwap(s.flags, want);
  }

  // ---- What each call does to the flags and the list ----

  /** The flags received by woken threads that consume what they receive. */
  function Consumed(ks: seq<Wake>): Bits {
    if ks == [] then NONE
    else if Consumes(ks[0].waiter.info) then Union(ks[0].got, Consumed(ks[1..]))
    else Consumed(ks[1..])
  }

  /** No flag is lost or made up by the loop: what is left and what was consumed is what there was. */
  lemma {:induction false} ScanConserves(flags: Bits, waiters: seq<Waiter>)
    ensures var r := Scan(flags, waiters); Union(r.state.flags, Consumed(r.woken)) == flags
    decreases waiters
  {
    hide Met, HasMode, Got, Common, Union, Minus, Consumes, Subset;
    var r := Scan(flags, waiters);
    UnionSwap(flags, NONE, NONE);
    if waiters != [] && HasMode(waiters[0].info) {
      var w := waiters[0];
      if Met(w.want, w.info, flags) {
        var g, rest := Got(w, flags), Left(w, flags);
        var r' := Scan(rest, waiters[1..]);
        ScanConserves(rest, waiters[1..]);
        assert r.woken[0] == Wake(w, flags, g) && r.woken[1..] == r'.woken;
        if Consumes(w.info) {
          GotShare(w, flags);
          CommonPart(w.want, flags);
          TakenAndLeft(flags, g);
          UnionSwap(r'.state.flags, g, Consumed(r'.woken));
        }
      } else {
        ScanConserves(flags, waiters[1..]);
      }
    }
  }

  /** rt_event_send adds the flags to those already set; those and only those are then left in the
      event or consumed, and what a woken thread receives is part of them. */
  lemma SendConserves(s: State, sent: Bits)
    ensures var r := AfterSend(s, sent);
            && (sent == NONE ==> r == Outcome(s, [], Error))
            && (sent != NONE ==>
                  && Union(r.state.flags, Consumed(r.woken)) == Union(s.flags, sent)
                  && AllProper(r.woken, Union(s.flags, sent))
                  && (s.waiters == [] ==> r == Outcome(State(Union(s.flags, sent), []), [], Ok)))
  {
    hide Union, Consumed;
    ScanConserves(Union(s.flags, sent), s.waiters);
    ScanWakes(Union(s.flags, sent), s.waiters);
  }

  /** The flags when the loop comes to waiter k, what it has woken and whom it has left by then. */
  function FlagsAt(flags: Bits, waiters: seq<Waiter>, k: nat): Bits
    requires k <= |waiters|
  {
    if k == 0 then flags
    else
      var f, w := FlagsAt(flags, waiters, k - 1), waiters[k - 1];
      if Met(w.want, w.info, f) then Left(w, f) else f
  }

  function WokenBy(flags: Bits, waiters: seq<Waiter>, k: nat): seq<Wake>
    requires k <= |waiters|
  {
    if k == 0 then []
    else
      var f, w := FlagsAt(flags, waiters, k - 1), waiters[k - 1];
      WokenBy(flags, waiters, k - 1) + if Met(w.want, w.info, f) then [Wake(w, f, Common(w.want, f))] else []
  }

  function LeftBy(flags: Bits, waiters: seq<Waiter>, k: nat): seq<Waiter>
    requires k <= |waiters|
  {
    if k == 0 then []
    else
      var f, w := FlagsAt(flags, waiters, k - 1), waiters[k - 1];
      LeftBy(flags, waiters, k - 1) + if Met(w.want, w.info, f) then [] else [w]
  }

  /** The flags the loop goes on with after the first waiter. */
  function AfterFirst(flags: Bits, w: Waiter): Bits {
    if Met(w.want, w.info, flags) then Left(w, flags) else flags
  }

  lemma {:induction false} FlagsShift(flags: Bits, waiters: seq<Waiter>, k: nat)
    requires 0 < k <= |waiters|
    ensures FlagsAt(flags, waiters, k) == FlagsAt(AfterFirst(flags, waiters[0]), waiters[1..], k - 1)
  {
    hide Met, Left;
    if k == 1 {
      assert FlagsAt(flags, waiters, 0) == flags;
    } else {
      FlagsShift(flags, waiters, k - 1);
      assert waiters[1..][k - 2] == waiters[k - 1];
    }
  }

  lemma {:induction false} WokenShift(flags: Bits, waiters: seq<Waiter>, k: nat)
    requires 0 < k <= |waiters|
    ensures var w := waiters[0];
            WokenBy(flags, waiters, k) ==
            (if Met(w.want, w.info, flags) then [Wake(w, flags, Common(w.want, flags))] else []) +
            WokenBy(AfterFirst(flags, w), waiters[1..], k - 1)
  {
    hide Met, Left, Common, FlagsAt, AfterFirst;
    if k == 1 {
      FlagsFirst(flags, waiters);
    } else {
      WokenShift(flags, waiters, k - 1);
      FlagsShift(flags, waiters, k - 1);
      assert waiters[1..][k - 2] == waiters[k - 1];
    }
  }

  lemma {:induction false} LeftShift(flags: Bits, waiters: seq<Waiter>, k: nat)
    requires 0 < k <= |waiters|
    ensures var w := waiters[0];
            LeftBy(flags, waiters, k) ==
            (if Met(w.want, w.info, flags) then [] else [w]) + LeftBy(AfterFirst(flags, w), waiters[1..], k - 1)
  {
    hide Met, Left, FlagsAt, AfterFirst;
    if k == 1 {
      FlagsFirst(flags, waiters);
    } else {
      LeftShift(flags, waiters, k - 1);
      FlagsShift(flags, waiters, k - 1);
      assert waiters[1..][k - 2] == waiters[k - 1];
    }
  }

  lemma FlagsFirst(flags: Bits, waiters: seq<Waiter>)
    ensures FlagsAt(flags, waiters, 0) == flags
  {
  }

  /** The loop tests the waiters one after the other against the flags left by those before; it wakes
      those whose test succeeds and leaves the others in order. */
  lemma {:induction false} ScanTurns(flags: Bits, waiters: seq<Waiter>)
    requires AllValid(waiters)
    ensures var n := |waiters|;
            Scan(flags, waiters) ==
            Outcome(State(FlagsAt(flags, waiters, n), LeftBy(flags, waiters, n)), WokenBy(flags, waiters, n), Ok)
    decreases waiters
  {
    hide Met, Left, Common, HasMode, Got;
    if waiters == [] {
    } else {
      var w := waiters[0];
      assert AllValid(waiters[1..]);
      FlagsShift(flags, waiters, |waiters|);
      WokenShift(flags, waiters, |waiters|);
      LeftShift(flags, waiters, |waiters|);
      if Met(w.want, w.info, flags) { GotShare(w, flags); }
      ScanTurns(if Met(w.want, w.info, flags) then Left(w, flags) else flags, waiters[1..]);
    }
  }

  /** rt_event_recv asks for at least one flag; it gets what it asked for if that is there; otherwise it
      fails without waiting or joins the list at its place, and leaves the flags. */
  lemma RecvDecides(s: State, t: Tid, want: Bits, info: Info, timeout: int, pos: nat)
    requires pos <= |s.waiters|
    ensures var (r, code, got) := AfterRecv(s, t, want, info, timeout, pos);
            && (want == NONE ==> code == Error && r == s)
            && (want != NONE && Met(want, info, s.flags) ==>
                  && code == Ok && got == Common(want, s.flags) && r.waiters == s.waiters
                  && (Consumes(info) ==> r.flags == Minus(s.flags, got)) && (!Consumes(info) ==> r.flags == s.flags))
            && (want != NONE && !Met(want, info, s.flags) && timeout == 0 ==> code == TimedOut && r == s)
            && (want != NONE && !Met(want, info, s.flags) && timeout != 0 ==>
                  && code == Suspended && r.flags == s.flags && |r.waiters| == |s.waiters| + 1
                  && r.waiters[pos] == Waiter(t, want, info) && s.waiters == r.waiters[..pos] + r.waiters[pos + 1..])
  {
    hide Met, Consumes, Common, Minus, Insert;
    CommonSwap(s.flags, want);
    ClearsAgree(want, s.flags);
    Joins(s.waiters, pos, Waiter(t, want, info));
  }

  lemma Joins(list: seq<Waiter>, k: nat, w: Waiter)
    requires k <= |list|
    ensures var r := Insert(list, k, w); |r| == |list| + 1 && r[k] == w && list == r[..k] + r[k + 1..]
  {
  }

  /** A timeout takes the thread's entry off the list, the others stay in order. */
  lemma {:induction false} ExpireAt(waiters: seq<Waiter>, k: nat)
    requires k < |waiters| && forall i :: 0 <= i < |waiters| && i != k ==> waiters[i].tid != waiters[k].tid
    ensures Expire(waiters, waiters[k].tid) == waiters[..k] + waiters[k + 1..]
    decreases k
  {
    if k == 0 {
      ExpireNone(waiters[1..], waiters[0].tid);
    } else {
      ExpireAt(waiters[1..], k - 1);
      assert waiters[1..][..k - 1] == waiters[1..k] && waiters[1..][k..] == waiters[k + 1..];
      assert [waiters[0]] + (waiters[1..k] + waiters[k + 1..]) == waiters[..k] + waiters[k + 1..];
    }
  }

  lemma {:induction false} ExpireNone(waiters: seq<Waiter>, t: Tid)
    requires forall i :: 0 <= i < |waiters| ==> waiters[i].tid != t
    ensures Expire(waiters, t) == waiters
  {
    if waiters == [] {
    } else {
      ExpireNone(waiters[1..], t);
    }
  }

  // ---- Every run ----

  datatype Action =
    | SendIt(flags: Bits)
    | RecvIt(t: Tid, want: Bits, info: Info, timeout: int, pos: nat)
    | ExpireIt(t: Tid)
    | ResetIt

  function Expire(waiters: seq<Waiter>, t: Tid): seq<Waiter> {
    if waiters == [] then []
    else if waiters[0].tid == t then Expire(waiters[1..], t)
    else [waiters[0]] + Expire(waiters[1..], t)
  }

  function Next(s: State, a: Action): State {
    match a
    case SendIt(flags) => AfterSend(s, flags).state
    case RecvIt(t, want, info, timeout, pos) =>
      if pos <= |s.waiters| then AfterRecv(s, t, want, info, timeout, pos).0 else s
    case ExpireIt(t) => s.(waiters := Expire(s.waiters, t))
    case ResetIt => State(NONE, [])
  }

  /** A timeout touches the list only, and there one thread only; a reset leaves no flag and nobody. */
  lemma OthersEnd(s: State, t: Tid)
    ensures var r := Next(s, ExpireIt(t));
            && r.flags == s.flags && (forall w :: w in r.waiters <==> w in s.waiters && w.tid != t)
    ensures Next(s, ResetIt).flags == NONE && Next(s, ResetIt).waiters == []
  {
    ExpireMembers(s.waiters, t);
  }

  lemma {:induction false} ExpireMembers(waiters: seq<Waiter>, t: Tid)
    ensures forall w :: w in Expire(waiters, t) <==> w in waiters && w.tid != t
  {
    if waiters == [] {
    } else {
      ExpireMembers(waiters[1..], t);
      assert waiters == [waiters[0]] + waiters[1..];
    }
  }

  function Exec(s: State, run: seq<Action>): State
    decreases |run|
  {
    if run == [] then s else Next(Exec(s, run[..|run| - 1]), run[|run| - 1])
  }

  /** Every receive of the run asks for AND or OR. */
  ghost predicate ProperRun(run: seq<Action>) {
    forall i :: 0 <= i < |run| && run[i].RecvIt? ==> HasMode(run[i].info)
  }

  lemma RecvKeeps(s: State, t: Tid, want: Bits, info: Info, timeout: int, pos: nat)
    requires Quiet(s) && AllValid(s.waiters) && pos <= |s.waiters| && HasMode(info)
    ensures var s' := AfterRecv(s, t, want, info, timeout, pos).0;
            Quiet(s') && AllValid(s'.waiters)
  {
    hide Subset, Met, Minus, HasMode;
    var s' := AfterRecv(s, t, want, info, timeout, pos).0;
    var f := s.flags;
    MinusSubset(f, want);
    SubsetSelf(f);
    if s'.waiters == s.waiters {
      forall i | 0 <= i < |s.waiters| ensures !Met(s.waiters[i].want, s.waiters[i].info, s'.flags) {
        if Met(s.waiters[i].want, s.waiters[i].info, s'.flags) {
          MetMonotone(s.waiters[i].want, s.waiters[i].info, s'.flags, f);
          assert false;
        }
      }
    }
  }

  lemma {:induction false} ExpireKeeps(waiters: seq<Waiter>, t: Tid, flags: Bits)
    requires Quiet(State(flags, waiters)) && AllValid(waiters)
    ensures Quiet(State(flags, Expire(waiters, t))) && AllValid(Expire(waiters, t))
  {
    if waiters == [] {
    } else {
      assert waiters == [waiters[0]] + waiters[1..];
      assert Quiet(State(flags, waiters[1..])) && AllValid(waiters[1..]);
      ExpireKeeps(waiters[1..], t, flags);
    }
  }

  lemma {:induction false} ScanValid(flags: Bits, waiters: seq<Waiter>)
    requires AllValid(waiters)
    ensures AllValid(Scan(flags, waiters).state.waiters)
    decreases waiters
  {
    if waiters != [] {
      var w := waiters[0];
      assert AllValid(waiters[1..]);
      ScanValid(if Met(w.want, w.info, flags) then Left(w, flags) else flags, waiters[1..]);
    }
  }

  /** Quiescence: after every step of every proper run from a quiet state, such as the initial one,
      no suspended thread is satisfied. */
  lemma {:induction false} AlwaysQuiet(s: State, run: seq<Action>)
    requires Quiet(s) && AllValid(s.waiters) && ProperRun(run)
    ensures Quiet(Exec(s, run)) && AllValid(Exec(s, run).waiters)
    decreases |run|
  {
    if run == [] {
    } else {
      var before := Exec(s, run[..|run| - 1]);
      AlwaysQuiet(s, run[..|run| - 1]);
      match run[|run| - 1]
      case SendIt(flags) =>
        ScanQuiet(Union(before.flags, flags), before.waiters);
        ScanValid(Union(before.flags, flags), before.waiters);
      case RecvIt(t, want, info, timeout, pos) =>
        if pos <= |before.waiters| { RecvKeeps(before, t, want, info, timeout, pos); }
      case ExpireIt(t) => ExpireKeeps(before.waiters, t, before.flags);
      case ResetIt =>
    }
  }

  // ---- Receives with neither AND nor OR ----

  const ONE: Bits := Bits(1)
  const TAKE: Info := Info(6)

  lemma OneFacts(f: Bits)
    ensures HasMode(OR) && HasMode(TAKE) && ONE != NONE && Union(NONE, ONE) == ONE
    ensures !Met(ONE, OR, NONE) && Met(ONE, OR, ONE)
    ensures Subset(f, ONE) ==> f == NONE || f == ONE
    ensures f != NONE ==> Met(f, TAKE, f)
    ensures Consumes(TAKE) && Minus(f, f) == NONE
  {
  }

  /** A send that meets w, which has no mode, leaves w and what is behind it; whatever was consumed
      went to threads before w that are woken. */
  lemma {:induction false} ScanTo(flags: Bits, front: seq<Waiter>, w: Waiter, back: seq<Waiter>)
    returns (left: seq<Waiter>)
    requires AllValid(front) && !HasMode(w.info)
    ensures var s := Scan(flags, front + [w] + back).state;
            && s.waiters == left + [w] + back && AllValid(left) && |left| <= |front|
            && (s.flags != flags ==> |left| < |front|)
    decreases front
  {
    hide HasMode, Met, Left;
    var all := front + [w] + back;
    if front == [] {
      left := [];
      assert all[0] == w;
    } else {
      var v, rest := front[0], front[1..];
      assert all[0] == v && all[1..] == rest + [w] + back;
      assert HasMode(v.info) && AllValid(rest);
      if Met(v.want, v.info, flags) {
        left := ScanTo(Left(v, flags), rest, w, back);
      } else {
        left := ScanTo(flags, rest, w, back);
        left := [v] + left;
        assert left + [w] + back == [v] + (left[1..] + [w] + back);
      }
    }
  }

  lemma {:induction false} ExecAfter(s: State, a: Action, run: seq<Action>)
    ensures Exec(Next(s, a), run) == Exec(s, [a] + run)
    decreases |run|
  {
    var all := [a] + run;
    if run == [] {
      assert all[..0] == [] && Exec(s, all[..0]) == s && all == [a];
    } else {
      ExecAfter(s, a, run[..|run| - 1]);
      assert all[..|all| - 1] == [a] + run[..|run| - 1];
    }
  }

  lemma ProperMore(a: Action, run: seq<Action>)
    requires ProperRun(run) && (a.RecvIt? ==> HasMode(a.info))
    ensures ProperRun([a] + run)
  {
  }

  /** With a thread behind w that waits for one flag, sends of that flag wake the threads before w
      that would consume it, one by one, until the flag is left set and that thread asleep. */
  lemma {:induction false} Starve(front: seq<Waiter>, w: Waiter, back: seq<Waiter>) returns (run: seq<Action>)
    requires AllValid(front) && !HasMode(w.info)
    requires back != [] && back[|back| - 1].want == ONE && back[|back| - 1].info == OR
    ensures ProperRun(run) && !Quiet(Exec(State(NONE, front + [w] + back), run))
    decreases |front|
  {
    hide HasMode, Met, Scan, Exec, Subset, Union;
    var s := State(NONE, front + [w] + back);
    var send := SendIt(ONE);
    OneFacts(ONE);
    var left := ScanTo(ONE, front, w, back);
    ScanQuiet(ONE, s.waiters);
    var next := Next(s, send);
    OneFacts(next.flags);
    var rest := [];
    if next.flags == ONE {
      StillAsleep(next, left + [w], back);
    } else {
      rest := Starve(left, w, back);
    }
    run := [send] + rest;
    ExecAfter(s, send, rest);
    ProperMore(send, rest);
  }

  lemma StillAsleep(s: State, front: seq<Waiter>, back: seq<Waiter>)
    requires s.waiters == front + back && s.flags == ONE
    requires back != [] && back[|back| - 1].want == ONE && back[|back| - 1].info == OR
    ensures !Quiet(s) && Exec(s, []) == s
  {
    assert s.waiters[|s.waiters| - 1] == back[|back| - 1];
    OneFacts(ONE);
  }

  /** The assertion that guards the option is compiled out: in any state, a receive with neither
      AND nor OR that sleeps makes some proper run leave a thread asleep though its flags are set. */
  lemma BadOptionStarves(s: State, t: Tid, want: Bits, info: Info, timeout: int, pos: nat) returns (run: seq<Action>)
    requires AllValid(s.waiters) && pos <= |s.waiters| && !HasMode(info) && want != NONE && timeout != 0
    ensures ProperRun(run) && !Quiet(Exec(Next(s, RecvIt(t, want, info, timeout, pos)), run))
  {
    hide Exec, HasMode;
    var w := Waiter(t, want, info);
    var s1 := Next(s, RecvIt(t, want, info, timeout, pos));
    var front, back := s.waiters[..pos], s.waiters[pos..];
    assert s1 == State(s.flags, front + [w] + back) by { NoModeNotMet(want, info, s.flags); }
    var drain, join := RecvIt(0, s.flags, TAKE, 0, 0), RecvIt(0, ONE, OR, -1, |s1.waiters|);
    var u := Waiter(0, ONE, OR);
    OneFacts(s.flags);
    var s2 := Next(s1, drain);
    assert s2 == State(NONE, s1.waiters);
    var s3 := Next(s2, join);
    assert s3 == State(NONE, front + [w] + (back + [u]));
    var rest := Starve(front, w, back + [u]);
    ExecAfter(s2, join, rest);
    ExecAfter(s1, drain, [join] + rest);
    ProperMore(join, rest);
    ProperMore(drain, [join] + rest);
    run := [drain] + ([join] + rest);
  }

  lemma NoModeNotMet(want: Bits, info: Info, flags: Bits)
    requires !HasMode(info)
    ensures !Met(want, info, flags)
  {
  }

  /** A receive leaves a quiet event quiet in all proper runs that follow exactly if it asks for AND
      or OR, or would not sleep anyway. */
  lemma QuietExactly(s: State, t: Tid, want: Bits, info: Info, timeout: int, pos: nat)
    requires Quiet(s) && AllValid(s.waiters) && pos <= |s.waiters|
    ensures (HasMode(info) || want == NONE || timeout == 0) <==>
              forall run :: ProperRun(run) ==> Quiet(Exec(Next(s, RecvIt(t, want, info, timeout, pos)), run))
  {
    hide Quiet, Exec, HasMode, AllValid, Met;
    var s' := Next(s, RecvIt(t, want, info, timeout, pos));
    if HasMode(info) || want == NONE || timeout == 0 {
      if HasMode(info) { RecvKeeps(s, t, want, info, timeout, pos); } else { NoModeNotMet(want, info, s.flags); }
      forall run | ProperRun(run) ensures Quiet(Exec(s', run)) { AlwaysQuiet(s', run); }
    } else {
      var run := BadOptionStarves(s, t, want, info, timeout, pos);
    }
  }

  // ---- The object ----

  /** The waiters a list of threads stands for, given the threads' event_set and event_info. */
  function Waiters(list: seq<Tid>, wants: seq<Bits>, infos: seq<Info>): (r: seq<Waiter>)
    requires |wants| == |infos| && forall i :: 0 <= i < |list| ==> list[i] < |wants|
    ensures |r| == |list|
    ensures forall i :: 0 <= i < |list| ==> r[i] == Waiter(list[i], wants[list[i]], infos[list[i]])
  {
    seq(|list|, i requires 0 <= i < |list| => Waiter(list[i], wants[list[i]], infos[list[i]]))
  }

  /** The scan that ends with `goal` has passed the first n of the threads still listed. */
  ghost predicate Progress(goal: Outcome, ws: seq<Waiter>, n: nat, woken: seq<Wake>, flags: Bits) {
    && n <= |ws|
    && var r := Scan(flags, ws[n..]);
       goal == Outcome(r.state.(waiters := ws[..n] + r.state.waiters), woken + r.woken, r.code)
  }

  /** One turn of the scan. */
  lemma ProgressTurn(goal: Outcome, ws: seq<Waiter>, n: nat, woken: seq<Wake>, flags: Bits)
    requires Progress(goal, ws, n, woken, flags) && n < |ws| && HasMode(ws[n].info)
    ensures if Met(ws[n].want, ws[n].info, flags)
            then Progress(goal, ws[..n] + ws[n + 1..], n, woken + [Wake(ws[n], flags, Got(ws[n], flags))],
                          Left(ws[n], flags))
            else Progress(goal, ws, n + 1, woken, flags)
  {
    hide Met, Got, Left, HasMode;
    var w, tail := ws[n], ws[n + 1..];
    assert ws[n..][1..] == tail;
    if Met(w.want, w.info, flags) {
      var ws', k := ws[..n] + tail, [Wake(w, flags, Got(w, flags))];
      assert ws'[..n] == ws[..n] && ws'[n..] == tail;
      var r := Scan(Left(w, flags), tail);
      assert Scan(flags, ws[n..]) == r.(woken := k + r.woken);
      assert woken + (k + r.woken) == woken + k + r.woken;
    } else {
      var r := Scan(flags, tail);
      assert Scan(flags, ws[n..]) == r.(state := r.state.(waiters := [w] + r.state.waiters));
      assert ws[..n + 1] == ws[..n] + [w];
      assert ws[..n] + ([w] + r.state.waiters) == ws[..n + 1] + r.state.waiters;
    }
  }

  /** The scan starts at the head of the list and ends at its tail or at an invalid waiter. */
  lemma ProgressEnds(goal: Outcome, ws: seq<Waiter>, n: nat, woken: seq<Wake>, flags: Bits)
    requires n <= |ws|
    ensures n == 0 && woken == [] ==> (Progress(goal, ws, n, woken, flags) <==> goal == Scan(flags, ws))
    ensures n == |ws| && Progress(goal, ws, n, woken, flags) ==> goal == Outcome(State(flags, ws), woken, Ok)
    ensures n < |ws| && !HasMode(ws[n].info) && Progress(goal, ws, n, woken, flags) ==>
              goal == Outcome(State(flags, ws), woken, Invalid)
  {
    hide HasMode;
    assert ws == ws[..n] + ws[n..];
    assert n == 0 ==> ws[n..] == ws;
  }

  /** Removing thread n of a list removes its waiter, whatever became of its own fields. */
  lemma WaitersRemove(list: seq<Tid>, n: nat, wants: seq<Bits>, wants': seq<Bits>, infos: seq<Info>)
    requires |wants| == |wants'| == |infos| && (forall i :: 0 <= i < |list| ==> list[i] < |wants|)
    requires n < |list| && Distinct(list)
    requires forall t :: 0 <= t < |wants| && t != list[n] ==> wants'[t] == wants[t]
    ensures var list' := list[..n] + list[n + 1..];
            && Distinct(list') && list[n] !in list'
            && (forall i :: 0 <= i < |list'| ==> list'[i] < |wants|)
            && var ws := Waiters(list, wants, infos);
               Waiters(list', wants', infos) == ws[..n] + ws[n + 1..]
  {
  }

  /** A thread outside the list fills in its fields and joins the list, or does not. */
  lemma WaitersJoin(list: seq<Tid>, k: nat, t: Tid, wants: seq<Bits>, infos: seq<Info>, want: Bits, info: Info)
    requires |wants| == |infos| && (forall i :: 0 <= i < |list| ==> list[i] < |wants|)
    requires Distinct(list) && t < |wants| && t !in list && k <= |list|
    ensures Distinct(Insert(list, k, t)) && forall i :: 0 <= i <= |list| ==> Insert(list, k, t)[i] < |wants|
    ensures Waiters(list, wants[t := want], infos[t := info]) == Waiters(list, wants, infos)
    ensures Waiters(Insert(list, k, t), wants[t := want], infos[t := info]) ==
            Insert(Waiters(list, wants, infos), k, Waiter(t, want, info))
  {
  }

  class EventObject {
    var flags: Bits
    var waiters: seq<Tid>
    const wants: array<Bits>
    const infos: array<Info>

    ghost predicate Valid()
      reads this, wants, infos
    {
      && wants.Length == infos.Length
      && (forall i :: 0 <= i < |waiters| ==> waiters[i] < wants.Length)
      && Distinct(waiters)
    }

    ghost function Value(): State
      requires Valid()
      reads this, wants, infos
    {
      State(flags, Waiters(waiters, wants[..], infos[..]))
    }

    /** rt_event_init over n threads. */
    constructor (n: nat)
      ensures Valid() && Value() == State(NONE, []) && wants.Length == n && fresh(wants) && fresh(infos)
    {
      flags, waiters := NONE, [];
      wants, infos := new Bits[n](_ => NONE), new Info[n](_ => Info(0));
    }

    /** Test one suspended thread; if it is satisfied, its event_set becomes what it received
        and a consuming thread clears that from the event. */
    method Offer(t: Tid) returns (ok: bool)
      requires t < wants.Length == infos.Length && HasMode(infos[t])
      modifies this`flags, wants
      ensures var w := Waiter(t, old(wants[t]), infos[t]);
              && ok == Met(w.want, w.info, old(flags))
              && flags == (if ok then Left(w, old(flags)) else old(flags))
              && wants[..] == if ok then old(wants[..])[t := Got(w, old(flags))] else old(wants[..])
    {
      hide WantsAll, WantsAny, Consumes, Common, Minus;
      ok := false;
      if WantsAll(infos[t]) {
        ok := Common(wants[t], flags) == wants[t];
      } else if Common(wants[t], flags) != NONE {
        wants[t] := Common(wants[t], flags);
        ok := true;
      }
      if ok && Consumes(infos[t]) {
        flags := Minus(flags, wants[t]);
      }
    }

    /** One turn of the loop of rt_event_send. */
    method Visit(n: nat, ghost done: seq<Wake>) returns (ok: bool, ghost woken: seq<Wake>)
      requires Valid() && n < |waiters| && HasMode(infos[waiters[n]]) && Settled(done)
      modifies this, wants
      ensures Valid()
      ensures var ws := old(Value()).waiters;
              && ok == Met(ws[n].want, ws[n].info, old(flags))
              && flags == (if ok then Left(ws[n], old(flags)) else old(flags))
              && Value().waiters == (if ok then ws[..n] + ws[n + 1..] else ws)
              && woken == (if ok then done + [Wake(ws[n], old(flags), Got(ws[n], old(flags)))] else done)
      ensures Settled(woken)
    {
      hide Met, Left, Got, HasMode;
      woken := done;
      ok := Offer(waiters[n]);
      if ok {
        WaitersRemove(waiters, n, old(wants[..]), wants[..], infos[..]);
        ghost var w := old(Value()).waiters[n];
        woken := done + [Wake(w, old(flags), Got(w, old(flags)))];
        waiters := waiters[..n] + waiters[n + 1..];
      }
    }

    /** rt_event_send: each woken thread leaves the list with what it received in its event_set. */
    method Send(sent: Bits) returns (code: Code, ghost woken: seq<Wake>)
      requires Valid()
      modifies this, wants
      ensures Valid() && Outcome(Value(), woken, code) == AfterSend(old(Value()), sent)
      ensures Settled(woken)
    {
      hide Scan, Waiters, Distinct;
      if sent == NONE {
        return Error, [];
      }
      flags := Union(flags, sent);
      code, woken := ScanAll();
    }

    /** The loop of rt_event_send. */
    method ScanAll() returns (code: Code, ghost woken: seq<Wake>)
      requires Valid()
      modifies this, wants
      ensures Valid() && Outcome(Value(), woken, code) == old(Scan(flags, Value().waiters))
      ensures Settled(woken)
    {
      hide Met, Got, Left, HasMode, Waiters, Distinct, Scan, Progress, Settled;
      ghost var goal := Scan(flags, Value().waiters);
      var n := 0;
      woken := [];
      NoneSettled();
      ProgressEnds(goal, Value().waiters, n, woken, flags);
      while n < |waiters|
        invariant Valid() && n <= |waiters|
        invariant Progress(goal, Value().waiters, n, woken, flags)
        invariant Settled(woken)
        decreases |waiters| - n
      {
        if !HasMode(infos[waiters[n]]) {
          ProgressEnds(goal, Value().waiters, n, woken, flags);
          code := Invalid;
          return;
        }
        ProgressTurn(goal, Value().waiters, n, woken, flags);
        var ok;
        ok, woken := Visit(n, woken);
        if !ok {
          n := n + 1;
        }
      }
      ProgressEnds(goal, Value().waiters, n, woken, flags);
      code := Ok;
    }

    lemma NoneSettled()
      ensures Settled([])
    {
    }

    /** Woken threads have what they received in their event_set and are off the list. */
    ghost predicate Settled(woken: seq<Wake>)
      reads this, wants
    {
      forall k :: 0 <= k < |woken| ==>
        var t := woken[k].waiter.tid;
        t < wants.Length && t !in waiters && wants[t] == woken[k].got
    }

    /** rt_event_recv up to where the caller has its flags, has failed or sleeps. */
    method Recv(t: Tid, want: Bits, info: Info, timeout: int, prio: seq<nat>, p: nat, flag: Flag)
      returns (code: Code, got: Bits, ghost pos: nat)
      requires Valid() && t < wants.Length && t !in waiters && |prio| == |waiters|
      modifies this, wants, infos
      ensures Valid()
      ensures pos <= |old(waiters)| && (Value(), code, got) == AfterRecv(old(Value()), t, want, info, timeout, pos)
      ensures code.Ok? ==> wants[t] == got
      ensures code.Suspended? ==> SuspendsAt(prio, p, flag, pos)
    {
      hide Met, Consumes, Common, Minus, Waiters;
      pos, got := |waiters|, NONE;
      if want == NONE {
        return Error, NONE, pos;
      }
      var met := Met(want, info, flags);
      if met {
        got := Common(flags, want);
        WaitersJoin(waiters, pos, t, wants[..], infos[..], got, info);
        Note(t, got, info);
        if Consumes(info) {
          flags := Minus(flags, want);
        }
        code := Ok;
      } else if timeout == 0 {
        code := TimedOut;
      } else {
        var k := SuspendPosition(prio, p, flag);
        WaitersJoin(waiters, k, t, wants[..], infos[..], want, info);
        Note(t, want, info);
        waiters := Insert(waiters, k, t);
        code, pos := Suspended, k;
      }
    }

    /** Fill in the event fields of a thread. */
    method Note(t: Tid, want: Bits, info: Info)
      requires t < wants.Length == infos.Length
      modifies wants, infos
      ensures wants[..] == old(wants[..])[t := want] && infos[..] == old(infos[..])[t := info]
    {
      wants[t] := want;
      infos[t] := info;
    }
  }
}
