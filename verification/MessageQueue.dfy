/**
 The message queue object: a pool of fixed-size slots threaded onto a free list
 and a message list by in-place links, and two lists of suspended threads.

 `Queue` is the value of the object and has one function per critical region;
 class `Mq` performs each region on the links themselves.
 */
module MessageQueue {
  import opened Ipc

  /** RT_NULL for a slot link. */
  const NULL: int := -1

  /** What the region at the head of a blocking call's retry loop decides. */
  datatype Outcome = Refused | Blocked | Got(node: nat)

  datatype Queue = Queue(max: nat, free: seq<nat>, queue: seq<nat>, entry: nat,
                         receivers: seq<Tid>, senders: seq<Tid>)
  {
    /** The two lists hold each slot at most once. */
    ghost predicate Apart() {
      && Distinct(free) && Distinct(queue)
      && (forall n :: n in free ==> n < max && n !in queue)
      && (forall n :: n in queue ==> n < max)
    }

    ghost predicate WellFormed() {
      max <= ENTRY_MAX && Apart() && entry == |queue|
    }

    /** A slot in the hands of a thread that is copying into or out of it. */
    predicate Held(n: nat) {
      n < max && n !in free && n !in queue
    }

    /** Send: claim a free slot, or sleep, or give up. */
    function SendTest(t: Tid, timeout: int, pos: nat): (Queue, Outcome)
      requires pos <= |senders|
    {
      if free != [] then (this.(free := free[1..]), Got(free[0]))
      else if timeout == 0 then (this, Refused)
      else (this.(senders := Insert(senders, pos, t)), Blocked)
    }

    /** Link a filled slot at the tail, or at the head when urgent, and wake a receiver. */
    function Link(n: nat, urgent: bool): Queue {
      this.(queue := if urgent then [n] + queue else queue + [n],
            entry := entry + 1,
            receivers := Rest(receivers))
    }

    /** Receive: unlink the head slot, or sleep, or give up. */
    function RecvTest(t: Tid, timeout: int, pos: nat): (Queue, Outcome)
      requires pos <= |receivers|
      requires entry > 0 ==> queue != []
    {
      if entry > 0 then (this.(queue := queue[1..], entry := entry - 1), Got(queue[0]))
      else if timeout == 0 then (this, Refused)
      else (this.(receivers := Insert(receivers, pos, t)), Blocked)
    }

    /** Give an emptied slot back and wake a sender. */
    function Release(n: nat): Queue {
      this.(free := [n] + free, senders := Rest(senders))
    }

    /** RT_IPC_CMD_RESET: wake everybody with an error, empty the message list. */
    function Reset(): Queue {
      this.(free := Reverse(queue) + free, queue := [], entry := 0, receivers := [], senders := [])
    }
  }

  function Reverse(s: seq<nat>): seq<nat> {
    if s == [] then [] else Reverse(s[1..]) + [s[0]]
  }

  /** The slots 0 .. n-1 in the order rt_mq_init leaves them on the free list. */
  function InitialFree(n: nat): seq<nat> {
    if n == 0 then [] else [n - 1] + InitialFree(n - 1)
  }

  lemma {:induction false} InitialFreeAt(n: nat)
    ensures |InitialFree(n)| == n && forall i :: 0 <= i < n ==> InitialFree(n)[i] == n - 1 - i
  {
    if n == 0 {
    } else {
      InitialFreeAt(n - 1);
    }
  }

  lemma InitialFreeAll(n: nat)
    ensures Distinct(InitialFree(n))
    ensures forall k: nat :: k in InitialFree(n) <==> k < n
    ensures |InitialFree(n)| == n && forall i :: 0 <= i < n ==> InitialFree(n)[i] == n - 1 - i
  {
    hide InitialFree;
    InitialFreeAt(n);
    forall k: nat | k < n ensures k in InitialFree(n) { assert InitialFree(n)[n - 1 - k] == k; }
  }

  /** Distinct slots below max that leave one out are fewer than max. */
  lemma FewerThan(s: seq<nat>, max: nat, out: nat)
    requires Distinct(s) && (forall n :: n in s ==> n < max) && out < max && out !in s
    ensures |s| < max
  {
    Pigeonhole([out] + s, max);
  }

  /** The links of `next` run through exactly the slots of s, from `first` to NULL. */
  ghost predicate Chain(next: seq<int>, first: int, s: seq<nat>)
    decreases s
  {
    if s == [] then first == NULL
    else first == s[0] < |next| && Chain(next, next[first], s[1..])
  }

  /** Writing a link outside the chain leaves the chain alone. */
  lemma {:induction false} ChainFrame(next: seq<int>, first: int, s: seq<nat>, k: nat, v: int)
    requires Chain(next, first, s) && k < |next| && k !in s
    ensures Chain(next[k := v], first, s)
    decreases s
  {
    if s == [] {
    } else {
      ChainFrame(next, next[first], s[1..], k, v);
    }
  }

  lemma ChainPush(next: seq<int>, first: int, s: seq<nat>, n: nat)
    requires Chain(next, first, s) && n < |next| && n !in s
    ensures Chain(next[n := first], n, [n] + s)
  {
    ChainFrame(next, first, s, n, first);
  }

  lemma {:induction false} ChainAppend(next: seq<int>, first: int, s: seq<nat>, n: nat)
    requires Chain(next, first, s) && n < |next| && n !in s && next[n] == NULL && Distinct(s)
    ensures s == [] ==> Chain(next, n, [n])
    ensures s != [] ==> s[|s| - 1] < |next| && Chain(next[s[|s| - 1] := n], first, s + [n])
    decreases s
  {
    if |s| == 1 {
      assert s + [n] == [s[0], n];
      var next' := next[s[0] := n];
      assert Chain(next', n, [n]);
      assert (s + [n])[1..] == [n];
    } else if s != [] {
      ChainAppend(next, next[first], s[1..], n);
      assert (s + [n])[1..] == s[1..] + [n];
    }
  }

  lemma ChainHead(next: seq<int>, first: int, s: seq<nat>)
    requires Chain(next, first, s)
    ensures first == (if s == [] then NULL else s[0])
    ensures s != [] ==> s[0] < |next| && Chain(next, next[s[0]], s[1..])
  {
  }

  // ---- The links of the object ----

  /** The link stored in each slot, and the three pointers into them. */
  datatype Links = Links(next: seq<int>, head: int, tail: int, freeHead: int)
  {
    function At(k: int): int {
      if 0 <= k < |next| then next[k] else NULL
    }

    function Set(k: int, v: int): Links {
      if 0 <= k < |next| then this.(next := next[k := v]) else this
    }

    /** The free list loses its first slot. */
    function Claim(): Links {
      this.(freeHead := At(freeHead))
    }

    /** Slot n, whose link is NULL, becomes the last message. */
    function Append(n: int): Links {
      Set(tail, n).(tail := n, head := if head == NULL then n else head)
    }

    /** Slot n becomes the first message. */
    function Prepend(n: int): Links {
      Set(n, head).(head := n, tail := if tail == NULL then n else tail)
    }

    /** The message list loses its first slot. */
    function Unlink(): Links {
      this.(head := At(head), tail := if tail == head then NULL else tail)
    }

    /** Slot n becomes the first free slot. */
    function PutFree(n: int): Links {
      Set(n, freeHead).(freeHead := n)
    }

    /** Up to k messages go back to the free list, one after the other. */
    function Flush(k: nat): Links
      decreases k
    {
      if k == 0 || head == NULL then this else Unlink().PutFree(head).Flush(k - 1)
    }

    /** The links spell out the two lists, and tail marks the end of one. */
    ghost predicate Spell(q: Queue) {
      && |next| == q.max && Chain(next, freeHead, q.free) && Chain(next, head, q.queue)
      && tail == (if q.queue == [] then NULL else q.queue[|q.queue| - 1])
    }
  }

  /** The slots held by threads keep their links, all but one of them. */
  ghost predicate HeldKeep(q: Queue, was: Links, now: Links, but: int) {
    forall k: nat :: q.Held(k) && k != but ==> now.At(k) == was.At(k)
  }

  lemma ClaimApart(q: Queue)
    requires q.Apart() && q.free != []
    ensures q.(free := q.free[1..]).Apart() && q.(free := q.free[1..]).Held(q.free[0])
  {
    hide Distinct;
    TailDistinct(q.free);
    var rest := q.free[1..];
    assert q.free == [q.free[0]] + rest;
    assert forall k: nat :: k in q.free <==> k == q.free[0] || k in rest;
  }

  lemma SpellClaim(l: Links, q: Queue)
    requires l.Spell(q)
    ensures l.freeHead == (if q.free == [] then NULL else q.free[0]) < |l.next|
    ensures q.free != [] ==> l.Claim().Spell(q.(free := q.free[1..]))
  {
    hide Chain;
    ChainHead(l.next, l.freeHead, q.free);
  }

  /** A link written in a slot in flight. */
  lemma SpellSet(l: Links, q: Queue, n: nat, v: int)
    requires l.Spell(q) && q.Held(n)
    ensures l.Set(n, v).Spell(q) && l.Set(n, v).At(n) == v && HeldKeep(q, l, l.Set(n, v), n)
  {
    hide Chain;
    ChainFrame(l.next, l.freeHead, q.free, n, v);
    ChainFrame(l.next, l.head, q.queue, n, v);
  }

  lemma SpellAppend(l: Links, q: Queue, n: nat)
    requires l.Spell(q) && q.WellFormed() && q.Held(n) && l.At(n) == NULL
    ensures NULL <= l.tail < |l.next| && l.Append(n).Spell(q.Link(n, false)) && HeldKeep(q, l, l.Append(n), NULL)
  {
    hide Chain, Distinct, Queue.Apart, HeldKeep;
    LinkFacts(q, n);
    AppendKeeps(l, q, n);
    ChainHead(l.next, l.head, q.queue);
    ChainAppend(l.next, l.head, q.queue, n);
    if q.queue != [] { ChainFrame(l.next, l.freeHead, q.free, l.tail, n); }
  }

  lemma AppendKeeps(l: Links, q: Queue, n: nat)
    requires l.Spell(q)
    ensures HeldKeep(q, l, l.Append(n), NULL)
  {
    hide Chain;
    if q.queue != [] { assert q.queue[|q.queue| - 1] in q.queue; }
  }

  lemma SpellPrepend(l: Links, q: Queue, n: nat)
    requires l.Spell(q) && q.WellFormed() && q.Held(n)
    ensures l.Prepend(n).Spell(q.Link(n, true)) && HeldKeep(q, l, l.Prepend(n), n)
  {
    hide Chain, Distinct, Queue.Apart;
    ChainHead(l.next, l.head, q.queue);
    ChainPush(l.next, l.head, q.queue, n);
    ChainFrame(l.next, l.freeHead, q.free, n, l.head);
    LastPushed(q.queue, n);
  }

  lemma LastPushed(s: seq<nat>, n: nat)
    ensures var r := [n] + s; r[|r| - 1] == if s == [] then n else s[|s| - 1]
  {
  }

  lemma SpellUnlink(l: Links, q: Queue)
    requires l.Spell(q) && Distinct(q.queue)
    ensures l.head == (if q.queue == [] then NULL else q.queue[0]) < |l.next|
    ensures q.queue != [] ==> l.Unlink().Spell(q.(queue := q.queue[1..]))
  {
    hide Chain;
    ChainHead(l.next, l.head, q.queue);
  }

  lemma SpellPutFree(l: Links, q: Queue, n: nat)
    requires l.Spell(q) && q.Held(n)
    ensures l.PutFree(n).Spell(q.(free := [n] + q.free)) && HeldKeep(q, l, l.PutFree(n), n)
  {
    hide Chain;
    ChainPush(l.next, l.freeHead, q.free, n);
    ChainFrame(l.next, l.head, q.queue, n, l.freeHead);
  }

  lemma MoveApart(q: Queue)
    requires q.Apart() && q.queue != []
    ensures var n, q' := q.queue[0], q.(queue := q.queue[1..], free := [q.queue[0]] + q.free);
            && q'.Apart() && q.(queue := q.queue[1..]).Held(n) && (forall k: nat :: q.Held(k) <==> q'.Held(k))
  {
    hide Distinct;
    var n, rest := q.queue[0], q.queue[1..];
    assert q.queue == [n] + rest;
    TailDistinct(q.queue);
    PushDistinct(q.free, n);
    assert forall k: nat :: k in q.queue <==> k == n || k in rest;
  }

  lemma TailDistinct(s: seq<nat>)
    requires Distinct(s) && s != []
    ensures Distinct(s[1..]) && s[0] !in s[1..]
  {
  }

  /** One message goes back to the free list. */
  lemma SpellMove(l: Links, q: Queue)
    requires l.Spell(q) && q.Apart() && q.queue != []
    ensures var n, q' := q.queue[0], q.(queue := q.queue[1..], free := [q.queue[0]] + q.free);
            && l.head == n && q'.Apart() && l.Unlink().PutFree(n).Spell(q')
            && HeldKeep(q, l, l.Unlink().PutFree(n), NULL) && (forall k: nat :: q.Held(k) <==> q'.Held(k))
  {
    hide Chain;
    var n, rest := q.queue[0], q.(queue := q.queue[1..]);
    MoveApart(q);
    SpellUnlink(l, q);
    SpellPutFree(l.Unlink(), rest, n);
  }

  /** Reset moves every message back to the free list. */
  lemma {:induction false} SpellFlush(l: Links, q: Queue)
    requires l.Spell(q) && q.Apart()
    ensures l.Flush(|q.queue|).Spell(q.Reset()) && l.Flush(|q.queue|).head == NULL
    ensures HeldKeep(q, l, l.Flush(|q.queue|), NULL)
    decreases |q.queue|
  {
    hide Chain, Reverse, Distinct;
    SpellUnlink(l, q);
    if q.queue == [] {
      ReverseEmpty(q.free);
    } else {
      var q' := q.(queue := q.queue[1..], free := [q.queue[0]] + q.free);
      SpellMove(l, q);
      SpellFlush(l.Unlink().PutFree(q.queue[0]), q');
      ReverseStep(q.queue, q.free);
    }
  }

  lemma ReverseStep(q: seq<nat>, free: seq<nat>)
    requires q != []
    ensures Reverse(q) + free == Reverse(q[1..]) + ([q[0]] + free)
  {
  }

  lemma ReverseEmpty(free: seq<nat>)
    ensures Reverse([]) + free == free
  {
  }

  /** A slot that is held can be linked at either end, and there is room for it. */
  lemma LinkFacts(q: Queue, n: nat)
    requires q.WellFormed() && q.Held(n)
    ensures q.Link(n, false).Apart() && q.Link(n, true).Apart()
    ensures n !in q.queue && n !in q.free && Distinct(q.queue) && q.entry < q.max
    ensures q.queue != [] ==> q.queue[|q.queue| - 1] in q.queue && q.queue[|q.queue| - 1] !in q.free
    ensures q.queue == [] ==> q.queue + [n] == [n] == [n] + q.queue
  {
    FewerThan(q.queue, q.max, n);
    if q.queue != [] { assert q.queue[|q.queue| - 1] in q.queue; }
  }

  class Mq {
    const maxMsgs: nat
    const next: array<int>
    var head: int
    var tail: int
    var freeHead: int
    var entry: nat
    var receivers: seq<Tid>
    var senders: seq<Tid>
    ghost var free: seq<nat>
    ghost var queue: seq<nat>

    ghost function Value(): Queue
      reads this
    {
      Queue(maxMsgs, free, queue, entry, receivers, senders)
    }

    ghost function Wiring(): Links
      reads this, next
    {
      Links(next[..], head, tail, freeHead)
    }

    ghost predicate Linked()
      reads this, next
    {
      next.Length == maxMsgs && Value().Apart() && Wiring().Spell(Value())
    }

    ghost predicate Valid()
      reads this, next
    {
      Linked() && Value().WellFormed()
    }

    /** rt_mq_init for a pool that holds max slots. */
    constructor (max: nat)
      requires max <= ENTRY_MAX
      ensures Valid() && fresh(next)
      ensures Value() == Queue(max, InitialFree(max), [], 0, [], [])
    {
      maxMsgs := max;
      next := new int[max];
      head, tail, freeHead, entry := NULL, NULL, NULL, 0;
      receivers, senders := [], [];
      free, queue := [], [];
      new;
      InitialFreeAll(0);
      for temp := 0 to max
        modifies this, next
        invariant next.Length == maxMsgs == max
        invariant free == InitialFree(temp) && Distinct(free) && (forall k: nat :: k in free <==> k < temp)
        invariant Chain(next[..], freeHead, free)
        invariant head == tail == NULL && entry == 0 && queue == [] && receivers == senders == []
      {
        InitialFreeAll(temp + 1);
        ChainPush(next[..], freeHead, free, temp);
        ghost var was := next[..];
        next[temp] := freeHead;
        assert next[..] == was[temp := freeHead];
        freeHead := temp;
        free := [temp] + free;
      }
    }

    /** First region of rt_mq_send_wait and rt_mq_urgent. The position at which the
        thread is suspended follows the flag; prio lists the waiting priorities. */
    method SendTest(t: Tid, timeout: int, prio: seq<nat>, p: nat, flag: Flag)
      returns (r: Outcome, ghost pos: nat)
      requires Valid() && |prio| == |senders|
      modifies this
      ensures Valid()
      ensures pos <= |old(senders)| && (Value(), r) == old(Value()).SendTest(t, timeout, pos)
      ensures Wiring() == if r.Got? then old(Wiring()).Claim() else old(Wiring())
      ensures r.Blocked? ==> SuspendsAt(prio, p, flag, pos)
    {
      hide Chain;
      SpellClaim(Wiring(), Value());
      if free != [] { ClaimApart(Value()); }
      pos := |senders|;
      var msg := freeHead;
      if msg == NULL {
        if timeout == 0 {
          r := Refused;
        } else {
          var k := SuspendPosition(prio, p, flag);
          senders := Insert(senders, k, t);
          r, pos := Blocked, k;
        }
      } else {
        freeHead := next[msg];
        free := free[1..];
        r := Got(msg);
      }
    }

    /** Between the regions of a tail send the new tail's link is cleared. */
    method ClearLink(n: nat)
      requires Valid() && Value().Held(n)
      modifies next
      ensures Valid() && Value() == old(Value()) && Wiring() == old(Wiring()).Set(n, NULL)
      ensures next[n] == NULL && HeldKeep(old(Value()), old(Wiring()), Wiring(), n)
    {
      hide Chain;
      SpellSet(Wiring(), Value(), n, NULL);
      ghost var was := next[..];
      next[n] := NULL;
      assert next[..] == was[n := NULL];
    }

    /** Second region of rt_mq_send_wait. The overflow branch cannot be taken. */
    method LinkTail(n: nat) returns (woken: Option<Tid>)
      requires Valid() && Value().Held(n) && next[n] == NULL
      modifies this, next
      ensures Valid() && Value() == old(Value()).Link(n, false)
      ensures Wiring() == old(Wiring()).Append(n) && HeldKeep(old(Value()), old(Wiring()), Wiring(), NULL)
      ensures woken == First(old(receivers))
    {
      hide Chain, Distinct, Queue.Apart;
      LinkFacts(Value(), n);
      SpellAppend(Wiring(), Value(), n);
      if tail != NULL {
        ghost var was := next[..];
        next[tail] := n;
        assert next[..] == was[tail := n];
      }
      tail := n;
      if head == NULL {
        head := n;
      }
      queue := queue + [n];
      if entry < ENTRY_MAX {
        entry := entry + 1;
      } else {
        assert false;
      }
      woken := WakeReceiver();
    }

    /** Second region of rt_mq_urgent. */
    method LinkHead(n: nat) returns (woken: Option<Tid>)
      requires Valid() && Value().Held(n)
      modifies this, next
      ensures Valid() && Value() == old(Value()).Link(n, true)
      ensures Wiring() == old(Wiring()).Prepend(n) && HeldKeep(old(Value()), old(Wiring()), Wiring(), n)
      ensures woken == First(old(receivers))
    {
      hide Chain, Distinct, Queue.Apart;
      LinkFacts(Value(), n);
      SpellPrepend(Wiring(), Value(), n);
      ghost var was := next[..];
      next[n] := head;
      assert next[..] == was[n := head];
      head := n;
      if tail == NULL {
        tail := n;
      }
      queue := [n] + queue;
      if entry < ENTRY_MAX {
        entry := entry + 1;
      } else {
        assert false;
      }
      woken := WakeReceiver();
    }

    method WakeReceiver() returns (woken: Option<Tid>)
      modifies this`receivers
      ensures receivers == Rest(old(receivers)) && woken == First(old(receivers))
    {
      woken := First(receivers);
      receivers := Rest(receivers);
    }

    /** First region of rt_mq_recv. */
    method RecvTest(t: Tid, timeout: int, prio: seq<nat>, p: nat, flag: Flag)
      returns (r: Outcome, ghost pos: nat)
      requires Valid() && |prio| == |receivers|
      modifies this
      ensures Valid()
      ensures pos <= |old(receivers)| && (Value(), r) == old(Value()).RecvTest(t, timeout, pos)
      ensures Wiring() == if r.Got? then old(Wiring()).Unlink() else old(Wiring())
      ensures r.Blocked? ==> SuspendsAt(prio, p, flag, pos)
    {
      hide Chain;
      pos := |receivers|;
      if entry == 0 {
        if timeout == 0 {
          r := Refused;
        } else {
          var k := SuspendPosition(prio, p, flag);
          receivers := Insert(receivers, k, t);
          r, pos := Blocked, k;
        }
      } else {
        var msg := Unlink();
        entry := entry - 1;
        r := Got(msg);
      }
    }

    /** Take the first message off the list. */
    method Unlink() returns (msg: nat)
      requires Linked() && queue != []
      modifies this`head, this`tail, this`queue
      ensures Linked() && msg == old(queue[0]) && queue == old(queue[1..]) && Value().Held(msg)
      ensures Wiring() == old(Wiring()).Unlink()
    {
      hide Chain;
      assert forall n :: n in queue[1..] ==> n in queue;
      SpellUnlink(Wiring(), Value());
      msg := head;
      head := next[msg];
      if tail == msg {
        tail := NULL;
      }
      queue := queue[1..];
    }

    /** Put a slot on the free list. */
    method PutFree(n: nat)
      requires Linked() && Value().Held(n)
      modifies this`freeHead, this`free, next
      ensures Linked() && free == [n] + old(free)
      ensures Wiring() == old(Wiring()).PutFree(n) && HeldKeep(old(Value()), old(Wiring()), Wiring(), n)
    {
      hide Chain;
      SpellPutFree(Wiring(), Value(), n);
      ghost var was := next[..];
      next[n] := freeHead;
      assert next[..] == was[n := freeHead];
      freeHead := n;
      free := [n] + free;
    }

    /** Second region of rt_mq_recv. */
    method Release(n: nat) returns (woken: Option<Tid>)
      requires Valid() && Value().Held(n)
      modifies this, next
      ensures Valid() && Value() == old(Value()).Release(n)
      ensures Wiring() == old(Wiring()).PutFree(n) && HeldKeep(old(Value()), old(Wiring()), Wiring(), n)
      ensures woken == First(old(senders))
    {
      hide Chain;
      PutFree(n);
      woken := First(senders);
      senders := Rest(senders);
    }

    /** rt_mq_control with RT_IPC_CMD_RESET. */
    method Reset()
      requires Valid()
      modifies this, next
      ensures Valid() && Value() == old(Value()).Reset()
      ensures Wiring() == old(Wiring()).Flush(old(|queue|)) && HeldKeep(old(Value()), old(Wiring()), Wiring(), NULL)
    {
      hide Chain, Reverse, Distinct, Links.Flush, HeldKeep;
      ghost var goal := Wiring().Flush(|queue|);
      ghost var all := Reverse(queue) + free;
      SpellFlush(Wiring(), Value());
      SpellUnlink(Wiring(), Value());
      receivers, senders := [], [];
      while head != NULL
        invariant Linked() && maxMsgs <= ENTRY_MAX && receivers == [] && senders == []
        invariant Reverse(queue) + free == all && goal == Wiring().Flush(|queue|)
        invariant head == (if queue == [] then NULL else queue[0])
        decreases |queue|
      {
        ReverseStep(queue, free);
        FlushStep(Wiring(), |queue|);
        var msg := Unlink();
        PutFree(msg);
        SpellUnlink(Wiring(), Value());
      }
      ReverseEmpty(free);
      FlushNone(Wiring());
      entry := 0;
    }
  }

  lemma FlushNone(l: Links)
    ensures l.Flush(0) == l
  {
  }

  lemma FlushStep(l: Links, k: nat)
    requires k > 0 && l.head != NULL
    ensures l.Flush(k) == l.Unlink().PutFree(l.head).Flush(k - 1)
  {
  }
}
