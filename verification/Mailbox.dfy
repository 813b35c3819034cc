/**
 The mailbox: a ring buffer of one-word mails with two lists of suspended threads,
 and the threads that share it.
 */
module Mailbox {
  import opened Ipc

  /** What the region at the head of a call's retry loop decides. */
  datatype Reply = Refused | Blocked | Sent | Received(mail: int)

  /** The value of a mailbox, with one function per critical region. */
  datatype Box = Box(size: nat, mails: seq<int>, receivers: seq<Tid>, senders: seq<Tid>)
  {
    function Send(t: Tid, mail: int, timeout: int, pos: nat): (Box, Reply)
      requires pos <= |senders|
    {
      if |mails| != size then (this.(mails := mails + [mail], receivers := Rest(receivers)), Sent)
      else if timeout == 0 then (this, Refused)
      else (this.(senders := Insert(senders, pos, t)), Blocked)
    }

    function Urgent(mail: int): (Box, Reply) {
      if |mails| != size then (this.(mails := [mail] + mails, receivers := Rest(receivers)), Sent)
      else (this, Refused)
    }

    function Recv(t: Tid, timeout: int, pos: nat): (Box, Reply)
      requires pos <= |receivers|
    {
      if mails != [] then (this.(mails := mails[1..], senders := Rest(senders)), Received(mails[0]))
      else if timeout == 0 then (this, Refused)
      else (this.(receivers := Insert(receivers, pos, t)), Blocked)
    }

    function Reset(): Box {
      Box(size, [], [], [])
    }
  }

  /** The slot that is k places after slot `base` on a ring of n slots. */
  function Slot(base: nat, k: nat, n: nat): (r: nat)
    requires base < n && k <= n
    ensures r < n
  {
    if base + k < n then base + k else base + k - n
  }

  lemma SlotIsModulo(base: nat, k: nat, n: nat)
    requires base < n && k <= n
    ensures Slot(base, k, n) == (base + k) % n
  {
    var x := base + k;
    var q := x / n;
    assert x == n * q + x % n;
    AtMostOneLap(n, q, x % n);
  }

  lemma AtMostOneLap(n: nat, q: int, r: nat)
    requires r < n && 0 <= n * q + r < 2 * n
    ensures q == 0 || q == 1
  {
    assert q >= 2 ==> n * q >= n * 2;
    assert q <= -1 ==> n * q <= n * -1;
  }

  class MailboxRing {
    const size: nat
    const pool: array<int>
    var entry: nat
    var inOffset: nat
    var outOffset: nat
    var receivers: seq<Tid>
    var senders: seq<Tid>
    ghost var mails: seq<int>

    ghost function Value(): Box
      reads this
    {
      Box(size, mails, receivers, senders)
    }

    /** The mails lie on the ring from outOffset on, and inOffset is the slot after them. */
    ghost predicate Valid()
      reads this, pool
    {
      && pool.Length == size <= ENTRY_MAX
      && entry == |mails| <= size
      && (size == 0 ==> inOffset == outOffset == 0)
      && (size > 0 ==> outOffset < size && inOffset == Slot(outOffset, entry, size))
      && (forall i :: 0 <= i < |mails| ==> mails[i] == pool[Slot(outOffset, i, size)])
    }

    /** rt_mb_init. */
    constructor (n: nat)
      requires n <= ENTRY_MAX
      ensures Valid() && fresh(pool) && Value() == Box(n, [], [], [])
    {
      size := n;
      pool := new int[n];
      entry, inOffset, outOffset := 0, 0, 0;
      receivers, senders, mails := [], [], [];
    }

    /** rt_mb_send_wait from its loop test to the end of the region it leads to.
        The overflow branch of the entry counter cannot be taken. */
    method Send(t: Tid, mail: int, timeout: int, prio: seq<nat>, p: nat, flag: Flag)
      returns (r: Reply, woken: Option<Tid>, ghost pos: nat)
      requires Valid() && |prio| == |senders|
      modifies this, pool
      ensures Valid()
      ensures pos <= |old(senders)| && (Value(), r) == old(Value()).Send(t, mail, timeout, pos)
      ensures r.Blocked? ==> SuspendsAt(prio, p, flag, pos)
      ensures woken == if r.Sent? then First(old(receivers)) else None
    {
      pos, woken := |senders|, None;
      if entry == size {
        if timeout == 0 {
          r := Refused;
        } else {
          var k := SuspendPosition(prio, p, flag);
          senders := Insert(senders, k, t);
          r, pos := Blocked, k;
        }
        return;
      }
      pool[inOffset] := mail;
      inOffset := inOffset + 1;
      if inOffset >= size {
        inOffset := 0;
      }
      if entry < ENTRY_MAX {
        entry := entry + 1;
      } else {
        assert false;
      }
      mails := mails + [mail];
      woken := WakeReceiver();
      r := Sent;
    }

    /** rt_mb_urgent. */
    method Urgent(mail: int) returns (r: Reply, woken: Option<Tid>)
      requires Valid()
      modifies this, pool
      ensures Valid() && (Value(), r) == old(Value()).Urgent(mail)
      ensures woken == if r.Sent? then First(old(receivers)) else None
    {
      if entry == size {
        return Refused, None;
      }
      if outOffset > 0 {
        outOffset := outOffset - 1;
      } else {
        outOffset := size - 1;
      }
      pool[outOffset] := mail;
      entry := entry + 1;
      mails := [mail] + mails;
      forall i | 0 <= i < |mails| ensures mails[i] == pool[Slot(outOffset, i, size)] {
        if i > 0 {
          assert Slot(outOffset, i, size) == Slot(old(outOffset), i - 1, size) != outOffset;
          assert mails[i] == old(mails)[i - 1];
        }
      }
      woken := WakeReceiver();
      r := Sent;
    }

    method WakeReceiver() returns (woken: Option<Tid>)
      modifies this`receivers
      ensures receivers == Rest(old(receivers)) && woken == First(old(receivers))
    {
      woken := First(receivers);
      receivers := Rest(receivers);
    }

    /** rt_mb_recv from its loop test to the end of the region it leads to. */
    method Recv(t: Tid, timeout: int, prio: seq<nat>, p: nat, flag: Flag)
      returns (r: Reply, woken: Option<Tid>, ghost pos: nat)
      requires Valid() && |prio| == |receivers|
      modifies this, pool
      ensures Valid()
      ensures pos <= |old(receivers)| && (Value(), r) == old(Value()).Recv(t, timeout, pos)
      ensures r.Blocked? ==> SuspendsAt(prio, p, flag, pos)
      ensures woken == if r.Received? then First(old(senders)) else None
    {
      pos, woken := |receivers|, None;
      if entry == 0 {
        if timeout == 0 {
          r := Refused;
        } else {
          var k := SuspendPosition(prio, p, flag);
          receivers := Insert(receivers, k, t);
          r, pos := Blocked, k;
        }
        return;
      }
      r := Received(pool[outOffset]);
      outOffset := outOffset + 1;
      if outOffset >= size {
        outOffset := 0;
      }
      entry := entry - 1;
      mails := mails[1..];
      woken := First(senders);
      senders := Rest(senders);
    }

    /** rt_mb_control with RT_IPC_CMD_RESET. */
    method Reset()
      requires Valid()
      modifies this
      ensures Valid() && Value() == old(Value()).Reset()
    {
      receivers, senders := [], [];
      entry, inOffset, outOffset := 0, 0, 0;
      mails := [];
    }
  }
}
