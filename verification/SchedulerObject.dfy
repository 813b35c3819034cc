/**
 The scheduler as scheduler.c and thread.c keep it, with the bitmap of priorities that have
 ready threads. Each thread remembers which bit of the bitmap is its own.
 */
module SchedulerObject {
  import opened Ipc
  import opened Ffs
  import opened Scheduler
  import opened SchedulerLock

  /** Bit p is set exactly if queue p is not empty. */
  ghost predicate Agrees(group: nat, queues: seq<seq<Tid>>) {
    && group < WORD && |queues| == PRIORITY_MAX
    && forall p :: 0 <= p < PRIORITY_MAX ==> (Bit(group, p) <==> queues[p] != [])
  }

  lemma AgreesSet(group: nat, queues: seq<seq<Tid>>, p: nat, q: seq<Tid>)
    requires Agrees(group, queues) && p < PRIORITY_MAX && q != []
    ensures Agrees(SetBit(group, p), queues[p := q])
  {
    hide Bit, SetBit;
    WordIsPower();
    BitsBelow(group, p, 32);
    forall k | 0 <= k < PRIORITY_MAX ensures Bit(SetBit(group, p), k) <==> queues[p := q][k] != [] {
      SetBitIs(group, p, k);
    }
  }

  lemma AgreesClear(group: nat, queues: seq<seq<Tid>>, p: nat)
    requires Agrees(group, queues) && p < PRIORITY_MAX
    ensures Agrees(ClearBit(group, p), queues[p := []])
  {
    hide Bit, ClearBit;
    WordIsPower();
    BitsBelow(group, p, 32);
    forall k | 0 <= k < PRIORITY_MAX ensures Bit(ClearBit(group, p), k) <==> queues[p := []][k] != [] {
      ClearBitIs(group, p, k);
    }
  }

  lemma AgreesKeep(group: nat, queues: seq<seq<Tid>>, p: nat, q: seq<Tid>)
    requires Agrees(group, queues) && p < PRIORITY_MAX && q != [] && queues[p] != []
    ensures Agrees(group, queues[p := q])
  {
  }

  /** The bitmap finds the most urgent ready priority. */
  lemma TopByBits(group: nat, queues: seq<seq<Tid>>)
    requires Agrees(group, queues)
    ensures group < WORD && (group == 0 <==> Top(queues, 0) == |queues|)
    ensures group != 0 ==> FirstSet(group) - 1 == Top(queues, 0)
  {
    hide Bit, FirstSet;
    FirstSetIs(group);
    var top := Top(queues, 0);
    if top < |queues| { ZeroBits(top); }
  }

  /** With all queues empty and no thread ready, the bitmap is 0. */
  lemma NoneReady(s: State)
    requires |s.queues| == PRIORITY_MAX && |s.stat| == |s.prio|
    requires forall k :: 0 <= k < |s.queues| ==> s.queues[k] == []
    requires forall t :: 0 <= t < |s.stat| ==> s.stat[t] != Ready
    ensures Homes(s) && Agrees(0, s.queues)
  {
    hide Bit;
    forall k | 0 <= k < PRIORITY_MAX ensures !Bit(0, k) { ZeroBits(k); }
    forall k | 0 <= k < |s.queues| ensures Home(s, k) {}
  }

  class SchedulerState {
    const queues: array<seq<Tid>>
    const stat: array<Stat>
    const asks: array<bool>
    const prio: array<nat>
    /** number_mask, as the number of the one bit set in it. */
    const mask: array<nat>
    var group: nat
    var current: Tid
    var lockNest: int

    ghost function Value(): State
      reads this, queues, stat, asks, prio
    {
      State(queues[..], stat[..], asks[..], prio[..], current)
    }

    /** A started thread's mask is the bit of its priority. */
    ghost predicate Masks()
      reads this, stat, prio, mask
    {
      && prio != mask && mask.Length == prio.Length == stat.Length
      && forall t :: 0 <= t < stat.Length && stat[t] != Initial ==> mask[t] == prio[t]
    }

    ghost predicate Sound()
      reads this, queues, stat, asks, prio, mask
    {
      Masks() && Sized(Value()) && Agrees(group, queues[..]) && -NEST_MAX - 1 <= lockNest <= NEST_MAX
    }

    ghost predicate Valid()
      reads this, queues, stat, asks, prio, mask
    {
      Sound() && Inv(Value())
    }

    /** The system once its first thread runs: n threads, all others initialised only. */
    constructor (n: nat, first: Tid, p: nat)
      requires first < n && p < PRIORITY_MAX
      ensures Valid() && current == first && Value().stat == seq(n, _ => Initial)[first := Running]
      ensures fresh(queues) && fresh(stat) && fresh(asks) && fresh(prio) && fresh(mask)
    {
      hide Bit, Agrees, Homes;
      queues := new seq<Tid>[PRIORITY_MAX](_ => []);
      stat := new Stat[n](t => if t == first then Running else Initial);
      asks := new bool[n](_ => false);
      prio := new nat[n](_ => p);
      mask := new nat[n](_ => p);
      group, current, lockNest := 0, first, 0;
      new;
      NoneReady(Value());
    }

    /** rt_schedule_insert_thread. */
    method Insert(t: Tid)
      requires Sound() && t < stat.Length && mask[t] == prio[t]
      modifies this`group, queues, stat
      ensures Sound() && Value() == AfterInsert(old(Value()), t)
    {
      hide Agrees;
      ghost var s, g := Value(), group;
      if t == current {
        stat[t] := Running;
        assert stat[..] == s.stat[t := Running];
      } else {
        AgreesSet(g, s.queues, prio[t], s.queues[prio[t]] + [t]);
        stat[t] := Ready;
        queues[prio[t]] := queues[prio[t]] + [t];
        group := SetBit(group, mask[t]);
        assert stat[..] == s.stat[t := Ready];
        assert queues[..] == s.queues[prio[t] := s.queues[prio[t]] + [t]];
      }
    }

    /** rt_schedule_remove_thread. */
    method Remove(t: Tid)
      requires Sound() && t < stat.Length && mask[t] == prio[t]
      modifies this`group, queues
      ensures Sound() && Value() == AfterRemove(old(Value()), t)
    {
      hide Agrees, Off;
      ghost var s, g := Value(), group;
      var p := prio[t];
      queues[p] := Off(queues[p], t);
      ghost var q := queues[p];
      assert queues[..] == s.queues[p := q];
      if queues[p] == [] {
        AgreesClear(g, s.queues, p);
        group := ClearBit(group, mask[t]);
      } else {
        assert s.queues[p] != [] by { assert q[0] in s.queues[p]; }
        AgreesKeep(g, s.queues, p, q);
      }
    }

    /** Gives the processor to thread `to`; the thread that had it goes back to its queue if it
        was still running. */
    method SwitchTo(to: Tid, back: bool)
      requires Sound() && to < stat.Length && to != current && stat[to] != Initial
      requires back ==> stat[current] == Running
      modifies this`group, this`current, queues, stat
      ensures Sound()
      ensures var s := old(Value());
              Value() == Switch(if back then AfterInsert(s.(current := to), s.current) else s, to)
    {
      hide Agrees, Off;
      var from := current;
      current := to;
      if back { Insert(from); }
      Remove(to);
      ghost var s := Value();
      stat[to] := Running;
      assert stat[..] == s.stat[to := Running];
    }

    /** rt_schedule. */
    method Reschedule()
      requires Valid()
      modifies this`group, this`current, queues, stat, asks
      ensures Valid() && Value() == AfterSchedule(old(Value()), lockNest != 0)
    {
      hide Agrees, Off, Homes, Top, FirstSet;
      ghost var s := Value();
      ScheduleInv(s, lockNest != 0);
      if lockNest == 0 {
        TopByBits(group, queues[..]);
        if group != 0 {
          TopThread(s);
          var highest := FirstSet(group) - 1;
          var to, back := queues[highest][0], false;
          if stat[current] == Running {
            if prio[current] < highest {
              to := current;
            } else if prio[current] == highest && !asks[current] {
              to := current;
            } else {
              back := true;
            }
            asks[current] := false;
            assert asks[..] == s.asks[current := false];
          }
          if to != current {
            SwitchTo(to, back);
          } else {
            Remove(current);
            ghost var r := Value();
            stat[current] := Running;
            assert stat[..] == r.stat[current := Running];
          }
        }
      }
    }

    /** rt_enter_critical. */
    method EnterCritical()
      requires Valid()
      modifies this`lockNest
      ensures Valid() && lockNest == Entered(old(lockNest)) && Value() == old(Value())
    {
      hide Inv, Agrees;
      lockNest := if lockNest == NEST_MAX then -NEST_MAX - 1 else lockNest + 1;
    }

    /** rt_exit_critical; the last one lets a more urgent thread run. */
    method ExitCritical()
      requires Valid()
      modifies this`lockNest, this`group, this`current, queues, stat, asks
      ensures Valid() && lockNest == Exited(old(lockNest))
      ensures Value() == if lockNest == 0 then AfterSchedule(old(Value()), false) else old(Value())
    {
      hide Agrees, Homes, AfterSchedule;
      lockNest := if lockNest == -NEST_MAX - 1 then NEST_MAX else lockNest - 1;
      if lockNest <= 0 {
        lockNest := 0;
        Reschedule();
      }
    }

    /** rt_thread_yield. */
    method YieldThread()
      requires Valid()
      modifies this`group, this`current, queues, stat, asks
      ensures Valid() && Value() == Step(old(Value()), Scheduler.Yield(lockNest != 0))
    {
      hide Agrees, Homes, AfterSchedule;
      ghost var s := Value();
      AskedInv(s);
      asks[current] := true;
      assert asks[..] == s.asks[current := true];
      assert Value() == Asked(s);
      Reschedule();
    }

    /** rt_thread_suspend. */
    method SuspendThread(t: Tid) returns (ok: bool)
      requires Valid() && t < stat.Length
      modifies this`group, queues, stat
      ensures Valid() && (Value(), ok) == AfterSuspend(old(Value()), t)
    {
      hide Agrees, Homes, Off;
      SuspendInv(Value(), t);
      ok := stat[t] == Ready || stat[t] == Running;
      if ok {
        Remove(t);
        ghost var r := Value();
        stat[t] := Suspended;
        assert stat[..] == r.stat[t := Suspended];
      }
    }

    /** rt_thread_resume. */
    method ResumeThread(t: Tid) returns (ok: bool)
      requires Valid() && t < stat.Length
      modifies this`group, queues, stat
      ensures Valid() && (Value(), ok) == AfterResume(old(Value()), t)
    {
      hide Agrees, Homes;
      ResumeInv(Value(), t);
      ok := stat[t] == Suspended;
      if ok { Insert(t); }
    }

    /** rt_thread_timeout. */
    method TimeoutThread(t: Tid)
      requires Valid() && t < stat.Length && stat[t] == Suspended
      modifies this`group, this`current, queues, stat, asks
      ensures Valid() && Value() == Step(old(Value()), Scheduler.Timeout(t, lockNest != 0))
    {
      hide Agrees, Homes, AfterSchedule;
      ResumeInv(Value(), t);
      Insert(t);
      Reschedule();
    }

    /** rt_thread_control with RT_THREAD_CTRL_CHANGE_PRIORITY. */
    method ChangePriority(t: Tid, p: nat)
      requires Valid() && t < stat.Length && p < PRIORITY_MAX
      modifies this`group, queues, stat, prio, mask
      ensures Valid() && Value() == AfterChange(old(Value()), t, p)
    {
      hide Agrees, Homes, Off;
      ghost var s := Value();
      ChangeInv(s, t, p);
      var ready := stat[t] == Ready;
      if ready { Remove(t); }
      prio[t] := p;
      mask[t] := p;
      assert prio[..] == s.prio[t := p];
      if ready { Insert(t); }
    }

    /** rt_thread_startup with initial priority p. */
    method StartThread(t: Tid, p: nat)
      requires Valid() && t < stat.Length && stat[t] == Initial && p < PRIORITY_MAX
      modifies this`group, this`current, queues, stat, asks, prio, mask
      ensures Valid() && Value() == Step(old(Value()), Scheduler.Startup(t, p, lockNest != 0))
    {
      hide Agrees, Homes, AfterSchedule;
      ghost var s := Value();
      LaunchInv(s, t, p);
      prio[t] := p;
      mask[t] := p;
      stat[t] := Suspended;
      assert prio[..] == s.prio[t := p] && stat[..] == s.stat[t := Suspended];
      Insert(t);
      Reschedule();
    }
  }
}
