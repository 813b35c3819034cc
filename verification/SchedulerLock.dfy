/**
 Nested locking of the scheduler. The depth is kept in an rt_int16_t that nobody checks, and
 rt_exit_critical takes a negative one for the end of the outermost section.
 */
module SchedulerLock {

  const NEST_MAX: int := 0x7fff

  /** rt_scheduler_lock_nest after rt_enter_critical. */
  function Entered(nest: int): int {
    if nest == NEST_MAX then -NEST_MAX - 1 else nest + 1
  }

  /** rt_scheduler_lock_nest after rt_exit_critical. */
  function Exited(nest: int): int {
    var left := if nest == -NEST_MAX - 1 then NEST_MAX else nest - 1;
    if left <= 0 then 0 else left
  }

  datatype Move = Enter | Exit

  /** How many critical sections are open after the moves. */
  function Depth(run: seq<Move>): int
    decreases |run|
  {
    if run == [] then 0 else Depth(run[..|run| - 1]) + if run[|run| - 1].Enter? then 1 else -1
  }

  /** rt_scheduler_lock_nest after the moves. */
  function Nest(run: seq<Move>): int
    decreases |run|
  {
    if run == [] then 0
    else
      var before := Nest(run[..|run| - 1]);
      if run[|run| - 1].Enter? then Entered(before) else Exited(before)
  }

  /** No section is left that was not entered, and never are more than d open. */
  ghost predicate Within(run: seq<Move>, d: nat)
    decreases |run|
  {
    run == [] || (Within(run[..|run| - 1], d) && 0 <= Depth(run) <= d)
  }

  /** Up to a depth of 0x8000 the counter goes with the depth, the last step by wrapping. */
  lemma {:induction false} NestIs(run: seq<Move>, d: nat)
    requires d <= NEST_MAX + 1 && Within(run, d)
    ensures 0 <= Depth(run) <= d && Nest(run) == if Depth(run) == NEST_MAX + 1 then -NEST_MAX - 1 else Depth(run)
    decreases |run|
  {
    if run == [] {
    } else {
      NestIs(run[..|run| - 1], d);
    }
  }

  function Enters(k: nat): (run: seq<Move>)
    ensures |run| == k
  {
    if k == 0 then [] else Enters(k - 1) + [Enter]
  }

  lemma {:induction false} EntersDepth(k: nat, d: nat)
    requires k <= d
    ensures Depth(Enters(k)) == k && Within(Enters(k), d)
  {
    if k == 0 {
    } else {
      EntersDepth(k - 1, d);
      assert Enters(k)[..k - 1] == Enters(k - 1);
    }
  }

  lemma Last(run: seq<Move>, m: Move, d: nat)
    ensures Depth(run + [m]) == Depth(run) + if m.Enter? then 1 else -1
    ensures Nest(run + [m]) == if m.Enter? then Entered(Nest(run)) else Exited(Nest(run))
    ensures Within(run + [m], d) <==> Within(run, d) && 0 <= Depth(run + [m]) <= d
  {
    assert (run + [m])[..|run|] == run;
  }

  /** Entering a section at depth 0x8000 and leaving it unlocks the scheduler. */
  lemma UnlocksEarly(d: nat) returns (run: seq<Move>)
    requires d > NEST_MAX + 1
    ensures Within(run, d) && Depth(run) > 0 && Nest(run) == 0
  {
    hide Depth, Nest, Within, Enters;
    var up := Enters(NEST_MAX + 1);
    EntersDepth(NEST_MAX + 1, NEST_MAX + 1);
    EntersDepth(NEST_MAX + 1, d);
    NestIs(up, NEST_MAX + 1);
    Last(up, Enter, d);
    Last(up + [Enter], Exit, d);
    run := up + [Enter] + [Exit];
  }

  /** The scheduler is locked exactly while a section is open, in all runs that open at most d at a
      time, exactly if d is at most 0x8000. */
  lemma LockExact(d: nat)
    ensures d <= NEST_MAX + 1 <==> forall run :: Within(run, d) ==> (Nest(run) != 0 <==> Depth(run) > 0)
  {
    hide Depth, Nest, Within;
    if d <= NEST_MAX + 1 {
      forall run | Within(run, d) ensures Nest(run) != 0 <==> Depth(run) > 0 { NestIs(run, d); }
    } else {
      var run := UnlocksEarly(d);
      assert Within(run, d);
    }
  }
}
