// The spinlock (utils/spinlock_mutex.hpp) as a protocol of atomic steps over any
// number of threads: test_and_set, the compare-and-sleep of wait, clear, notify_one.

module Spinlock {
  import opened Errors

  type Thread = nat

  /**
   * Where a thread is: outside; about to test_and_set in lock(); having lost and about
   * to wait; blocked inside wait; holding the lock; between clear() and notify_one().
   */
  datatype PC = Idle | Trying | AboutToWait | Sleeping | Critical | Notifying

  datatype State = State(flag: bool, pcs: seq<PC>)
  {
    ghost predicate At(pc: PC) {
      exists t :: 0 <= t < |pcs| && pcs[t] == pc
    }
  }

  function Init(threads: nat): State {
    State(false, seq(threads, _ => Idle))
  }

  datatype Step =
    | CallLock(t: Thread)
    | CallTryLock(t: Thread)
    | TestAndSet(t: Thread)
    | Wait(t: Thread)
    | WakeSpuriously(t: Thread)
    | Clear(t: Thread)
    | Notify(t: Thread, woken: Option<Thread>)

  /** Only the holder unlocks; notify_one wakes some sleeper, if there is one. */
  ghost predicate Enabled(s: State, step: Step) {
    && step.t < |s.pcs|
    && match step
       case CallLock(t) => s.pcs[t] == Idle
       case CallTryLock(t) => s.pcs[t] == Idle
       case TestAndSet(t) => s.pcs[t] == Trying
       case Wait(t) => s.pcs[t] == AboutToWait
       case WakeSpuriously(t) => s.pcs[t] == Sleeping
       case Clear(t) => s.pcs[t] == Critical
       case Notify(t, None) => s.pcs[t] == Notifying && !s.At(Sleeping)
       case Notify(t, Some(u)) => s.pcs[t] == Notifying && u < |s.pcs| && s.pcs[u] == Sleeping
  }

  ghost function Apply(s: State, step: Step): State
    requires Enabled(s, step)
  {
    match step
    case CallLock(t) => s.(pcs := s.pcs[t := Trying])
    case CallTryLock(t) => State(true, s.pcs[t := if s.flag then Idle else Critical])
    case TestAndSet(t) => State(true, s.pcs[t := if s.flag then AboutToWait else Critical])
    case Wait(t) => s.(pcs := s.pcs[t := if s.flag then Sleeping else Trying])
    case WakeSpuriously(t) => s.(pcs := s.pcs[t := AboutToWait])
    case Clear(t) => State(false, s.pcs[t := Notifying])
    case Notify(t, None) => s.(pcs := s.pcs[t := Idle])
    case Notify(t, Some(u)) => s.(pcs := s.pcs[t := Idle][u := AboutToWait])
  }

  /** The steps can be taken one after the other. */
  ghost predicate IsRun(s: State, steps: seq<Step>)
    decreases |steps|
  {
    steps == [] || (Enabled(s, steps[0]) && IsRun(Apply(s, steps[0]), steps[1..]))
  }

  ghost function After(s: State, steps: seq<Step>): State
    requires IsRun(s, steps)
    decreases |steps|
  {
    if steps == [] then s else After(Apply(s, steps[0]), steps[1..])
  }

  // ------------------------------------------------------------------------
  // Safety over every interleaving
  // ------------------------------------------------------------------------

  ghost predicate MutualExclusion(s: State) {
    forall t, u :: 0 <= t < |s.pcs| && 0 <= u < |s.pcs| && s.pcs[t] == Critical && s.pcs[u] == Critical ==> t == u
  }

  /** With the flag clear, a sleeper is owed a wake-up that is still on its way. */
  ghost predicate NoLostWakeUp(s: State) {
    !s.flag && s.At(Sleeping) ==> s.At(Notifying) || s.At(AboutToWait) || s.At(Trying)
  }

  ghost predicate Inv(s: State) {
    MutualExclusion(s) && (s.flag <==> s.At(Critical)) && NoLostWakeUp(s)
  }

  lemma InvStep(s: State, step: Step)
    requires Inv(s) && Enabled(s, step)
    ensures Inv(Apply(s, step))
  {
    var s' := Apply(s, step);
    assert s'.flag <==> s'.At(Critical) by {
      FlagMeansCritical(s, step);
    }
    if !s'.flag && s'.At(Sleeping) {
      WakeUpPending(s, step);
    }
  }

  lemma FlagMeansCritical(s: State, step: Step)
    requires Inv(s) && Enabled(s, step)
    ensures Apply(s, step).flag <==> Apply(s, step).At(Critical)
  {
    var s' := Apply(s, step);
    if s.flag && !step.Clear? {
      var c :| 0 <= c < |s.pcs| && s.pcs[c] == Critical;
      assert s'.pcs[c] == Critical;
    } else if s'.flag {
      assert s'.pcs[step.t] == Critical;
    }
  }

  lemma WakeUpPending(s: State, step: Step)
    requires Inv(s) && Enabled(s, step)
    requires !Apply(s, step).flag && Apply(s, step).At(Sleeping)
    ensures Apply(s, step).At(Notifying) || Apply(s, step).At(AboutToWait) || Apply(s, step).At(Trying)
  {
    var s' := Apply(s, step);
    match step
    case Clear(t) => assert s'.pcs[t] == Notifying;
    case CallLock(t) => assert s'.pcs[t] == Trying;
    case WakeSpuriously(t) => assert s'.pcs[t] == AboutToWait;
    case Wait(t) => assert s'.pcs[t] == Trying;
    case Notify(t, woken) =>
      if woken.Some? {
        assert s'.pcs[woken.value] == AboutToWait;
      }
    case TestAndSet(_) =>
    case CallTryLock(_) =>
  }

  /** Mutual exclusion, the meaning of the flag and the wake-up rule, for any threads and any run. */
  lemma {:induction false} SafeRun(s: State, steps: seq<Step>)
    requires Inv(s) && IsRun(s, steps)
    ensures Inv(After(s, steps))
    decreases |steps|
  {
    if steps != [] {
      InvStep(s, steps[0]);
      SafeRun(Apply(s, steps[0]), steps[1..]);
    }
  }

  lemma SafeFromStart(threads: nat, steps: seq<Step>)
    requires IsRun(Init(threads), steps)
    ensures Inv(After(Init(threads), steps))
  {
    SafeRun(Init(threads), steps);
  }

  /** When no thread is on the move, none is left asleep. */
  lemma NobodyLeftAsleep(threads: nat, steps: seq<Step>)
    requires IsRun(Init(threads), steps)
    requires forall t ::
               0 <= t < |After(Init(threads), steps).pcs| ==> After(Init(threads), steps).pcs[t] in {Idle, Sleeping}
    ensures forall t :: 0 <= t < |After(Init(threads), steps).pcs| ==> After(Init(threads), steps).pcs[t] == Idle
  {
    SafeFromStart(threads, steps);
  }

  /**
   * Nor can the protocol get stuck: whenever the lock is free and threads want it, the
   * threads already under way can hand it to one of the waiting ones in three steps,
   * without any thread coming in from outside.
   */
  lemma FreeLockCanBeTaken(s: State) returns (steps: seq<Step>, winner: Thread)
    requires Inv(s) && !s.flag
    requires s.At(Trying) || s.At(AboutToWait) || s.At(Sleeping)
    ensures |steps| <= 3 && IsRun(s, steps)
    ensures forall i :: 0 <= i < |steps| ==> steps[i].TestAndSet? || steps[i].Wait? || steps[i].Notify?
    ensures winner < |s.pcs| && s.pcs[winner] in {Trying, AboutToWait, Sleeping}
    ensures winner < |After(s, steps).pcs| && After(s, steps).pcs[winner] == Critical
  {
    if s.At(Trying) {
      winner :| 0 <= winner < |s.pcs| && s.pcs[winner] == Trying;
      steps := [TestAndSet(winner)];
    } else if s.At(AboutToWait) {
      winner :| 0 <= winner < |s.pcs| && s.pcs[winner] == AboutToWait;
      steps := TakeAfterWait(s, winner);
    } else {
      winner :| 0 <= winner < |s.pcs| && s.pcs[winner] == Sleeping;
      var n :| 0 <= n < |s.pcs| && s.pcs[n] == Notifying;
      var notify := Notify(n, Some(winner));
      steps := TakeAfterWait(Apply(s, notify), winner);
      steps := [notify] + steps;
    }
  }

  lemma TakeAfterWait(s: State, t: Thread) returns (steps: seq<Step>)
    requires !s.flag && t < |s.pcs| && s.pcs[t] == AboutToWait
    ensures |steps| == 2 && steps == [Wait(t), TestAndSet(t)] && IsRun(s, steps)
    ensures After(s, steps) == State(true, s.pcs[t := Critical])
  {
    steps := [Wait(t), TestAndSet(t)];
    var s1 := Apply(s, Wait(t));
    assert steps[1..] == [TestAndSet(t)];
    assert IsRun(s1, [TestAndSet(t)]);
    assert After(s1, [TestAndSet(t)]) == Apply(s1, TestAndSet(t));
    assert Apply(s1, TestAndSet(t)).pcs == s.pcs[t := Critical];
  }

  // ------------------------------------------------------------------------
  // And it is taken, whatever the schedule
  // ------------------------------------------------------------------------

  /** How many steps a thread can take while the lock is free, without taking it. */
  function PCWeight(pc: PC): nat {
    match pc
    case Idle => 1
    case Trying => 0
    case AboutToWait => 1
    case Sleeping => 2
    case Critical => 0
    case Notifying => 2
  }

  function Weight(pcs: seq<PC>): (w: nat)
    ensures w <= 2 * |pcs|
  {
    if pcs == [] then 0 else PCWeight(pcs[0]) + Weight(pcs[1..])
  }

  lemma {:induction false} WeightOfUpdate(pcs: seq<PC>, t: Thread, pc: PC)
    requires t < |pcs|
    ensures Weight(pcs[t := pc]) + PCWeight(pcs[t]) == Weight(pcs) + PCWeight(pc)
  {
    if t == 0 {
      assert pcs[t := pc][1..] == pcs[1..];
    } else {
      WeightOfUpdate(pcs[1..], t - 1, pc);
      assert pcs[t := pc][1..] == pcs[1..][t - 1 := pc];
    }
  }

  predicate Takes(step: Step) { step.TestAndSet? || step.CallTryLock? }

  /** While the lock is free, any step that does not take it uses up weight. */
  lemma WeightFalls(s: State, step: Step)
    requires Inv(s) && !s.flag && Enabled(s, step) && !Takes(step)
    ensures !Apply(s, step).flag && Weight(Apply(s, step).pcs) < Weight(s.pcs)
  {
    assert !s.At(Critical);
    match step
    case CallLock(t) => WeightOfUpdate(s.pcs, t, Trying);
    case Wait(t) => WeightOfUpdate(s.pcs, t, Trying);
    case WakeSpuriously(t) => WeightOfUpdate(s.pcs, t, AboutToWait);
    case Clear(_) =>
    case Notify(t, woken) =>
      WeightOfUpdate(s.pcs, t, Idle);
      if woken.Some? {
        WeightOfUpdate(s.pcs[t := Idle], woken.value, AboutToWait);
      }
  }

  /**
   * Whatever the schedule, with threads coming in and waking up for no reason: a run
   * from a free lock that is longer than the weight of its first state, and so any run
   * of more than two steps per thread, has the lock taken in it.
   */
  lemma {:induction false} FreeLockIsTaken(s: State, steps: seq<Step>) returns (i: nat)
    requires Inv(s) && !s.flag && IsRun(s, steps) && |steps| > Weight(s.pcs)
    ensures i <= Weight(s.pcs) && Takes(steps[i])
    ensures IsRun(s, steps[..i]) && !After(s, steps[..i]).flag
    ensures IsRun(s, steps[..i + 1]) && steps[i].t < |After(s, steps[..i + 1]).pcs|
    ensures After(s, steps[..i + 1]).flag && After(s, steps[..i + 1]).pcs[steps[i].t] == Critical
    decreases |steps|
  {
    if Takes(steps[0]) {
      i := 0;
      assert steps[..1][0] == steps[0] && steps[..1][1..] == [];
    } else {
      WeightFalls(s, steps[0]);
      InvStep(s, steps[0]);
      var j := FreeLockIsTaken(Apply(s, steps[0]), steps[1..]);
      i := j + 1;
      assert steps[..i][1..] == steps[1..][..j];
      assert steps[..i + 1][1..] == steps[1..][..j + 1];
    }
  }

  /** And while the free lock is wanted, some thread that wants it or has just left it can move. */
  lemma WantedLockMoves(s: State) returns (step: Step)
    requires Inv(s) && !s.flag
    requires s.At(Trying) || s.At(AboutToWait) || s.At(Sleeping)
    ensures Enabled(s, step) && (step.TestAndSet? || step.Wait? || step.Notify?)
    ensures !Takes(step) ==>
              Apply(s, step).At(Trying) || Apply(s, step).At(AboutToWait) || Apply(s, step).At(Sleeping)
  {
    var steps, winner := FreeLockCanBeTaken(s);
    assert steps != [] by {
      assert !s.At(Critical);
    }
    step := steps[0];
    var s' := Apply(s, step);
    match step
    case TestAndSet(_) =>
    case Wait(t) => assert s'.pcs[t] == Trying;
    case Notify(t, woken) => assert s'.pcs[winner] in {Trying, AboutToWait, Sleeping};
  }
}
