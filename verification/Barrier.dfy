/**
 * The start/stop barrier of a multi-threaded benchmark and the completion
 * count around it, as atomic steps of threads that hold the barrier's lock.
 * Sleeping on the condition variable is explicit: a thread that waits is
 * either asleep, or awake and about to re-evaluate its wake predicate.
 */
module Barrier {

  datatype Pc =
    | Outside                            // running benchmark code
    | Waiting(phase: nat, awake: bool)   // inside the barrier, entered in `phase`
    | Notifying                          // last thread, lock released, about to notify
    | Removed                            // left the barrier for good, not yet counted as complete
    | Signalling                         // brought the count to zero, about to notify the main thread
    | Gone

  datatype Main = Evaluating | Asleep | Returned

  /** `lasts[k]` is the thread, and the phase it believed in, of the k-th "last thread" return. */
  datatype State = State(running: int, phaseNumber: nat, entered: nat, alive: int,
                         threads: seq<Pc>, main: Main, lasts: seq<Last>)

  datatype Last = Last(thread: nat, phase: nat)

  datatype Step =
    | Enter(t: nat)          // wait(): up to sleeping or to releasing the lock as last thread
    | Recheck(t: nat)        // an awake waiter evaluates its predicate
    | Notify(t: nat)         // the last thread's notify_all
    | Remove(t: nat)         // removeThread()
    | Complete(t: nat)       // --alive
    | Signal(t: nat)         // notify the main thread
    | Wake(t: nat)           // spurious wake-up of a waiter
    | Evaluate               // the main thread evaluates its predicate
    | WakeMain               // spurious wake-up of the main thread

  function Start(n: nat): State {
    State(n, 0, 0, n, seq(n, _ => Outside), Evaluating, [])
  }

  predicate Enabled(s: State, a: Step) {
    match a
    case Enter(t) => t < |s.threads| && s.threads[t].Outside?
    case Recheck(t) => t < |s.threads| && s.threads[t].Waiting? && s.threads[t].awake
    case Notify(t) => t < |s.threads| && s.threads[t].Notifying?
    case Remove(t) => t < |s.threads| && s.threads[t].Outside?
    case Complete(t) => t < |s.threads| && s.threads[t].Removed?
    case Signal(t) => t < |s.threads| && s.threads[t].Signalling?
    case Wake(t) => t < |s.threads| && s.threads[t].Waiting?
    case Evaluate => s.main.Evaluating?
    case WakeMain => s.main.Asleep?
  }

  function Goto(s: State, t: nat, pc: Pc): State
    requires t < |s.threads|
  {
    s.(threads := s.threads[t := pc])
  }

  function WakeAll(ts: seq<Pc>): (r: seq<Pc>)
    ensures |r| == |ts|
  {
    seq(|ts|, i requires 0 <= i < |ts| => if ts[i].Waiting? then Waiting(ts[i].phase, true) else ts[i])
  }

  /** The predicate a waiter of phase `p` sleeps on. */
  predicate MayLeave(s: State, p: nat) {
    s.phaseNumber > p || s.entered == s.running
  }

  /** Thread t, which entered in phase p, ends the phase as its last thread. */
  function EndPhase(s: State, t: nat, p: nat): State
    requires t < |s.threads|
  {
    Goto(s, t, Notifying).(phaseNumber := s.phaseNumber + 1, entered := 0, lasts := s.lasts + [Last(t, p)])
  }

  function Apply(s: State, a: Step): State
    requires Enabled(s, a)
  {
    match a
    case Enter(t) =>
      var s1 := s.(entered := s.entered + 1);
      if s1.entered < s1.running then Goto(s1, t, Waiting(s1.phaseNumber, false))
      else EndPhase(s1, t, s1.phaseNumber)
    case Recheck(t) =>
      var p := s.threads[t].phase;
      if !MayLeave(s, p) then Goto(s, t, Waiting(p, false))
      else if s.phaseNumber > p then Goto(s, t, Outside)
      else EndPhase(s, t, p)
    case Notify(t) => s.(threads := WakeAll(s.threads[t := Outside]))
    case Remove(t) =>
      var s1 := Goto(s, t, Removed).(running := s.running - 1);
      if s.entered != 0 then s1.(threads := WakeAll(s1.threads)) else s1
    case Complete(t) =>
      Goto(s, t, if s.alive - 1 == 0 then Signalling else Gone).(alive := s.alive - 1)
    case Signal(t) => Goto(s, t, Gone).(main := if s.main.Asleep? then Evaluating else s.main)
    case Wake(t) => Goto(s, t, Waiting(s.threads[t].phase, true))
    case Evaluate => s.(main := if s.alive == 0 then Returned else Asleep)
    case WakeMain => s.(main := Evaluating)
  }

  // -------------------------------------------------------------- counting

  datatype Kind = Running | InPhase(phase: nat) | Incomplete

  ghost predicate Is(kind: Kind, pc: Pc) {
    match kind
    case Running => pc.Outside? || pc.Waiting? || pc.Notifying?
    case InPhase(p) => pc.Waiting? && pc.phase == p
    case Incomplete => !pc.Signalling? && !pc.Gone?
  }

  ghost function One(kind: Kind, pc: Pc): nat {
    if Is(kind, pc) then 1 else 0
  }

  ghost function Count(kind: Kind, ts: seq<Pc>): nat {
    if ts == [] then 0 else One(kind, ts[0]) + Count(kind, ts[1..])
  }

  lemma {:induction false} CountUpdate(kind: Kind, ts: seq<Pc>, t: nat, pc: Pc)
    requires t < |ts|
    ensures Count(kind, ts[t := pc]) + One(kind, ts[t]) == Count(kind, ts) + One(kind, pc)
  {
    if t == 0 {
      assert ts[t := pc][1..] == ts[1..];
    } else {
      assert ts[t := pc][1..] == ts[1..][t - 1 := pc];
      CountUpdate(kind, ts[1..], t - 1, pc);
    }
  }

  /** One kind that implies another has no more members, and fewer if it misses one. */
  lemma {:induction false} CountImplies(kind: Kind, wider: Kind, ts: seq<Pc>)
    requires forall t :: 0 <= t < |ts| && Is(kind, ts[t]) ==> Is(wider, ts[t])
    ensures Count(kind, ts) <= Count(wider, ts)
    ensures forall t :: 0 <= t < |ts| && Is(wider, ts[t]) && !Is(kind, ts[t]) ==> Count(kind, ts) < Count(wider, ts)
  {
    if ts != [] {
      assert forall t :: 0 <= t < |ts[1..]| ==> ts[1..][t] == ts[t + 1];
      CountImplies(kind, wider, ts[1..]);
      forall t | 0 <= t < |ts| && Is(wider, ts[t]) && !Is(kind, ts[t]) ensures Count(kind, ts) < Count(wider, ts) {
        if t > 0 { assert ts[1..][t - 1] == ts[t]; }
      }
    }
  }

  lemma {:induction false} CountNone(kind: Kind, ts: seq<Pc>)
    ensures Count(kind, ts) == 0 <==> forall t :: 0 <= t < |ts| ==> !Is(kind, ts[t])
  {
    if ts != [] {
      CountNone(kind, ts[1..]);
      assert forall t :: 0 <= t < |ts[1..]| ==> ts[1..][t] == ts[t + 1];
      if Count(kind, ts) == 0 {
        forall t | 0 <= t < |ts| ensures !Is(kind, ts[t]) {
          if t > 0 { assert ts[1..][t - 1] == ts[t]; }
        }
      }
    }
  }

  lemma {:induction false} CountWoken(kind: Kind, ts: seq<Pc>)
    ensures Count(kind, WakeAll(ts)) == Count(kind, ts)
  {
    if ts != [] {
      assert WakeAll(ts)[1..] == WakeAll(ts[1..]);
      CountWoken(kind, ts[1..]);
    }
  }

  // -------------------------------------------------------------- invariant

  ghost predicate Counted(s: State) {
    && s.running == Count(Running, s.threads)
    && s.entered == Count(InPhase(s.phaseNumber), s.threads)
    && s.alive == Count(Incomplete, s.threads)
    && (forall t :: 0 <= t < |s.threads| && s.threads[t].Waiting? ==> s.threads[t].phase <= s.phaseNumber)
  }

  /** A sleeper whose predicate has become true is about to be notified. */
  ghost predicate NoLostWakeup(s: State) {
    forall t :: 0 <= t < |s.threads| && s.threads[t].Waiting? && !s.threads[t].awake && MayLeave(s, s.threads[t].phase) ==>
      SomeNotifying(s.threads)
  }

  ghost predicate SomeNotifying(ts: seq<Pc>) {
    exists u :: 0 <= u < |ts| && ts[u].Notifying?
  }

  ghost predicate SomeSignalling(ts: seq<Pc>) {
    exists u :: 0 <= u < |ts| && ts[u].Signalling?
  }

  ghost predicate MainServed(s: State) {
    && (s.main.Asleep? && s.alive == 0 && |s.threads| > 0 ==> SomeSignalling(s.threads))
    && (s.main.Asleep? ==> |s.threads| > 0)
    && (s.main.Returned? ==> s.alive == 0)
  }

  /** Each phase had exactly one last thread, and that thread knew which phase it ended. */
  ghost predicate OneLastPerPhase(s: State) {
    && |s.lasts| == s.phaseNumber
    && forall k :: 0 <= k < |s.lasts| ==> s.lasts[k].phase == k
  }

  ghost predicate Invariant(s: State) {
    Counted(s) && NoLostWakeup(s) && MainServed(s) && OneLastPerPhase(s)
  }

  /** The barrier holds at most the running threads; when it holds them all, nobody runs outside. */
  lemma EnteredAtMostRunning(s: State)
    requires Counted(s)
    ensures s.entered <= s.running
    ensures forall t :: 0 <= t < |s.threads| && Is(Running, s.threads[t]) && !Is(InPhase(s.phaseNumber), s.threads[t]) ==>
              s.entered < s.running
  {
    CountImplies(InPhase(s.phaseNumber), Running, s.threads);
  }

  /** Thread t goes to pc; the counters are adjusted by what it stops and starts being. */
  lemma MoveCounted(s: State, t: nat, pc: Pc, s': State)
    requires Counted(s) && t < |s.threads| && s'.threads == s.threads[t := pc]
    requires pc.Waiting? ==> pc.phase <= s.phaseNumber
    requires s'.phaseNumber == s.phaseNumber
    requires s'.running == s.running - One(Running, s.threads[t]) + One(Running, pc)
    requires s'.entered == s.entered - One(InPhase(s.phaseNumber), s.threads[t]) + One(InPhase(s.phaseNumber), pc)
    requires s'.alive == s.alive - One(Incomplete, s.threads[t]) + One(Incomplete, pc)
    ensures Counted(s')
  {
    CountUpdate(Running, s.threads, t, pc);
    CountUpdate(InPhase(s.phaseNumber), s.threads, t, pc);
    CountUpdate(Incomplete, s.threads, t, pc);
  }

  lemma WakeCounted(s: State)
    requires Counted(s)
    ensures Counted(s.(threads := WakeAll(s.threads)))
  {
    CountWoken(Running, s.threads);
    CountWoken(InPhase(s.phaseNumber), s.threads);
    CountWoken(Incomplete, s.threads);
  }

  lemma EndPhaseCounted(s: State, t: nat, p: nat)
    requires t < |s.threads| && Is(Running, s.threads[t])
    requires s.running == Count(Running, s.threads) && s.alive == Count(Incomplete, s.threads)
    requires forall u :: 0 <= u < |s.threads| && s.threads[u].Waiting? ==> s.threads[u].phase <= s.phaseNumber
    ensures Counted(EndPhase(s, t, p))
  {
    CountUpdate(Running, s.threads, t, Notifying);
    CountUpdate(Incomplete, s.threads, t, Notifying);
    CountNone(InPhase(s.phaseNumber + 1), s.threads[t := Notifying]);
  }

  lemma StepCounted(s: State, a: Step)
    requires Counted(s) && Enabled(s, a)
    ensures Counted(Apply(s, a))
  {
    var s' := Apply(s, a);
    match a
    case Enter(t) =>
      if s.entered + 1 < s.running { MoveCounted(s, t, s'.threads[t], s'); }
      else { EndPhaseCounted(s.(entered := s.entered + 1), t, s.phaseNumber); }
    case Recheck(t) =>
      var p := s.threads[t].phase;
      if MayLeave(s, p) && s.phaseNumber <= p { EndPhaseCounted(s, t, p); }
      else { MoveCounted(s, t, s'.threads[t], s'); }
    case Notify(t) => MoveCounted(s, t, Outside, Goto(s, t, Outside)); WakeCounted(Goto(s, t, Outside));
    case Remove(t) => RemoveCounted(s, t);
    case Complete(t) => MoveCounted(s, t, s'.threads[t], s');
    case Signal(t) => MoveCounted(s, t, Gone, s');
    case Wake(t) => MoveCounted(s, t, s'.threads[t], s');
    case Evaluate =>
    case WakeMain =>
  }

  lemma RemoveCounted(s: State, t: nat)
    requires Counted(s) && Enabled(s, Remove(t))
    ensures Counted(Apply(s, Remove(t)))
  {
    var s1 := Goto(s, t, Removed).(running := s.running - 1);
    MoveCounted(s, t, Removed, s1);
    WakeCounted(s1);
  }

  lemma StepLosesNoWakeup(s: State, a: Step)
    requires Counted(s) && NoLostWakeup(s) && Enabled(s, a)
    ensures NoLostWakeup(Apply(s, a))
  {
    var s' := Apply(s, a);
    EnteredAtMostRunning(s);
    StepCounted(s, a);
    EnteredAtMostRunning(s');
    forall t | 0 <= t < |s'.threads| && s'.threads[t].Waiting? && !s'.threads[t].awake && MayLeave(s', s'.threads[t].phase)
      ensures SomeNotifying(s'.threads)
    {
      if s'.phaseNumber > s.phaseNumber {
        assert s'.threads[a.t].Notifying?;
      } else if a.Remove? {
        CountNone(InPhase(s.phaseNumber), s.threads);
        assert MayLeave(s, s.threads[t].phase);
        var u :| 0 <= u < |s.threads| && s.threads[u].Notifying?;
        assert s'.threads[u].Notifying?;
      } else if SomeNotifying(s.threads) {
        var u :| 0 <= u < |s.threads| && s.threads[u].Notifying?;
        assert s'.threads[u].Notifying?;
      }
    }
  }

  lemma StepServesMain(s: State, a: Step)
    requires Counted(s) && MainServed(s) && Enabled(s, a)
    ensures MainServed(Apply(s, a))
  {
    var s' := Apply(s, a);
    if a.Complete? {
      CountNone(Incomplete, s.threads);
      if s'.alive == 0 { assert s'.threads[a.t].Signalling?; }
    } else if SomeSignalling(s.threads) && !a.Signal? {
      var u :| 0 <= u < |s.threads| && s.threads[u].Signalling?;
      assert s'.threads[u].Signalling?;
    }
  }

  lemma StepKeepsInvariant(s: State, a: Step)
    requires Invariant(s) && Enabled(s, a)
    ensures Invariant(Apply(s, a))
  {
    StepCounted(s, a);
    StepLosesNoWakeup(s, a);
    StepServesMain(s, a);
  }

  // ------------------------------------------------------------------ runs

  ghost predicate Feasible(s: State, steps: seq<Step>)
    decreases |steps|
  {
    steps == [] || (Enabled(s, steps[0]) && Feasible(Apply(s, steps[0]), steps[1..]))
  }

  ghost function After(s: State, steps: seq<Step>): State
    requires Feasible(s, steps)
    decreases |steps|
  {
    if steps == [] then s else After(Apply(s, steps[0]), steps[1..])
  }

  lemma {:induction false} RunKeepsInvariant(s: State, steps: seq<Step>)
    requires Invariant(s) && Feasible(s, steps)
    ensures Invariant(After(s, steps))
    decreases |steps|
  {
    if steps != [] {
      StepKeepsInvariant(s, steps[0]);
      RunKeepsInvariant(Apply(s, steps[0]), steps[1..]);
    }
  }

  lemma {:induction false} AllOutside(n: nat, kind: Kind)
    ensures Count(kind, seq(n, _ => Outside)) == if kind.InPhase? then 0 else n
  {
    var ts := seq(n, _ => Outside);
    if n > 0 {
      assert ts[1..] == seq(n - 1, _ => Outside);
      AllOutside(n - 1, kind);
    }
  }

  /** Every run, with threads entering and leaving for good at any time, keeps the invariant. */
  lemma BarrierIsSafe(n: nat, steps: seq<Step>)
    requires Feasible(Start(n), steps)
    ensures Invariant(After(Start(n), steps))
    ensures var s := After(Start(n), steps);
            && s.entered <= s.running
            && |s.lasts| == s.phaseNumber && (forall k :: 0 <= k < |s.lasts| ==> s.lasts[k].phase == k)
            && (s.main == Returned ==> forall t :: 0 <= t < |s.threads| ==> s.threads[t] == Signalling || s.threads[t] == Gone)
  {
    AllOutside(n, Running);
    AllOutside(n, InPhase(0));
    AllOutside(n, Incomplete);
    RunKeepsInvariant(Start(n), steps);
    EnteredAtMostRunning(After(Start(n), steps));
    CountNone(Incomplete, After(Start(n), steps).threads);
  }

  // ------------------------------------------------------------- theorems

  /** The check made on entry never fails. */
  lemma EntryCheckHolds(s: State, t: nat)
    requires Invariant(s) && Enabled(s, Enter(t))
    ensures s.entered < s.running
  {
    EnteredAtMostRunning(s);
  }

  /** A phase ends only when every running thread other than the last one is waiting in it. */
  lemma PhaseEndsTogether(s: State, a: Step)
    requires Invariant(s) && Enabled(s, a) && Apply(s, a).phaseNumber != s.phaseNumber
    ensures forall u :: 0 <= u < |s.threads| && Is(Running, s.threads[u]) && u != a.t ==>
              Is(InPhase(s.phaseNumber), s.threads[u])
    ensures Apply(s, a).phaseNumber == s.phaseNumber + 1 && Apply(s, a).lasts == s.lasts + [Last(a.t, s.phaseNumber)]
  {
    EnteredAtMostRunning(s);
    if a.Enter? {
      // With the entering thread counted in, the barrier holds every running thread.
      var pc := Waiting(s.phaseNumber, false);
      var ts := s.threads[a.t := pc];
      CountUpdate(Running, s.threads, a.t, pc);
      CountUpdate(InPhase(s.phaseNumber), s.threads, a.t, pc);
      CountImplies(InPhase(s.phaseNumber), Running, ts);
      forall u | 0 <= u < |s.threads| && Is(Running, s.threads[u]) && u != a.t
        ensures Is(InPhase(s.phaseNumber), s.threads[u])
      {
        assert ts[u] == s.threads[u];
      }
    }
  }

  /** A waiter gets out only once its phase is over. */
  lemma WaiterLeavesFinishedPhase(s: State, a: Step, t: nat)
    requires Invariant(s) && Enabled(s, a) && t < |s.threads| && s.threads[t].Waiting?
    requires !Apply(s, a).threads[t].Waiting?
    ensures Apply(s, a).phaseNumber > s.threads[t].phase
  {
  }

  /** A waiter is awake after a step exactly when it was woken by it, or was awake and has not looked yet. */
  lemma WhoIsAwake(s: State, a: Step, t: nat)
    requires Enabled(s, a) && t < |s.threads| && Apply(s, a).threads[t].Waiting?
    ensures Apply(s, a).threads[t].awake <==>
              || a.Notify? || (a.Remove? && s.entered != 0) || a == Wake(t)
              || (s.threads[t].Waiting? && s.threads[t].awake && a != Recheck(t))
  {
  }

  /** Some waiter can always leave when every running thread waits. */
  lemma SomeoneMayLeave(s: State)
    requires Invariant(s) && s.running > 0
    requires forall t :: 0 <= t < |s.threads| && Is(Running, s.threads[t]) ==> s.threads[t].Waiting?
    ensures exists t :: 0 <= t < |s.threads| && s.threads[t].Waiting? && MayLeave(s, s.threads[t].phase)
  {
    CountNone(Running, s.threads);
    var t :| 0 <= t < |s.threads| && Is(Running, s.threads[t]);
    if forall u :: 0 <= u < |s.threads| && Is(Running, s.threads[u]) ==> s.threads[u].phase == s.phaseNumber {
      CountImplies(Running, InPhase(s.phaseNumber), s.threads);
      EnteredAtMostRunning(s);
      assert MayLeave(s, s.threads[t].phase);
    } else {
      var u :| 0 <= u < |s.threads| && Is(Running, s.threads[u]) && s.threads[u].phase != s.phaseNumber;
      assert MayLeave(s, s.threads[u].phase);
    }
  }

  /** The only stuck states are those where all threads are done and the main thread has returned. */
  lemma NoDeadlock(s: State)
    requires Invariant(s) && forall a :: Enabled(s, a) ==> a.Wake? || a.WakeMain?
    ensures forall t :: 0 <= t < |s.threads| ==> s.threads[t].Gone?
    ensures s.main.Returned?
  {
    forall t | 0 <= t < |s.threads|
      ensures s.threads[t].Gone? || (s.threads[t].Waiting? && !s.threads[t].awake)
    {
      assert !Enabled(s, Enter(t)) && !Enabled(s, Recheck(t)) && !Enabled(s, Notify(t));
      assert !Enabled(s, Complete(t)) && !Enabled(s, Signal(t));
    }
    assert !Enabled(s, Evaluate);
    CountNone(Running, s.threads);
    if s.running > 0 { SomeoneMayLeave(s); }
    CountNone(Incomplete, s.threads);
  }
}
