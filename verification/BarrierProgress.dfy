/**
 * Between two entries or removals the barrier comes to rest: without spurious wake-ups the steps that
 * threads inside it, leaving threads and the main thread take by themselves run out.
 */
module BarrierProgress {
  import opened Barrier

  /** A step nobody outside asks for: not an entry, a removal or a spurious wake-up. */
  predicate Internal(a: Step) {
    a.Recheck? || a.Notify? || a.Complete? || a.Signal? || a.Evaluate?
  }

  ghost function Notifiers(ts: seq<Pc>): nat {
    if ts == [] then 0 else (if ts[0].Notifying? then 1 else 0) + Notifiers(ts[1..])
  }

  /** What a thread has yet to do when nobody wakes it: a look at its predicate, or its way out. */
  ghost function Duty(pc: Pc): nat {
    match pc
    case Waiting(_, awake) => if awake then 1 else 0
    case Removed => 3
    case Signalling => 2
    case _ => 0
  }

  ghost function Duties(ts: seq<Pc>): nat {
    if ts == [] then 0 else Duty(ts[0]) + Duties(ts[1..])
  }

  ghost function MainDuty(m: Main): nat {
    if m.Evaluating? then 1 else 0
  }

  lemma {:induction false} NotifiersUpdate(ts: seq<Pc>, t: nat, pc: Pc)
    requires t < |ts|
    ensures Notifiers(ts[t := pc]) + (if ts[t].Notifying? then 1 else 0) == Notifiers(ts) + if pc.Notifying? then 1 else 0
  {
    if t == 0 {
      assert ts[t := pc][1..] == ts[1..];
    } else {
      assert ts[t := pc][1..] == ts[1..][t - 1 := pc];
      NotifiersUpdate(ts[1..], t - 1, pc);
    }
  }

  lemma {:induction false} NotifiersWoken(ts: seq<Pc>)
    ensures Notifiers(WakeAll(ts)) == Notifiers(ts)
  {
    if ts != [] {
      assert WakeAll(ts)[1..] == WakeAll(ts[1..]);
      NotifiersWoken(ts[1..]);
    }
  }

  lemma {:induction false} DutiesUpdate(ts: seq<Pc>, t: nat, pc: Pc)
    requires t < |ts|
    ensures Duties(ts[t := pc]) + Duty(ts[t]) == Duties(ts) + Duty(pc)
  {
    if t == 0 {
      assert ts[t := pc][1..] == ts[1..];
    } else {
      assert ts[t := pc][1..] == ts[1..][t - 1 := pc];
      DutiesUpdate(ts[1..], t - 1, pc);
    }
  }

  /** Lexicographic: threads inside the current phase, last threads about to notify, duties. */
  ghost predicate Calmer(s: State, s': State) {
    || s'.entered < s.entered
    || (s'.entered == s.entered && Notifiers(s'.threads) < Notifiers(s.threads))
    || (s'.entered == s.entered && Notifiers(s'.threads) == Notifiers(s.threads)
        && Duties(s'.threads) + MainDuty(s'.main) < Duties(s.threads) + MainDuty(s.main))
  }

  /** A thread moves on inside the counters' reach without becoming a notifier. */
  lemma MoveCalms(s: State, t: nat, pc: Pc, s': State)
    requires t < |s.threads| && s'.threads == s.threads[t := pc] && s'.entered == s.entered
    requires !pc.Notifying? && !s.threads[t].Notifying?
    requires Duty(pc) + MainDuty(s'.main) < Duty(s.threads[t]) + MainDuty(s.main)
    ensures Calmer(s, s')
  {
    NotifiersUpdate(s.threads, t, pc);
    DutiesUpdate(s.threads, t, pc);
  }

  lemma NotifyCalms(s: State, t: nat)
    requires Enabled(s, Notify(t))
    ensures Calmer(s, Apply(s, Notify(t)))
  {
    NotifiersUpdate(s.threads, t, Outside);
    NotifiersWoken(s.threads[t := Outside]);
  }

  /** A waiter that ends the phase takes all who entered it along. */
  lemma RecheckCalms(s: State, t: nat)
    requires Invariant(s) && Enabled(s, Recheck(t))
    ensures Calmer(s, Apply(s, Recheck(t)))
  {
    var p := s.threads[t].phase;
    if MayLeave(s, p) && s.phaseNumber <= p {
      assert Is(InPhase(s.phaseNumber), s.threads[t]);
      CountNone(InPhase(s.phaseNumber), s.threads);
    } else {
      MoveCalms(s, t, Apply(s, Recheck(t)).threads[t], Apply(s, Recheck(t)));
    }
  }

  lemma StepCalms(s: State, a: Step)
    requires Invariant(s) && Enabled(s, a) && Internal(a)
    ensures Calmer(s, Apply(s, a))
  {
    var s' := Apply(s, a);
    match a
    case Recheck(t) => RecheckCalms(s, t);
    case Notify(t) => NotifyCalms(s, t);
    case Complete(t) => MoveCalms(s, t, s'.threads[t], s');
    case Signal(t) => MoveCalms(s, t, Gone, s');
    case _ =>
  }

  ghost predicate MovesTo(s: State, a: Step, s': State) {
    Enabled(s, a) && Internal(a) && s' == Apply(s, a)
  }

  /** No endless run consists of such steps only. */
  lemma {:induction false} BarrierComesToRest(trace: nat -> State, steps: nat -> Step, k: nat)
    requires Invariant(trace(k))
    ensures exists j: nat :: j >= k && !MovesTo(trace(j), steps(j), trace(j + 1))
    decreases trace(k).entered, Notifiers(trace(k).threads), Duties(trace(k).threads) + MainDuty(trace(k).main)
  {
    if MovesTo(trace(k), steps(k), trace(k + 1)) {
      StepCalms(trace(k), steps(k));
      StepKeepsInvariant(trace(k), steps(k));
      BarrierComesToRest(trace, steps, k + 1);
    }
  }

  /** Who waits in a barrier that has come to rest waits for a thread that is still outside. */
  lemma WaitersWaitForSomeone(s: State)
    requires Invariant(s) && forall a :: Enabled(s, a) ==> !Internal(a)
    requires exists t :: 0 <= t < |s.threads| && s.threads[t].Waiting?
    ensures exists t :: 0 <= t < |s.threads| && s.threads[t] == Outside
  {
    forall t | 0 <= t < |s.threads| ensures !s.threads[t].Notifying? && !(s.threads[t].Waiting? && s.threads[t].awake) {
      assert !Enabled(s, Notify(t)) && !Enabled(s, Recheck(t));
    }
    var t :| 0 <= t < |s.threads| && s.threads[t].Waiting?;
    CountNone(Running, s.threads);
    assert Is(Running, s.threads[t]);
    if forall u :: 0 <= u < |s.threads| ==> !s.threads[u].Outside? { SomeoneMayLeave(s); }
  }
}
