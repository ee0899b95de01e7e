/**
 * Which activities end up on foreign threads. A thief previews the front of a
 * queue and pops in a second step, so a pop in between makes it take an
 * activity it never inspected.
 */
module StealAffinity {
  import opened ThreadPool
  import opened ThreadPoolRuns

  ghost predicate Foreign(s: Pool, t: Ticket, w: nat)
    requires t < |s.jobs|
  {
    !s.jobs[t].stealable && s.jobs[t].target != w
  }

  /** No unstealable activity has run on, or is in the hand of, a thread it was not posted to. */
  ghost predicate RespectsAffinity(s: Pool)
    requires s.Shaped() && RunsOnce(s)
  {
    && (forall x :: x in s.runs ==> !Foreign(s, x.ticket, x.worker))
    && (forall w :: 0 <= w < |s.workers| && s.workers[w].Running? ==> !Foreign(s, s.workers[w].ticket, w))
  }

  ghost predicate PreviewsStealable(s: Pool)
    requires s.Shaped()
  {
    forall w :: 0 <= w < |s.workers| && s.workers[w].Taking? ==> s.jobs[s.workers[w].preview].stealable
  }

  lemma StepPreviewsStealable(s: Pool, a: Action)
    requires s.Shaped() && PreviewsStealable(s) && Enabled(s, a)
    ensures PreviewsStealable(Apply(s, a))
  {
  }

  /** The step pops, for a thief, a front that is not stealable. */
  ghost predicate TakesUnstealable(s: Pool, a: Action)
    requires s.Shaped()
  {
    && a.Work? && a.worker < |s.workers| && s.workers[a.worker].Taking?
    && var q := s.queues[s.workers[a.worker].from];
       q != [] && !s.jobs[q[0]].stealable
  }

  lemma PopAffinity(s: Pool, w: nat, i: nat, stolen: bool)
    requires Invariant(s) && RespectsAffinity(s) && w < |s.workers| && i < |s.queues| && s.queues[i] != []
    requires Invariant(PopInto(s, w, i, stolen))
    ensures RespectsAffinity(PopInto(s, w, i, stolen)) <==> s.jobs[s.queues[i][0]].stealable || i == w
  {
    var s' := PopInto(s, w, i, stolen);
    assert s'.workers[w] == Running(s.queues[i][0], stolen);
    assert s.jobs[s.queues[i][0]].target == i;
  }

  lemma CallAffinity(s: Pool, w: nat)
    requires Invariant(s) && RespectsAffinity(s) && w < |s.workers| && s.workers[w].Running?
    requires Invariant(WorkerStep(s, w))
    ensures RespectsAffinity(WorkerStep(s, w))
  {
  }

  lemma PushAffinity(s: Pool, job: Job)
    requires Invariant(s) && RespectsAffinity(s) && Enabled(s, Push(job)) && Invariant(PushTo(s, job))
    ensures RespectsAffinity(PushTo(s, job))
  {
  }

  /** Affinity is broken by exactly those steps. */
  lemma StepAffinity(s: Pool, a: Action)
    requires Invariant(s) && RespectsAffinity(s) && Enabled(s, a)
    ensures Invariant(Apply(s, a))
    ensures RespectsAffinity(Apply(s, a)) <==> !TakesUnstealable(s, a)
  {
    StepKeepsInvariant(s, a);
    match a
    case Push(job) => if Apply(s, a) == PushTo(s, job) { PushAffinity(s, job); }
    case Release(_) =>
    case Work(w) =>
      var pc := s.workers[w];
      if pc.Running? {
        CallAffinity(s, w);
      } else if pc.Popping? && s.queues[w] != [] {
        PopAffinity(s, w, w, false);
      } else if pc.Taking? && s.queues[pc.from] != [] {
        assert Skips(pc, w, |s.workers|);
        PopAffinity(s, w, pc.from, true);
      }
  }

  lemma RunsStay(s: Pool, a: Action, x: Execution)
    requires Invariant(s) && Enabled(s, a) && x in s.runs
    ensures x in Apply(s, a).runs
  {
    if a.Work? && s.workers[a.worker].Running? {
      var y := Execution(s.workers[a.worker].ticket, a.worker);
      assert Apply(s, a).runs == s.runs || Apply(s, a).runs == s.runs + [y];
    }
  }

  lemma JobsStay(s: Pool, a: Action, t: Ticket)
    requires s.Shaped() && Enabled(s, a) && t < |s.jobs|
    ensures t < |Apply(s, a).jobs| && Apply(s, a).jobs[t] == s.jobs[t]
  {
  }

  lemma HandsStay(s: Pool, a: Action, w: nat)
    requires s.Shaped() && Enabled(s, a) && w < |s.workers| && s.workers[w].Running? && a != Work(w)
    ensures Apply(s, a).workers[w] == s.workers[w]
  {
  }

  lemma HeldIsRun(s: Pool, w: nat)
    requires Invariant(s) && w < |s.workers| && s.workers[w].Running?
    ensures Execution(s.workers[w].ticket, w) in Apply(s, Work(w)).runs
  {
    HeldIsNotExecuted(s, w);
    assert Apply(s, Work(w)).runs == s.runs + [Execution(s.workers[w].ticket, w)];
  }

  /** What is in a foreign hand runs there next. */
  lemma ForeignHandRuns(s: Pool, w: nat)
    requires Invariant(s) && w < |s.workers| && s.workers[w].Running? && Foreign(s, s.workers[w].ticket, w)
    ensures var s' := Apply(s, Work(w));
            exists x :: x in s'.runs && x.ticket < |s'.jobs| && Foreign(s', x.ticket, x.worker)
  {
    HeldIsRun(s, w);
    JobsStay(s, Work(w), s.workers[w].ticket);
  }

  /** Once an unstealable activity is in a foreign hand it stays there or runs there. */
  lemma BrokenStays(s: Pool, a: Action)
    requires Invariant(s) && !RespectsAffinity(s) && Enabled(s, a)
    ensures Invariant(Apply(s, a)) && !RespectsAffinity(Apply(s, a))
  {
    StepKeepsInvariant(s, a);
    if x :| x in s.runs && Foreign(s, x.ticket, x.worker) {
      RunsStay(s, a, x);
      JobsStay(s, a, x.ticket);
    } else {
      var w :| 0 <= w < |s.workers| && s.workers[w].Running? && Foreign(s, s.workers[w].ticket, w);
      JobsStay(s, a, s.workers[w].ticket);
      if a == Work(w) { HeldIsRun(s, w); } else { HandsStay(s, a, w); }
    }
  }

  /** No step of the run pops an unstealable front for a thief. */
  ghost predicate NeverTakesUnstealable(s: Pool, actions: seq<Action>)
    requires s.Shaped() && Feasible(s, actions)
    decreases |actions|
  {
    actions == [] || (!TakesUnstealable(s, actions[0]) && NeverTakesUnstealable(Apply(s, actions[0]), actions[1..]))
  }

  lemma {:induction false} AffinityFrom(s: Pool, actions: seq<Action>)
    requires Invariant(s) && Feasible(s, actions)
    ensures Invariant(After(s, actions))
    ensures RespectsAffinity(After(s, actions)) <==> RespectsAffinity(s) && NeverTakesUnstealable(s, actions)
    decreases |actions|
  {
    if actions != [] {
      if RespectsAffinity(s) { StepAffinity(s, actions[0]); } else { BrokenStays(s, actions[0]); }
      AffinityFrom(Apply(s, actions[0]), actions[1..]);
    }
  }

  /** A run keeps unstealable activities on their threads exactly when no thief pops one. */
  lemma AffinityOverRuns(n: nat, actions: seq<Action>)
    requires Feasible(Start(n), actions)
    ensures Invariant(After(Start(n), actions))
    ensures RespectsAffinity(After(Start(n), actions)) <==> NeverTakesUnstealable(Start(n), actions)
  {
    AffinityFrom(Start(n), actions);
  }

  // ------------------------------------------------- undisturbed previews

  /** The step pops queue i. */
  ghost predicate PopsQueue(s: Pool, a: Action, i: nat)
    requires s.Shaped() && i < |s.queues| && s.queues[i] != []
  {
    && a.Work? && a.worker < |s.workers|
    && ((s.workers[a.worker].Popping? && a.worker == i) || (s.workers[a.worker].Taking? && s.workers[a.worker].from == i))
  }

  /** The step does not pop a queue whose front another worker has previewed and is about to take. */
  ghost predicate Undisturbing(s: Pool, a: Action)
    requires s.Shaped()
  {
    forall w :: 0 <= w < |s.workers| && s.workers[w].Taking? && a != Work(w) && s.queues[s.workers[w].from] != [] ==>
      !PopsQueue(s, a, s.workers[w].from)
  }

  ghost predicate UndisturbedRun(s: Pool, actions: seq<Action>)
    requires s.Shaped() && Feasible(s, actions)
    decreases |actions|
  {
    actions == [] || (Undisturbing(s, actions[0]) && UndisturbedRun(Apply(s, actions[0]), actions[1..]))
  }

  /** Previews are still at the front of their queues. */
  ghost predicate PreviewsHold(s: Pool)
    requires s.Shaped()
  {
    forall w :: 0 <= w < |s.workers| && s.workers[w].Taking? ==>
      s.queues[s.workers[w].from] != [] && s.queues[s.workers[w].from][0] == s.workers[w].preview
  }

  lemma PopKeepsPreviews(s: Pool, w: nat, i: nat, stolen: bool)
    requires Invariant(s) && PreviewsHold(s) && w < |s.workers| && i < |s.queues| && s.queues[i] != []
    requires forall v :: 0 <= v < |s.workers| && v != w && s.workers[v].Taking? ==> s.workers[v].from != i
    ensures PreviewsHold(PopInto(s, w, i, stolen))
  {
  }

  lemma PushKeepsPreviews(s: Pool, job: Job)
    requires Invariant(s) && PreviewsHold(s) && Enabled(s, Push(job))
    ensures PreviewsHold(Apply(s, Push(job)))
  {
  }

  /** A worker that only moves may at most start to hold a preview. */
  lemma MoveKeepsPreviews(s: Pool, w: nat)
    requires Invariant(s) && PreviewsHold(s) && Enabled(s, Work(w)) && Apply(s, Work(w)).queues == s.queues
    requires s.workers[w].Taking? ==> s.queues[s.workers[w].from] == []
    ensures PreviewsHold(Apply(s, Work(w)))
  {
    var s' := Apply(s, Work(w));
    forall v | 0 <= v < |s'.workers| && s'.workers[v].Taking?
      ensures s'.queues[s'.workers[v].from] != [] && s'.queues[s'.workers[v].from][0] == s'.workers[v].preview
    {
      assert v != w ==> s'.workers[v] == s.workers[v];
    }
  }

  lemma StepKeepsPreviews(s: Pool, a: Action)
    requires Invariant(s) && PreviewsHold(s) && Enabled(s, a) && Undisturbing(s, a)
    ensures PreviewsHold(Apply(s, a))
  {
    match a
    case Push(job) => PushKeepsPreviews(s, job);
    case Release(_) =>
    case Work(w) =>
      var pc := s.workers[w];
      if pc.Popping? && s.queues[w] != [] {
        assert PopsQueue(s, a, w);
        PopKeepsPreviews(s, w, w, false);
      } else if pc.Taking? && s.queues[pc.from] != [] {
        assert PopsQueue(s, a, pc.from);
        PopKeepsPreviews(s, w, pc.from, true);
      } else {
        MoveKeepsPreviews(s, w);
      }
  }

  lemma {:induction false} UndisturbedFrom(s: Pool, actions: seq<Action>)
    requires Invariant(s) && PreviewsHold(s) && PreviewsStealable(s) && RespectsAffinity(s)
    requires Feasible(s, actions) && UndisturbedRun(s, actions)
    ensures Invariant(After(s, actions)) && RespectsAffinity(After(s, actions))
    decreases |actions|
  {
    if actions != [] {
      var a := actions[0];
      StepAffinity(s, a);
      StepKeepsPreviews(s, a);
      StepPreviewsStealable(s, a);
      UndisturbedFrom(Apply(s, a), actions[1..]);
    }
  }

  /** If no pop comes between a thief's preview and its pop, unstealable activities stay home. */
  lemma UndisturbedRunsRespectAffinity(n: nat, actions: seq<Action>)
    requires Feasible(Start(n), actions) && UndisturbedRun(Start(n), actions)
    ensures Invariant(After(Start(n), actions)) && RespectsAffinity(After(Start(n), actions))
  {
    UndisturbedFrom(Start(n), actions);
  }

  // ------------------------------------------------------- two threads

  /** Nothing was taken from, or has run away from, the thread it was posted to. */
  ghost predicate AllAtHome(s: Pool)
    requires s.Shaped() && RunsOnce(s)
  {
    && (forall w :: 0 <= w < |s.workers| && s.workers[w].Running? ==> !s.workers[w].stolen)
    && (forall x :: x in s.runs ==> x.worker == s.jobs[x.ticket].target)
  }

  /** With at most two threads there is no third queue to look at. */
  lemma NobodyTakes(s: Pool, w: nat)
    requires Invariant(s) && |s.workers| <= 2 && w < |s.workers|
    ensures !s.workers[w].Taking? && (s.workers[w].Probing? ==> s.workers[w].at == w)
  {
    assert Skips(s.workers[w], w, |s.workers|);
  }

  lemma CallStaysHome(s: Pool, w: nat)
    requires Invariant(s) && AllAtHome(s) && w < |s.workers| && s.workers[w].Running? && RunsOnce(WorkerStep(s, w))
    ensures AllAtHome(WorkerStep(s, w))
  {
    var s', x := WorkerStep(s, w), Execution(s.workers[w].ticket, w);
    assert s'.runs == s.runs || s'.runs == s.runs + [x];
    assert forall y :: y in s'.runs ==> y in s.runs || y == x;
  }

  lemma MoveStaysHome(s: Pool, a: Action)
    requires Invariant(s) && AllAtHome(s) && Enabled(s, a) && RunsOnce(Apply(s, a))
    requires a.Work? ==> !s.workers[a.worker].Running? && !s.workers[a.worker].Taking?
    ensures AllAtHome(Apply(s, a))
  {
    forall x | x in s.runs ensures Apply(s, a).jobs[x.ticket] == s.jobs[x.ticket] {
      JobsStay(s, a, x.ticket);
    }
  }

  lemma StepStaysHome(s: Pool, a: Action)
    requires Invariant(s) && |s.workers| <= 2 && AllAtHome(s) && Enabled(s, a)
    ensures Invariant(Apply(s, a)) && AllAtHome(Apply(s, a))
  {
    StepKeepsInvariant(s, a);
    if a.Work? { NobodyTakes(s, a.worker); }
    if a.Work? && s.workers[a.worker].Running? { CallStaysHome(s, a.worker); } else { MoveStaysHome(s, a); }
  }

  lemma {:induction false} StaysHomeFrom(s: Pool, actions: seq<Action>)
    requires Invariant(s) && |s.workers| <= 2 && AllAtHome(s) && Feasible(s, actions)
    ensures Invariant(After(s, actions)) && |After(s, actions).workers| == |s.workers| && AllAtHome(After(s, actions))
    decreases |actions|
  {
    if actions != [] {
      StepStaysHome(s, actions[0]);
      StaysHomeFrom(Apply(s, actions[0]), actions[1..]);
    }
  }

  /** A pool of one or two threads never steals: a thief looks at no queue but its own, and everything runs at home. */
  lemma TwoThreadsNeverSteal(n: nat, actions: seq<Action>)
    requires n <= 2 && Feasible(Start(n), actions)
    ensures var s := After(Start(n), actions);
            && Invariant(s) && AllAtHome(s)
            && (forall x :: x in s.runs ==> x.ticket < |s.jobs| && x.worker == s.jobs[x.ticket].target)
            && forall w :: 0 <= w < |s.workers| ==> !s.workers[w].Taking? && (s.workers[w].Probing? ==> s.workers[w].at == w)
  {
    StaysHomeFrom(Start(n), actions);
    var s := After(Start(n), actions);
    forall w | 0 <= w < |s.workers| ensures !s.workers[w].Taking? && (s.workers[w].Probing? ==> s.workers[w].at == w) {
      NobodyTakes(s, w);
    }
  }
}
