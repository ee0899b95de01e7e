/** Which posts are accepted, and the order in which each queue hands them out. */
module PostOrder {
  import opened Basics
  import opened ThreadPool
  import opened ThreadPoolRuns

  /** The jobs posted in the run, in order. */
  ghost function Posts(actions: seq<Action>): seq<Job>
    decreases |actions|
  {
    if actions == [] then []
    else (if actions[0].Push? then [actions[0].job] else []) + Posts(actions[1..])
  }

  /** No queue is longer than the number of jobs. */
  ghost predicate Short(s: Pool) {
    forall i :: 0 <= i < |s.queues| ==> |s.queues[i]| <= |s.jobs|
  }

  lemma StepKeepsShort(s: Pool, a: Action)
    requires s.Shaped() && Short(s) && Enabled(s, a) && (a.Push? ==> |s.jobs| < 10239)
    ensures Short(Apply(s, a)) && Apply(s, a).jobs == s.jobs + if a.Push? then [a.job] else []
    ensures a.Push? ==> Apply(s, a).queues == s.queues[a.job.target := s.queues[a.job.target] + [|s.jobs|]]
  {
    if a.Push? { assert |s.queues[a.job.target]| <= |s.jobs|; }
  }

  lemma {:induction false} AcceptedFrom(s: Pool, actions: seq<Action>)
    requires s.Shaped() && Short(s) && Feasible(s, actions) && |s.jobs| + |Posts(actions)| <= 10239
    ensures After(s, actions).jobs == s.jobs + Posts(actions)
    decreases |actions|
  {
    if actions != [] {
      StepKeepsShort(s, actions[0]);
      AcceptedFrom(Apply(s, actions[0]), actions[1..]);
      Associative(s.jobs, if actions[0].Push? then [actions[0].job] else [], Posts(actions[1..]));
    }
  }

  /** The first 10239 posts of a run are all accepted, and numbered in order. */
  lemma PostsAccepted(n: nat, actions: seq<Action>)
    requires Feasible(Start(n), actions) && |Posts(actions)| <= 10239
    ensures After(Start(n), actions).jobs == Posts(actions)
  {
    AcceptedFrom(Start(n), actions);
  }

  lemma {:induction false} LengthsFrom(s: Pool, actions: seq<Action>)
    requires s.Shaped() && Feasible(s, actions) && forall i :: 0 <= i < |s.queues| ==> |s.queues[i]| <= 10239
    ensures forall i :: 0 <= i < |s.queues| ==> |After(s, actions).queues[i]| <= 10239
    decreases |actions|
  {
    if actions != [] {
      LengthsFrom(Apply(s, actions[0]), actions[1..]);
    }
  }

  /** No queue ever holds more. */
  lemma QueuesStayBounded(n: nat, actions: seq<Action>)
    requires Feasible(Start(n), actions)
    ensures forall i :: 0 <= i < n ==> |After(Start(n), actions).queues[i]| <= 10239
  {
    LengthsFrom(Start(n), actions);
  }

  // ---------------------------------------------------------- first in first out

  /** Queues hold tickets in the order of posting. */
  ghost predicate Ascending(s: Pool) {
    forall i, j, k :: 0 <= i < |s.queues| && 0 <= j < k < |s.queues[i]| ==> s.queues[i][j] < s.queues[i][k]
  }

  /** Of two jobs posted to one thread the later one is still queued while the earlier one is. */
  ghost predicate InOrder(s: Pool)
    requires s.Shaped()
  {
    forall t, u :: 0 <= t < u < |s.jobs| && s.jobs[t].target == s.jobs[u].target && s.place[t].InQueue? ==> s.place[u].InQueue?
  }

  lemma StepKeepsAscending(s: Pool, a: Action)
    requires s.Shaped() && Ascending(s) && Enabled(s, a)
    ensures Ascending(Apply(s, a))
  {
  }

  /** What is queued for thread i is in its queue, and nothing there is older than the front. */
  lemma FrontIsOldest(s: Pool, i: nat, t: Ticket)
    requires Invariant(s) && Ascending(s) && t < |s.jobs| && s.place[t].InQueue? && s.jobs[t].target == i
    ensures i < |s.queues| && t in s.queues[i] && s.queues[i][0] <= t
  {
    assert Located(s, t);
    var j := s.place[t].queue;
    var k :| 0 <= k < |s.queues[j]| && s.queues[j][k] == t;
    assert s.jobs[s.queues[j][k]].target == j;
  }

  lemma PopKeepsOrder(s: Pool, w: nat, i: nat, stolen: bool)
    requires Invariant(s) && Ascending(s) && InOrder(s) && w < |s.workers| && i < |s.queues| && s.queues[i] != []
    ensures InOrder(PopInto(s, w, i, stolen))
  {
    assert s.jobs[s.queues[i][0]].target == i;
    forall t | 0 <= t < |s.jobs| && s.place[t].InQueue? && s.jobs[t].target == i ensures s.queues[i][0] <= t {
      FrontIsOldest(s, i, t);
    }
  }

  lemma CallKeepsOrder(s: Pool, w: nat)
    requires Invariant(s) && InOrder(s) && w < |s.workers| && s.workers[w].Running?
    ensures InOrder(WorkerStep(s, w))
  {
    assert s.place[s.workers[w].ticket] == InHand(w);
  }

  lemma StepKeepsOrder(s: Pool, a: Action)
    requires Invariant(s) && Ascending(s) && InOrder(s) && Enabled(s, a)
    ensures InOrder(Apply(s, a))
  {
    if a.Work? {
      var pc := s.workers[a.worker];
      if pc.Running? {
        CallKeepsOrder(s, a.worker);
      } else if pc.Popping? && s.queues[a.worker] != [] {
        PopKeepsOrder(s, a.worker, a.worker, false);
      } else if pc.Taking? && s.queues[pc.from] != [] {
        PopKeepsOrder(s, a.worker, pc.from, true);
      }
    }
  }

  lemma {:induction false} OrderFrom(s: Pool, actions: seq<Action>)
    requires Invariant(s) && Ascending(s) && InOrder(s) && Feasible(s, actions)
    ensures InOrder(After(s, actions))
    decreases |actions|
  {
    if actions != [] {
      StepKeepsInvariant(s, actions[0]);
      StepKeepsAscending(s, actions[0]);
      StepKeepsOrder(s, actions[0]);
      OrderFrom(Apply(s, actions[0]), actions[1..]);
    }
  }

  lemma RunsInOrder(n: nat, actions: seq<Action>)
    requires Feasible(Start(n), actions)
    ensures Invariant(After(Start(n), actions)) && InOrder(After(Start(n), actions))
  {
    PoolIsSafe(n, actions);
    PoolIsSafe(n, []);
    OrderFrom(Start(n), actions);
  }

  lemma OlderStillQueued(s: Pool, t: Ticket, u: Ticket)
    requires Invariant(s) && InOrder(s) && t < u < |s.jobs| && s.jobs[t].target == s.jobs[u].target
    requires exists i :: 0 <= i < |s.queues| && t in s.queues[i]
    ensures forall w :: 0 <= w < |s.workers| && s.workers[w].Running? ==> s.workers[w].ticket != u
    ensures forall x :: x in s.runs ==> x.ticket != u
  {
    var i :| 0 <= i < |s.queues| && t in s.queues[i];
    var k :| 0 <= k < |s.queues[i]| && s.queues[i][k] == t;
    assert s.place[t] == InQueue(i);
  }

  /**
   * In every run, by whomever they are popped, the jobs of one thread leave its queue in the order of
   * posting: while one is still queued, no later one has been taken or has run.
   */
  lemma FirstInFirstOut(n: nat, actions: seq<Action>, s: Pool, t: Ticket, u: Ticket)
    requires Feasible(Start(n), actions) && s == After(Start(n), actions)
    requires t < u < |s.jobs| && s.jobs[t].target == s.jobs[u].target
    requires exists i :: 0 <= i < |s.queues| && t in s.queues[i]
    ensures forall w :: 0 <= w < |s.workers| && s.workers[w].Running? ==> s.workers[w].ticket != u
    ensures forall x :: x in s.runs ==> x.ticket != u
  {
    RunsInOrder(n, actions);
    OlderStillQueued(s, t, u);
  }
}
