/**
 * What one worker does while no one else moves: it runs its own queue in order,
 * makes one attempt to steal, runs what it stole and waits again.
 */
module WorkerRounds {
  import opened Basics
  import opened Remainders
  import opened ThreadPool
  import opened ThreadPoolRuns

  /** k steps of worker w. */
  ghost function Alone(w: nat, k: nat): (steps: seq<Action>)
    ensures |steps| == k
    ensures k > 0 ==> steps[0] == Work(w) && steps[1..] == Alone(w, k - 1)
  {
    if k == 0 then [] else [Work(w)] + Alone(w, k - 1)
  }

  /** Within k steps of its own worker w turns s into s'. */
  ghost predicate Becomes(s: Pool, w: nat, k: nat, s': Pool) {
    s.Shaped() && Feasible(s, Alone(w, k)) && After(s, Alone(w, k)) == s'
  }

  lemma OneStep(s: Pool, w: nat, s1: Pool, k: nat, s': Pool)
    requires s.Shaped() && Enabled(s, Work(w)) && Apply(s, Work(w)) == s1 && Becomes(s1, w, k, s')
    ensures Becomes(s, w, k + 1, s')
  {
  }

  // ------------------------------------------------------------ one attempt

  /** The front of queue i may be stolen. */
  ghost predicate Offers(s: Pool, i: nat)
    requires s.Shaped()
  {
    i < |s.queues| && s.queues[i] != [] && s.jobs[s.queues[i][0]].stealable
  }

  /** The queue j places after w's own. */
  function Ahead(w: nat, j: nat, n: nat): (i: nat)
    requires n > 0
    ensures i < n && i == (w + j) % n
  {
    (w + j) % n
  }

  /** The first queue looked at, and the one the attempt stops at. */
  lemma AheadEnds(w: nat, n: nat)
    requires w < n
    ensures Successor(Successor(w, n), n) == Ahead(w, 2, n) && Ahead(w, n + 1, n) == Successor(w, n)
  {
    NextRemainder(w, n);
    NextRemainder(w + 1, n);
    AddTurn(w + 1, n);
    RemainderUnique(w, n, 0, w);
  }

  /** In between come all others, w's own last. */
  lemma AheadIs(w: nat, j: nat, n: nat)
    requires w < n && 2 <= j <= n
    ensures Ahead(w, j, n) != Successor(w, n) && Successor(Ahead(w, j, n), n) == Ahead(w, j + 1, n)
    ensures j < n <==> Ahead(w, j, n) != w
  {
    NextRemainder(w, n);
    NextRemainder(w + j, n);
    AddTurn(w, n);
    RemainderUnique(w, n, 0, w);
    if Ahead(w, j, n) == Ahead(w, 1, n) { SameIndexSameTicket(w + 1, w + j, n); }
    if j < n && Ahead(w, j, n) == w { SameIndexSameTicket(w, w + j, n); }
  }

  lemma SomeAhead(w: nat, i: nat, n: nat) returns (j: nat)
    requires w < n && i < n && i != w && i != (w + 1) % n
    ensures 2 <= j < n && Ahead(w, j, n) == i
  {
    j := if i > w then i - w else i + n - w;
    AddTurn(i, n);
    RemainderUnique(i, n, 0, i);
  }

  /** The queues an attempt looks at are all except the thief's own and the next thread's. */
  lemma StealCoverage(w: nat, i: nat, n: nat)
    requires w < n && i < n
    ensures (exists j :: 2 <= j < n && Ahead(w, j, n) == i) <==> i != w && i != (w + 1) % n
  {
    NextRemainder(w, n);
    RemainderUnique(w, n, 0, w);
    if j :| 2 <= j < n && Ahead(w, j, n) == i { AheadIs(w, j, n); }
    if i != w && i != (w + 1) % n {
      var j := SomeAhead(w, i, n);
    }
  }

  /** Worker w holds the front of queue i as stolen. */
  ghost function Stolen(s: Pool, w: nat, i: nat): Pool
    requires s.Shaped() && w < |s.workers| && i < |s.queues| && s.queues[i] != []
  {
    s.(queues := s.queues[i := s.queues[i][1..]],
       workers := s.workers[w := Running(s.queues[i][0], true)],
       place := s.place[s.queues[i][0] := InHand(w)])
  }

  /** The attempt has ended: with the front of queue i in hand, or without any. */
  ghost predicate Ended(s: Pool, w: nat, found: nat, s': Pool)
    requires s.Shaped() && w < |s.workers|
  {
    var n := |s.workers|;
    if found < n then Offers(s, Ahead(w, found, n)) && s' == Stolen(s, w, Ahead(w, found, n))
    else s' == s.(workers := s.workers[w := Parking])
  }

  /** Queues before the found one have nothing to offer. */
  ghost predicate PassedBy(s: Pool, w: nat, j: nat, found: nat)
    requires s.Shaped() && w < |s.workers|
  {
    forall i :: j <= i < found && i < |s.workers| ==> !Offers(s, Ahead(w, i, |s.workers|))
  }

  lemma SameEnd(s: Pool, w: nat, pc: Pc, found: nat, s': Pool)
    requires s.Shaped() && w < |s.workers| && Goto(s, w, pc).Shaped() && Ended(Goto(s, w, pc), w, found, s')
    ensures Ended(s, w, found, s')
  {
  }

  lemma SamePassed(s: Pool, w: nat, pc: Pc, j: nat, found: nat)
    requires s.Shaped() && w < |s.workers| && Goto(s, w, pc).Shaped() && PassedBy(Goto(s, w, pc), w, j, found)
    ensures PassedBy(s, w, j, found)
  {
    forall i | j <= i < found && i < |s.workers| ensures !Offers(s, Ahead(w, i, |s.workers|)) {
      assert !Offers(Goto(s, w, pc), Ahead(w, i, |s.workers|));
    }
  }

  lemma OneMorePassed(s: Pool, w: nat, j: nat, found: nat)
    requires s.Shaped() && w < |s.workers| && PassedBy(s, w, j + 1, found)
    requires j < |s.workers| ==> !Offers(s, Ahead(w, j, |s.workers|))
    ensures PassedBy(s, w, j, found)
  {
  }

  /** A preview that finds nothing to take. */
  lemma Passes(s: Pool, w: nat, i: nat)
    requires s.Shaped() && w < |s.workers| && i < |s.workers| && s.workers[w] == Probing(i) && (i == w || !Offers(s, i))
    ensures var s1 := Goto(s, w, ProbeFrom(w, |s.workers|, Successor(i, |s.workers|)));
            s1.Shaped() && Enabled(s, Work(w)) && Apply(s, Work(w)) == s1
  {
  }

  /** Preview and pop of queue i, with nobody in between. */
  lemma Takes(s: Pool, w: nat, i: nat)
    requires s.Shaped() && w < |s.workers| && i != w && s.workers[w] == Probing(i) && Offers(s, i)
    ensures Becomes(s, w, 2, Stolen(s, w, i))
  {
    var s1 := Goto(s, w, Taking(i, s.queues[i][0]));
    var s2 := PopInto(s1, w, i, true);
    assert s2 == Stolen(s, w, i);
    assert Becomes(s2, w, 0, s2);
    OneStep(s1, w, s2, 0, s2);
    OneStep(s, w, s1, 1, s2);
  }

  /** The attempt from the queue j places on. */
  lemma {:induction false} ProbeOn(s: Pool, w: nat, j: nat) returns (k: nat, found: nat, s': Pool)
    requires s.Shaped() && w < |s.workers| && 2 <= j <= |s.workers| + 1
    requires s.workers[w] == ProbeFrom(w, |s.workers|, Ahead(w, j, |s.workers|))
    ensures j <= found && PassedBy(s, w, j, found)
    ensures Becomes(s, w, k, s') && Ended(s, w, found, s')
    decreases |s.workers| + 1 - j
  {
    var n := |s.workers|;
    AheadEnds(w, n);
    if j == n + 1 { return 0, j, s; }
    AheadIs(w, j, n);
    var i := Ahead(w, j, n);
    if j < n && Offers(s, i) {
      Takes(s, w, i);
      return 2, j, Stolen(s, w, i);
    }
    Passes(s, w, i);
    var pc := ProbeFrom(w, n, Ahead(w, j + 1, n));
    k, found, s' := ProbeOn(Goto(s, w, pc), w, j + 1);
    SameEnd(s, w, pc, found, s');
    SamePassed(s, w, pc, j + 1, found);
    OneMorePassed(s, w, j, found);
    OneStep(s, w, Goto(s, w, pc), k, s');
    k := k + 1;
  }

  /** A worker whose next step is to turn to the queue j places on. */
  lemma GoesOn(s: Pool, w: nat, j: nat) returns (k: nat, found: nat, s': Pool)
    requires s.Shaped() && Enabled(s, Work(w)) && 2 <= j <= |s.workers| + 1
    requires Apply(s, Work(w)) == Goto(s, w, ProbeFrom(w, |s.workers|, Ahead(w, j, |s.workers|)))
    ensures j <= found && PassedBy(s, w, j, found) && Becomes(s, w, k, s') && Ended(s, w, found, s')
  {
    var pc := ProbeFrom(w, |s.workers|, Ahead(w, j, |s.workers|));
    k, found, s' := ProbeOn(Goto(s, w, pc), w, j);
    SameEnd(s, w, pc, found, s');
    SamePassed(s, w, pc, j, found);
    OneStep(s, w, Goto(s, w, pc), k, s');
    k := k + 1;
  }

  /** The own queue was emptied before the pop: the worker is back at its test. */
  lemma FoundEmpty(s: Pool, w: nat)
    requires s.Shaped() && w < |s.workers| && s.workers[w] == Popping && s.queues[w] == []
    ensures Becomes(s, w, 1, s.(workers := s.workers[w := Draining]))
  {
    var s1 := Goto(s, w, Draining);
    assert Becomes(s1, w, 0, s1);
    OneStep(s, w, s1, 0, s1);
  }

  lemma AttemptEnds(s: Pool, w: nat, found: nat, s': Pool)
    requires s.Shaped() && w < |s.workers| && Ended(s, w, found, s')
    ensures found < |s.workers| ==>
              var i := (w + found) % |s.workers|;
              && s.queues[i] != [] && s.jobs[s.queues[i][0]].stealable
              && s'.workers == s.workers[w := Running(s.queues[i][0], true)]
              && s'.queues == s.queues[i := s.queues[i][1..]]
              && s'.runs == s.runs && s'.jobs == s.jobs && s'.tokens == s.tokens && s'.pending == s.pending
    ensures found >= |s.workers| ==> s' == s.(workers := s.workers[w := Parking])
  {
  }

  /**
   * An attempt to steal while no one else moves, from the start or after a pop that found its queue emptied
   * by others: of the queues w+2, w+3, ... up to the one before its own, from the j-th on, the worker takes
   * the front of the first whose front is stealable, and parks when there is none.
   */
  lemma StealAttempt(s: Pool, w: nat, j: nat) returns (k: nat, found: nat)
    requires s.Shaped() && w < |s.workers|
    requires
      || (s.workers[w] == Draining && s.queues[w] == [] && j == 2)
      || (s.workers[w].Taking? && 2 < j <= |s.workers| && s.workers[w].from == Ahead(w, j - 1, |s.workers|)
          && s.queues[s.workers[w].from] == [])
    ensures found >= j
    ensures forall x :: j <= x < found && x < |s.workers| ==>
              var i := Ahead(w, x, |s.workers|);
              s.queues[i] == [] || !s.jobs[s.queues[i][0]].stealable
    ensures Feasible(s, Alone(w, k))
    ensures found < |s.workers| ==>
              var i := (w + found) % |s.workers|;
              && s.queues[i] != [] && s.jobs[s.queues[i][0]].stealable
              && var s' := After(s, Alone(w, k));
                 && s'.workers == s.workers[w := Running(s.queues[i][0], true)]
                 && s'.queues == s.queues[i := s.queues[i][1..]]
                 && s'.runs == s.runs && s'.jobs == s.jobs && s'.tokens == s.tokens && s'.pending == s.pending
    ensures found >= |s.workers| ==> After(s, Alone(w, k)) == s.(workers := s.workers[w := Parking])
  {
    AheadEnds(w, |s.workers|);
    if j > 2 { AheadIs(w, j - 1, |s.workers|); }
    var s';
    k, found, s' := GoesOn(s, w, j);
    AttemptEnds(s, w, found, s');
    forall x | j <= x < found && x < |s.workers| ensures !Offers(s, Ahead(w, x, |s.workers|)) {
    }
  }

  // ------------------------------------------------------- the own queue

  /** The runs of the tickets in q, in order, on thread w. */
  function RunsOn(q: seq<Ticket>, w: nat): (r: seq<Execution>)
    ensures |r| == |q| && forall k :: 0 <= k < |q| ==> r[k].ticket == q[k] && r[k].worker == w
  {
    seq(|q|, k requires 0 <= k < |q| => Execution(q[k], w))
  }

  /** Worker w's next step turns s into s1. */
  ghost predicate Steps(s: Pool, w: nat, s1: Pool) {
    Invariant(s) && Enabled(s, Work(w)) && Apply(s, Work(w)) == s1 && Invariant(s1)
  }

  lemma SeesFront(s: Pool, w: nat)
    requires Invariant(s) && w < |s.workers| && s.workers[w] == Draining && s.queues[w] != []
    ensures Steps(s, w, Goto(s, w, Popping))
  {
    StepKeepsInvariant(s, Work(w));
  }

  lemma PopsFront(s: Pool, w: nat)
    requires Invariant(s) && w < |s.workers| && s.workers[w] == Popping && s.queues[w] != []
    ensures Steps(s, w, PopInto(s, w, w, false))
  {
    StepKeepsInvariant(s, Work(w));
  }

  lemma CallsIt(s: Pool, w: nat) returns (s1: Pool)
    requires Invariant(s) && w < |s.workers| && s.workers[w].Running? && !s.workers[w].stolen
    ensures Steps(s, w, s1) && s1.workers == s.workers[w := Draining] && s1.queues == s.queues && s1.jobs == s.jobs
    ensures s1.runs == s.runs + [Execution(s.workers[w].ticket, w)]
  {
    StepKeepsInvariant(s, Work(w));
    HeldIsNotExecuted(s, w);
    s1 := Apply(s, Work(w));
  }

  /** Worker w has run its queue and is back at its test. */
  ghost predicate Drained(s: Pool, w: nat, s': Pool)
    requires w < |s.queues|
  {
    s'.workers == s.workers && s'.queues == s.queues[w := []] && s'.runs == s.runs + RunsOn(s.queues[w], w)
  }

  /** It has run the front of it. */
  ghost predicate FrontRun(s: Pool, w: nat, s': Pool)
    requires w < |s.queues| && s.queues[w] != []
  {
    && s'.workers == s.workers && s'.queues == s.queues[w := s.queues[w][1..]]
    && s'.runs == s.runs + [Execution(s.queues[w][0], w)]
  }

  /** One round of the inner loop: test, pop and call. */
  lemma RunsFront(s: Pool, w: nat) returns (s1: Pool, s2: Pool, s3: Pool)
    requires Invariant(s) && w < |s.workers| && s.workers[w] == Draining && s.queues[w] != []
    ensures Steps(s, w, s1) && Steps(s1, w, s2) && Steps(s2, w, s3) && FrontRun(s, w, s3)
  {
    SeesFront(s, w);
    s1 := Goto(s, w, Popping);
    PopsFront(s1, w);
    s2 := PopInto(s1, w, w, false);
    s3 := CallsIt(s2, w);
    assert s3.workers == s.workers;
    assert s2.queues == s.queues[w := s.queues[w][1..]];
  }

  lemma ThreeSteps(s: Pool, w: nat, s1: Pool, s2: Pool, s3: Pool, k: nat, s': Pool)
    requires Steps(s, w, s1) && Steps(s1, w, s2) && Steps(s2, w, s3) && Becomes(s3, w, k, s')
    ensures Becomes(s, w, k + 3, s')
  {
    OneStep(s2, w, s3, k, s');
    OneStep(s1, w, s2, k + 1, s');
    OneStep(s, w, s1, k + 2, s');
  }

  lemma RunsOnFront(q: seq<Ticket>, w: nat)
    requires q != []
    ensures RunsOn(q, w) == [Execution(q[0], w)] + RunsOn(q[1..], w)
  {
  }

  lemma DrainedOn(s: Pool, w: nat, s1: Pool, s': Pool)
    requires w < |s.queues| && s.queues[w] != [] && FrontRun(s, w, s1) && Drained(s1, w, s')
    ensures Drained(s, w, s')
  {
    var q := s.queues[w];
    RunsOnFront(q, w);
    Associative(s.runs, [Execution(q[0], w)], RunsOn(q[1..], w));
  }

  lemma NothingToDrain(s: Pool, w: nat)
    requires w < |s.queues| && s.queues[w] == []
    ensures Drained(s, w, s)
  {
    assert s.queues[w := []] == s.queues && s.runs + RunsOn([], w) == s.runs;
  }

  lemma {:induction false} DrainsAll(s: Pool, w: nat) returns (s': Pool)
    requires Invariant(s) && w < |s.workers| && s.workers[w] == Draining
    ensures Becomes(s, w, 3 * |s.queues[w]|, s') && w < |s.queues| && Drained(s, w, s')
    decreases |s.queues[w]|
  {
    if s.queues[w] == [] {
      s' := s;
      NothingToDrain(s, w);
    } else {
      var s1, s2, s3 := RunsFront(s, w);
      s' := DrainsAll(s3, w);
      ThreeSteps(s, w, s1, s2, s3, 3 * |s3.queues[w]|, s');
      DrainedOn(s, w, s3, s');
    }
  }

  /** A worker that no one disturbs runs its whole queue, oldest first, and then looks for more. */
  lemma DrainsInOrder(s: Pool, w: nat)
    requires Invariant(s) && w < |s.workers| && s.workers[w] == Draining
    ensures var q := s.queues[w];
            && Feasible(s, Alone(w, 3 * |q|))
            && var s' := After(s, Alone(w, 3 * |q|));
               && s'.workers == s.workers && s'.queues == s.queues[w := []]
               && |s'.runs| == |s.runs| + |q| && s'.runs[..|s.runs|] == s.runs
               && forall k :: 0 <= k < |q| ==> s'.runs[|s.runs| + k] == Execution(q[k], w)
  {
    var s' := DrainsAll(s, w);
  }

  /** What was stolen is run on the thief, who then waits for its own semaphore again. */
  lemma StolenThenWaits(s: Pool, w: nat)
    requires Invariant(s) && w < |s.workers| && s.workers[w].Running? && s.workers[w].stolen
    ensures Feasible(s, Alone(w, 2))
    ensures var s' := After(s, Alone(w, 2));
            s'.runs == s.runs + [Execution(s.workers[w].ticket, w)] && s'.workers == s.workers[w := Blocked] && s'.queues == s.queues
  {
    HeldIsNotExecuted(s, w);
    var s1 := Apply(s, Work(w));
    var s2 := Apply(s1, Work(w));
    assert Becomes(s2, w, 0, s2);
    OneStep(s1, w, s2, 0, s2);
    OneStep(s, w, s1, 1, s2);
  }
}
