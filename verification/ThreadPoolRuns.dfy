/** What holds in every run of the thread pool, and how runs without new posts end. */
module ThreadPoolRuns {
  import opened Basics
  import opened ThreadPool

  // ------------------------------------------------------------- safety

  /** Jobs sit in, and are drained from, the queue they were posted to; proxies differ. */
  ghost predicate OnTarget(s: Pool)
    requires s.Shaped()
  {
    && (forall i, k :: 0 <= i < |s.queues| && 0 <= k < |s.queues[i]| ==> s.jobs[s.queues[i][k]].target == i)
    && (forall w :: 0 <= w < |s.workers| && s.workers[w].Running? && !s.workers[w].stolen ==>
          s.jobs[s.workers[w].ticket].target == w)
    && (forall t, u :: 0 <= t < u < |s.jobs| ==> s.jobs[t].proxy != s.jobs[u].proxy)
  }

  lemma PushKeepsTargets(s: Pool, job: Job)
    requires s.Shaped() && OnTarget(s) && Enabled(s, Push(job))
    ensures OnTarget(PushTo(s, job))
  {
  }

  lemma PopKeepsTargets(s: Pool, w: nat, i: nat, stolen: bool)
    requires s.Shaped() && OnTarget(s) && w < |s.workers| && i < |s.queues| && s.queues[i] != []
    requires stolen || i == w
    ensures OnTarget(PopInto(s, w, i, stolen))
  {
  }

  lemma StepKeepsTargets(s: Pool, a: Action)
    requires s.Shaped() && OnTarget(s) && Enabled(s, a)
    ensures OnTarget(Apply(s, a))
  {
    match a
    case Push(job) => PushKeepsTargets(s, job);
    case Release(_) =>
    case Work(w) =>
      var pc := s.workers[w];
      if pc.Popping? && s.queues[w] != [] {
        PopKeepsTargets(s, w, w, false);
      } else if pc.Taking? && s.queues[pc.from] != [] {
        PopKeepsTargets(s, w, pc.from, true);
      }
  }

  /** A thief never looks at its own queue nor at that of the next thread. */
  ghost predicate SkipsNeighbour(s: Pool) {
    forall w :: 0 <= w < |s.workers| ==> Skips(s.workers[w], w, |s.workers|)
  }

  ghost predicate Skips(pc: Pc, w: nat, n: nat) {
    && (pc.Probing? ==> pc.at != Successor(w, n))
    && (pc.Taking? ==> pc.from != Successor(w, n) && pc.from != w)
  }

  lemma MoveSkips(s: Pool, w: nat)
    requires s.Shaped() && w < |s.workers| && !s.workers[w].Blocked? && !s.workers[w].Running?
    requires Skips(s.workers[w], w, |s.workers|)
    ensures Skips(Move(s, w), w, |s.workers|)
  {
  }

  lemma StepSkipsNeighbour(s: Pool, a: Action)
    requires s.Shaped() && SkipsNeighbour(s) && Enabled(s, a)
    ensures SkipsNeighbour(Apply(s, a))
  {
    if a.Work? && !s.workers[a.worker].Blocked? && !s.workers[a.worker].Running? {
      MoveSkips(s, a.worker);
    }
  }

  ghost predicate Invariant(s: Pool) {
    && s.Shaped()
    && Conserved(s)
    && NoneStranded(s)
    && RunsOnce(s)
    && OnTarget(s)
    && SkipsNeighbour(s)
  }

  lemma StepKeepsInvariant(s: Pool, a: Action)
    requires Invariant(s) && Enabled(s, a)
    ensures Invariant(Apply(s, a))
  {
    StepConserves(s, a);
    StepStrandsNone(s, a);
    StepRunsOnce(s, a);
    StepKeepsTargets(s, a);
    StepSkipsNeighbour(s, a);
  }

  lemma {:induction false} RunKeepsInvariant(s: Pool, actions: seq<Action>)
    requires Invariant(s) && Feasible(s, actions)
    ensures Invariant(After(s, actions))
    decreases |actions|
  {
    if actions != [] {
      StepKeepsInvariant(s, actions[0]);
      RunKeepsInvariant(Apply(s, actions[0]), actions[1..]);
    }
  }

  /** A proxy in somebody's hand has not run yet. */
  lemma HeldIsNotExecuted(s: Pool, w: nat)
    requires Invariant(s) && w < |s.workers| && s.workers[w].Running?
    ensures s.jobs[s.workers[w].ticket].proxy !in s.executed
  {
    var t := s.workers[w].ticket;
    forall x | x in s.runs ensures s.jobs[x.ticket].proxy != s.jobs[t].proxy {
      assert s.place[x.ticket] == Finished && s.place[t] == InHand(w);
    }
  }

  /** Safety of every interleaving, for every number of threads. */
  lemma PoolIsSafe(n: nat, actions: seq<Action>)
    requires Feasible(Start(n), actions)
    ensures Invariant(After(Start(n), actions))
  {
    RunKeepsInvariant(Start(n), actions);
  }

  // ---------------------------------------------------------- termination

  ghost function Weight(p: Place): nat {
    match p
    case InQueue(_) => 2
    case InHand(_) => 1
    case Finished => 0
  }

  ghost function Backlog(place: seq<Place>): nat {
    if place == [] then 0 else Weight(place[0]) + Backlog(place[1..])
  }

  lemma {:induction false} BacklogUpdate(place: seq<Place>, t: nat, p: Place)
    requires t < |place|
    ensures Backlog(place[t := p]) + Weight(place[t]) == Backlog(place) + Weight(p)
  {
    if t == 0 {
      assert place[t := p][1..] == place[1..];
    } else {
      assert place[t := p][1..] == place[1..][t - 1 := p];
      BacklogUpdate(place[1..], t - 1, p);
    }
  }

  lemma {:induction false} SumUpdate(xs: seq<nat>, i: nat, x: nat)
    requires i < |xs|
    ensures Sum(xs[i := x]) + xs[i] == Sum(xs) + x
  {
    if i == 0 {
      assert xs[i := x][1..] == xs[1..];
    } else {
      assert xs[i := x][1..] == xs[1..][i - 1 := x];
      SumUpdate(xs[1..], i - 1, x);
    }
  }

  /** Probes left before the steal loop of worker w stops, seen from `at`. */
  ghost function ProbesLeft(w: nat, n: nat, at: nat): (d: nat)
    requires at < n && w < n
    ensures at != Successor(w, n) ==> 0 < d < n
  {
    var stop := Successor(w, n);
    if at <= stop then stop - at else stop + n - at
  }

  /** Bound on the steps a worker takes before it blocks, pops or calls. */
  ghost function Rank(s: Pool, w: nat): nat
    requires s.Shaped() && w < |s.workers|
  {
    var n := |s.workers|;
    match s.workers[w]
    case Blocked => 0
    case Parking => 1
    case Running(_, _) => 0
    case Probing(i) => 3 + 2 * ProbesLeft(w, n, i)
    case Taking(i, _) => 2 + 2 * ProbesLeft(w, n, i)
    case Draining => if s.queues[w] == [] then 2 * n + 4 else 2 * n + 6
    case Popping => 2 * n + 5
  }

  ghost function Ranks(s: Pool): (r: seq<nat>)
    requires s.Shaped()
    ensures |r| == |s.workers|
  {
    seq(|s.workers|, w requires 0 <= w < |s.workers| => Rank(s, w))
  }

  ghost function Unrung(s: Pool): nat {
    2 * Sum(s.pending) + Sum(s.tokens)
  }

  /** Lexicographic progress: jobs done, then tokens used up, then workers' own steps. */
  ghost predicate Progress(s: Pool, s': Pool)
    requires s.Shaped() && s'.Shaped()
  {
    || Backlog(s'.place) < Backlog(s.place)
    || (s'.place == s.place && Unrung(s') < Unrung(s))
    || (s'.place == s.place && Unrung(s') == Unrung(s) && Sum(Ranks(s')) < Sum(Ranks(s)))
  }

  lemma MoveLowersRank(s: Pool, w: nat)
    requires s.Shaped() && SkipsNeighbour(s) && Enabled(s, Work(w))
    requires !s.workers[w].Blocked? && !s.workers[w].Running?
    requires s.workers[w].Popping? ==> s.queues[w] == []
    ensures Rank(Goto(s, w, Move(s, w)), w) < Rank(s, w)
  {
  }

  lemma MoveProgress(s: Pool, w: nat, pc: Pc)
    requires s.Shaped() && w < |s.workers| && Goto(s, w, pc).Shaped()
    requires Rank(Goto(s, w, pc), w) < Rank(s, w)
    ensures Progress(s, Goto(s, w, pc))
  {
    var s' := Goto(s, w, pc);
    assert Ranks(s') == Ranks(s)[w := Rank(s', w)];
    SumUpdate(Ranks(s), w, Rank(s', w));
  }

  lemma PopProgress(s: Pool, w: nat, i: nat, stolen: bool)
    requires s.Shaped() && Conserved(s) && w < |s.workers| && i < |s.queues| && s.queues[i] != []
    ensures Progress(s, PopInto(s, w, i, stolen))
  {
    assert s.place[s.queues[i][0]] == InQueue(i);
    BacklogUpdate(s.place, s.queues[i][0], InHand(w));
  }

  lemma CallProgress(s: Pool, w: nat)
    requires s.Shaped() && Conserved(s) && w < |s.workers| && s.workers[w].Running?
    ensures Progress(s, WorkerStep(s, w))
  {
    BacklogUpdate(s.place, s.workers[w].ticket, Finished);
  }

  lemma AcquireProgress(s: Pool, w: nat)
    requires s.Shaped() && Enabled(s, Work(w)) && s.workers[w].Blocked?
    ensures Progress(s, WorkerStep(s, w))
  {
    SumUpdate(s.tokens, w, s.tokens[w] - 1);
  }

  lemma ReleaseProgress(s: Pool, i: nat)
    requires s.Shaped() && Enabled(s, Release(i))
    ensures Progress(s, Apply(s, Release(i)))
  {
    SumUpdate(s.pending, i, s.pending[i] - 1);
    SumUpdate(s.tokens, i, s.tokens[i] + 1);
  }

  /** Every step except a new post makes progress. */
  lemma StepProgress(s: Pool, a: Action)
    requires Invariant(s) && Enabled(s, a) && !a.Push?
    ensures Progress(s, Apply(s, a))
  {
    match a
    case Release(i) => ReleaseProgress(s, i);
    case Work(w) =>
      var pc := s.workers[w];
      if pc.Running? {
        CallProgress(s, w);
      } else if pc.Popping? && s.queues[w] != [] {
        PopProgress(s, w, w, false);
      } else if pc.Taking? && s.queues[pc.from] != [] {
        PopProgress(s, w, pc.from, true);
      } else if pc.Blocked? {
        AcquireProgress(s, w);
      } else {
        MoveLowersRank(s, w);
        MoveProgress(s, w, Move(s, w));
      }
  }

  /** s' follows s by a step that is not a new post. */
  ghost predicate WorksTo(s: Pool, a: Action, s': Pool) {
    s.Shaped() && Enabled(s, a) && !a.Push? && s' == Apply(s, a)
  }

  /** However the steps are scheduled, without new posts they come to an end. */
  lemma {:induction false} WorkRunsOut(trace: nat -> Pool, acts: nat -> Action, k: nat)
    requires Invariant(trace(k))
    ensures exists j: nat :: j >= k && !WorksTo(trace(j), acts(j), trace(j + 1))
    decreases Backlog(trace(k).place), Unrung(trace(k)), Sum(Ranks(trace(k)))
  {
    if WorksTo(trace(k), acts(k), trace(k + 1)) {
      StepProgress(trace(k), acts(k));
      StepKeepsInvariant(trace(k), acts(k));
      WorkRunsOut(trace, acts, k + 1);
    }
  }

  /** Nobody can take a step any more, short of a new post. */
  ghost predicate AtRest(s: Pool)
    requires s.Shaped()
  {
    forall a :: Enabled(s, a) ==> a.Push?
  }

  /** A pool at rest has run every posted activity exactly once. */
  lemma AtRestAllRan(s: Pool, t: Ticket)
    requires Invariant(s) && AtRest(s)
    ensures forall i :: 0 <= i < |s.queues| ==> s.queues[i] == []
    ensures t < |s.jobs| ==> exists k :: 0 <= k < |s.runs| && s.runs[k].ticket == t
    ensures forall i, j :: 0 <= i < j < |s.runs| ==> s.runs[i].ticket != s.runs[j].ticket
  {
    forall i | 0 <= i < |s.queues| ensures s.queues[i] == [] && s.workers[i].Blocked? {
      assert !Enabled(s, Work(i)) && !Enabled(s, Release(i));
      assert !Attended(s, i);
    }
    if t < |s.jobs| {
      assert Located(s, t);
      TicketRan(s, t);
    }
    RunsDiffer(s);
  }

  lemma RunsDiffer(s: Pool)
    requires Invariant(s)
    ensures forall i, j :: 0 <= i < j < |s.runs| ==> s.runs[i].ticket != s.runs[j].ticket
  {
    assert forall i :: 0 <= i < |s.runs| ==> s.runs[i] in s.runs;
  }

  lemma TicketRan(s: Pool, t: Ticket)
    requires Invariant(s) && t < |s.jobs| && s.place[t] == Finished
    ensures exists k :: 0 <= k < |s.runs| && s.runs[k].ticket == t
  {
    assert s.jobs[t].proxy in Ran(s.jobs, s.runs);
    var x :| x in s.runs && s.jobs[x.ticket].proxy == s.jobs[t].proxy;
    assert x.ticket == t;
  }

  ghost predicate IsQueued(s: Pool, t: Ticket) { exists i :: 0 <= i < |s.queues| && t in s.queues[i] }

  ghost predicate IsHeld(s: Pool, t: Ticket) {
    exists w :: 0 <= w < |s.workers| && s.workers[w].Running? && s.workers[w].ticket == t
  }

  ghost predicate HasRun(s: Pool, t: Ticket) { exists x :: x in s.runs && x.ticket == t }

  /** In every run each accepted job is queued, in somebody's hand or has run, and only one of these. */
  lemma EveryJobAccounted(n: nat, actions: seq<Action>, s: Pool, t: Ticket)
    requires Feasible(Start(n), actions) && s == After(Start(n), actions) && t < |s.jobs|
    ensures (IsQueued(s, t) && !IsHeld(s, t) && !HasRun(s, t)) || (!IsQueued(s, t) && IsHeld(s, t) && !HasRun(s, t))
         || (!IsQueued(s, t) && !IsHeld(s, t) && HasRun(s, t))
  {
    PoolIsSafe(n, actions);
    InOnePlace(s, t);
  }

  lemma InOnePlace(s: Pool, t: Ticket)
    requires Invariant(s) && t < |s.jobs|
    ensures IsQueued(s, t) <==> s.place[t].InQueue?
    ensures IsHeld(s, t) <==> s.place[t].InHand?
    ensures HasRun(s, t) <==> s.place[t].Finished?
  {
    assert Located(s, t);
    if i, k :| 0 <= i < |s.queues| && 0 <= k < |s.queues[i]| && s.queues[i][k] == t { assert s.place[t] == InQueue(i); }
    if s.place[t].Finished? {
      TicketRan(s, t);
      var k :| 0 <= k < |s.runs| && s.runs[k].ticket == t;
      assert s.runs[k] in s.runs;
    }
  }

  /** No job runs twice. */
  lemma NoneRunsTwice(n: nat, actions: seq<Action>, i: nat, j: nat)
    requires Feasible(Start(n), actions) && i < j < |After(Start(n), actions).runs|
    ensures var runs := After(Start(n), actions).runs; runs[i].ticket != runs[j].ticket
  {
    PoolIsSafe(n, actions);
    RunsDiffer(After(Start(n), actions));
  }
}
