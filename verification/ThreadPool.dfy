/**
 * The work-stealing thread pool as interleaved atomic steps of posters,
 * workers and thieves. Each queue operation is one step; the preview (top) and
 * the pop of a steal attempt are two separate steps, as they are in the code.
 */
module ThreadPool {

  /** A posted proxy, the thread it was posted to, and whether others may take it. */
  datatype Job = Job(proxy: int, target: nat, stealable: bool)

  /** Posts are numbered in order; a ticket is the number of a post. */
  type Ticket = nat

  /** Where a worker stands in its loop. */
  datatype Pc =
    | Blocked                               // acquiring a token
    | Draining                              // about to test its queue for emptiness
    | Popping                               // queue seen non-empty, about to pop
    | Running(ticket: Ticket, stolen: bool) // about to call the proxy in hand
    | Probing(at: nat)                      // steal loop, about to preview queue `at`
    | Taking(from: nat, preview: Ticket)    // preview was stealable, about to pop `from`
    | Parking                               // about to clear its busy flag and loop

  datatype Place = InQueue(queue: nat) | InHand(worker: nat) | Finished

  datatype Execution = Execution(ticket: Ticket, worker: nat)

  /**
   * `jobs` and `place` are indexed by ticket; `pending[i]` counts the posters
   * that pushed to queue i and have not released its semaphore yet.
   */
  datatype Pool = Pool(
    queues: seq<seq<Ticket>>, tokens: seq<nat>, pending: seq<nat>, workers: seq<Pc>,
    executed: set<int>, runs: seq<Execution>, jobs: seq<Job>, place: seq<Place>)
  {
    ghost predicate Shaped() {
      && |queues| == |tokens| == |pending| == |workers|
      && |jobs| == |place|
      && (forall i, k :: 0 <= i < |queues| && 0 <= k < |queues[i]| ==> queues[i][k] < |jobs|)
      && (forall w :: 0 <= w < |workers| && workers[w].Running? ==> workers[w].ticket < |jobs|)
      && (forall w :: 0 <= w < |workers| && workers[w].Probing? ==> workers[w].at < |workers|)
      && (forall w :: 0 <= w < |workers| && workers[w].Taking? ==>
            workers[w].from < |workers| && workers[w].preview < |jobs|)
    }
  }

  datatype Action =
    | Push(job: Job)        // a poster pushes; on a full queue it throws instead
    | Release(target: nat)  // that poster releases the target's semaphore
    | Work(worker: nat)     // a worker's next step

  const QUEUE_CAPACITY: nat := 10240

  function Start(n: nat): Pool {
    Pool(seq(n, _ => []), seq(n, _ => 0), seq(n, _ => 0), seq(n, _ => Blocked), {}, [], [], [])
  }

  /** (i + 1) modulo the number of threads. */
  function Successor(i: nat, n: nat): nat {
    if i + 1 < n then i + 1 else 0
  }

  /** A proxy is posted once: its second call would throw inside the worker. */
  predicate Enabled(s: Pool, a: Action)
    requires s.Shaped()
  {
    match a
    case Push(job) =>
      job.target < |s.queues| && forall t :: 0 <= t < |s.jobs| ==> s.jobs[t].proxy != job.proxy
    case Release(i) => i < |s.queues| && s.pending[i] > 0
    case Work(w) => w < |s.workers| && (s.workers[w].Blocked? ==> s.tokens[w] > 0)
  }

  function Apply(s: Pool, a: Action): (s': Pool)
    requires s.Shaped() && Enabled(s, a)
    ensures s'.Shaped() && |s'.queues| == |s.queues|
  {
    match a
    case Push(job) =>
      if |s.queues[job.target]| == QUEUE_CAPACITY - 1 then s else PushTo(s, job)
    case Release(i) =>
      s.(pending := s.pending[i := s.pending[i] - 1], tokens := s.tokens[i := s.tokens[i] + 1])
    case Work(w) => WorkerStep(s, w)
  }

  function PushTo(s: Pool, job: Job): (s': Pool)
    requires s.Shaped() && job.target < |s.queues|
    ensures s'.Shaped()
  {
    var i := job.target;
    s.(queues := s.queues[i := s.queues[i] + [|s.jobs|]],
       pending := s.pending[i := s.pending[i] + 1],
       jobs := s.jobs + [job],
       place := s.place + [InQueue(i)])
  }

  /** Steal attempts start two threads on and stop at the next thread. */
  function ProbeFrom(w: nat, n: nat, at: nat): Pc {
    if at == Successor(w, n) then Parking else Probing(at)
  }

  function Goto(s: Pool, w: nat, pc: Pc): Pool
    requires w < |s.workers|
  {
    s.(workers := s.workers[w := pc])
  }

  function WorkerStep(s: Pool, w: nat): (s': Pool)
    requires s.Shaped() && Enabled(s, Work(w))
    ensures s'.Shaped() && |s'.queues| == |s.queues|
  {
    var pc := s.workers[w];
    if pc.Running? then
      Goto(Call(s, pc.ticket, w), w, if pc.stolen then Parking else Draining)
    else if pc.Popping? && s.queues[w] != [] then
      PopInto(s, w, w, false)
    else if pc.Taking? && s.queues[pc.from] != [] then
      PopInto(s, w, pc.from, true)
    else if pc.Blocked? then
      Goto(s.(tokens := s.tokens[w := s.tokens[w] - 1]), w, Draining)
    else
      Goto(s, w, Move(s, w))
  }

  /** Where a worker goes when it neither waits, nor pops, nor calls. */
  function Move(s: Pool, w: nat): (pc: Pc)
    requires s.Shaped() && w < |s.workers| && !s.workers[w].Blocked? && !s.workers[w].Running?
    ensures !pc.Running?
    ensures Goto(s, w, pc).Shaped()
  {
    var n := |s.workers|;
    match s.workers[w]
    case Draining =>
      if s.queues[w] != [] then Popping else ProbeFrom(w, n, Successor(Successor(w, n), n))
    case Popping => Draining
    case Probing(i) =>
      if i != w && s.queues[i] != [] && s.jobs[s.queues[i][0]].stealable
      then Taking(i, s.queues[i][0])
      else ProbeFrom(w, n, Successor(i, n))
    case Taking(i, _) => ProbeFrom(w, n, Successor(i, n))
    case Parking => Blocked
  }

  /** Worker w pops the front of queue i into its hand. */
  function PopInto(s: Pool, w: nat, i: nat, stolen: bool): (s': Pool)
    requires s.Shaped() && w < |s.workers| && i < |s.queues| && s.queues[i] != []
    ensures s'.Shaped()
  {
    var t := s.queues[i][0];
    s.(queues := s.queues[i := s.queues[i][1..]],
       workers := s.workers[w := Running(t, stolen)],
       place := s.place[t := InHand(w)])
  }

  /** Calling a proxy: only the call that flips its executed flag runs the activity. */
  function Call(s: Pool, t: Ticket, w: nat): Pool
    requires t < |s.jobs| == |s.place|
  {
    var s' := s.(place := s.place[t := Finished]);
    if s.jobs[t].proxy in s.executed then s'
    else s'.(executed := s.executed + {s.jobs[t].proxy}, runs := s.runs + [Execution(t, w)])
  }

  // ------------------------------------------------------------------ runs

  ghost predicate Feasible(s: Pool, actions: seq<Action>)
    requires s.Shaped()
    decreases |actions|
  {
    actions == [] || (Enabled(s, actions[0]) && Feasible(Apply(s, actions[0]), actions[1..]))
  }

  ghost function After(s: Pool, actions: seq<Action>): (s': Pool)
    requires s.Shaped() && Feasible(s, actions)
    ensures s'.Shaped() && |s'.queues| == |s.queues|
    decreases |actions|
  {
    if actions == [] then s else After(Apply(s, actions[0]), actions[1..])
  }

  // ---------------------------------------------------------- conservation

  /**
   * Every ticket is where `place` says and nowhere else: in one queue, once;
   * in one worker's hand; or finished.
   */
  ghost predicate Conserved(s: Pool)
    requires s.Shaped()
  {
    && (forall i, k :: 0 <= i < |s.queues| && 0 <= k < |s.queues[i]| ==> s.place[s.queues[i][k]] == InQueue(i))
    && (forall i, j, k :: 0 <= i < |s.queues| && 0 <= j < k < |s.queues[i]| ==> s.queues[i][j] != s.queues[i][k])
    && (forall w :: 0 <= w < |s.workers| && s.workers[w].Running? ==> s.place[s.workers[w].ticket] == InHand(w))
    && (forall t :: 0 <= t < |s.place| ==> Located(s, t))
  }

  ghost predicate Located(s: Pool, t: Ticket)
    requires t < |s.place|
  {
    match s.place[t]
    case InQueue(i) => i < |s.queues| && t in s.queues[i]
    case InHand(w) => w < |s.workers| && s.workers[w].Running? && s.workers[w].ticket == t
    case Finished => true
  }

  lemma PushConserves(s: Pool, job: Job)
    requires s.Shaped() && Conserved(s) && job.target < |s.queues|
    ensures Conserved(PushTo(s, job))
  {
    var s' := PushTo(s, job);
    forall t | 0 <= t < |s'.place| ensures Located(s', t) {
      if t < |s.place| { assert Located(s, t); }
    }
  }

  lemma PopConserves(s: Pool, w: nat, i: nat, stolen: bool)
    requires s.Shaped() && Conserved(s) && w < |s.workers| && i < |s.queues| && s.queues[i] != []
    requires !s.workers[w].Running?
    ensures Conserved(PopInto(s, w, i, stolen))
  {
    var s' := PopInto(s, w, i, stolen);
    var front := s.queues[i][0];
    forall t | 0 <= t < |s'.place| ensures Located(s', t) {
      assert Located(s, t);
      if s.place[t] == InQueue(i) && t != front {
        var k :| 0 <= k < |s.queues[i]| && s.queues[i][k] == t;
        assert s'.queues[i][k - 1] == t;
      }
    }
    assert s.place[front] == InQueue(i);
  }

  lemma MoveConserves(s: Pool, w: nat, pc: Pc)
    requires s.Shaped() && Conserved(s) && w < |s.workers|
    requires !s.workers[w].Running? && !pc.Running? && Goto(s, w, pc).Shaped()
    ensures Conserved(Goto(s, w, pc))
  {
    forall t | 0 <= t < |s.place| ensures Located(Goto(s, w, pc), t) {
      assert Located(s, t);
    }
  }

  lemma CallConserves(s: Pool, w: nat)
    requires s.Shaped() && Conserved(s) && w < |s.workers| && s.workers[w].Running?
    ensures Conserved(WorkerStep(s, w))
  {
    var s' := WorkerStep(s, w);
    forall t | 0 <= t < |s.place| ensures Located(s', t) {
      assert Located(s, t);
    }
  }

  lemma StepConserves(s: Pool, a: Action)
    requires s.Shaped() && Conserved(s) && Enabled(s, a)
    ensures Conserved(Apply(s, a))
  {
    match a
    case Push(job) => PushConserves(s, job);
    case Release(_) => assert forall t :: 0 <= t < |s.place| ==> Located(s, t) ==> Located(Apply(s, a), t);
    case Work(w) => WorkerStepConserves(s, w);
  }

  lemma WorkerStepConserves(s: Pool, w: nat)
    requires s.Shaped() && Conserved(s) && Enabled(s, Work(w))
    ensures Conserved(WorkerStep(s, w))
  {
    var pc := s.workers[w];
    if pc.Running? {
      CallConserves(s, w);
    } else if pc.Popping? && s.queues[w] != [] {
      PopConserves(s, w, w, false);
    } else if pc.Taking? && s.queues[pc.from] != [] {
      PopConserves(s, w, pc.from, true);
    } else if pc.Blocked? {
      var s1 := s.(tokens := s.tokens[w := s.tokens[w] - 1]);
      assert forall t :: 0 <= t < |s.place| ==> Located(s, t) ==> Located(s1, t);
      MoveConserves(s1, w, Draining);
    } else {
      MoveConserves(s, w, Move(s, w));
    }
  }

  // ------------------------------------------------------ no stranded work

  /** Somebody is bound to look at queue i again. */
  ghost predicate Attended(s: Pool, i: nat)
    requires s.Shaped() && i < |s.queues|
  {
    || s.tokens[i] > 0
    || s.pending[i] > 0
    || s.workers[i].Draining? || s.workers[i].Popping?
    || (s.workers[i].Running? && !s.workers[i].stolen)
  }

  ghost predicate NoneStranded(s: Pool)
    requires s.Shaped()
  {
    forall i :: 0 <= i < |s.queues| && s.queues[i] != [] ==> Attended(s, i)
  }

  lemma StepStrandsNone(s: Pool, a: Action)
    requires s.Shaped() && NoneStranded(s) && Enabled(s, a)
    ensures NoneStranded(Apply(s, a))
  {
    var s' := Apply(s, a);
    forall i | 0 <= i < |s'.queues| && s'.queues[i] != [] ensures Attended(s', i) {
      if s.queues[i] != [] { assert Attended(s, i); }
    }
  }

  // ----------------------------------------------------- at most one run

  ghost function Ran(jobs: seq<Job>, runs: seq<Execution>): set<int>
    requires forall x :: x in runs ==> x.ticket < |jobs|
  {
    set x | x in runs :: jobs[x.ticket].proxy
  }

  /** The executed proxies are exactly those that ran, each once, and a finished ticket's proxy has run. */
  ghost predicate RunsOnce(s: Pool)
    requires s.Shaped()
  {
    && (forall x :: x in s.runs ==> x.ticket < |s.jobs| && s.place[x.ticket] == Finished)
    && s.executed == Ran(s.jobs, s.runs)
    && (forall i, j :: 0 <= i < j < |s.runs| ==>
          s.jobs[s.runs[i].ticket].proxy != s.jobs[s.runs[j].ticket].proxy)
    && (forall t :: 0 <= t < |s.place| && s.place[t] == Finished ==> s.jobs[t].proxy in s.executed)
  }

  lemma RanAppend(jobs: seq<Job>, runs: seq<Execution>, x: Execution)
    requires x.ticket < |jobs| && forall y :: y in runs ==> y.ticket < |jobs|
    ensures forall y :: y in runs + [x] <==> y in runs || y == x
    ensures Ran(jobs, runs + [x]) == Ran(jobs, runs) + {jobs[x.ticket].proxy}
  {
    assert (runs + [x])[|runs|] == x;
    assert forall y :: y in runs + [x] <==> y in runs || y == x;
  }

  lemma CallRunsOnce(s: Pool, w: nat)
    requires s.Shaped() && RunsOnce(s) && w < |s.workers| && s.workers[w].Running?
    ensures RunsOnce(WorkerStep(s, w))
  {
    var t := s.workers[w].ticket;
    if s.jobs[t].proxy !in s.executed {
      RanAppend(s.jobs, s.runs, Execution(t, w));
      forall i | 0 <= i < |s.runs| ensures s.jobs[s.runs[i].ticket].proxy != s.jobs[t].proxy {
        assert s.runs[i] in s.runs;
      }
    }
  }

  lemma PopRunsOnce(s: Pool, w: nat, i: nat, stolen: bool)
    requires s.Shaped() && Conserved(s) && RunsOnce(s) && w < |s.workers| && i < |s.queues| && s.queues[i] != []
    ensures RunsOnce(PopInto(s, w, i, stolen))
  {
    assert s.place[s.queues[i][0]] == InQueue(i);
  }

  lemma PushRunsOnce(s: Pool, job: Job)
    requires s.Shaped() && RunsOnce(s) && job.target < |s.queues|
    ensures RunsOnce(PushTo(s, job))
  {
    var s' := PushTo(s, job);
    assert forall i :: 0 <= i < |s.runs| ==> s.runs[i] in s.runs;
    assert Ran(s'.jobs, s'.runs) == Ran(s.jobs, s.runs);
  }

  lemma StepRunsOnce(s: Pool, a: Action)
    requires s.Shaped() && Conserved(s) && RunsOnce(s) && Enabled(s, a)
    ensures RunsOnce(Apply(s, a))
  {
    match a
    case Push(job) => PushRunsOnce(s, job);
    case Release(_) =>
    case Work(w) =>
      var pc := s.workers[w];
      if pc.Running? {
        CallRunsOnce(s, w);
      } else if pc.Popping? && s.queues[w] != [] {
        PopRunsOnce(s, w, w, false);
      } else if pc.Taking? && s.queues[pc.from] != [] {
        PopRunsOnce(s, w, pc.from, true);
      }
  }
}
