/**
 * Pushes and pops of the ring queue interleaved at single loads and
 * compare-and-swaps. The k-th successful push or pop holds ticket k; the
 * counters `pushed` and `popped` are those tickets, of which the shared indices
 * only show the remainder modulo the number of slots. A successful swap also
 * writes or reads its slot.
 */
module QueueInterleaving {
  import opened Remainders

  datatype Pc =
    | Idle                               // at the head of an operation's loop
    | PushLoaded(rear: nat, at: nat)     // rear index loaded, when `at` pushes were claimed
    | PushChecked(rear: nat, at: nat)    // queue seen not full, about to swap the rear index
    | PopLoaded(front: nat, at: nat)
    | PopChecked(front: nat, at: nat)

  /** A successful operation: its thread, the ticket the thread had loaded, and the element. */
  datatype Claim = Claim(thread: nat, at: nat, value: int)

  datatype Ring = Ring(slots: nat, cells: seq<int>, front: nat, rear: nat, popped: nat, pushed: nat,
                       pushers: seq<Claim>, poppers: seq<Claim>, threads: seq<Pc>)
  {
    ghost predicate Shaped() {
      front < slots == |cells| && rear < slots
    }
  }

  datatype Step =
    | LoadRear(t: nat) | CheckFull(t: nat) | SwapRear(t: nat, value: int)
    | LoadFront(t: nat) | CheckEmpty(t: nat) | SwapFront(t: nat)
    | FailSwap(t: nat)   // a swap may fail without cause

  predicate Enabled(s: Ring, a: Step) {
    a.t < |s.threads| &&
    match a
    case LoadRear(t) => s.threads[t].Idle?
    case LoadFront(t) => s.threads[t].Idle?
    case CheckFull(t) => s.threads[t].PushLoaded?
    case CheckEmpty(t) => s.threads[t].PopLoaded?
    case SwapRear(t, _) => s.threads[t].PushChecked?
    case SwapFront(t) => s.threads[t].PopChecked?
    case FailSwap(t) => s.threads[t].PushChecked? || s.threads[t].PopChecked?
  }

  function Goto(s: Ring, t: nat, pc: Pc): Ring
    requires t < |s.threads|
  {
    s.(threads := s.threads[t := pc])
  }

  /** The check made by CheckFull and CheckEmpty ends the operation with false. */
  predicate Refuses(s: Ring, a: Step)
    requires s.slots > 0 && Enabled(s, a)
  {
    match a
    case CheckFull(t) => (s.threads[t].rear + 1) % s.slots == s.front
    case CheckEmpty(t) => s.threads[t].front == s.rear
    case _ => false
  }

  function Apply(s: Ring, a: Step): (s': Ring)
    requires s.Shaped() && Enabled(s, a)
    ensures s'.Shaped() && s'.slots == s.slots && |s'.threads| == |s.threads|
  {
    var t := a.t;
    var pc := s.threads[t];
    match a
    case LoadRear(_) => Goto(s, t, PushLoaded(s.rear, s.pushed))
    case LoadFront(_) => Goto(s, t, PopLoaded(s.front, s.popped))
    case CheckFull(_) => Goto(s, t, if Refuses(s, a) then Idle else PushChecked(pc.rear, pc.at))
    case CheckEmpty(_) => Goto(s, t, if Refuses(s, a) then Idle else PopChecked(pc.front, pc.at))
    case SwapRear(_, v) => Goto(if s.rear == pc.rear then ClaimPush(s, t, pc.at, v) else s, t, Idle)
    case SwapFront(_) => Goto(if s.front == pc.front then ClaimPop(s, t, pc.at) else s, t, Idle)
    case FailSwap(_) => Goto(s, t, Idle)
  }

  function ClaimPush(s: Ring, t: nat, at: nat, v: int): (s': Ring)
    requires s.Shaped()
    ensures s'.Shaped() && s'.slots == s.slots && s'.threads == s.threads
  {
    s.(cells := s.cells[s.rear := v], rear := (s.rear + 1) % s.slots,
       pushed := s.pushed + 1, pushers := s.pushers + [Claim(t, at, v)])
  }

  function ClaimPop(s: Ring, t: nat, at: nat): (s': Ring)
    requires s.Shaped()
    ensures s'.Shaped() && s'.slots == s.slots && s'.threads == s.threads
  {
    s.(front := (s.front + 1) % s.slots,
       popped := s.popped + 1, poppers := s.poppers + [Claim(t, at, s.cells[s.front])])
  }

  function Start(slots: nat, threads: nat): Ring {
    Ring(slots, seq(slots, _ => 0), 0, 0, 0, 0, [], [], seq(threads, _ => Idle))
  }

  // ------------------------------------------------------------ invariants

  ghost predicate IndicesShowTickets(s: Ring) {
    && s.Shaped()
    && s.front == s.popped % s.slots
    && s.rear == s.pushed % s.slots
    && |s.pushers| == s.pushed
    && |s.poppers| == s.popped
  }

  /** What a thread holds is the index of a ticket that was next when it loaded it. */
  ghost predicate LoadHolds(s: Ring, pc: Pc)
    requires s.slots > 0
  {
    match pc
    case Idle => true
    case PushLoaded(r, at) => at <= s.pushed && r == at % s.slots
    case PushChecked(r, at) => at <= s.pushed && r == at % s.slots
    case PopLoaded(f, at) => at <= s.popped && f == at % s.slots
    case PopChecked(f, at) => at <= s.popped && f == at % s.slots
  }

  /** What holds in every run whatsoever. */
  ghost predicate Basic(s: Ring) {
    IndicesShowTickets(s) && forall t :: 0 <= t < |s.threads| ==> LoadHolds(s, s.threads[t])
  }

  /** Pops never overtake pushes, and one slot stays free. */
  ghost predicate Bounded(s: Ring) {
    s.popped <= s.pushed < s.popped + s.slots
  }

  /** The k-th claim on either side is by a thread that had loaded ticket k. */
  ghost predicate OwnTickets(s: Ring) {
    && (forall k :: 0 <= k < |s.pushers| ==> s.pushers[k].at == k)
    && (forall k :: 0 <= k < |s.poppers| ==> s.poppers[k].at == k)
  }

  /** The k-th pop got what the k-th push put in. */
  ghost predicate FirstInFirstOut(s: Ring) {
    && |s.poppers| <= |s.pushers|
    && forall k :: 0 <= k < |s.poppers| ==> s.poppers[k].value == s.pushers[k].value
  }

  /** Ticket k's element is in its slot. */
  ghost predicate Held(s: Ring, k: nat)
    requires s.Shaped() && k < |s.pushers|
  {
    s.cells[k % s.slots] == s.pushers[k].value
  }

  ghost predicate CellsHold(s: Ring)
    requires s.Shaped()
  {
    forall k :: s.popped <= k < s.pushed && k < |s.pushers| ==> Held(s, k)
  }

  /** A check stays good for as long as the index it is about has not moved. */
  ghost predicate CheckHolds(s: Ring, pc: Pc) {
    && (pc.PushChecked? && pc.at == s.pushed ==> s.pushed + 1 < s.popped + s.slots)
    && (pc.PopChecked? && pc.at == s.popped ==> s.popped < s.pushed)
  }

  ghost predicate ChecksHold(s: Ring) {
    forall t :: 0 <= t < |s.threads| ==> CheckHolds(s, s.threads[t])
  }

  /** The ring is a queue: bounded, in order, with its elements in their slots. */
  ghost predicate Queue(s: Ring) {
    Basic(s) && Bounded(s) && FirstInFirstOut(s) && CellsHold(s)
  }

  ghost predicate Invariant(s: Ring) {
    Queue(s) && OwnTickets(s) && ChecksHold(s)
  }

  // ----------------------------------------------------------- single steps

  /** The step is a swap, and the index is still, or again, the one loaded. */
  ghost predicate Succeeds(s: Ring, a: Step)
    requires Enabled(s, a)
  {
    (a.SwapRear? && s.rear == s.threads[a.t].rear) || (a.SwapFront? && s.front == s.threads[a.t].front)
  }

  /** A push that succeeds on a full ring, or a pop on an empty one. */
  ghost predicate Overruns(s: Ring, a: Step)
    requires Enabled(s, a)
  {
    Succeeds(s, a) && if a.SwapRear? then s.pushed + 1 >= s.popped + s.slots else s.popped >= s.pushed
  }

  /** The thread's index was loaded less than a full turn of the ring ago. */
  ghost predicate WithinTurn(s: Ring, a: Step)
    requires Enabled(s, a)
  {
    match s.threads[a.t]
    case Idle => true
    case PushLoaded(_, at) => s.pushed < at + s.slots
    case PushChecked(_, at) => s.pushed < at + s.slots
    case PopLoaded(_, at) => s.popped < at + s.slots
    case PopChecked(_, at) => s.popped < at + s.slots
  }

  /** A swap that succeeds although the ring has turned since its index was loaded. */
  ghost predicate Stale(s: Ring, a: Step)
    requires Enabled(s, a)
  {
    Succeeds(s, a) && !WithinTurn(s, a)
  }

  lemma StepKeepsBasic(s: Ring, a: Step)
    requires Basic(s) && Enabled(s, a)
    ensures Basic(Apply(s, a))
  {
    var s' := Apply(s, a);
    NextRemainder(s.pushed, s.slots);
    NextRemainder(s.popped, s.slots);
    forall t | 0 <= t < |s'.threads| ensures LoadHolds(s', s'.threads[t]) {
      assert LoadHolds(s, s.threads[t]);
    }
  }

  /** Bounds are broken by exactly the steps that overrun. */
  lemma StepBounded(s: Ring, a: Step)
    requires Basic(s) && Bounded(s) && Enabled(s, a)
    ensures Bounded(Apply(s, a)) <==> !Overruns(s, a)
  {
  }

  /** A push with room leaves the other elements in their slots. */
  lemma ClaimPushKeepsQueue(s: Ring, t: nat, at: nat, v: int)
    requires Queue(s) && s.pushed + 1 < s.popped + s.slots
    ensures var s' := ClaimPush(s, t, at, v); FirstInFirstOut(s') && CellsHold(s')
  {
    var s' := ClaimPush(s, t, at, v);
    forall k | s'.popped <= k < s'.pushed && k < |s'.pushers| ensures Held(s', k) {
      if k < s.pushed {
        assert Held(s, k);
        if k % s.slots == s.rear { SameIndexSameTicket(k, s.pushed, s.slots); }
      }
    }
  }

  lemma ClaimPopKeepsQueue(s: Ring, t: nat, at: nat)
    requires Queue(s) && s.popped < s.pushed
    ensures var s' := ClaimPop(s, t, at); FirstInFirstOut(s') && CellsHold(s')
  {
    var s' := ClaimPop(s, t, at);
    assert Held(s, s.popped);
    forall k | s'.popped <= k < s'.pushed && k < |s'.pushers| ensures Held(s', k) {
      assert Held(s, k);
    }
  }

  lemma GotoKeepsCells(s: Ring, t: nat, pc: Pc)
    requires s.Shaped() && CellsHold(s) && t < |s.threads|
    ensures CellsHold(Goto(s, t, pc))
  {
    var s' := Goto(s, t, pc);
    forall k | s'.popped <= k < s'.pushed && k < |s'.pushers| ensures Held(s', k) {
      assert Held(s, k);
    }
  }

  lemma StepKeepsQueue(s: Ring, a: Step)
    requires Queue(s) && Enabled(s, a) && !Overruns(s, a)
    ensures Queue(Apply(s, a))
  {
    StepKeepsBasic(s, a);
    StepBounded(s, a);
    var pc := s.threads[a.t];
    if a.SwapRear? && s.rear == pc.rear {
      ClaimPushKeepsQueue(s, a.t, pc.at, a.value);
      GotoKeepsCells(ClaimPush(s, a.t, pc.at, a.value), a.t, Idle);
    } else if a.SwapFront? && s.front == pc.front {
      ClaimPopKeepsQueue(s, a.t, pc.at);
      GotoKeepsCells(ClaimPop(s, a.t, pc.at), a.t, Idle);
    } else {
      GotoKeepsCells(s, a.t, Apply(s, a).threads[a.t]);
    }
  }

  /** A swap that succeeds claims the very ticket its thread had loaded exactly when it is not stale. */
  lemma SwapClaimsLoaded(s: Ring, a: Step)
    requires Basic(s) && Enabled(s, a) && Succeeds(s, a)
    ensures Stale(s, a) <==> s.threads[a.t].at != if a.SwapRear? then s.pushed else s.popped
  {
    var pc := s.threads[a.t];
    assert LoadHolds(s, pc);
    if WithinTurn(s, a) {
      if a.SwapRear? { SameIndexSameTicket(pc.at, s.pushed, s.slots); } else { SameIndexSameTicket(pc.at, s.popped, s.slots); }
    }
  }

  lemma ClaimOwn(claims: seq<Claim>, c: Claim)
    ensures (forall k :: 0 <= k < |claims + [c]| ==> (claims + [c])[k].at == k)
       <==> (forall k :: 0 <= k < |claims| ==> claims[k].at == k) && c.at == |claims|
  {
    var more := claims + [c];
    assert more[|claims|] == c;
    assert forall k :: 0 <= k < |claims| ==> more[k] == claims[k];
  }

  /** A claim with a foreign ticket is made by exactly the stale swaps, and is never undone. */
  lemma StepOwnTickets(s: Ring, a: Step)
    requires Basic(s) && Enabled(s, a)
    ensures OwnTickets(Apply(s, a)) <==> OwnTickets(s) && !Stale(s, a)
  {
    if Succeeds(s, a) {
      var pc := s.threads[a.t];
      SwapClaimsLoaded(s, a);
      if a.SwapRear? {
        ClaimOwn(s.pushers, Claim(a.t, pc.at, a.value));
      } else {
        ClaimOwn(s.poppers, Claim(a.t, pc.at, s.cells[s.front]));
      }
    }
  }

  /** While no ticket is stolen checks stay good, and so no swap overruns. */
  lemma OwnTicketsKeepBounds(s: Ring, a: Step)
    requires Basic(s) && Bounded(s) && ChecksHold(s) && Enabled(s, a) && !Stale(s, a)
    ensures !Overruns(s, a) && ChecksHold(Apply(s, a))
  {
    var s', pc := Apply(s, a), s.threads[a.t];
    assert LoadHolds(s, pc) && CheckHolds(s, pc);
    if Succeeds(s, a) { SwapClaimsLoaded(s, a); }
    if a.CheckFull? && !Refuses(s, a) && pc.at == s.pushed { RoomWhenNotRefused(s); }
    forall t | 0 <= t < |s'.threads| ensures CheckHolds(s', s'.threads[t]) {
      assert CheckHolds(s, s.threads[t]) && LoadHolds(s, s.threads[t]);
    }
  }

  lemma RoomWhenNotRefused(s: Ring)
    requires Basic(s) && Bounded(s) && (s.rear + 1) % s.slots != s.front
    ensures s.pushed + 1 < s.popped + s.slots
  {
    if s.pushed + 1 == s.popped + s.slots {
      NextRemainder(s.pushed, s.slots);
      AddTurn(s.popped, s.slots);
      assert false;
    }
  }

  lemma StepKeepsInvariant(s: Ring, a: Step)
    requires Invariant(s) && Enabled(s, a) && !Stale(s, a)
    ensures Invariant(Apply(s, a)) && !Overruns(s, a)
  {
    OwnTicketsKeepBounds(s, a);
    StepKeepsQueue(s, a);
    StepOwnTickets(s, a);
  }

  // ------------------------------------------------------------------ runs

  ghost predicate Feasible(s: Ring, steps: seq<Step>)
    requires s.Shaped()
    decreases |steps|
  {
    steps == [] || (Enabled(s, steps[0]) && Feasible(Apply(s, steps[0]), steps[1..]))
  }

  ghost function After(s: Ring, steps: seq<Step>): (s': Ring)
    requires s.Shaped() && Feasible(s, steps)
    ensures s'.Shaped() && s'.slots == s.slots
    decreases |steps|
  {
    if steps == [] then s else After(Apply(s, steps[0]), steps[1..])
  }

  ghost predicate StaysBounded(s: Ring, steps: seq<Step>)
    requires s.Shaped() && Feasible(s, steps)
    decreases |steps|
  {
    Bounded(s) && (steps == [] || StaysBounded(Apply(s, steps[0]), steps[1..]))
  }

  ghost predicate NeverOverruns(s: Ring, steps: seq<Step>)
    requires s.Shaped() && Feasible(s, steps)
    decreases |steps|
  {
    steps == [] || (!Overruns(s, steps[0]) && NeverOverruns(Apply(s, steps[0]), steps[1..]))
  }

  ghost predicate NeverStale(s: Ring, steps: seq<Step>)
    requires s.Shaped() && Feasible(s, steps)
    decreases |steps|
  {
    steps == [] || (!Stale(s, steps[0]) && NeverStale(Apply(s, steps[0]), steps[1..]))
  }

  /** No thread uses an index it loaded a full turn of the ring earlier. */
  ghost predicate TimelyRun(s: Ring, steps: seq<Step>)
    requires s.Shaped() && Feasible(s, steps)
    decreases |steps|
  {
    steps == [] || (WithinTurn(s, steps[0]) && TimelyRun(Apply(s, steps[0]), steps[1..]))
  }

  lemma {:induction false} BoundedFrom(s: Ring, steps: seq<Step>)
    requires Queue(s) && Feasible(s, steps)
    ensures StaysBounded(s, steps) <==> NeverOverruns(s, steps)
    ensures NeverOverruns(s, steps) ==> Queue(After(s, steps))
    decreases |steps|
  {
    if steps != [] {
      var a := steps[0];
      StepBounded(s, a);
      if !Overruns(s, a) {
        StepKeepsQueue(s, a);
        BoundedFrom(Apply(s, a), steps[1..]);
      }
    }
  }

  /**
   * Over all runs: occupancy stays within 0 .. N-1 throughout exactly when no push succeeds on a
   * full ring and no pop on an empty one, and then the k-th pop takes what the k-th push put in.
   */
  lemma BoundedExactly(slots: nat, threads: nat, steps: seq<Step>)
    requires slots > 0 && Feasible(Start(slots, threads), steps)
    ensures StaysBounded(Start(slots, threads), steps) <==> NeverOverruns(Start(slots, threads), steps)
    ensures NeverOverruns(Start(slots, threads), steps) ==> Queue(After(Start(slots, threads), steps))
  {
    BoundedFrom(Start(slots, threads), steps);
  }

  lemma {:induction false} OwnTicketsFrom(s: Ring, steps: seq<Step>)
    requires Basic(s) && Feasible(s, steps)
    ensures Basic(After(s, steps))
    ensures OwnTickets(After(s, steps)) <==> OwnTickets(s) && NeverStale(s, steps)
    decreases |steps|
  {
    if steps != [] {
      StepKeepsBasic(s, steps[0]);
      StepOwnTickets(s, steps[0]);
      OwnTicketsFrom(Apply(s, steps[0]), steps[1..]);
    }
  }

  /** Over all runs: every claim carries its own ticket exactly when no swap succeeds after a full turn. */
  lemma OwnTicketsExactly(slots: nat, threads: nat, steps: seq<Step>)
    requires slots > 0 && Feasible(Start(slots, threads), steps)
    ensures OwnTickets(After(Start(slots, threads), steps)) <==> NeverStale(Start(slots, threads), steps)
  {
    OwnTicketsFrom(Start(slots, threads), steps);
  }

  lemma {:induction false} RunKeepsInvariant(s: Ring, steps: seq<Step>)
    requires Invariant(s) && Feasible(s, steps) && NeverStale(s, steps)
    ensures Invariant(After(s, steps)) && NeverOverruns(s, steps)
    decreases |steps|
  {
    if steps != [] {
      StepKeepsInvariant(s, steps[0]);
      RunKeepsInvariant(Apply(s, steps[0]), steps[1..]);
    }
  }

  lemma {:induction false} TimelyIsNeverStale(s: Ring, steps: seq<Step>)
    requires s.Shaped() && Feasible(s, steps) && TimelyRun(s, steps)
    ensures NeverStale(s, steps)
    decreases |steps|
  {
    if steps != [] { TimelyIsNeverStale(Apply(s, steps[0]), steps[1..]); }
  }

  /**
   * In every run without stale swaps, in particular in every timely one, occupancy stays within
   * 0 .. N-1, no two pushers and no two poppers share a ticket, and the k-th pop takes what the
   * k-th push put in.
   */
  lemma RingIsSafe(slots: nat, threads: nat, steps: seq<Step>)
    requires slots > 0 && Feasible(Start(slots, threads), steps)
    requires NeverStale(Start(slots, threads), steps) || TimelyRun(Start(slots, threads), steps)
    ensures var s := After(Start(slots, threads), steps); s.slots == slots && OwnTickets(s) && Queue(s)
    ensures var s := After(Start(slots, threads), steps);
            && |s.poppers| <= |s.pushers| < |s.poppers| + slots
            && (forall k :: 0 <= k < |s.pushers| ==> s.pushers[k].at == k)
            && (forall k :: 0 <= k < |s.poppers| ==> s.poppers[k].at == k && s.poppers[k].value == s.pushers[k].value)
            && (forall k :: |s.poppers| <= k < |s.pushers| ==> s.cells[k % slots] == s.pushers[k].value)
    ensures StaysBounded(Start(slots, threads), steps)
  {
    if TimelyRun(Start(slots, threads), steps) { TimelyIsNeverStale(Start(slots, threads), steps); }
    RunKeepsInvariant(Start(slots, threads), steps);
    BoundedExactly(slots, threads, steps);
    OwnTicketsExactly(slots, threads, steps);
    QueueMeans(After(Start(slots, threads), steps));
  }

  lemma QueueMeans(s: Ring)
    requires Queue(s)
    ensures |s.poppers| <= |s.pushers| < |s.poppers| + s.slots
    ensures forall k :: 0 <= k < |s.poppers| ==> s.poppers[k].value == s.pushers[k].value
    ensures forall k :: |s.poppers| <= k < |s.pushers| ==> s.cells[k % s.slots] == s.pushers[k].value
  {
    forall k | |s.poppers| <= k < |s.pushers| ensures s.cells[k % s.slots] == s.pushers[k].value {
      assert Held(s, k);
    }
  }

  // ------------------------------------------------- what a refusal means

  /** A push that gives up is right exactly when no other push was claimed since it loaded the rear index. */
  lemma RefusedPush(s: Ring, t: nat)
    requires Invariant(s) && Enabled(s, CheckFull(t)) && WithinTurn(s, CheckFull(t)) && Refuses(s, CheckFull(t))
    ensures s.pushed - s.popped == s.slots - 1 <==> s.pushed == s.threads[t].at
  {
    var at := s.threads[t].at;
    assert LoadHolds(s, s.threads[t]);
    NextRemainder(at, s.slots);
    NextRemainder(s.pushed, s.slots);
    if s.pushed == at {
      if s.pushed + 1 < s.popped + s.slots {
        SameIndexSameTicket(s.popped, s.pushed + 1, s.slots);
      }
    } else if s.pushed + 1 == s.popped + s.slots {
      AddTurn(s.popped, s.slots);
      assert (s.pushed + 1) % s.slots == (at + 1) % s.slots;
      SameIndexSameTicket(at + 1, s.pushed + 1, s.slots);
    }
  }

  /** A pop that gives up is right exactly when no other pop was claimed since it loaded the front index. */
  lemma RefusedPop(s: Ring, t: nat)
    requires Invariant(s) && Enabled(s, CheckEmpty(t)) && WithinTurn(s, CheckEmpty(t)) && Refuses(s, CheckEmpty(t))
    ensures s.pushed == s.popped <==> s.popped == s.threads[t].at
  {
    assert LoadHolds(s, s.threads[t]);
    if s.popped == s.threads[t].at {
      SameIndexSameTicket(s.popped, s.pushed, s.slots);
    } else if s.pushed == s.popped {
      SameIndexSameTicket(s.threads[t].at, s.popped, s.slots);
    }
  }

  // ------------------------------------------------------- concrete runs

  ghost predicate Leads(s: Ring, steps: seq<Step>, s': Ring) {
    s.Shaped() && Feasible(s, steps) && After(s, steps) == s'
  }

  lemma One(s: Ring, a: Step)
    requires s.Shaped() && Enabled(s, a)
    ensures Leads(s, [a], Apply(s, a)) && (WithinTurn(s, a) ==> TimelyRun(s, [a]))
  {
    assert [a][1..] == [];
  }

  lemma {:induction false} Chain(s: Ring, xs: seq<Step>, s': Ring, ys: seq<Step>, s'': Ring)
    requires Leads(s, xs, s') && Leads(s', ys, s'')
    ensures Leads(s, xs + ys, s'')
    ensures TimelyRun(s, xs) && TimelyRun(s', ys) ==> TimelyRun(s, xs + ys)
    decreases |xs|
  {
    if xs == [] {
      assert xs + ys == ys;
    } else {
      assert (xs + ys)[1..] == xs[1..] + ys;
      Chain(Apply(s, xs[0]), xs[1..], s', ys, s'');
    }
  }

  /** A timely run of `steps` from s0 ends in s. */
  ghost predicate Reached(s0: Ring, steps: seq<Step>, s: Ring) {
    Invariant(s0) && Leads(s0, steps, s) && TimelyRun(s0, steps)
  }

  lemma ReachedHolds(s0: Ring, steps: seq<Step>, s: Ring)
    requires Reached(s0, steps, s)
    ensures Invariant(s)
  {
    TimelyIsNeverStale(s0, steps);
    RunKeepsInvariant(s0, steps);
  }

  lemma ThenStep(s0: Ring, steps: seq<Step>, s: Ring, a: Step)
    requires Reached(s0, steps, s) && Enabled(s, a) && WithinTurn(s, a)
    ensures Reached(s0, steps + [a], Apply(s, a)) && Invariant(Apply(s, a))
  {
    One(s, a);
    Chain(s0, steps, s, [a], Apply(s, a));
    ReachedHolds(s0, steps, s);
    StepKeepsInvariant(s, a);
  }

  lemma RoomSeen(s: Ring)
    requires Invariant(s) && s.pushed + 1 < s.popped + s.slots
    ensures (s.rear + 1) % s.slots != s.front
  {
    NextRemainder(s.pushed, s.slots);
    if (s.rear + 1) % s.slots == s.front { SameIndexSameTicket(s.popped, s.pushed + 1, s.slots); }
  }

  lemma ElementSeen(s: Ring)
    requires Invariant(s) && s.popped < s.pushed
    ensures s.front != s.rear
  {
    if s.front == s.rear { SameIndexSameTicket(s.popped, s.pushed, s.slots); }
  }

  /** A push that nothing interrupts appends, unless the queue is full. */
  lemma ThenPush(s0: Ring, steps: seq<Step>, s: Ring, t: nat, v: int) returns (more: seq<Step>)
    requires Reached(s0, steps, s) && t < |s.threads| && s.threads[t].Idle? && s.pushed + 1 < s.popped + s.slots
    ensures Reached(s0, more, ClaimPush(s, t, s.pushed, v)) && more == steps + [LoadRear(t), CheckFull(t), SwapRear(t, v)]
  {
    var loaded, checked := Goto(s, t, PushLoaded(s.rear, s.pushed)), Goto(s, t, PushChecked(s.rear, s.pushed));
    ReachedHolds(s0, steps, s);
    RoomSeen(s);
    ThenStep(s0, steps, s, LoadRear(t));
    assert Apply(loaded, CheckFull(t)) == checked;
    ThenStep(s0, steps + [LoadRear(t)], loaded, CheckFull(t));
    assert checked.threads[t := Idle] == s.threads;
    assert Apply(checked, SwapRear(t, v)) == ClaimPush(s, t, s.pushed, v);
    ThenStep(s0, steps + [LoadRear(t)] + [CheckFull(t)], checked, SwapRear(t, v));
    more := steps + [LoadRear(t)] + [CheckFull(t)] + [SwapRear(t, v)];
    assert more == steps + [LoadRear(t), CheckFull(t), SwapRear(t, v)];
  }

  /** A pop that nothing interrupts takes the oldest element, unless the queue is empty. */
  lemma ThenPop(s0: Ring, steps: seq<Step>, s: Ring, t: nat) returns (more: seq<Step>)
    requires Reached(s0, steps, s) && t < |s.threads| && s.threads[t].Idle? && s.popped < s.pushed
    ensures Reached(s0, more, ClaimPop(s, t, s.popped)) && more == steps + [LoadFront(t), CheckEmpty(t), SwapFront(t)]
  {
    var loaded, checked := Goto(s, t, PopLoaded(s.front, s.popped)), Goto(s, t, PopChecked(s.front, s.popped));
    ReachedHolds(s0, steps, s);
    ElementSeen(s);
    ThenStep(s0, steps, s, LoadFront(t));
    assert Apply(loaded, CheckEmpty(t)) == checked;
    ThenStep(s0, steps + [LoadFront(t)], loaded, CheckEmpty(t));
    assert checked.threads[t := Idle] == s.threads;
    assert Apply(checked, SwapFront(t)) == ClaimPop(s, t, s.popped);
    ThenStep(s0, steps + [LoadFront(t)] + [CheckEmpty(t)], checked, SwapFront(t));
    more := steps + [LoadFront(t)] + [CheckEmpty(t)] + [SwapFront(t)];
    assert more == steps + [LoadFront(t), CheckEmpty(t), SwapFront(t)];
  }

  /** A push that nothing interrupts puts its element after all others when there is room. */
  lemma PushAlone(s: Ring, t: nat, v: int) returns (s': Ring)
    requires Invariant(s) && t < |s.threads| && s.threads[t].Idle? && s.pushed - s.popped < s.slots - 1
    ensures Leads(s, [LoadRear(t), CheckFull(t), SwapRear(t, v)], s')
    ensures s'.pushers == s.pushers + [Claim(t, s.pushed, v)] && s'.poppers == s.poppers
    ensures s'.cells == s.cells[s.rear := v] && s'.front == s.front && s'.threads == s.threads
  {
    s' := ClaimPush(s, t, s.pushed, v);
    var steps := ThenPush(s, [], s, t, v);
    assert steps == [LoadRear(t), CheckFull(t), SwapRear(t, v)];
    assert Leads(s, steps, s');
  }

  /** When there is none it is refused and nothing has changed. */
  lemma PushAloneFull(s: Ring, t: nat)
    requires Invariant(s) && t < |s.threads| && s.threads[t].Idle? && s.pushed - s.popped == s.slots - 1
    ensures Leads(s, [LoadRear(t), CheckFull(t)], s)
  {
    NextRemainder(s.pushed, s.slots);
    AddTurn(s.popped, s.slots);
    BackAgain(s, t, PushLoaded(s.rear, s.pushed), LoadRear(t), CheckFull(t));
  }

  lemma BackAgain(s: Ring, t: nat, pc: Pc, a: Step, b: Step)
    requires s.Shaped() && t < |s.threads| && s.threads[t].Idle? && Enabled(s, a) && Apply(s, a) == Goto(s, t, pc)
    requires b.t == t && Enabled(Goto(s, t, pc), b) && Apply(Goto(s, t, pc), b) == Goto(Goto(s, t, pc), t, Idle)
    ensures Leads(s, [a, b], s)
  {
    var loaded := Goto(s, t, pc);
    assert loaded.threads[t := Idle] == s.threads;
    One(s, a);
    One(loaded, b);
    Chain(s, [a], loaded, [b], s);
    assert [a] + [b] == [a, b];
  }

  /** A pop that nothing interrupts takes the oldest element. */
  lemma PopAlone(s: Ring, t: nat) returns (s': Ring)
    requires Invariant(s) && t < |s.threads| && s.threads[t].Idle? && s.popped < s.pushed
    ensures Leads(s, [LoadFront(t), CheckEmpty(t), SwapFront(t)], s')
    ensures s'.poppers == s.poppers + [Claim(t, s.popped, s.pushers[s.popped].value)] && s'.pushers == s.pushers
    ensures s'.rear == s.rear && s'.cells == s.cells && s'.threads == s.threads
  {
    s' := ClaimPop(s, t, s.popped);
    assert Held(s, s.popped) && s.popped % s.slots == s.front;
    var steps := ThenPop(s, [], s, t);
    assert steps == [LoadFront(t), CheckEmpty(t), SwapFront(t)];
    assert Leads(s, steps, s');
  }

  /** When there is none it is refused and nothing has changed. */
  lemma PopAloneEmpty(s: Ring, t: nat)
    requires Invariant(s) && t < |s.threads| && s.threads[t].Idle? && s.popped == s.pushed
    ensures Leads(s, [LoadFront(t), CheckEmpty(t)], s)
  {
    BackAgain(s, t, PopLoaded(s.front, s.popped), LoadFront(t), CheckEmpty(t));
  }

  /** A swap that fails without cause leaves the ring as it was, and its thread at the head of its loop. */
  lemma FailedSwap(s: Ring, t: nat)
    requires Invariant(s) && t < |s.threads| && s.threads[t].Idle?
    ensures s.pushed - s.popped < s.slots - 1 ==> Leads(s, [LoadRear(t), CheckFull(t), FailSwap(t)], s)
    ensures s.popped < s.pushed ==> Leads(s, [LoadFront(t), CheckEmpty(t), FailSwap(t)], s)
  {
    if s.pushed - s.popped < s.slots - 1 {
      RoomSeen(s);
      BackAfterThree(s, t, PushLoaded(s.rear, s.pushed), PushChecked(s.rear, s.pushed), LoadRear(t), CheckFull(t), FailSwap(t));
    }
    if s.popped < s.pushed {
      ElementSeen(s);
      BackAfterThree(s, t, PopLoaded(s.front, s.popped), PopChecked(s.front, s.popped), LoadFront(t), CheckEmpty(t), FailSwap(t));
    }
  }

  lemma BackAfterThree(s: Ring, t: nat, pc: Pc, pc': Pc, a: Step, b: Step, c: Step)
    requires s.Shaped() && t < |s.threads| && s.threads[t].Idle? && Enabled(s, a) && Apply(s, a) == Goto(s, t, pc)
    requires b.t == t && Enabled(Goto(s, t, pc), b) && Apply(Goto(s, t, pc), b) == Goto(s, t, pc')
    requires c.t == t && Enabled(Goto(s, t, pc'), c) && Apply(Goto(s, t, pc'), c) == Goto(Goto(s, t, pc'), t, Idle)
    ensures Leads(s, [a, b, c], s)
  {
    var loaded, checked := Goto(s, t, pc), Goto(s, t, pc');
    assert checked.threads[t := Idle] == s.threads;
    One(s, a);
    One(loaded, b);
    One(checked, c);
    Chain(loaded, [b], checked, [c], s);
    assert [b] + [c] == [b, c];
    Chain(s, [a], loaded, [b, c], s);
    assert [a] + [b, c] == [a, b, c];
  }

  /** A push and a pop on an empty queue, which is empty again with both indices one further. */
  lemma ThenTurn(s0: Ring, steps: seq<Step>, s: Ring, t: nat, v: int) returns (more: seq<Step>, s': Ring)
    requires Reached(s0, steps, s) && t < |s.threads| && s.threads[t].Idle? && s.pushed == s.popped && s.slots > 1
    ensures Reached(s0, more, s') && s'.threads == s.threads && s'.slots == s.slots
    ensures s'.pushed == s'.popped == s.pushed + 1 && s'.front == (s.front + 1) % s.slots && s'.rear == (s.rear + 1) % s.slots
    ensures s'.pushers == s.pushers + [Claim(t, s.pushed, v)]
  {
    more := ThenPush(s0, steps, s, t, v);
    var pushed := ClaimPush(s, t, s.pushed, v);
    more := ThenPop(s0, more, pushed, t);
    s' := ClaimPop(pushed, t, pushed.popped);
  }

  /** A push can be refused although the queue is empty: another push and pop came after its load. */
  lemma SpuriousFull() returns (steps: seq<Step>)
    ensures Feasible(Start(3, 2), steps) && TimelyRun(Start(3, 2), steps)
    ensures var s := After(Start(3, 2), steps);
            s.pushed == s.popped && Enabled(s, CheckFull(0)) && Refuses(s, CheckFull(0))
  {
    var s0 := Start(3, 2);
    ThenStep(s0, [], s0, LoadRear(0));
    var s;
    steps, s := ThenTurn(s0, [] + [LoadRear(0)], Apply(s0, LoadRear(0)), 1, 7);
  }

  /** A pop can be refused although the queue is full: the rear index has come round to its old front. */
  lemma SpuriousEmpty() returns (steps: seq<Step>)
    ensures Feasible(Start(3, 2), steps) && TimelyRun(Start(3, 2), steps)
    ensures var s := After(Start(3, 2), steps);
            && s.pushed - s.popped == s.slots - 1 && Invariant(s)
            && Enabled(s, CheckEmpty(0)) && WithinTurn(s, CheckEmpty(0)) && Refuses(s, CheckEmpty(0))
  {
    var s0 := Start(3, 2);
    ThenStep(s0, [], s0, LoadFront(0));
    var s;
    steps, s := ThenTurn(s0, [] + [LoadFront(0)], Apply(s0, LoadFront(0)), 1, 7);
    assert s.front == s.rear == 1;
    steps := ThenPush(s0, steps, s, 1, 8);
    steps := ThenPush(s0, steps, ClaimPush(s, 1, 1, 8), 1, 9);
    ReachedHolds(s0, steps, After(s0, steps));
  }

  /** Two slots: thread 0 has found room, and thread 1 has pushed, popped and pushed again since. */
  lemma FullSinceCheck() returns (steps: seq<Step>, s: Ring)
    ensures Reached(Start(2, 2), steps, s) && s.slots == 2 && s.threads == [PushChecked(0, 0), Idle]
    ensures s.pushed == 2 && s.popped == 1 && s.rear == 0 && s.front == 1
  {
    var s0 := Start(2, 2);
    var s1 := Apply(s0, LoadRear(0));
    ThenStep(s0, [], s0, LoadRear(0));
    ThenStep(s0, [] + [LoadRear(0)], s1, CheckFull(0));
    steps, s := ThenTurn(s0, [] + [LoadRear(0)] + [CheckFull(0)], Apply(s1, CheckFull(0)), 1, 7);
    steps := ThenPush(s0, steps, s, 1, 8);
    s := ClaimPush(s, 1, 1, 8);
  }

  /**
   * A stale swap can overrun. In that full ring the rear index is back where thread 0 saw it, its
   * push succeeds, and both indices are equal, as if the ring were empty.
   */
  lemma OverfullLooksEmpty() returns (steps: seq<Step>)
    ensures Feasible(Start(2, 2), steps) && !StaysBounded(Start(2, 2), steps)
    ensures var s := After(Start(2, 2), steps);
            s.pushed == s.popped + s.slots && s.front == s.rear && |s.pushers| == 3 && s.pushers[2].at == 0
  {
    var before, full := FullSinceCheck();
    var s := Apply(full, SwapRear(0, 9));
    ReachedHolds(Start(2, 2), before, full);
    One(full, SwapRear(0, 9));
    Chain(Start(2, 2), before, full, [SwapRear(0, 9)], s);
    steps := before + [SwapRear(0, 9)];
    if StaysBounded(Start(2, 2), steps) { EndsBounded(Start(2, 2), steps); }
  }

  lemma {:induction false} EndsBounded(s: Ring, steps: seq<Step>)
    requires s.Shaped() && Feasible(s, steps) && StaysBounded(s, steps)
    ensures Bounded(After(s, steps))
    decreases |steps|
  {
    if steps != [] { EndsBounded(Apply(s, steps[0]), steps[1..]); }
  }
}
