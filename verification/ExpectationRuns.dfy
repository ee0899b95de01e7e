/** Whole runs: expectations are created, ordered and called, in any order the calls are handled in. */
module ExpectationRuns {
  import opened Prerequisites
  import opened Expectations

  ghost predicate Fulfilled(m: Moment, e: ExpectationBase) {
    e in m.counts && e.minCalls <= m.counts[e] <= e.maxCalls
  }

  ghost function AllFulfilled(m: Moment): set<ExpectationBase> {
    set e | e in m.counts && Fulfilled(m, e)
  }

  ghost function AllCalled(m: Moment): set<ExpectationBase> {
    set e | e in m.counts && m.counts[e] > 0
  }

  ghost predicate Consistent(m: Moment) {
    && m.links.Keys == m.counts.Keys && m.retired <= m.counts.Keys
    && Sound(m.links, AllCalled(m), m.retired, AllFulfilled(m))
  }

  /**
   * An expectation is ordered before it is called or retired, and not into a cycle; it handles a call
   * when it is active and everything before it is satisfied.
   */
  ghost predicate CanHappen(m: Moment, event: Event) {
    match event
    case Created(e) => e !in m.counts
    case Linked(e, p) =>
      && e in m.counts && p in m.counts && m.counts[e] == 0 && e !in m.retired
      && e != p && !Reaches(m.links, p, e)
    case Handled(e) => e in m.counts && e !in m.retired && All(m.links, e) <= AllFulfilled(m)
  }

  ghost predicate Feasible(m: Moment, events: seq<Event>)
    decreases |events|
  {
    events == [] || (CanHappen(m, events[0]) && Feasible(Next(m, events[0]), events[1..]))
  }

  ghost function After(m: Moment, events: seq<Event>): Moment
    requires Feasible(m, events)
    decreases |events|
  {
    if events == [] then m else After(Next(m, events[0]), events[1..])
  }

  /** The objects in memory are in such a state exactly when they are in order, and handle what can be handled. */
  lemma ObjectsAgree(world: set<ExpectationBase>)
    ensures Consistent(Now(world)) <==> InOrder(world)
    ensures forall e :: e in world ==> (MayHandle(world, e) <==> CanHappen(Now(world), Handled(e)))
  {
    assert AllCalled(Now(world)) == Called(world) && AllFulfilled(Now(world)) == Satisfied(world);
  }

  lemma CreatedKeepsConsistent(m: Moment, e: ExpectationBase)
    requires Consistent(m) && CanHappen(m, Created(e))
    ensures Consistent(Next(m, Created(e)))
  {
    var next := Next(m, Created(e));
    assert AllCalled(next) == AllCalled(m);
    NewNodeKeepsSound(m.links, AllCalled(m), m.retired, AllFulfilled(m), e, AllFulfilled(next));
  }

  lemma LinkedKeepsConsistent(m: Moment, e: ExpectationBase, p: ExpectationBase)
    requires Consistent(m) && CanHappen(m, Linked(e, p))
    ensures Consistent(Next(m, Linked(e, p)))
  {
    var next := Next(m, Linked(e, p));
    assert AllCalled(next) == AllCalled(m) && AllFulfilled(next) == AllFulfilled(m);
    EdgeKeepsSound(m.links, AllCalled(m), m.retired, AllFulfilled(m), e, p);
  }

  lemma HandledKeepsConsistent(m: Moment, e: ExpectationBase)
    requires Consistent(m) && CanHappen(m, Handled(e))
    ensures Consistent(Next(m, Handled(e)))
  {
    var next := Next(m, Handled(e));
    var g, called, good, now := m.links, AllCalled(m), AllFulfilled(m), AllFulfilled(next);
    assert AllCalled(next) == called + {e} && now - {e} == good - {e};
    if m.counts[e] >= e.maxCalls {
      assert now == good - {e};
      ExcessiveCallKeepsSound(g, called, m.retired, good, e);
    } else {
      ReachedStaysClosed(g, m.retired, e);
      CallKeepsSound(g, called, m.retired, good, e, now);
      if e.retiresOnSaturation && m.counts[e] + 1 == e.maxCalls {
        RetiringKeepsSound(g, called + {e}, m.retired + All(g, e), now, e);
      }
    }
  }

  lemma ReachedStaysClosed(g: Graph<ExpectationBase>, retired: set<ExpectationBase>, e: ExpectationBase)
    requires WellFormed(g) && ClosedUnder(g, retired) && e in g
    ensures ClosedUnder(g, retired + All(g, e))
  {
    forall x, i | x in g && x in All(g, e) && 0 <= i < |g[x]| ensures g[x][i] in All(g, e) {
      Immediate(g, g.Keys, x, i);
      Chained(g, g.Keys, e, x, g[x][i]);
    }
  }

  lemma EventKeepsConsistent(m: Moment, event: Event)
    requires Consistent(m) && CanHappen(m, event)
    ensures Consistent(Next(m, event))
  {
    match event
    case Created(e) => CreatedKeepsConsistent(m, e);
    case Linked(e, p) => LinkedKeepsConsistent(m, e, p);
    case Handled(e) => HandledKeepsConsistent(m, e);
  }

  /** The order invariant holds after every run. */
  lemma {:induction false} RunsStayConsistent(m: Moment, events: seq<Event>)
    requires Consistent(m) && Feasible(m, events)
    ensures Consistent(After(m, events))
    decreases |events|
  {
    if events != [] {
      EventKeepsConsistent(m, events[0]);
      RunsStayConsistent(Next(m, events[0]), events[1..]);
    }
  }

  /** When an expectation may take a call. */
  lemma HandlesExactly(m: Moment, e: ExpectationBase)
    requires Consistent(m) && e in m.counts
    ensures CanHappen(m, Handled(e)) <==>
              e !in m.retired && forall x :: x in All(m.links, e) ==> x.minCalls <= m.counts[x] <= x.maxCalls
  {
  }

  /** What is retired handles no call any more, in any continuation. */
  lemma {:induction false} RetiredHandleNothing(m: Moment, events: seq<Event>, e: ExpectationBase)
    requires Feasible(m, events) && e in m.retired && e in m.counts
    ensures Handled(e) !in events
    decreases |events|
  {
    if events != [] {
      assert e in Next(m, events[0]).retired;
      RetiredHandleNothing(Next(m, events[0]), events[1..], e);
      assert Handled(e) != events[0];
    }
  }

  /**
   * Calls keep the order: when a call of e is within its limit, everything before e is satisfied
   * at that time, and none of it handles a call in any continuation.
   */
  lemma CallsKeepOrder(m: Moment, e: ExpectationBase, events: seq<Event>)
    requires Consistent(m) && CanHappen(m, Handled(e)) && m.counts[e] < e.maxCalls
    requires Feasible(Next(m, Handled(e)), events)
    ensures forall x :: x in All(m.links, e) ==> Fulfilled(m, x) && Handled(x) !in events
  {
    var next := Next(m, Handled(e));
    EventKeepsConsistent(m, Handled(e));
    forall x | x in All(m.links, e) ensures Fulfilled(m, x) && Handled(x) !in events {
      RetiredHandleNothing(next, events, x);
    }
  }

  /**
   * One event retires what it retires: a call within its limit everything before its expectation, and
   * the expectation itself when that is the last call and it retires on saturation. Nothing else does.
   */
  lemma RetiresExactly(m: Moment, event: Event, x: ExpectationBase)
    requires Consistent(m) && CanHappen(m, event)
    ensures x in Next(m, event).retired <==>
              || x in m.retired
              || (event.Handled? && m.counts[event.e] < event.e.maxCalls && x in All(m.links, event.e))
              || (event == Handled(x) && x.retiresOnSaturation && m.counts[x] + 1 == x.maxCalls)
  {
  }

  /** The call that saturates an expectation retiring on saturation is its last, in every continuation. */
  lemma SaturationIsFinal(m: Moment, e: ExpectationBase, events: seq<Event>)
    requires Consistent(m) && CanHappen(m, Handled(e)) && Feasible(Next(m, Handled(e)), events)
    requires e.retiresOnSaturation && m.counts[e] + 1 == e.maxCalls
    ensures Handled(e) !in events
  {
    RetiresExactly(m, Handled(e), e);
    RetiredHandleNothing(Next(m, Handled(e)), events, e);
  }

  /** In the run something that comes after x handles a call within its limit. */
  ghost predicate SuccessorCalled(m: Moment, events: seq<Event>, x: ExpectationBase)
    requires Feasible(m, events)
    decreases |events|
  {
    events != [] &&
    ( || (events[0].Handled? && m.counts[events[0].e] < events[0].e.maxCalls && x in All(m.links, events[0].e))
      || SuccessorCalled(Next(m, events[0]), events[1..], x))
  }

  /** An expectation that does not retire on saturation is retired by calls of its successors, and by nothing else. */
  lemma {:induction false} OnlySuccessorsRetire(m: Moment, events: seq<Event>, x: ExpectationBase)
    requires Consistent(m) && Feasible(m, events) && !x.retiresOnSaturation
    ensures x in After(m, events).retired <==> x in m.retired || SuccessorCalled(m, events, x)
    decreases |events|
  {
    if events != [] {
      EventKeepsConsistent(m, events[0]);
      RetiresExactly(m, events[0], x);
      OnlySuccessorsRetire(Next(m, events[0]), events[1..], x);
    }
  }

  ghost predicate ComesBefore(m: Moment, x: ExpectationBase, e: ExpectationBase) {
    x in All(m.links, e)
  }

  /** After one call too many of x, nothing that comes after x handles a call in any continuation. */
  lemma {:induction false} ExcessBlocks(m: Moment, x: ExpectationBase, e: ExpectationBase, events: seq<Event>)
    requires Consistent(m) && Feasible(m, events) && x in m.counts && m.counts[x] > x.maxCalls && ComesBefore(m, x, e)
    ensures Handled(e) !in events
    decreases |events|
  {
    if events != [] {
      EventKeepsConsistent(m, events[0]);
      StaysBefore(m, events[0], x, e);
      ExcessBlocks(Next(m, events[0]), x, e, events[1..]);
      assert !Fulfilled(m, x);
    }
  }

  lemma StaysBefore(m: Moment, event: Event, x: ExpectationBase, e: ExpectationBase)
    requires Consistent(m) && CanHappen(m, event) && ComesBefore(m, x, e)
    ensures ComesBefore(Next(m, event), x, e)
  {
    match event
    case Created(n) => NewNode(m.links, n);
    case Linked(a, p) =>
      var n: nat :| ReachesIn(m.links, m.links.Keys, e, x, n);
      OldEdgesIn(m.links, a, p, e, x, n);
    case Handled(a) =>
  }
}
