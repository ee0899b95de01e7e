/**
 * Mock expectations with prerequisites: which may handle a call, what a call
 * retires, and what is reported when prerequisites are missing. `world` is
 * the set of all expectations that exist.
 */
module Expectations {
  import opened Prerequisites

  ghost function Links(world: set<ExpectationBase>): (g: Graph<ExpectationBase>)
    reads world`prerequisites
    ensures g.Keys == world
  {
    map e | e in world :: e.prerequisites
  }

  ghost function Retired(world: set<ExpectationBase>): set<ExpectationBase>
    reads world`retired
  {
    set e | e in world && e.retired
  }

  ghost function Satisfied(world: set<ExpectationBase>): set<ExpectationBase>
    reads world`callCount
  {
    set e | e in world && e.IsSatisfied()
  }

  ghost function Called(world: set<ExpectationBase>): set<ExpectationBase>
    reads world`callCount
  {
    set e | e in world && e.callCount > 0
  }

  ghost predicate Ordered(world: set<ExpectationBase>)
    reads world`prerequisites
  {
    WellFormed(Links(world)) && Acyclic(Links(world))
  }

  /** The prerequisites of a retired expectation are all retired. */
  ghost predicate RetiredFirst(world: set<ExpectationBase>)
    reads world`prerequisites, world`retired
  {
    ClosedUnder(Links(world), Retired(world))
  }

  /**
   * What every operation keeps: no cycles, prerequisites are retired first, and an expectation
   * that was called and is satisfied has only satisfied, retired prerequisites.
   */
  ghost predicate InOrder(world: set<ExpectationBase>)
    reads world`prerequisites, world`retired, world`callCount
  {
    Sound(Links(world), Called(world), Retired(world), Satisfied(world))
  }

  ghost predicate MayHandle(world: set<ExpectationBase>, e: ExpectationBase)
    requires e in world
    reads world`prerequisites, world`callCount, e`retired
  {
    !e.retired && All(Links(world), e) <= Satisfied(world)
  }

  /** The unsatisfied prerequisites of e reached through satisfied ones that were never called. */
  ghost function Missing(world: set<ExpectationBase>, e: ExpectationBase): set<ExpectationBase>
    reads world`prerequisites, world`callCount
  {
    set x | x in world && ReachesVia(Links(world), Satisfied(world) - Called(world), e, x) && !x.IsSatisfied()
  }

  ghost function Counts(world: set<ExpectationBase>): (counts: map<ExpectationBase, nat>)
    reads world`callCount
    ensures counts.Keys == world
  {
    map e | e in world :: e.callCount
  }

  /** The state of all expectations at one time. */
  datatype Moment = Moment(links: Graph<ExpectationBase>, counts: map<ExpectationBase, nat>, retired: set<ExpectationBase>)

  datatype Event =
    | Created(e: ExpectationBase)
    | Linked(e: ExpectationBase, prerequisite: ExpectationBase)
    | Handled(e: ExpectationBase)

  ghost function Next(m: Moment, event: Event): Moment
    requires event.e in m.counts || event.Created?
  {
    match event
    case Created(e) => Moment(m.links[e := []], m.counts[e := 0], m.retired)
    case Linked(e, p) => m.(links := WithLink(m.links, e, p))
    case Handled(e) =>
      var n := m.counts[e] + 1;
      Moment(m.links, m.counts[e := n], m.retired + RetiredBy(m.links, e, n))
  }

  lemma NextHandled(m: Moment, now: Moment, e: ExpectationBase)
    requires e in m.counts && now.links == m.links
    requires var n := m.counts[e] + 1;
             now.counts == m.counts[e := n] && now.retired == m.retired + RetiredBy(m.links, e, n)
    ensures now == Next(m, Handled(e))
  {
  }

  /** What the n-th call of e retires: nothing when that is one too many. */
  ghost function RetiredBy(g: Graph<ExpectationBase>, e: ExpectationBase, n: nat): set<ExpectationBase> {
    if n > e.maxCalls then {}
    else All(g, e) + if e.retiresOnSaturation && n == e.maxCalls then {e} else {}
  }

  /** A prerequisite is listed once. */
  ghost function WithLink<E>(g: Graph<E>, e: E, p: E): Graph<E> {
    if e in g && p !in g[e] then WithEdge(g, e, p) else g
  }

  ghost function Now(world: set<ExpectationBase>): Moment
    reads world`prerequisites, world`callCount, world`retired
  {
    Moment(Links(world), Counts(world), Retired(world))
  }

  class ExpectationBase {
    const minCalls: nat
    const maxCalls: nat
    const retiresOnSaturation: bool
    var callCount: nat
    var retired: bool
    var prerequisites: seq<ExpectationBase>

    constructor (minCalls: nat, maxCalls: nat, retiresOnSaturation: bool)
      ensures this.minCalls == minCalls && this.maxCalls == maxCalls && this.retiresOnSaturation == retiresOnSaturation
      ensures callCount == 0 && !retired && prerequisites == []
    {
      this.minCalls, this.maxCalls, this.retiresOnSaturation := minCalls, maxCalls, retiresOnSaturation;
      callCount, retired, prerequisites := 0, false, [];
    }

    predicate IsSatisfied()
      reads this`callCount
    {
      minCalls <= callCount <= maxCalls
    }

    predicate IsSaturated()
      reads this`callCount
    {
      callCount >= maxCalls
    }

    /** True exactly when all direct and indirect prerequisites are satisfied. */
    method AllPrerequisitesAreSatisfied(ghost world: set<ExpectationBase>) returns (ok: bool)
      requires this in world && Ordered(world)
      ensures ok <==> All(Links(world), this) <= Satisfied(world)
    {
      ghost var g, good := Links(world), Satisfied(world);
      var expectations := [this];
      CoveredAtFirst(g, g.Keys, this, good);
      while expectations != []
        invariant Found(g, g.Keys, this, expectations) && Covered(g, g.Keys, this, expectations, good)
        decreases StackSize(g, expectations)
      {
        ghost var stack, pushed := expectations, [];
        ok, expectations, pushed := CheckPrerequisites(world, expectations);
        if !ok { return; }
        Pushed(g, g.Keys, this, stack, good, pushed, good);
      }
      ok := true;
    }

    /** Pops an expectation and pushes its prerequisites; false at the first unsatisfied one. */
    method CheckPrerequisites(ghost world: set<ExpectationBase>, stack: seq<ExpectationBase>)
      returns (ok: bool, expectations: seq<ExpectationBase>, ghost pushed: seq<ExpectationBase>)
      requires this in world && Ordered(world) && stack != [] && Found(Links(world), world, this, stack)
      ensures !ok ==> !(All(Links(world), this) <= Satisfied(world))
      ensures ok ==>
        var g, exp := Links(world), stack[|stack| - 1];
        && expectations == stack[..|stack| - 1] + pushed
        && Pushing(g, world, this, stack[..|stack| - 1], exp, |g[exp]|, pushed)
        && forall k :: 0 <= k < |g[exp]| ==> g[exp][k] in Satisfied(world)
    {
      ghost var g, good := Links(world), Satisfied(world);
      Pop(g, world, this, stack);
      var exp := stack[|stack| - 1];
      var list := exp.prerequisites;
      assert list == g[exp];
      expectations := stack[..|stack| - 1];
      pushed := [];
      ghost var rest := expectations;
      for i := 0 to |list|
        invariant expectations == rest + pushed && Pushing(g, world, this, rest, exp, i, pushed)
        invariant forall k :: 0 <= k < i ==> g[exp][k] in good
      {
        var next := list[i];
        Push(g, world, this, rest, exp, i, pushed);
        if !next.IsSatisfied() {
          assert next in All(g, this) && next !in good;
          return false, expectations, pushed;
        }
        expectations := expectations + [next];
        pushed := pushed + [next];
      }
      ok := true;
    }

    /** Adds exactly the unsatisfied prerequisites reached through satisfied, never-called ones. */
    method FindUnsatisfiedPrerequisites(ghost world: set<ExpectationBase>, before: set<ExpectationBase>)
      returns (result: set<ExpectationBase>)
      requires this in world && Ordered(world)
      ensures result == before + Missing(world, this)
    {
      ghost var g, good := Links(world), Satisfied(world);
      ghost var idle := good - Called(world);
      ghost var done: set<ExpectationBase> := {};
      result := before;
      var expectations := [this];
      SearchStarts(g, idle, this);
      while expectations != []
        invariant Searched(g, idle, this, expectations, done)
        invariant result == before + (done - good)
        decreases StackSize(g, expectations)
      {
        ghost var stack, earlier, pushed := expectations, done, [];
        expectations, result, done, pushed := SearchPrerequisites(world, expectations, before, result, done);
        SearchPushed(g, idle, this, stack, earlier, pushed, done);
      }
      MissingAreDone(world, this, done);
    }

    /** Pops an expectation, reports its unsatisfied prerequisites and pushes the satisfied, never-called ones. */
    method SearchPrerequisites(ghost world: set<ExpectationBase>, stack: seq<ExpectationBase>, ghost before: set<ExpectationBase>,
                               known: set<ExpectationBase>, ghost earlier: set<ExpectationBase>)
      returns (expectations: seq<ExpectationBase>, result: set<ExpectationBase>,
               ghost done: set<ExpectationBase>, ghost pushed: seq<ExpectationBase>)
      requires this in world && Ordered(world) && stack != []
      requires Searched(Links(world), Satisfied(world) - Called(world), this, stack, earlier)
      requires known == before + (earlier - Satisfied(world))
      ensures var g, exp := Links(world), stack[|stack| - 1];
        && exp in g && expectations == stack[..|stack| - 1] + pushed
        && Searching(g, Satisfied(world) - Called(world), this, stack[..|stack| - 1], exp, |g[exp]|, pushed, earlier, done)
        && result == before + (done - Satisfied(world))
    {
      ghost var g, good := Links(world), Satisfied(world);
      ghost var idle := good - Called(world);
      SearchPop(g, idle, this, stack, earlier);
      var exp := stack[|stack| - 1];
      var list := exp.prerequisites;
      assert list == g[exp];
      expectations, result := stack[..|stack| - 1], known;
      done, pushed := earlier, [];
      ghost var rest := expectations;
      for i := 0 to |list|
        invariant expectations == rest + pushed
        invariant Searching(g, idle, this, rest, exp, i, pushed, earlier, done)
        invariant result == before + (done - good)
      {
        var next := list[i];
        SearchStep(g, idle, this, rest, exp, i, pushed, earlier, done);
        Reported(done, next, before, good);
        done, pushed := done + {next}, if next in idle then pushed + [next] else pushed;
        expectations, result := Visit(world, next, expectations, result);
      }
    }

    /** One prerequisite: pushed when it is satisfied and was never called, reported when it is not satisfied. */
    method Visit(ghost world: set<ExpectationBase>, next: ExpectationBase, expectations: seq<ExpectationBase>, result: set<ExpectationBase>)
      returns (expectations': seq<ExpectationBase>, result': set<ExpectationBase>)
      requires next in world
      ensures expectations' == if next in Satisfied(world) - Called(world) then expectations + [next] else expectations
      ensures result' == result + if next in Satisfied(world) then {} else {next}
    {
      expectations', result' := expectations, result;
      if next.IsSatisfied() {
        if next.callCount == 0 {
          expectations' := expectations + [next];
        }
      } else {
        result' := result + {next};
      }
    }

    method Retire(ghost world: set<ExpectationBase>)
      requires this in world
      modifies this`retired
      ensures retired && Retired(world) == old(Retired(world)) + {this}
    {
      ghost var before := Retired(world);
      retired := true;
      assert forall e :: e in world && e != this ==> (e in before <==> e.retired);
    }

    /** Retires all direct and indirect prerequisites and nothing else; cycles would do no harm. */
    method RetireAllPreRequisites(ghost world: set<ExpectationBase>)
      requires this in world && WellFormed(Links(world)) && RetiredFirst(world)
      modifies world`retired
      ensures Retired(world) == old(Retired(world)) + All(Links(world), this)
      ensures RetiredFirst(world)
    {
      ghost var g, before := Links(world), Retired(world);
      if retired {
        ClosedHolds(g, before, this);
        return;
      }
      ghost var now := before;
      var expectations := [this];
      RetiringStarts(g, this, before);
      while expectations != []
        invariant Retired(world) == now && Retiring(g, this, before, now, expectations)
        decreases |world - now|, |expectations|
      {
        ghost var start := now;
        RetiringPop(g, this, before, now, expectations);
        var exp := expectations[|expectations| - 1];
        var list := exp.prerequisites;
        expectations := expectations[..|expectations| - 1];
        ghost var rest, pushed := expectations, [];
        for i := 0 to |list|
          invariant Retired(world) == now && expectations == rest + pushed
          invariant HalfRetired(g, this, before, start, now, rest, exp, i, pushed)
        {
          var next := list[i];
          RetiringPush(g, this, before, start, now, rest, exp, i, pushed);
          now, pushed := now + {next}, if next in now then pushed else pushed + [next];
          if !next.retired {
            next.Retire(world);
            expectations := expectations + [next];
          }
        }
        RetiringPushed(g, this, before, start, now, rest, exp, pushed);
      }
      RetiringEnds(g, this, before, now);
    }

    /** The expectation takes the call if it is active and all its prerequisites are satisfied. */
    method ShouldHandleArguments(ghost world: set<ExpectationBase>, matches: bool) returns (ok: bool)
      requires this in world && Ordered(world)
      ensures ok <==> MayHandle(world, this) && matches
      ensures ok <==> matches && !retired
                        && forall x :: x in All(Links(world), this) ==> x.minCalls <= x.callCount <= x.maxCalls
    {
      if retired { return false; }
      var satisfied := AllPrerequisitesAreSatisfied(world);
      ok := satisfied && matches;
    }

    /** Counts the call; unless it is one too many, retires what came before and maybe this one. */
    method GetActionForArguments(ghost world: set<ExpectationBase>) returns (excessive: bool)
      requires this in world && InOrder(world) && MayHandle(world, this)
      modifies this`callCount, world`retired
      ensures InOrder(world)
      ensures callCount == old(callCount) + 1 && excessive == (old(callCount) >= maxCalls)
      ensures excessive ==> !IsSatisfied() && Retired(world) == old(Retired(world))
      ensures !excessive ==>
                Retired(world) == old(Retired(world)) + All(Links(world), this)
                                  + if retiresOnSaturation && callCount == maxCalls then {this} else {}
      ensures retired <==> !excessive && retiresOnSaturation && callCount == maxCalls
      ensures Now(world) == Next(old(Now(world)), Handled(this))
    {
      ghost var g, called, done, good := Links(world), Called(world), Retired(world), Satisfied(world);
      ghost var m := Now(world);
      excessive := IsSaturated();
      CountCall(world);
      if excessive {
        ExcessiveCallKeepsSound(g, called, done, good, this);
        NextHandled(m, Now(world), this);
        return;
      }
      RetireForCall(world, called, good);
      NextHandled(m, Now(world), this);
    }

    method RetireForCall(ghost world: set<ExpectationBase>, ghost called: set<ExpectationBase>, ghost good: set<ExpectationBase>)
      requires this in world && Sound(Links(world), called, Retired(world), good) && !retired && callCount <= maxCalls
      requires All(Links(world), this) <= good
      requires Called(world) == called + {this} && Satisfied(world) - {this} == good - {this}
      modifies world`retired
      ensures InOrder(world)
      ensures Retired(world) == old(Retired(world)) + All(Links(world), this)
                                + if retiresOnSaturation && callCount == maxCalls then {this} else {}
      ensures retired <==> retiresOnSaturation && callCount == maxCalls
    {
      ghost var g, done := Links(world), Retired(world);
      RetireAllPreRequisites(world);
      CallKeepsSound(g, called, done, good, this, Satisfied(world));
      assert this !in done && this !in All(g, this);
      RetireWhenSaturated(world);
      assert retired <==> this in Retired(world);
    }

    method CountCall(ghost world: set<ExpectationBase>)
      requires this in world
      modifies this`callCount
      ensures callCount == old(callCount) + 1 && Counts(world) == old(Counts(world))[this := callCount]
      ensures Called(world) == old(Called(world)) + {this} && Satisfied(world) - {this} == old(Satisfied(world)) - {this}
      ensures old(IsSaturated()) ==> Satisfied(world) == old(Satisfied(world)) - {this}
    {
      callCount := callCount + 1;
    }

    method RetireWhenSaturated(ghost world: set<ExpectationBase>)
      requires this in world && InOrder(world) && All(Links(world), this) <= Retired(world)
      modifies this`retired
      ensures InOrder(world)
      ensures Retired(world) == old(Retired(world)) + if retiresOnSaturation && callCount >= maxCalls then {this} else {}
    {
      if retiresOnSaturation && IsSaturated() {
        RetiringKeepsSound(Links(world), Called(world), Retired(world), Satisfied(world), this);
        Retire(world);
      }
    }

    /** `e.After(prerequisite)`. */
    method AddPrerequisite(ghost world: set<ExpectationBase>, p: ExpectationBase)
      requires this in world && p in world && WellFormed(Links(world))
      modifies this`prerequisites
      ensures Links(world) == if p in old(prerequisites) then old(Links(world)) else WithEdge(old(Links(world)), this, p)
      ensures Now(world) == Next(old(Now(world)), Linked(this, p))
      ensures old(InOrder(world)) && !retired && callCount == 0 && this != p && !Reaches(old(Links(world)), p, this)
              ==> InOrder(world)
    {
      if p !in prerequisites {
        ghost var g := Links(world);
        ghost var fine := InOrder(world) && !retired && callCount == 0 && this != p && !Reaches(g, p, this);
        prerequisites := prerequisites + [p];
        assert Links(world) == WithEdge(g, this, p);
        if fine { EdgeKeepsSound(g, Called(world), Retired(world), Satisfied(world), this, p); }
      }
    }
  }

  ghost predicate OnlyReached<E>(g: Graph<E>, through: set<E>, root: E, done: set<E>) {
    forall x :: x in done ==> x in g && ReachesVia(g, through, root, x)
  }

  /** Half way through the prerequisites of a: the first i are among `done`, some of them pushed. */
  ghost predicate Searching<E>(g: Graph<E>, through: set<E>, root: E, rest: seq<E>, a: E, i: nat, pushed: seq<E>,
                               earlier: set<E>, done: set<E>) {
    && Pushing(g, through, root, rest, a, i, pushed)
    && OnlyReached(g, through, root, done) && earlier <= done
    && forall k :: 0 <= k < i ==> g[a][k] in done
  }

  ghost predicate Searched<E>(g: Graph<E>, through: set<E>, root: E, stack: seq<E>, done: set<E>) {
    && WellFormed(g) && Acyclic(g) && Found(g, through, root, stack)
    && Covered(g, through, root, stack, done) && OnlyReached(g, through, root, done)
  }

  lemma SearchStarts<E>(g: Graph<E>, through: set<E>, root: E)
    requires WellFormed(g) && Acyclic(g) && root in g
    ensures Searched(g, through, root, [root], {})
  {
    CoveredAtFirst(g, through, root, {});
  }

  lemma SearchPop<E>(g: Graph<E>, through: set<E>, root: E, stack: seq<E>, done: set<E>)
    requires Searched(g, through, root, stack, done) && stack != []
    ensures Searching(g, through, root, stack[..|stack| - 1], stack[|stack| - 1], 0, [], done, done)
    ensures stack[..|stack| - 1] + [] == stack[..|stack| - 1]
  {
    Pop(g, through, root, stack);
  }

  lemma SearchPushed<E>(g: Graph<E>, through: set<E>, root: E, stack: seq<E>, earlier: set<E>, pushed: seq<E>, done: set<E>)
    requires stack != [] && Searched(g, through, root, stack, earlier) && stack[|stack| - 1] in g
    requires var a := stack[|stack| - 1];
             Searching(g, through, root, stack[..|stack| - 1], a, |g[a]|, pushed, earlier, done)
    ensures var next := stack[..|stack| - 1] + pushed;
            Searched(g, through, root, next, done) && StackSize(g, next) < StackSize(g, stack)
  {
    Pushed(g, through, root, stack, earlier, pushed, done);
  }

  lemma SearchStep<E>(g: Graph<E>, through: set<E>, root: E, rest: seq<E>, a: E, i: nat, pushed: seq<E>,
                      earlier: set<E>, done: set<E>)
    requires Searching(g, through, root, rest, a, i, pushed, earlier, done) && i < |g[a]|
    ensures rest + (pushed + [g[a][i]]) == rest + pushed + [g[a][i]]
    ensures Searching(g, through, root, rest, a, i + 1, if g[a][i] in through then pushed + [g[a][i]] else pushed,
                      earlier, done + {g[a][i]})
  {
    Push(g, through, root, rest, a, i, pushed);
  }

  lemma Reported<E>(done: set<E>, next: E, before: set<E>, good: set<E>)
    ensures before + (done + {next} - good) == before + (done - good) + if next in good then {} else {next}
  {
  }

  lemma MissingAreDone(world: set<ExpectationBase>, e: ExpectationBase, done: set<ExpectationBase>)
    requires Searched(Links(world), Satisfied(world) - Called(world), e, [], done)
    ensures Missing(world, e) == done - Satisfied(world)
  {
    var g, idle := Links(world), Satisfied(world) - Called(world);
    forall x | x in g && ReachesVia(g, idle, e, x) ensures x in done {
      assert !FromStack(g, idle, [], x);
    }
  }

  method NewExpectation(ghost world: set<ExpectationBase>, minCalls: nat, maxCalls: nat, retiresOnSaturation: bool)
    returns (e: ExpectationBase)
    requires InOrder(world)
    ensures fresh(e) && e.minCalls == minCalls && e.maxCalls == maxCalls && e.retiresOnSaturation == retiresOnSaturation
    ensures e.callCount == 0 && !e.retired && e.prerequisites == [] && InOrder(world + {e})
    ensures Links(world + {e}) == old(Links(world))[e := []]
    ensures Now(world + {e}) == Next(old(Now(world)), Created(e))
  {
    ghost var g, called, done, good := Links(world), Called(world), Retired(world), Satisfied(world);
    e := new ExpectationBase(minCalls, maxCalls, retiresOnSaturation);
    assert Links(world + {e}) == g[e := []];
    assert Retired(world + {e}) == done && Called(world + {e}) == called && good <= Satisfied(world + {e});
    NewNodeKeepsSound(g, called, done, good, e, Satisfied(world + {e}));
  }

  class Sequence {
    var last: ExpectationBase?

    constructor ()
      ensures last == null
    {
      last := null;
    }

    method AddExpectation(ghost world: set<ExpectationBase>, e: ExpectationBase)
      requires e in world && (last != null ==> last in world) && WellFormed(Links(world))
      modifies this, e`prerequisites
      ensures last == e
      ensures Links(world) == if old(last) == null || old(last) == e || old(last) in old(e.prerequisites)
                              then old(Links(world)) else WithEdge<ExpectationBase>(old(Links(world)), e, old(last))
      ensures old(InOrder(world)) && !e.retired && e.callCount == 0
                 && (old(last) == null || old(last) == e || !Reaches<ExpectationBase>(old(Links(world)), old(last), e))
              ==> InOrder(world)
    {
      if last != e {
        if last != null { e.AddPrerequisite(world, last); }
        last := e;
      }
    }
  }

  /** Adding a first expectation to its sequence again makes it a prerequisite of its own successor and the reverse. */
  method SequenceMadeCycle() returns (a: ExpectationBase, b: ExpectationBase)
    ensures fresh({a, b}) && !Acyclic(Links({a, b}))
  {
    a := new ExpectationBase(1, 1, false);
    b := new ExpectationBase(1, 1, false);
    AddFirstAgain(a, b);
    MutualPrerequisites(Links({a, b}), a, b);
  }

  method AddFirstAgain(a: ExpectationBase, b: ExpectationBase)
    requires a != b && a.prerequisites == b.prerequisites == []
    modifies a`prerequisites, b`prerequisites
    ensures Links({a, b})[a] == [b] && Links({a, b})[b] == [a]
  {
    ghost var world := {a, b};
    var s := new Sequence();
    s.AddExpectation(world, a);
    assert Links(world) == map[a := [], b := []];
    s.AddExpectation(world, b);
    assert Links(world)[b] == [a] && Links(world)[a] == [];
    s.AddExpectation(world, a);
  }

  lemma MutualPrerequisites<E>(g: Graph<E>, a: E, b: E)
    requires a in g && b in g && g[a] == [b] && g[b] == [a]
    ensures !Acyclic(g)
  {
    Immediate(g, g.Keys, a, 0);
    Immediate(g, g.Keys, b, 0);
    Chained(g, g.Keys, a, b, a);
  }

  /** When prerequisites are unsatisfied, the report names at least one, and only such. */
  lemma ReportIsFaithful(world: set<ExpectationBase>, e: ExpectationBase)
    requires InOrder(world) && e in world
    ensures Missing(world, e) <= All(Links(world), e) - Satisfied(world)
    ensures Missing(world, e) == {} <==> All(Links(world), e) <= Satisfied(world)
  {
    var g, called, good := Links(world), Called(world), Satisfied(world);
    forall x | x in Missing(world, e) ensures x in All(g, e) {
      Wider(g, good - called, g.Keys, e, x);
    }
    MissingIsReported(g, called, Retired(world), good, e);
    if SomeMissing(g, good - called, good, e) {
      var y :| y in g && y !in good && ReachesVia(g, good - called, e, y);
      assert y in Missing(world, e);
    }
  }
}
