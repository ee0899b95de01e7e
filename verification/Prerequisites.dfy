/** Prerequisite graphs: which nodes are reached from a node, acyclicity, and the work left on a traversal stack. */
module Prerequisites {
  /** Every node with its immediate prerequisites. */
  type Graph<E> = map<E, seq<E>>

  ghost predicate WellFormed<E>(g: Graph<E>) {
    forall a, i :: a in g && 0 <= i < |g[a]| ==> g[a][i] in g
  }

  /** b is a prerequisite of a over n nodes in between, all of which belong to `through`. */
  ghost predicate ReachesIn<E>(g: Graph<E>, through: set<E>, a: E, b: E, n: nat) {
    a in g && if n == 0 then b in g[a]
              else exists i :: 0 <= i < |g[a]| && g[a][i] in through && ReachesIn(g, through, g[a][i], b, n - 1)
  }

  ghost predicate ReachesVia<E>(g: Graph<E>, through: set<E>, a: E, b: E) {
    exists n: nat :: ReachesIn(g, through, a, b, n)
  }

  /** b is a direct or indirect prerequisite of a. */
  ghost predicate Reaches<E>(g: Graph<E>, a: E, b: E) {
    ReachesVia(g, g.Keys, a, b)
  }

  ghost predicate Acyclic<E>(g: Graph<E>) {
    forall a :: a in g ==> !Reaches(g, a, a)
  }

  lemma FirstStep<E>(g: Graph<E>, through: set<E>, a: E, b: E) returns (i: nat)
    requires ReachesVia(g, through, a, b)
    ensures a in g && i < |g[a]|
    ensures g[a][i] == b || (g[a][i] in through && ReachesVia(g, through, g[a][i], b))
  {
    var n: nat :| ReachesIn(g, through, a, b, n);
    if n == 0 {
      i :| 0 <= i < |g[a]| && g[a][i] == b;
    } else {
      i :| 0 <= i < |g[a]| && g[a][i] in through && ReachesIn(g, through, g[a][i], b, n - 1);
    }
  }

  lemma Immediate<E>(g: Graph<E>, through: set<E>, a: E, i: nat)
    requires a in g && i < |g[a]|
    ensures ReachesVia(g, through, a, g[a][i])
  {
    assert ReachesIn(g, through, a, g[a][i], 0);
  }

  lemma {:induction false} ChainedIn<E>(g: Graph<E>, through: set<E>, a: E, b: E, c: E, n: nat, m: nat)
    requires ReachesIn(g, through, a, b, n) && b in through && ReachesIn(g, through, b, c, m)
    ensures ReachesVia(g, through, a, c)
    decreases n
  {
    if n == 0 {
      var i :| 0 <= i < |g[a]| && g[a][i] == b;
      assert ReachesIn(g, through, a, c, m + 1);
    } else {
      var i :| 0 <= i < |g[a]| && g[a][i] in through && ReachesIn(g, through, g[a][i], b, n - 1);
      ChainedIn(g, through, g[a][i], b, c, n - 1, m);
      var k: nat :| ReachesIn(g, through, g[a][i], c, k);
      assert ReachesIn(g, through, a, c, k + 1);
    }
  }

  lemma Chained<E>(g: Graph<E>, through: set<E>, a: E, b: E, c: E)
    requires ReachesVia(g, through, a, b) && b in through && ReachesVia(g, through, b, c)
    ensures ReachesVia(g, through, a, c)
  {
    var n: nat :| ReachesIn(g, through, a, b, n);
    var m: nat :| ReachesIn(g, through, b, c, m);
    ChainedIn(g, through, a, b, c, n, m);
  }

  lemma {:induction false} StaysInside<E>(g: Graph<E>, through: set<E>, a: E, b: E, n: nat)
    requires WellFormed(g) && ReachesIn(g, through, a, b, n)
    ensures b in g
  {
    if n > 0 {
      var i :| 0 <= i < |g[a]| && g[a][i] in through && ReachesIn(g, through, g[a][i], b, n - 1);
      StaysInside(g, through, g[a][i], b, n - 1);
    }
  }

  lemma ReachedInside<E>(g: Graph<E>, through: set<E>, a: E, b: E)
    requires WellFormed(g) && ReachesVia(g, through, a, b)
    ensures b in g
  {
    var n: nat :| ReachesIn(g, through, a, b, n);
    StaysInside(g, through, a, b, n);
  }

  lemma {:induction false} WiderIn<E>(g: Graph<E>, through: set<E>, wider: set<E>, a: E, b: E, n: nat)
    requires through <= wider && ReachesIn(g, through, a, b, n)
    ensures ReachesIn(g, wider, a, b, n)
  {
    if n > 0 {
      var i :| 0 <= i < |g[a]| && g[a][i] in through && ReachesIn(g, through, g[a][i], b, n - 1);
      WiderIn(g, through, wider, g[a][i], b, n - 1);
    }
  }

  lemma Wider<E>(g: Graph<E>, through: set<E>, wider: set<E>, a: E, b: E)
    requires through <= wider && ReachesVia(g, through, a, b)
    ensures ReachesVia(g, wider, a, b)
  {
    var n: nat :| ReachesIn(g, through, a, b, n);
    WiderIn(g, through, wider, a, b, n);
  }

  ghost function All<E>(g: Graph<E>, a: E): set<E> {
    set b | b in g && Reaches(g, a, b)
  }

  /** A set that holds a's prerequisites, and with each node its prerequisites, holds everything a reaches. */
  ghost predicate ClosedUnder<E>(g: Graph<E>, nodes: set<E>) {
    forall a, i :: a in nodes && a in g && 0 <= i < |g[a]| ==> g[a][i] in nodes
  }

  lemma {:induction false} ClosedHoldsIn<E>(g: Graph<E>, nodes: set<E>, a: E, b: E, n: nat)
    requires ClosedUnder(g, nodes) && ReachesIn(g, g.Keys, a, b, n)
    requires forall i :: 0 <= i < |g[a]| ==> g[a][i] in nodes
    ensures b in nodes
    decreases n
  {
    if n > 0 {
      var i :| 0 <= i < |g[a]| && g[a][i] in g.Keys && ReachesIn(g, g.Keys, g[a][i], b, n - 1);
      ClosedHoldsIn(g, nodes, g[a][i], b, n - 1);
    }
  }

  lemma ClosedHolds<E>(g: Graph<E>, nodes: set<E>, a: E)
    requires a in g && ClosedUnder(g, nodes)
    requires forall i :: 0 <= i < |g[a]| ==> g[a][i] in nodes
    ensures All(g, a) <= nodes
  {
    forall b | b in All(g, a) ensures b in nodes {
      var n: nat :| ReachesIn(g, g.Keys, a, b, n);
      ClosedHoldsIn(g, nodes, a, b, n);
    }
  }

  // -------------------------------------------------------- termination

  lemma FewerBelow<E>(g: Graph<E>, a: E, i: nat)
    requires WellFormed(g) && Acyclic(g) && a in g && i < |g[a]|
    ensures |All(g, g[a][i])| < |All(g, a)|
  {
    var c := g[a][i];
    Immediate(g, g.Keys, a, i);
    forall b | b in All(g, c) ensures b in All(g, a) {
      Chained(g, g.Keys, a, c, b);
    }
    assert c in All(g, a) && c !in All(g, c);
    ProperSubset(All(g, c), All(g, a), c);
  }

  lemma ProperSubset<E>(small: set<E>, big: set<E>, x: E)
    requires small <= big && x in big && x !in small
    ensures |small| < |big|
  {
    assert |big - small| + |small| == |big| by { assert (big - small) + small == big; }
    assert x in big - small;
  }

  /** The number of nodes in the tree that unfolds from a. */
  ghost function TreeSize<E>(g: Graph<E>, a: E): nat
    requires WellFormed(g) && Acyclic(g) && a in g
    decreases |All(g, a)|, 1, 0
  {
    1 + TreesBelow(g, a, |g[a]|)
  }

  ghost function TreesBelow<E>(g: Graph<E>, a: E, n: nat): nat
    requires WellFormed(g) && Acyclic(g) && a in g && n <= |g[a]|
    decreases |All(g, a)|, 0, n
  {
    if n == 0 then 0 else
    FewerBelow(g, a, n - 1);
    TreesBelow(g, a, n - 1) + TreeSize(g, g[a][n - 1])
  }

  ghost function StackSize<E>(g: Graph<E>, stack: seq<E>): nat
    requires WellFormed(g) && Acyclic(g) && Nodes(g, stack)
  {
    if stack == [] then 0 else StackSize(g, stack[..|stack| - 1]) + TreeSize(g, stack[|stack| - 1])
  }

  ghost predicate Nodes<E>(g: Graph<E>, stack: seq<E>) {
    forall k :: 0 <= k < |stack| ==> stack[k] in g
  }

  lemma PushedSize<E>(g: Graph<E>, stack: seq<E>, a: E)
    requires WellFormed(g) && Acyclic(g) && a in g && Nodes(g, stack)
    ensures Nodes(g, stack + [a]) && StackSize(g, stack + [a]) == StackSize(g, stack) + TreeSize(g, a)
  {
    assert (stack + [a])[..|stack|] == stack;
  }

  // ------------------------------------------------------------ traversal

  /** Everything root reaches via `through` is done or reached from the stack. */
  ghost predicate Covered<E>(g: Graph<E>, through: set<E>, root: E, stack: seq<E>, done: set<E>) {
    forall x :: x in g && ReachesVia(g, through, root, x) ==> x in done || FromStack(g, through, stack, x)
  }

  ghost predicate FromStack<E>(g: Graph<E>, through: set<E>, stack: seq<E>, x: E) {
    exists k :: 0 <= k < |stack| && ReachesVia(g, through, stack[k], x)
  }

  lemma CoveredAtFirst<E>(g: Graph<E>, through: set<E>, root: E, done: set<E>)
    ensures Covered(g, through, root, [root], done)
  {
    assert [root][0] == root;
  }

  /** Everything on the stack is the root or reached from it via `through`. */
  ghost predicate Found<E>(g: Graph<E>, through: set<E>, root: E, stack: seq<E>) {
    Nodes(g, stack) && forall k :: 0 <= k < |stack| ==> Through(g, through, root, stack[k])
  }

  ghost predicate Through<E>(g: Graph<E>, through: set<E>, root: E, a: E) {
    a == root || (a in through && ReachesVia(g, through, root, a))
  }

  lemma Follow<E>(g: Graph<E>, through: set<E>, root: E, a: E, i: nat)
    requires WellFormed(g) && a in g && i < |g[a]| && Through(g, through, root, a)
    ensures g[a][i] in g && ReachesVia(g, through, root, g[a][i])
  {
    Immediate(g, through, a, i);
    if a != root { Chained(g, through, root, a, g[a][i]); }
  }

  /** Half way through the prerequisites of a popped node: some of the first i were pushed. */
  ghost predicate Pushing<E>(g: Graph<E>, through: set<E>, root: E, rest: seq<E>, a: E, i: nat, pushed: seq<E>) {
    && WellFormed(g) && Acyclic(g) && a in g && i <= |g[a]| && Through(g, through, root, a)
    && Found(g, through, root, rest + pushed) && Nodes(g, rest)
    && StackSize(g, rest + pushed) <= StackSize(g, rest) + TreesBelow(g, a, i)
    && forall k :: 0 <= k < i && g[a][k] in through ==> g[a][k] in pushed
  }

  lemma Pop<E>(g: Graph<E>, through: set<E>, root: E, stack: seq<E>)
    requires WellFormed(g) && Acyclic(g) && stack != [] && Found(g, through, root, stack)
    ensures Pushing(g, through, root, stack[..|stack| - 1], stack[|stack| - 1], 0, [])
  {
    var rest := stack[..|stack| - 1];
    assert rest + [] == rest;
  }

  lemma Push<E>(g: Graph<E>, through: set<E>, root: E, rest: seq<E>, a: E, i: nat, pushed: seq<E>)
    requires Pushing(g, through, root, rest, a, i, pushed) && i < |g[a]|
    ensures g[a][i] in g && ReachesVia(g, through, root, g[a][i])
    ensures rest + (pushed + [g[a][i]]) == rest + pushed + [g[a][i]]
    ensures g[a][i] in through ==> Pushing(g, through, root, rest, a, i + 1, pushed + [g[a][i]])
    ensures g[a][i] !in through ==> Pushing(g, through, root, rest, a, i + 1, pushed)
  {
    Follow(g, through, root, a, i);
    OneMoreTree(g, a, i);
    if g[a][i] in through { PushThrough(g, through, root, rest, a, i, pushed); }
  }

  lemma PushThrough<E>(g: Graph<E>, through: set<E>, root: E, rest: seq<E>, a: E, i: nat, pushed: seq<E>)
    requires Pushing(g, through, root, rest, a, i, pushed) && i < |g[a]| && g[a][i] in through
    ensures Pushing(g, through, root, rest, a, i + 1, pushed + [g[a][i]])
  {
    var c, stack := g[a][i], rest + pushed;
    Follow(g, through, root, a, i);
    OneMoreTree(g, a, i);
    PushFound(g, through, root, stack, c);
    assert rest + (pushed + [c]) == stack + [c];
    assert forall x :: x in pushed || x == c ==> x in pushed + [c];
  }

  lemma OneMoreTree<E>(g: Graph<E>, a: E, i: nat)
    requires WellFormed(g) && Acyclic(g) && a in g && i < |g[a]|
    ensures g[a][i] in g && TreesBelow(g, a, i + 1) == TreesBelow(g, a, i) + TreeSize(g, g[a][i])
  {
  }

  lemma PushFound<E>(g: Graph<E>, through: set<E>, root: E, stack: seq<E>, c: E)
    requires WellFormed(g) && Acyclic(g) && Found(g, through, root, stack) && c in g && Through(g, through, root, c)
    ensures Found(g, through, root, stack + [c])
    ensures StackSize(g, stack + [c]) == StackSize(g, stack) + TreeSize(g, c)
  {
    PushedSize(g, stack, c);
  }

  /** After the last prerequisite, the stack is smaller work than before the pop, and everything is still covered. */
  lemma Pushed<E>(g: Graph<E>, through: set<E>, root: E, stack: seq<E>, done: set<E>, pushed: seq<E>, now: set<E>)
    requires stack != [] && Found(g, through, root, stack) && Covered(g, through, root, stack, done) && done <= now
    requires var a := stack[|stack| - 1];
             && Pushing(g, through, root, stack[..|stack| - 1], a, |g[a]|, pushed)
             && forall i :: 0 <= i < |g[a]| ==> g[a][i] in now
    ensures var next := stack[..|stack| - 1] + pushed;
            Covered(g, through, root, next, now) && StackSize(g, next) < StackSize(g, stack)
  {
    var rest, a := stack[..|stack| - 1], stack[|stack| - 1];
    assert rest + [a] == stack;
    CoveredStep(g, through, root, rest, a, done, pushed, now);
  }

  /** Popping a node and pushing its prerequisites in `through` keeps everything covered. */
  lemma CoveredStep<E>(g: Graph<E>, through: set<E>, root: E, rest: seq<E>, a: E, done: set<E>,
                           pushed: seq<E>, now: set<E>)
    requires a in g && Covered(g, through, root, rest + [a], done) && done <= now
    requires forall i :: 0 <= i < |g[a]| ==> g[a][i] in now && (g[a][i] in through ==> g[a][i] in pushed)
    ensures Covered(g, through, root, rest + pushed, now)
  {
    var stack, next := rest + [a], rest + pushed;
    forall x | x in g && ReachesVia(g, through, root, x) && x !in now ensures FromStack(g, through, next, x) {
      var k :| 0 <= k < |stack| && ReachesVia(g, through, stack[k], x);
      if k < |rest| {
        assert next[k] == stack[k];
      } else {
        var i := FirstStep(g, through, a, x);
        var j :| 0 <= j < |pushed| && pushed[j] == g[a][i];
        assert next[|rest| + j] == g[a][i];
      }
    }
  }

  // ------------------------------------------- adding a node or an edge

  lemma {:induction false} SamePathIn<E>(g: Graph<E>, a: E, x: E, y: E, n: nat)
    requires WellFormed(g) && a !in g && ReachesIn(g[a := []], g.Keys + {a}, x, y, n)
    ensures x in g && Reaches(g, x, y)
    decreases n
  {
    var h := g[a := []];
    var i :| 0 <= i < |h[x]| && if n == 0 then h[x][i] == y
                                else ReachesIn(h, g.Keys + {a}, h[x][i], y, n - 1);
    Immediate(g, g.Keys, x, i);
    if n > 0 {
      SamePathIn(g, a, h[x][i], y, n - 1);
      Chained(g, g.Keys, x, h[x][i], y);
    }
  }

  /** A new node without prerequisites changes nothing for the others. */
  lemma NewNode<E>(g: Graph<E>, a: E)
    requires WellFormed(g) && a !in g
    ensures WellFormed(g[a := []])
    ensures All(g[a := []], a) == {} && forall x :: x in g ==> All(g[a := []], x) == All(g, x)
  {
    var h := g[a := []];
    assert h.Keys == g.Keys + {a};
    forall x, y | x in h && y in h && Reaches(h, x, y) ensures x in g && Reaches(g, x, y) {
      var n: nat :| ReachesIn(h, h.Keys, x, y, n);
      SamePathIn(g, a, x, y, n);
    }
    forall x, y | x in g && y in g && Reaches(g, x, y) ensures Reaches(h, x, y) {
      var n: nat :| ReachesIn(g, g.Keys, x, y, n);
      InLargerIn(g, a, x, y, n);
    }
    forall x, y | x in g && y in h && Reaches(h, x, y) ensures y in g {
      ReachedInside(g, g.Keys, x, y);
    }
  }

  lemma {:induction false} InLargerIn<E>(g: Graph<E>, a: E, x: E, y: E, n: nat)
    requires a !in g && ReachesIn(g, g.Keys, x, y, n)
    ensures ReachesIn(g[a := []], g.Keys + {a}, x, y, n)
  {
    if n > 0 {
      var i :| 0 <= i < |g[x]| && g[x][i] in g.Keys && ReachesIn(g, g.Keys, g[x][i], y, n - 1);
      InLargerIn(g, a, g[x][i], y, n - 1);
    }
  }

  ghost function WithEdge<E>(g: Graph<E>, a: E, b: E): Graph<E>
    requires a in g
  {
    g[a := g[a] + [b]]
  }

  lemma {:induction false} OldEdgesIn<E>(g: Graph<E>, a: E, b: E, x: E, y: E, n: nat)
    requires a in g && ReachesIn(g, g.Keys, x, y, n)
    ensures Reaches(WithEdge(g, a, b), x, y)
    decreases n
  {
    var h := WithEdge(g, a, b);
    if n == 0 {
      var i :| 0 <= i < |g[x]| && g[x][i] == y;
      assert h[x][i] == y;
      Immediate(h, h.Keys, x, i);
    } else {
      var i :| 0 <= i < |g[x]| && g[x][i] in g.Keys && ReachesIn(g, g.Keys, g[x][i], y, n - 1);
      OldEdgesIn(g, a, b, g[x][i], y, n - 1);
      assert h[x][i] == g[x][i];
      Immediate(h, h.Keys, x, i);
      Chained(h, h.Keys, x, g[x][i], y);
    }
  }

  /** A path over the new edge splits into a path to a and one from b. */
  lemma {:induction false} NewPathIn<E>(g: Graph<E>, a: E, b: E, x: E, y: E, n: nat)
    requires a in g && b in g && WellFormed(g) && ReachesIn(WithEdge(g, a, b), g.Keys, x, y, n)
    ensures Reaches(g, x, y) || ((x == a || Reaches(g, x, a)) && (y == b || Reaches(g, b, y)))
    decreases n
  {
    var h := WithEdge(g, a, b);
    var i :| 0 <= i < |h[x]| && if n == 0 then h[x][i] == y
                                else h[x][i] in g.Keys && ReachesIn(h, g.Keys, h[x][i], y, n - 1);
    var c := h[x][i];
    var known := i < |g[x]|;
    assert !known ==> x == a && c == b;
    if known { Immediate(g, g.Keys, x, i); }
    if n > 0 {
      NewPathIn(g, a, b, c, y, n - 1);
      if known && Reaches(g, c, y) { Chained(g, g.Keys, x, c, y); }
      if known && Reaches(g, c, a) { Chained(g, g.Keys, x, c, a); }
    }
  }

  /** A new prerequisite b of a keeps the graph acyclic exactly when b is not a and does not come after a. */
  lemma EdgeKeepsAcyclic<E>(g: Graph<E>, a: E, b: E)
    requires WellFormed(g) && Acyclic(g) && a in g && b in g
    ensures WellFormed(WithEdge(g, a, b))
    ensures Acyclic(WithEdge(g, a, b)) <==> a != b && !Reaches(g, b, a)
  {
    var h := WithEdge(g, a, b);
    assert h.Keys == g.Keys;
    assert h[a][|g[a]|] == b;
    Immediate(h, h.Keys, a, |g[a]|);
    if Reaches(g, b, a) {
      var n: nat :| ReachesIn(g, g.Keys, b, a, n);
      OldEdgesIn(g, a, b, b, a, n);
      Chained(h, h.Keys, a, b, a);
    } else if a != b {
      forall x | x in h ensures !Reaches(h, x, x) {
        if Reaches(h, x, x) {
          var n: nat :| ReachesIn(h, h.Keys, x, x, n);
          NewPathIn(g, a, b, x, x, n);
          if x != b && x != a { Chained(g, g.Keys, b, x, a); }
        }
      }
    }
  }

  // --------------------------------------------------- states of the graph

  /** A set of nodes that holds, with each node, its prerequisites; and nodes called only after theirs. */
  ghost predicate Sound<E>(g: Graph<E>, called: set<E>, retired: set<E>, satisfied: set<E>) {
    && WellFormed(g) && Acyclic(g)
    && ClosedUnder(g, retired)
    && forall e :: e in g && e in called && e in satisfied ==> All(g, e) <= retired && All(g, e) <= satisfied
  }

  lemma NewNodeKeepsSound<E>(g: Graph<E>, called: set<E>, retired: set<E>, satisfied: set<E>, e: E, now: set<E>)
    requires Sound(g, called, retired, satisfied) && e !in g && e !in called && e !in retired && satisfied <= now
    requires forall x :: x in now && x in g ==> x in satisfied
    ensures Sound(g[e := []], called, retired, now)
  {
    NewNode(g, e);
    var h := g[e := []];
    forall x | x in h ensures !Reaches(h, x, x) {
      assert x !in All(h, x);
    }
  }

  lemma EdgeKeepsSound<E>(g: Graph<E>, called: set<E>, retired: set<E>, satisfied: set<E>, a: E, b: E)
    requires Sound(g, called, retired, satisfied) && a in g && b in g
    requires a !in called && a !in retired && a != b && !Reaches(g, b, a)
    ensures Sound(WithEdge(g, a, b), called, retired, satisfied)
  {
    var h := WithEdge(g, a, b);
    EdgeKeepsAcyclic(g, a, b);
    forall e, x | e in h && e in called && e in satisfied && x in All(h, e) ensures x in All(g, e) {
      assert a !in All(g, e);
      var n: nat :| ReachesIn(h, h.Keys, e, x, n);
      assert h.Keys == g.Keys;
      NewPathIn(g, a, b, e, x, n);
    }
  }

  /** A call that is one too many only makes its node unsatisfied. */
  lemma ExcessiveCallKeepsSound<E>(g: Graph<E>, called: set<E>, retired: set<E>, satisfied: set<E>, e: E)
    requires Sound(g, called, retired, satisfied) && e in g && e !in retired
    ensures Sound(g, called + {e}, retired, satisfied - {e})
  {
  }

  /** Any other call retires what its node reaches, all of it satisfied. */
  lemma CallKeepsSound<E>(g: Graph<E>, called: set<E>, retired: set<E>, satisfied: set<E>, e: E, now: set<E>)
    requires Sound(g, called, retired, satisfied) && e in g && e !in retired && All(g, e) <= satisfied
    requires now - {e} == satisfied - {e}
    requires ClosedUnder(g, retired + All(g, e))
    ensures Sound(g, called + {e}, retired + All(g, e), now)
  {
    assert e !in All(g, e);
    forall x | x in g && x in called + {e} && x in now
      ensures All(g, x) <= retired + All(g, e) && All(g, x) <= now
    {
      assert x != e ==> x in satisfied - {e};
      assert All(g, x) <= satisfied - {e};
    }
  }

  lemma RetiringKeepsSound<E>(g: Graph<E>, called: set<E>, retired: set<E>, satisfied: set<E>, e: E)
    requires Sound(g, called, retired, satisfied) && e in g && All(g, e) <= retired
    ensures Sound(g, called, retired + {e}, satisfied)
  {
    forall i | 0 <= i < |g[e]| ensures g[e][i] in retired {
      Immediate(g, g.Keys, e, i);
    }
  }

  /** Nodes that are satisfied although never called. */
  ghost predicate SomeMissing<E>(g: Graph<E>, idle: set<E>, satisfied: set<E>, e: E) {
    exists y :: y in g && y !in satisfied && ReachesVia(g, idle, e, y)
  }

  lemma {:induction false} MissingOnTheWay<E>(g: Graph<E>, called: set<E>, retired: set<E>, satisfied: set<E>, e: E, x: E, n: nat)
    requires Sound(g, called, retired, satisfied) && ReachesIn(g, g.Keys, e, x, n) && x !in satisfied
    ensures SomeMissing(g, satisfied - called, satisfied, e)
    decreases n
  {
    var idle := satisfied - called;
    if n == 0 {
      assert ReachesIn(g, idle, e, x, 0);
      ReachedInside(g, idle, e, x);
    } else {
      var i :| 0 <= i < |g[e]| && g[e][i] in g.Keys && ReachesIn(g, g.Keys, g[e][i], x, n - 1);
      var c := g[e][i];
      Immediate(g, idle, e, i);
      if c in satisfied {
        StaysInside(g, g.Keys, c, x, n - 1);
        assert x in All(g, c);
        MissingOnTheWay(g, called, retired, satisfied, c, x, n - 1);
        var y :| y in g && y !in satisfied && ReachesVia(g, idle, c, y);
        Chained(g, idle, e, c, y);
      }
    }
  }

  /** An unsatisfied prerequisite exists exactly when one is reached through satisfied, never-called nodes. */
  lemma MissingIsReported<E>(g: Graph<E>, called: set<E>, retired: set<E>, satisfied: set<E>, e: E)
    requires Sound(g, called, retired, satisfied) && e in g && called <= g.Keys && satisfied <= g.Keys
    ensures SomeMissing(g, satisfied - called, satisfied, e) <==> !(All(g, e) <= satisfied)
  {
    if SomeMissing(g, satisfied - called, satisfied, e) {
      var y :| y in g && y !in satisfied && ReachesVia(g, satisfied - called, e, y);
      Wider(g, satisfied - called, g.Keys, e, y);
      assert y in All(g, e);
    }
    if !(All(g, e) <= satisfied) {
      var x :| x in All(g, e) && x !in satisfied;
      var n: nat :| ReachesIn(g, g.Keys, e, x, n);
      MissingOnTheWay(g, called, retired, satisfied, e, x, n);
    }
  }

  // -------------------------------------------------------------- retiring

  ghost predicate ChildrenIn<E>(g: Graph<E>, a: E, nodes: set<E>) {
    a in g && forall i :: 0 <= i < |g[a]| ==> g[a][i] in nodes
  }

  /** Between two pops: nodes off the stack have all their prerequisites retired. */
  ghost predicate Retiring<E>(g: Graph<E>, root: E, before: set<E>, now: set<E>, stack: seq<E>) {
    && WellFormed(g) && root in g && Found(g, g.Keys, root, stack)
    && before <= now <= before + All(g, root) && now <= g.Keys
    && forall x :: x in now + {root} && x !in stack ==> ChildrenIn(g, x, now)
  }

  /** Half way through the prerequisites of the popped node a: `pushed` are the ones retired for it. */
  ghost predicate HalfRetired<E>(g: Graph<E>, root: E, before: set<E>, start: set<E>, now: set<E>,
                                 rest: seq<E>, a: E, i: nat, pushed: seq<E>) {
    && start <= now && (pushed == [] <==> start == now)
    && WellFormed(g) && root in g && Found(g, g.Keys, root, rest + pushed)
    && before <= now <= before + All(g, root) && now <= g.Keys
    && a in g && i <= |g[a]| && Through(g, g.Keys, root, a)
    && (forall x :: x in now + {root} && x !in rest + pushed && x != a ==> ChildrenIn(g, x, now))
    && (forall k :: 0 <= k < i ==> g[a][k] in now)
  }

  lemma RetiringStarts<E>(g: Graph<E>, root: E, before: set<E>)
    requires WellFormed(g) && root in g && ClosedUnder(g, before) && before <= g.Keys
    ensures Retiring(g, root, before, before, [root])
  {
    assert [root][0] == root;
  }

  lemma RetiringPop<E>(g: Graph<E>, root: E, before: set<E>, now: set<E>, stack: seq<E>)
    requires Retiring(g, root, before, now, stack) && stack != []
    ensures HalfRetired(g, root, before, now, now, stack[..|stack| - 1], stack[|stack| - 1], 0, [])
    ensures stack[..|stack| - 1] + [] == stack[..|stack| - 1]
  {
    var rest := stack[..|stack| - 1];
    assert rest + [] == rest && stack == rest + [stack[|stack| - 1]];
  }

  lemma RetiringPush<E>(g: Graph<E>, root: E, before: set<E>, start: set<E>, now: set<E>,
                        rest: seq<E>, a: E, i: nat, pushed: seq<E>)
    requires HalfRetired(g, root, before, start, now, rest, a, i, pushed) && i < |g[a]|
    ensures g[a][i] in g && rest + (pushed + [g[a][i]]) == rest + pushed + [g[a][i]]
    ensures HalfRetired(g, root, before, start, now + {g[a][i]}, rest, a, i + 1,
                        if g[a][i] in now then pushed else pushed + [g[a][i]])
  {
    Follow(g, g.Keys, root, a, i);
    var c := g[a][i];
    var stack, next := rest + pushed, rest + (pushed + [c]);
    assert next == stack + [c] && next[|stack|] == c;
    assert forall x :: x in stack ==> x in next;
    if c in now { assert now + {c} == now; }
  }

  /** Nothing new was retired and the stack is shorter, or fewer nodes are left to retire. */
  lemma RetiringPushed<E>(g: Graph<E>, root: E, before: set<E>, start: set<E>, now: set<E>, rest: seq<E>, a: E, pushed: seq<E>)
    requires a in g && HalfRetired(g, root, before, start, now, rest, a, |g[a]|, pushed)
    ensures Retiring(g, root, before, now, rest + pushed)
    ensures (now == start && rest + pushed == rest) || |g.Keys - now| < |g.Keys - start|
  {
    assert ChildrenIn(g, a, now);
    if now != start {
      var x :| x in now && x !in start;
      ProperSubset(g.Keys - now, g.Keys - start, x);
    } else {
      assert rest + [] == rest;
    }
  }

  lemma RetiringEnds<E>(g: Graph<E>, root: E, before: set<E>, now: set<E>)
    requires Retiring(g, root, before, now, [])
    ensures now == before + All(g, root) && ClosedUnder(g, now)
  {
    forall a, i | a in now && a in g && 0 <= i < |g[a]| ensures g[a][i] in now {
      assert ChildrenIn(g, a, now);
    }
    assert ChildrenIn(g, root, now);
    ClosedHolds(g, now, root);
  }
}
