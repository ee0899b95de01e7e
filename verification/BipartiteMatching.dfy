/**
 * Maximum bipartite matching by depth-first augmentation, each left node
 * being searched exactly once.
 *
 * A flow is a pair of vectors: left[l] is the right node fed by l, right[r]
 * the left node feeding r, or UNUSED.
 */
module BipartiteMatching {
  import opened Basics
  import opened MatchMatrices

  const UNUSED: int := -1

  // ---------------------------------------------------------------- flows

  ghost predicate WellFormed(g: MatchMatrix, left: seq<int>, right: seq<int>) {
    && g.Valid()
    && |left| == g.lhsSize
    && |right| == g.rhsSize
    && (forall l :: 0 <= l < |left| ==> left[l] == UNUSED || 0 <= left[l] < |right|)
    && (forall r :: 0 <= r < |right| ==> right[r] == UNUSED || 0 <= right[r] < |left|)
  }

  /** Entries are UNUSED or mutually referent, and used entries are edges. */
  ghost predicate IsFlow(g: MatchMatrix, left: seq<int>, right: seq<int>) {
    && WellFormed(g, left, right)
    && (forall l :: 0 <= l < |left| && left[l] != UNUSED ==>
          right[left[l]] == l && g.HasEdge(l, left[l]))
    && (forall r :: 0 <= r < |right| && right[r] != UNUSED ==> left[right[r]] == r)
  }

  // ---------------------------------------------------- augmenting paths

  /**
   * The right nodes p[0], p[1], ... of a residual path that starts at left
   * node l, goes back from each used right node to the left node feeding it,
   * and ends at an unused right node.
   */
  ghost predicate AugmentingPath(g: MatchMatrix, right: seq<int>, l: int, p: seq<int>)
    requires g.Valid() && |right| == g.rhsSize
    decreases |p|
  {
    && |p| > 0
    && g.HasEdge(l, p[0])
    && if |p| == 1 then right[p[0]] == UNUSED
       else right[p[0]] != UNUSED && AugmentingPath(g, right, right[p[0]], p[1..])
  }

  ghost predicate InRange(p: seq<int>, n: nat) {
    forall i :: 0 <= i < |p| ==> 0 <= p[i] < n
  }

  /** Every node of p is a right node not yet marked. */
  ghost predicate ThroughUnseen(p: seq<int>, seen: seq<bool>) {
    forall i :: 0 <= i < |p| ==> 0 <= p[i] < |seen| && !seen[p[i]]
  }

  ghost function PushLeft(left: seq<int>, right: seq<int>, l: int, p: seq<int>): (s: seq<int>)
    requires |p| > 0 && InRange(p, |right|)
    requires 0 <= l < |left| && forall r :: 0 <= r < |right| ==> right[r] == UNUSED || 0 <= right[r] < |left|
    ensures |s| == |left|
    decreases |p|
  {
    var rest := if |p| == 1 || right[p[0]] == UNUSED then left
                else PushLeft(left, right, right[p[0]], p[1..]);
    rest[l := p[0]]
  }

  ghost function PushRight(left: seq<int>, right: seq<int>, l: int, p: seq<int>): (s: seq<int>)
    requires |p| > 0 && InRange(p, |right|)
    ensures |s| == |right|
    decreases |p|
  {
    var rest := if |p| == 1 || right[p[0]] == UNUSED then right
                else PushRight(left, right, right[p[0]], p[1..]);
    rest[p[0] := l]
  }

  ghost function Unseen(seen: seq<bool>): (s: set<int>) {
    set r | 0 <= r < |seen| && !seen[r]
  }

  lemma MarkingShrinksUnseen(seen: seq<bool>, after: seq<bool>, r: int)
    requires |seen| == |after|
    requires forall k :: 0 <= k < |seen| && seen[k] ==> after[k]
    requires 0 <= r < |seen| && !seen[r] && after[r]
    ensures |Unseen(after)| < |Unseen(seen)|
  {
    assert Unseen(after) <= Unseen(seen) - {r};
    CardinalityOfSubset(Unseen(after), Unseen(seen) - {r});
  }

  lemma CardinalityOfSubset<T>(a: set<T>, b: set<T>)
    requires a <= b
    ensures |a| <= |b|
  {
    assert b == a + (b - a);
  }

  /** The nodes marked since `before` are all used, and lead only to marked nodes. */
  ghost predicate SearchedThrough(g: MatchMatrix, right: seq<int>, before: seq<bool>, seen: seq<bool>)
    requires g.Valid() && |right| == g.rhsSize == |before| == |seen|
  {
    forall r :: 0 <= r < |seen| && seen[r] && !before[r] ==>
      right[r] != UNUSED && MarkedNeighbours(g, right[r], seen)
  }

  ghost predicate MarkedNeighbours(g: MatchMatrix, l: int, seen: seq<bool>)
    requires g.Valid() && g.rhsSize == |seen|
  {
    forall r :: g.HasEdge(l, r) ==> seen[r]
  }

  /** A finished fruitless search rules out every path through unseen nodes. */
  lemma {:induction false} NoPathAfterSearch(
      g: MatchMatrix, right: seq<int>, l: int, before: seq<bool>, seen: seq<bool>, p: seq<int>)
    requires g.Valid() && |right| == g.rhsSize == |before| == |seen|
    requires SearchedThrough(g, right, before, seen) && MarkedNeighbours(g, l, seen)
    requires AugmentingPath(g, right, l, p)
    requires ThroughUnseen(p, before)
    ensures false
    decreases |p|
  {
    assert seen[p[0]];
    if |p| > 1 {
      NoPathAfterSearch(g, right, right[p[0]], before, seen, p[1..]);
    }
  }

  ghost predicate Grows(before: seq<bool>, seen: seq<bool>) {
    |before| == |seen| && forall r :: 0 <= r < |seen| && before[r] ==> seen[r]
  }

  /** The search below a newly marked node r came back empty-handed. */
  lemma SearchPast(g: MatchMatrix, right: seq<int>, before: seq<bool>, mid: seq<bool>, r: int, seen: seq<bool>)
    requires g.Valid() && |right| == g.rhsSize == |before|
    requires |mid| == |before| && 0 <= r < |mid| && right[r] != UNUSED
    requires Grows(before, mid) && Grows(mid[r := true], seen)
    requires SearchedThrough(g, right, before, mid)
    requires SearchedThrough(g, right, mid[r := true], seen) && MarkedNeighbours(g, right[r], seen)
    ensures SearchedThrough(g, right, before, seen)
  {
    forall k | 0 <= k < |seen| && seen[k] && !before[k]
      ensures right[k] != UNUSED && MarkedNeighbours(g, right[k], seen)
    {
      if k != r && mid[k] {
        assert MarkedNeighbours(g, right[k], mid);
      }
    }
  }

  /** The search below a newly marked node r found `rest`. */
  lemma PathThrough(g: MatchMatrix, left: seq<int>, right: seq<int>, l: int, before: seq<bool>, mid: seq<bool>, r: int, rest: seq<int>)
    requires WellFormed(g, left, right) && |right| == |before| && 0 <= l < |left|
    requires g.HasEdge(l, r) && Grows(before, mid) && !mid[r] && right[r] != UNUSED
    requires AugmentingPath(g, right, right[r], rest) && Distinct(rest) && ThroughUnseen(rest, mid[r := true])
    ensures var p := [r] + rest;
            && AugmentingPath(g, right, l, p) && Distinct(p) && ThroughUnseen(p, before)
            && PushLeft(left, right, l, p) == PushLeft(left, right, right[r], rest)[l := r]
            && PushRight(left, right, l, p) == PushRight(left, right, right[r], rest)[r := l]
  {
    var p := [r] + rest;
    assert p[1..] == rest;
  }

  lemma NoneAfterSearch(g: MatchMatrix, right: seq<int>, l: int, before: seq<bool>, seen: seq<bool>)
    requires g.Valid() && |right| == g.rhsSize == |before| == |seen|
    requires SearchedThrough(g, right, before, seen) && MarkedNeighbours(g, l, seen)
    ensures !exists p :: AugmentingPath(g, right, l, p) && ThroughUnseen(p, before)
  {
    forall p | AugmentingPath(g, right, l, p) && ThroughUnseen(p, before) ensures false {
      NoPathAfterSearch(g, right, l, before, seen, p);
    }
  }

  // ------------------------------------------- what pushing flow preserves

  ghost function NodesOf(p: seq<int>): set<int> {
    set r | r in p
  }

  lemma NodesOfDistinct(p: seq<int>)
    requires |p| > 0 && Distinct(p)
    ensures p[0] !in NodesOf(p[1..]) && NodesOf(p) == NodesOf(p[1..]) + {p[0]}
  {
    assert p == [p[0]] + p[1..];
    assert forall i :: 0 <= i < |p[1..]| ==> p[1..][i] == p[i + 1];
  }

  /**
   * (left', right') is the flow after pushing one unit from l through the right
   * nodes `path`: entries are mutually referent, except that the right node l
   * used before (if any) may still name l; l is used; no other left node
   * changes between used and unused; nothing off the path changes.
   */
  ghost predicate PushedFrom(g: MatchMatrix, left: seq<int>, right: seq<int>, l: int, path: set<int>,
                             left': seq<int>, right': seq<int>)
    requires WellFormed(g, left, right) && 0 <= l < |left|
  {
    && WellFormed(g, left', right')
    && left'[l] in path && left'[l] != UNUSED
    && (forall k :: 0 <= k < |left| && left'[k] != UNUSED ==>
          right'[left'[k]] == k && g.HasEdge(k, left'[k]))
    && (forall r :: 0 <= r < |right| && r != left[l] && right'[r] != UNUSED ==> left'[right'[r]] == r)
    && (forall r :: 0 <= r < |right| && r !in path ==> right'[r] == right[r])
    && (forall k :: 0 <= k < |left| && k != l && left[k] !in path ==> left'[k] == left[k])
    && (forall k :: 0 <= k < |left| && k != l ==> (left'[k] == UNUSED <==> left[k] == UNUSED))
  }

  lemma PushFirst(g: MatchMatrix, left: seq<int>, right: seq<int>, l: int, r: int)
    requires IsFlow(g, left, right) && 0 <= l < |left|
    requires g.HasEdge(l, r) && right[r] == UNUSED
    ensures PushedFrom(g, left, right, l, {r}, left[l := r], right[r := l])
  {
  }

  lemma PushNext(g: MatchMatrix, left: seq<int>, right: seq<int>, l: int, r: int, path: set<int>,
                 left1: seq<int>, right1: seq<int>)
    requires IsFlow(g, left, right) && 0 <= l < |left| && left[l] !in path + {r}
    requires g.HasEdge(l, r) && right[r] != UNUSED && r !in path
    requires PushedFrom(g, left, right, right[r], path, left1, right1)
    ensures PushedFrom(g, left, right, l, path + {r}, left1[l := r], right1[r := l])
  {
    var left', right' := left1[l := r], right1[r := l];
    var next := right[r];
    assert left[next] == r && next != l;
    assert right1[r] == next;
    forall k | 0 <= k < |left| && left'[k] != UNUSED
      ensures right'[left'[k]] == k && g.HasEdge(k, left'[k])
    {
      if k != l { assert left1[k] != r; }
    }
    forall q | 0 <= q < |right| && q != left[l] && right'[q] != UNUSED ensures left'[right'[q]] == q {
      if q != r { assert left1[right1[q]] == q; }
    }
  }

  lemma {:induction false} PushKeepsReferences(g: MatchMatrix, left: seq<int>, right: seq<int>, l: int, p: seq<int>)
    requires IsFlow(g, left, right) && 0 <= l < |left|
    requires InRange(p, |right|) && Distinct(p) && AugmentingPath(g, right, l, p)
    requires left[l] !in NodesOf(p)
    ensures PushedFrom(g, left, right, l, NodesOf(p), PushLeft(left, right, l, p), PushRight(left, right, l, p))
    decreases |p|
  {
    var r := p[0];
    NodesOfDistinct(p);
    if |p| == 1 {
      PushFirst(g, left, right, l, r);
      assert NodesOf(p) == {r};
    } else {
      var next := right[r];
      PushKeepsReferences(g, left, right, next, p[1..]);
      PushNext(g, left, right, l, r, NodesOf(p[1..]),
               PushLeft(left, right, next, p[1..]), PushRight(left, right, next, p[1..]));
    }
  }

  /** At the top level, from an unused left node, pushing turns a flow into a flow. */
  lemma PushKeepsFlow(g: MatchMatrix, left: seq<int>, right: seq<int>, l: int, p: seq<int>)
    requires IsFlow(g, left, right) && 0 <= l < |left| && left[l] == UNUSED
    requires InRange(p, |right|) && Distinct(p) && AugmentingPath(g, right, l, p)
    ensures var left', right' := PushLeft(left, right, l, p), PushRight(left, right, l, p);
            && IsFlow(g, left', right')
            && left'[l] != UNUSED
            && (forall k :: 0 <= k < |left| && k != l ==> (left'[k] == UNUSED <==> left[k] == UNUSED))
            && (forall r :: 0 <= r < |right| && r !in NodesOf(p) ==> right'[r] == right[r])
  {
    PushKeepsReferences(g, left, right, l, p);
  }

  /** Nodes outside every fruitless search stay clear of the nodes inside. */
  ghost predicate DeadEnd(g: MatchMatrix, right: seq<int>, dead: set<int>)
    requires g.Valid() && |right| == g.rhsSize
  {
    forall r :: r in dead ==>
      0 <= r < |right| && right[r] != UNUSED && LeadsOnlyInto(g, right[r], dead)
  }

  ghost predicate LeadsOnlyInto(g: MatchMatrix, l: int, dead: set<int>)
    requires g.Valid()
  {
    forall r :: g.HasEdge(l, r) ==> r in dead
  }

  lemma {:induction false} PathAvoidsDeadEnd(g: MatchMatrix, right: seq<int>, l: int, p: seq<int>, dead: set<int>)
    requires g.Valid() && |right| == g.rhsSize
    requires AugmentingPath(g, right, l, p) && DeadEnd(g, right, dead)
    ensures forall i :: 0 <= i < |p| ==> p[i] !in dead
    decreases |p|
  {
    if |p| > 1 {
      PathAvoidsDeadEnd(g, right, right[p[0]], p[1..], dead);
      assert p[1..][0] !in dead;
      assert forall i :: 1 <= i < |p| ==> p[i] == p[1..][i - 1];
    }
  }

  /** The certificate that a left node is unmatchable survives every later augmentation. */
  lemma DeadEndSurvivesPush(g: MatchMatrix, left: seq<int>, right: seq<int>, l: int, p: seq<int>, dead: set<int>)
    requires IsFlow(g, left, right) && 0 <= l < |left| && left[l] == UNUSED
    requires InRange(p, |right|) && Distinct(p) && AugmentingPath(g, right, l, p)
    requires DeadEnd(g, right, dead)
    ensures DeadEnd(g, PushRight(left, right, l, p), dead)
  {
    PathAvoidsDeadEnd(g, right, l, p, dead);
    PushKeepsFlow(g, left, right, l, p);
    assert forall r :: r in dead ==> r !in NodesOf(p);
  }

  ghost function Marked(seen: seq<bool>): set<int> {
    set r | 0 <= r < |seen| && seen[r]
  }

  /** A fruitless search adds its marked nodes to the dead end. */
  lemma FailureExtendsDeadEnd(g: MatchMatrix, right: seq<int>, l: int, before: seq<bool>, seen: seq<bool>, dead: set<int>)
    requires g.Valid() && |right| == g.rhsSize == |before| == |seen|
    requires Marked(before) == {}
    requires SearchedThrough(g, right, before, seen) && MarkedNeighbours(g, l, seen)
    requires DeadEnd(g, right, dead)
    ensures DeadEnd(g, right, dead + Marked(seen))
    ensures LeadsOnlyInto(g, l, dead + Marked(seen))
    ensures forall k :: LeadsOnlyInto(g, k, dead) ==> LeadsOnlyInto(g, k, dead + Marked(seen))
  {
    forall r | r in Marked(seen) ensures right[r] != UNUSED && MarkedNeighbours(g, right[r], seen) {
      assert r !in Marked(before);
    }
  }

  /** After the left nodes below n were searched: those still unused lead only into the dead end. */
  ghost predicate SearchedBelow(g: MatchMatrix, left: seq<int>, right: seq<int>, n: nat, dead: set<int>) {
    && IsFlow(g, left, right)
    && n <= |left|
    && (forall k :: n <= k < |left| ==> left[k] == UNUSED)
    && DeadEnd(g, right, dead)
    && (forall k :: 0 <= k < n && left[k] == UNUSED ==> LeadsOnlyInto(g, k, dead))
  }

  lemma SuccessKeepsSearched(g: MatchMatrix, left: seq<int>, right: seq<int>, l: nat, p: seq<int>, dead: set<int>)
    requires SearchedBelow(g, left, right, l, dead) && l < |left|
    requires InRange(p, |right|) && Distinct(p) && AugmentingPath(g, right, l, p)
    ensures SearchedBelow(g, PushLeft(left, right, l, p), PushRight(left, right, l, p), l + 1, dead)
  {
    PushKeepsFlow(g, left, right, l, p);
    DeadEndSurvivesPush(g, left, right, l, p, dead);
  }

  // ------------------------------------------------------------ optimality

  ghost function FlowPairs(left: seq<int>): Pairing {
    set l | 0 <= l < |left| && left[l] != UNUSED :: (l, left[l])
  }

  lemma InjectionBound<A, B>(m: set<A>, target: set<B>, f: A --> B)
    requires forall a :: a in m ==> f.requires(a) && f(a) in target
    requires forall a, b :: a in m && b in m && f(a) == f(b) ==> a == b
    ensures |m| <= |target|
  {
    if m != {} {
      var a :| a in m;
      InjectionBound(m - {a}, target - {f(a)}, f);
    }
  }

  /** A flow whose unused left nodes all lead only into a dead end is as large as any matching. */
  lemma DeadEndBoundsMatchings(g: MatchMatrix, left: seq<int>, right: seq<int>, dead: set<int>, m: Pairing)
    requires IsFlow(g, left, right) && DeadEnd(g, right, dead)
    requires forall l :: 0 <= l < |left| && left[l] == UNUSED ==> LeadsOnlyInto(g, l, dead)
    requires IsMatching(g, m)
    ensures |m| <= |FlowPairs(left)|
  {
    // Charge a pair inside the dead end to the pair already using its right
    // node, and any other pair to the pair already using its left node.
    var charge := (e: (int, int)) requires e in m =>
      var l := if e.1 in dead then right[e.1] else e.0;
      (l, left[l]);
    InjectionBound(m, FlowPairs(left), charge);
  }

  lemma FlowPairsMatch(g: MatchMatrix, left: seq<int>, right: seq<int>)
    requires IsFlow(g, left, right)
    ensures IsMatching(g, FlowPairs(left))
  {
  }

  // ------------------------------------------------------ the match state

  class MaxBipartiteMatchState {
    const graph: MatchMatrix
    const left: array<int>
    const right: array<int>

    ghost predicate Shaped()
      reads left, right
    {
      && left != right
      && WellFormed(graph, left[..], right[..])
    }

    constructor (graph: MatchMatrix)
      requires graph.Valid()
      ensures this.graph == graph && fresh(left) && fresh(right) && Shaped()
      ensures forall l :: 0 <= l < left.Length ==> left[l] == UNUSED
      ensures forall r :: 0 <= r < right.Length ==> right[r] == UNUSED
    {
      this.graph := graph;
      this.left := new int[graph.lhsSize](_ => UNUSED);
      this.right := new int[graph.rhsSize](_ => UNUSED);
    }

    /**
     * Depth-first search from `l` through the unseen right nodes; on success
     * one unit of flow is pushed along the path found, returned as `path`.
     */
    method TryAugment(l: int, seen: array<bool>) returns (found: bool, ghost path: seq<int>)
      requires Shaped() && 0 <= l < left.Length && seen.Length == right.Length
      modifies left, right, seen
      ensures Shaped()
      ensures Grows(old(seen[..]), seen[..])
      ensures found ==>
                && AugmentingPath(graph, old(right[..]), l, path)
                && Distinct(path) && ThroughUnseen(path, old(seen[..]))
                && left[..] == PushLeft(old(left[..]), old(right[..]), l, path)
                && right[..] == PushRight(old(left[..]), old(right[..]), l, path)
      ensures !found ==>
                && left[..] == old(left[..]) && right[..] == old(right[..])
                && MarkedNeighbours(graph, l, seen[..])
                && SearchedThrough(graph, right[..], old(seen[..]), seen[..])
      ensures found <==> exists p :: AugmentingPath(graph, old(right[..]), l, p)
                                     && ThroughUnseen(p, old(seen[..]))
      decreases |Unseen(seen[..])|
    {
      ghost var before, left0, right0 := seen[..], left[..], right[..];
      path := [];
      for r := 0 to right.Length
        invariant left[..] == left0 && right[..] == right0
        invariant Grows(before, seen[..])
        invariant forall k :: 0 <= k < r && graph.HasEdge(l, k) ==> seen[k]
        invariant SearchedThrough(graph, right0, before, seen[..])
      {
        if seen[r] || !graph.HasEdge(l, r) { continue; }
        ghost var mid := seen[..];
        seen[r] := true;
        assert seen[..] == mid[r := true];
        MarkingShrinksUnseen(before, seen[..], r);
        var next := right[r];
        if next == UNUSED {
          left[l] := r;
          right[r] := l;
          return true, [r];
        }
        var reached, rest := TryAugment(next, seen);
        if reached {
          PathThrough(graph, left0, right0, l, before, mid, r, rest);
          left[l] := r;
          right[r] := l;
          return true, [r] + rest;
        }
        SearchPast(graph, right0, before, mid, r, seen[..]);
      }
      found := false;
      NoneAfterSearch(graph, right0, l, before, seen[..]);
    }

    /** The edges of a maximum matching, in order of their left nodes. */
    method Compute() returns (pairs: seq<(int, int)>)
      requires Shaped()
      requires forall l :: 0 <= l < left.Length ==> left[l] == UNUSED
      requires forall r :: 0 <= r < right.Length ==> right[r] == UNUSED
      modifies left, right
      ensures IsFlow(graph, left[..], right[..])
      ensures Ascending(pairs)
      ensures IsMatching(graph, Elements(pairs)) && |Elements(pairs)| == |pairs|
      ensures forall m :: IsMatching(graph, m) ==> |m| <= |pairs|
    {
      ghost var dead: set<int> := {};
      for l := 0 to left.Length
        invariant SearchedBelow(graph, left[..], right[..], l, dead)
      {
        assert left[l] == left[..][l] == UNUSED;
        var seen := new bool[right.Length](_ => false);
        ghost var left0, right0, unmarked := left[..], right[..], seen[..];
        var found, path := TryAugment(l, seen);
        if found {
          SuccessKeepsSearched(graph, left0, right0, l, path, dead);
        } else {
          FailureExtendsDeadEnd(graph, right0, l, unmarked, seen[..], dead);
          dead := dead + Marked(seen[..]);
        }
      }
      pairs := CollectPairs();
      FlowPairsMatch(graph, left[..], right[..]);
      forall m | IsMatching(graph, m) ensures |m| <= |pairs| {
        DeadEndBoundsMatchings(graph, left[..], right[..], dead, m);
      }
    }

    method CollectPairs() returns (pairs: seq<(int, int)>)
      ensures Ascending(pairs)
      ensures Elements(pairs) == FlowPairs(left[..]) && |Elements(pairs)| == |pairs|
    {
      pairs := [];
      for l := 0 to left.Length
        invariant Ascending(pairs) && forall e :: e in pairs ==> e.0 < l
        invariant Elements(pairs) == FlowPairs(left[..l])
      {
        if left[l] != UNUSED {
          ElementsOfAppend(pairs, (l, left[l]));
          pairs := pairs + [(l, left[l])];
        }
      }
      assert left[..left.Length] == left[..];
      AscendingCountsOnce(pairs);
    }
  }

  ghost predicate Ascending(pairs: seq<(int, int)>) {
    forall i, j :: 0 <= i < j < |pairs| ==> pairs[i].0 < pairs[j].0
  }

  ghost function Elements(pairs: seq<(int, int)>): Pairing {
    set e | e in pairs
  }

  lemma ElementsOfAppend(pairs: seq<(int, int)>, e: (int, int))
    ensures Elements(pairs + [e]) == Elements(pairs) + {e}
  {
  }

  lemma {:induction false} AscendingCountsOnce(pairs: seq<(int, int)>)
    requires Ascending(pairs)
    ensures |Elements(pairs)| == |pairs|
  {
    if pairs != [] {
      var init, last := pairs[..|pairs| - 1], pairs[|pairs| - 1];
      AscendingCountsOnce(init);
      ElementsOfAppend(init, last);
      assert pairs == init + [last];
      assert last !in Elements(init);
    }
  }

  method FindMaxBipartiteMatching(g: MatchMatrix) returns (pairs: seq<(int, int)>)
    requires g.Valid()
    ensures Ascending(pairs)
    ensures IsMatching(g, Elements(pairs)) && |Elements(pairs)| == |pairs|
    ensures forall m :: IsMatching(g, m) ==> |m| <= |pairs|
  {
    var state := new MaxBipartiteMatchState(g);
    pairs := state.Compute();
  }
}
