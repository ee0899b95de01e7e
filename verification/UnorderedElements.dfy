/** The decision procedure behind unordered container matchers. */
module UnorderedElements {
  import opened MatchMatrices
  import opened BipartiteMatching

  datatype MatchFlags = Superset | Subset | ExactMatch {
    predicate NeedsAllMatchers() { !Subset? }
    predicate NeedsAllElements() { !Superset? }
  }

  ghost function Lefts(m: Pairing): set<int> { set e | e in m :: e.0 }

  ghost function Rights(m: Pairing): set<int> { set e | e in m :: e.1 }

  ghost predicate CoversMatchers(g: MatchMatrix, m: Pairing) {
    forall r :: 0 <= r < g.rhsSize ==> r in Rights(m)
  }

  ghost predicate CoversElements(g: MatchMatrix, m: Pairing) {
    forall l :: 0 <= l < g.lhsSize ==> l in Lefts(m)
  }

  /** m is a matching that pairs every matcher and every element, as asked for. */
  ghost predicate Satisfies(g: MatchMatrix, allMatchers: bool, allElements: bool, m: Pairing)
    requires g.Valid()
  {
    && IsMatching(g, m)
    && (allMatchers ==> CoversMatchers(g, m))
    && (allElements ==> CoversElements(g, m))
  }

  ghost predicate Satisfiable(g: MatchMatrix, allMatchers: bool, allElements: bool)
    requires g.Valid()
  {
    exists m :: Satisfies(g, allMatchers, allElements, m)
  }

  // ----------------------------------------------------- counting coverage

  ghost function Range(n: nat): (s: set<int>)
    ensures |s| == n
    ensures forall k :: k in s <==> 0 <= k < n
  {
    if n == 0 then {} else Range(n - 1) + {n - 1}
  }

  lemma {:induction false} LeftsCount(m: Pairing)
    requires forall e, f :: e in m && f in m && e.0 == f.0 ==> e == f
    ensures |Lefts(m)| == |m|
  {
    if m != {} {
      var e :| e in m;
      LeftsCount(m - {e});
      assert Lefts(m) == Lefts(m - {e}) + {e.0};
    }
  }

  lemma {:induction false} RightsCount(m: Pairing)
    requires forall e, f :: e in m && f in m && e.1 == f.1 ==> e == f
    ensures |Rights(m)| == |m|
  {
    if m != {} {
      var e :| e in m;
      RightsCount(m - {e});
      assert Rights(m) == Rights(m - {e}) + {e.1};
    }
  }

  lemma FullSubset(a: set<int>, n: nat)
    requires a <= Range(n)
    ensures |a| <= n
    ensures |a| == n ==> a == Range(n)
  {
    assert Range(n) == a + (Range(n) - a);
  }

  /** Covering a side is the same as having as many pairs as that side has nodes. */
  lemma CoverageIsSize(g: MatchMatrix, m: Pairing)
    requires g.Valid() && IsMatching(g, m)
    ensures |m| <= g.lhsSize && |m| <= g.rhsSize
    ensures CoversMatchers(g, m) <==> |m| == g.rhsSize
    ensures CoversElements(g, m) <==> |m| == g.lhsSize
  {
    LeftsCount(m);
    RightsCount(m);
    FullSubset(Rights(m), g.rhsSize);
    FullSubset(Lefts(m), g.lhsSize);
    if CoversMatchers(g, m) { assert Rights(m) == Range(g.rhsSize); }
    if CoversElements(g, m) { assert Lefts(m) == Range(g.lhsSize); }
  }

  // ------------------------------------------------------------ the search

  /** Decides satisfiability; on success `pairs` is itself a satisfying pairing. */
  method FindPairing(flags: MatchFlags, g: MatchMatrix) returns (ok: bool, pairs: seq<(int, int)>)
    requires g.Valid()
    ensures ok <==> Satisfiable(g, flags == Superset || flags == ExactMatch, flags == Subset || flags == ExactMatch)
    ensures ok ==> IsMatching(g, Elements(pairs))
    ensures ok && flags != Subset ==> CoversMatchers(g, Elements(pairs))
    ensures ok && flags != Superset ==> CoversElements(g, Elements(pairs))
    ensures forall m :: IsMatching(g, m) ==> |m| <= |pairs|
  {
    pairs := FindMaxBipartiteMatching(g);
    CoverageIsSize(g, Elements(pairs));
    ok := true;
    if flags.NeedsAllMatchers() && |pairs| < g.rhsSize {
      ok := false;
    } else if flags.NeedsAllElements() && |pairs| < g.lhsSize {
      ok := false;
    }
    if ok {
      assert Satisfies(g, flags != Subset, flags != Superset, Elements(pairs));
    } else {
      forall m | IsMatching(g, m) ensures !Satisfies(g, flags != Subset, flags != Superset, m) {
        CoverageIsSize(g, m);
        assert |m| <= |pairs|;
      }
    }
  }

  // ------------------------------------------------------- the quick check

  ghost predicate MatcherHasElement(g: MatchMatrix, r: int)
    requires g.Valid()
  {
    exists l :: g.HasEdge(l, r)
  }

  ghost predicate ElementHasMatcher(g: MatchMatrix, l: int)
    requires g.Valid()
  {
    exists r :: g.HasEdge(l, r)
  }

  /** What the quick check tests: no row and no column that is asked for is empty. */
  ghost predicate Plausible(g: MatchMatrix, allMatchers: bool, allElements: bool)
    requires g.Valid()
  {
    && (allMatchers ==> forall r :: 0 <= r < g.rhsSize ==> MatcherHasElement(g, r))
    && (allElements ==> forall l :: 0 <= l < g.lhsSize ==> ElementHasMatcher(g, l))
  }

  method VerifyMatchMatrix(flags: MatchFlags, g: MatchMatrix) returns (result: bool)
    requires g.Valid()
    ensures result <==>
              && (flags == ExactMatch ==> g.lhsSize == g.rhsSize)
              && Plausible(g, flags == Superset || flags == ExactMatch, flags == Subset || flags == ExactMatch)
  {
    if g.lhsSize == 0 && g.rhsSize == 0 { return true; }
    if flags.ExactMatch? && g.lhsSize != g.rhsSize { return false; }
    result := true;
    var elementMatched := new bool[g.lhsSize](_ => false);
    var matcherMatched := new bool[g.rhsSize](_ => false);
    for l := 0 to g.lhsSize
      invariant forall k :: 0 <= k < g.lhsSize ==>
                  (elementMatched[k] <==> k < l && ElementHasMatcher(g, k))
      invariant forall r :: 0 <= r < g.rhsSize ==>
                  (matcherMatched[r] <==> exists k :: k < l && g.HasEdge(k, r))
    {
      for r := 0 to g.rhsSize
        invariant forall k :: 0 <= k < g.lhsSize && k != l ==>
                    (elementMatched[k] <==> k < l && ElementHasMatcher(g, k))
        invariant elementMatched[l] <==> exists q :: q < r && g.HasEdge(l, q)
        invariant forall q :: 0 <= q < g.rhsSize ==>
                    (matcherMatched[q] <==>
                       (exists k :: k < l && g.HasEdge(k, q)) || (q < r && g.HasEdge(l, q)))
      {
        var matched := g.HasEdge(l, r);
        elementMatched[l] := elementMatched[l] || matched;
        matcherMatched[r] := matcherMatched[r] || matched;
      }
    }
    assert forall r :: 0 <= r < g.rhsSize ==> (matcherMatched[r] <==> MatcherHasElement(g, r));
    if flags.NeedsAllMatchers() {
      for mi := 0 to g.rhsSize
        invariant result <==> forall r :: 0 <= r < mi ==> MatcherHasElement(g, r)
      {
        if !matcherMatched[mi] { result := false; }
      }
    }
    if flags.NeedsAllElements() {
      ghost var soFar := result;
      for ei := 0 to g.lhsSize
        invariant result <==> soFar && forall l :: 0 <= l < ei ==> ElementHasMatcher(g, l)
      {
        if !elementMatched[ei] { result := false; }
      }
    }
  }

  /** The quick check never rejects a matrix that has a satisfying pairing. */
  lemma SatisfiableIsPlausible(g: MatchMatrix, allMatchers: bool, allElements: bool)
    requires g.Valid() && Satisfiable(g, allMatchers, allElements)
    ensures Plausible(g, allMatchers, allElements)
    ensures allMatchers && allElements ==> g.lhsSize == g.rhsSize
  {
    var m :| Satisfies(g, allMatchers, allElements, m);
    CoverageIsSize(g, m);
    if allMatchers {
      forall r | 0 <= r < g.rhsSize ensures MatcherHasElement(g, r) {
        assert r in Rights(m);
        var e: (int, int) :| e in m && e.1 == r;
        assert g.HasEdge(e.0, r);
      }
    }
    if allElements {
      forall l | 0 <= l < g.lhsSize ensures ElementHasMatcher(g, l) {
        assert l in Lefts(m);
        var e: (int, int) :| e in m && e.0 == l;
        assert g.HasEdge(l, e.1);
      }
    }
  }

  /** The matcher's verdict: quick check first, then the search. */
  method MatchAndExplain(flags: MatchFlags, g: MatchMatrix) returns (ok: bool)
    requires g.Valid()
    ensures ok <==> Satisfiable(g, flags == Superset || flags == ExactMatch, flags == Subset || flags == ExactMatch)
  {
    ok := VerifyMatchMatrix(flags, g);
    if ok {
      var pairs;
      ok, pairs := FindPairing(flags, g);
    } else if Satisfiable(g, flags != Subset, flags != Superset) {
      SatisfiableIsPlausible(g, flags != Subset, flags != Superset);
    }
  }
}
