/** The element/matcher incidence matrix of an unordered container matcher. */
module MatchMatrices {

  /** One flag per (element, matcher) pair, flattened element by element. */
  datatype MatchMatrix = MatchMatrix(lhsSize: nat, rhsSize: nat, matched: seq<bool>) {
    ghost predicate Valid() {
      |matched| == RowStart(lhsSize, rhsSize)
    }

    function SpaceIndex(l: nat, r: nat): (k: nat)
      requires Valid() && l < lhsSize && r < rhsSize
      ensures k < |matched|
    {
      RowStartIncreases(l + 1, lhsSize, rhsSize);
      RowStart(l, rhsSize) + r
    }

    /** Element `l` satisfies matcher `r`; false outside the matrix. */
    predicate HasEdge(l: int, r: int)
      requires Valid()
    {
      0 <= l < lhsSize && 0 <= r < rhsSize && matched[SpaceIndex(l, r)]
    }
  }

  /** The flags lie row by row, and each belongs to one pair only. */
  lemma FlagPlaces(g: MatchMatrix, l: nat, r: nat, l': nat, r': nat)
    requires g.Valid() && l < g.lhsSize && r < g.rhsSize && l' < g.lhsSize && r' < g.rhsSize
    ensures g.SpaceIndex(l, r) == l * g.rhsSize + r
    ensures g.HasEdge(l, r) == g.matched[l * g.rhsSize + r]
    ensures g.SpaceIndex(l, r) == g.SpaceIndex(l', r') <==> l == l' && r == r'
  {
    RowStartIs(l, g.rhsSize);
    if l < l' { RowStartIncreases(l + 1, l', g.rhsSize); }
    if l' < l { RowStartIncreases(l' + 1, l, g.rhsSize); }
  }

  lemma {:induction false} RowStartIs(l: nat, width: nat)
    ensures RowStart(l, width) == l * width
  {
    if l > 0 { RowStartIs(l - 1, width); }
  }

  /** Where row `l` starts when every row holds `width` flags. */
  function RowStart(l: nat, width: nat): nat {
    if l == 0 then 0 else RowStart(l - 1, width) + width
  }

  lemma {:induction false} RowStartIncreases(l: nat, n: nat, width: nat)
    requires l <= n
    ensures RowStart(l, width) <= RowStart(n, width)
  {
    if l < n { RowStartIncreases(l, n - 1, width); }
  }

  /** A set of (element, matcher) pairs. */
  type Pairing = set<(int, int)>

  /** Every pair is an edge, and no element and no matcher is used twice. */
  ghost predicate IsMatching(g: MatchMatrix, m: Pairing)
    requires g.Valid()
  {
    && (forall e :: e in m ==> g.HasEdge(e.0, e.1))
    && (forall e, f :: e in m && f in m && (e.0 == f.0 || e.1 == f.1) ==> e == f)
  }
}
