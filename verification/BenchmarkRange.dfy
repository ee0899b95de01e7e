/**
 * Argument ranges: the powers of a multiplier between two bounds, in a signed
 * type from -kmax - 1 to kmax. Every intermediate value goes through Fit.
 */
module BenchmarkRanges {
  import opened Basics

  /** A value computed in the argument type; its precondition is that nothing overflows. */
  function Fit(x: int, kmax: int): int
    requires -kmax - 1 <= x <= kmax
  {
    x
  }

  function Pow(mult: nat, k: nat): nat {
    if k == 0 then 1 else mult * Pow(mult, k - 1)
  }

  ghost function Powers(mult: nat): iset<int> {
    iset k: nat :: Pow(mult, k)
  }

  ghost predicate Increasing(s: seq<int>) {
    forall i, j :: 0 <= i < j < |s| ==> s[i] < s[j]
  }

  /** s lists the powers of mult from lo to hi, each once and in order. */
  ghost predicate ArePowers(s: seq<int>, lo: int, hi: int, powers: iset<int>) {
    && Increasing(s)
    && (forall i :: 0 <= i < |s| ==> lo <= s[i] <= hi && s[i] in powers)
    && (forall x :: lo <= x <= hi && x in powers ==> x in s)
  }

  /** s lists lo, hi, zero and all signed powers of mult that lie between them, each once and in order. */
  ghost predicate IsRange(s: seq<int>, lo: int, hi: int, powers: iset<int>) {
    && Increasing(s)
    && (forall i :: 0 <= i < |s| ==> InRange(s[i], lo, hi, powers))
    && (forall x :: InRange(x, lo, hi, powers) ==> x in s)
  }

  ghost predicate InRange(x: int, lo: int, hi: int, powers: iset<int>) {
    lo <= x <= hi && (x == lo || x == hi || x == 0 || x in powers || -x in powers)
  }

  lemma {:induction false} PowGrows(mult: nat, j: nat, k: nat)
    requires mult >= 2 && j < k
    ensures 1 <= Pow(mult, j) < Pow(mult, k)
  {
    PowPositive(mult, k - 1);
    Double(mult, Pow(mult, k - 1));
    if j < k - 1 { PowGrows(mult, j, k - 1); }
  }

  lemma {:induction false} PowPositive(mult: nat, k: nat)
    requires mult >= 2
    ensures Pow(mult, k) >= 1
  {
    if k > 0 {
      PowPositive(mult, k - 1);
      Double(mult, Pow(mult, k - 1));
    }
  }

  lemma Double(mult: nat, p: nat)
    requires mult >= 2
    ensures mult * p >= 2 * p
  {
    assert mult * p == 2 * p + (mult - 2) * p && (mult - 2) * p >= 0;
  }

  /** The overflow guard is exact. */
  lemma GuardIsExact(i: nat, kmax: int, mult: nat)
    requires mult >= 2 && kmax >= 1
    ensures i > kmax / mult <==> i * mult > kmax
  {
    var q, r := kmax / mult, kmax % mult;
    assert kmax == q * mult + r;
    assert (q + 1) * mult == q * mult + mult;
    if i > q { MulOrder(q + 1, i, mult); } else { MulOrder(i, q, mult); }
  }

  class ArgList {
    var items: seq<int>

    constructor ()
      ensures items == []
    {
      items := [];
    }
  }

  method AddPowers(dst: ArgList, lo: int, hi: int, mult: nat, kmax: int) returns (start: nat, ghost added: seq<int>)
    requires 0 <= lo <= hi <= kmax && mult >= 2 && kmax >= 1
    modifies dst
    ensures start == |old(dst.items)| && dst.items == old(dst.items) + added
    ensures ArePowers(added, lo, hi, Powers(mult))
  {
    start := |dst.items|;
    added := [];
    ghost var before := dst.items;
    var i := Fit(1, kmax);
    FirstPower(lo, hi, mult);
    while i <= hi
      invariant 1 <= i <= kmax && dst.items == before + added && UpTo(added, lo, hi, mult, i)
      decreases kmax - i
    {
      PowerStep(added, lo, hi, mult, i, kmax);
      if i >= lo {
        dst.items := dst.items + [i];
        added := added + [i];
      }
      if i > kmax / mult { return; }
      i := Fit(i * mult, kmax);
    }
    PowersDone(added, lo, hi, mult, i);
  }

  /** i is a power, and s has the ones below it that are in the range. */
  ghost predicate UpTo(s: seq<int>, lo: int, hi: int, mult: nat, i: int) {
    exists k: nat :: Pow(mult, k) == i && Collected(s, lo, hi, PowersOf(mult), k)
  }

  lemma FirstPower(lo: int, hi: int, mult: nat)
    ensures UpTo([], lo, hi, mult, 1)
  {
    assert Pow(mult, 0) == 1 && Collected([], lo, hi, PowersOf(mult), 0);
  }

  /** After i comes i * mult, unless that would leave the type, and then the powers are complete. */
  lemma PowerStep(s: seq<int>, lo: int, hi: int, mult: nat, i: int, kmax: int)
    requires UpTo(s, lo, hi, mult, i) && 1 <= i <= hi <= kmax && mult >= 2
    ensures var next := if i >= lo then s + [i] else s;
            if i > kmax / mult then ArePowers(next, lo, hi, Powers(mult))
            else i < i * mult <= kmax && UpTo(next, lo, hi, mult, i * mult)
  {
    var k: nat :| Pow(mult, k) == i && Collected(s, lo, hi, PowersOf(mult), k);
    if i > kmax / mult { LastPower(s, lo, hi, mult, k, kmax); } else { OneMorePower(s, lo, hi, mult, k, kmax); }
  }

  lemma LastPower(s: seq<int>, lo: int, hi: int, mult: nat, k: nat, kmax: int)
    requires Collected(s, lo, hi, PowersOf(mult), k) && 1 <= Pow(mult, k) <= hi <= kmax && mult >= 2
    requires Pow(mult, k) > kmax / mult
    ensures ArePowers(if Pow(mult, k) >= lo then s + [Pow(mult, k)] else s, lo, hi, Powers(mult))
  {
    NextPower(mult, k, kmax);
    Collect(s, lo, hi, PowersOf(mult), k);
    CollectedAll(if Pow(mult, k) >= lo then s + [Pow(mult, k)] else s, lo, hi, mult, k + 1);
  }

  lemma OneMorePower(s: seq<int>, lo: int, hi: int, mult: nat, k: nat, kmax: int)
    requires Collected(s, lo, hi, PowersOf(mult), k) && 1 <= Pow(mult, k) <= hi <= kmax && mult >= 2
    requires Pow(mult, k) <= kmax / mult
    ensures var i := Pow(mult, k);
            i < i * mult <= kmax && UpTo(if i >= lo then s + [i] else s, lo, hi, mult, i * mult)
  {
    NextPower(mult, k, kmax);
    Collect(s, lo, hi, PowersOf(mult), k);
    assert PowersOf(mult)(k + 1) == Pow(mult, k + 1);
  }

  lemma PowersDone(s: seq<int>, lo: int, hi: int, mult: nat, i: int)
    requires UpTo(s, lo, hi, mult, i) && i > hi && mult >= 2
    ensures ArePowers(s, lo, hi, Powers(mult))
  {
    var k: nat :| Pow(mult, k) == i && Collected(s, lo, hi, PowersOf(mult), k);
    CollectedAll(s, lo, hi, mult, k);
  }

  ghost function PowersOf(mult: nat): nat -> int {
    (k: nat) => Pow(mult, k)
  }

  /** The next power fits exactly when the guard lets it through. */
  lemma NextPower(mult: nat, k: nat, kmax: int)
    requires mult >= 2 && kmax >= 1
    ensures var f := PowersOf(mult);
            && 1 <= f(k) < f(k + 1)
            && (if f(k) > kmax / mult then f(k + 1) > kmax else f(k + 1) == f(k) * mult <= kmax)
  {
    PowGrows(mult, k, k + 1);
    GuardIsExact(Pow(mult, k), kmax, mult);
  }

  /** The first k values of f that are in the range. */
  ghost predicate Collected(s: seq<int>, lo: int, hi: int, f: nat -> int, k: nat) {
    && Increasing(s)
    && (forall i :: 0 <= i < |s| ==> lo <= s[i] <= hi && s[i] < f(k) && exists j: nat :: f(j) == s[i])
    && (forall j: nat :: j < k && lo <= f(j) <= hi ==> f(j) in s)
  }

  lemma Collect(s: seq<int>, lo: int, hi: int, f: nat -> int, k: nat)
    requires Collected(s, lo, hi, f, k) && f(k) <= hi && f(k) < f(k + 1)
    ensures Collected(if f(k) >= lo then s + [f(k)] else s, lo, hi, f, k + 1)
  {
    var p := f(k);
    var t := if p >= lo then s + [p] else s;
    forall j: nat | j < k + 1 && lo <= f(j) <= hi ensures f(j) in t {
      if j == k { assert t[|s|] == p; }
    }
  }

  lemma CollectedAll(s: seq<int>, lo: int, hi: int, mult: nat, k: nat)
    requires Collected(s, lo, hi, PowersOf(mult), k) && PowersOf(mult)(k) > hi && mult >= 2
    ensures ArePowers(s, lo, hi, Powers(mult))
  {
    var f := PowersOf(mult);
    forall i | 0 <= i < |s| ensures s[i] in Powers(mult) {
      var j: nat :| f(j) == s[i];
      assert Pow(mult, j) in Powers(mult);
    }
    forall x | lo <= x <= hi && x in Powers(mult) ensures x in s {
      var j: nat :| Pow(mult, j) == x;
      assert f(j) == x;
      if j > k { PowGrows(mult, k, j); }
    }
  }

  function Negated(s: seq<int>, kmax: int): (r: seq<int>)
    requires forall i :: 0 <= i < |s| ==> -kmax <= s[i] <= kmax
    ensures |r| == |s| && forall i :: 0 <= i < |r| ==> r[i] == -s[i]
  {
    seq(|s|, i requires 0 <= i < |s| => Fit(s[i] * -1, kmax))
  }

  /** Negation and reversal keep the order and the elements. */
  ghost predicate AreNegatedPowers(s: seq<int>, lo: int, hi: int, powers: iset<int>) {
    && Increasing(s)
    && (forall i :: 0 <= i < |s| ==> lo <= s[i] <= hi && -s[i] in powers)
    && (forall x :: lo <= x <= hi && -x in powers ==> x in s)
  }

  ghost predicate Mirrored(s: seq<int>, r: seq<int>) {
    |r| == |s| && forall i :: 0 <= i < |s| ==> r[i] == -s[|s| - 1 - i]
  }

  lemma NegatedAndReversed(s: seq<int>, lo: int, hi: int, powers: iset<int>, kmax: int)
    requires ArePowers(s, -hi, -lo, powers) && -kmax <= lo && hi <= 0
    ensures AreNegatedPowers(Reverse(Negated(s, kmax)), lo, hi, powers)
  {
    MirroredPowers(s, Reverse(Negated(s, kmax)), lo, hi, powers);
  }

  lemma MirroredPowers(s: seq<int>, r: seq<int>, lo: int, hi: int, powers: iset<int>)
    requires ArePowers(s, -hi, -lo, powers) && Mirrored(s, r)
    ensures AreNegatedPowers(r, lo, hi, powers)
  {
    MirroredIncreasing(s, r);
    forall i | 0 <= i < |r| ensures lo <= r[i] <= hi && -r[i] in powers {
      assert r[i] == -s[|s| - 1 - i];
    }
    forall x | lo <= x <= hi && -x in powers ensures x in r {
      MirroredElement(s, r, x);
    }
  }

  lemma MirroredIncreasing(s: seq<int>, r: seq<int>)
    requires Increasing(s) && Mirrored(s, r)
    ensures Increasing(r)
  {
    forall i, j | 0 <= i < j < |r| ensures r[i] < r[j] {
      assert s[|s| - 1 - j] < s[|s| - 1 - i];
    }
  }

  lemma MirroredElement(s: seq<int>, r: seq<int>, x: int)
    requires -x in s && Mirrored(s, r)
    ensures x in r
  {
    var i :| 0 <= i < |s| && s[i] == -x;
    assert r[|s| - 1 - i] == x;
  }

  method AddNegatedPowers(dst: ArgList, lo: int, hi: int, mult: nat, kmax: int) returns (ghost added: seq<int>)
    requires -kmax - 1 < lo <= hi <= 0 && mult >= 2 && kmax >= 1
    modifies dst
    ensures dst.items == old(dst.items) + added
    ensures AreNegatedPowers(added, lo, hi, Powers(mult))
  {
    ghost var before := dst.items;
    var start, positive := AddPowers(dst, Fit(-hi, kmax), Fit(-lo, kmax), mult, kmax);
    Split(before, positive);
    NegatedAndReversed(positive, lo, hi, Powers(mult), kmax);
    added := Reverse(Negated(positive, kmax));
    dst.items := dst.items[..start] + Reverse(Negated(dst.items[start..], kmax));
  }

  lemma Split(before: seq<int>, added: seq<int>)
    ensures (before + added)[..|before|] == before && (before + added)[|before|..] == added
  {
  }

  method AddRange(dst: ArgList, lo: int, hi: int, mult: nat, kmax: int) returns (ghost added: seq<int>)
    requires -kmax - 1 <= lo <= hi <= kmax && mult >= 2 && kmax >= 1
    modifies dst
    ensures dst.items == old(dst.items) + added
    ensures forall i, j :: 0 <= i < j < |added| ==> added[i] < added[j]
    ensures lo in added && hi in added && (lo <= 0 <= hi ==> 0 in added)
    ensures forall k: nat :: lo <= Pow(mult, k) <= hi ==> Pow(mult, k) in added
    ensures forall k: nat :: lo <= 0 - Pow(mult, k) <= hi ==> 0 - Pow(mult, k) in added
    ensures forall i :: 0 <= i < |added| ==>
              && lo <= added[i] <= hi
              && (added[i] == lo || added[i] == hi || added[i] == 0 || added[i] in Powers(mult) || -added[i] in Powers(mult))
  {
    added := AddBounded(dst, lo, hi, mult, kmax);
    RangeMeans(added, lo, hi, mult);
  }

  lemma RangeMeans(s: seq<int>, lo: int, hi: int, mult: nat)
    requires IsRange(s, lo, hi, Powers(mult)) && lo <= hi
    ensures forall i, j :: 0 <= i < j < |s| ==> s[i] < s[j]
    ensures lo in s && hi in s && (lo <= 0 <= hi ==> 0 in s)
    ensures forall k: nat :: lo <= Pow(mult, k) <= hi ==> Pow(mult, k) in s
    ensures forall k: nat :: lo <= 0 - Pow(mult, k) <= hi ==> 0 - Pow(mult, k) in s
    ensures forall i :: 0 <= i < |s| ==>
              && lo <= s[i] <= hi
              && (s[i] == lo || s[i] == hi || s[i] == 0 || s[i] in Powers(mult) || -s[i] in Powers(mult))
  {
    forall k: nat ensures Pow(mult, k) in Powers(mult) {
    }
    forall x | InRange(x, lo, hi, Powers(mult)) ensures x in s {
    }
    forall k: nat | lo <= 0 - Pow(mult, k) <= hi ensures 0 - Pow(mult, k) in s {
      assert InRange(0 - Pow(mult, k), lo, hi, Powers(mult));
    }
    forall i | 0 <= i < |s| ensures InRange(s[i], lo, hi, Powers(mult)) {
    }
  }

  method AddBounded(dst: ArgList, lo: int, hi: int, mult: nat, kmax: int) returns (ghost added: seq<int>)
    requires -kmax - 1 <= lo <= hi <= kmax && mult >= 2 && kmax >= 1
    modifies dst
    ensures dst.items == old(dst.items) + added
    ensures IsRange(added, lo, hi, Powers(mult))
  {
    ghost var before := dst.items;
    dst.items := dst.items + [lo];
    added := [lo];
    if lo == hi {
      OnlyBounds([lo], lo, hi, Powers(mult));
      return;
    }
    if Fit(lo + 1, kmax) == hi {
      dst.items := dst.items + [hi];
      added := [lo, hi];
      OnlyBounds([lo, hi], lo, hi, Powers(mult));
      Associative(before, [lo], [hi]);
      return;
    }
    ghost var inner := AddInner(dst, lo, hi, mult, kmax);
    Associative(before, [lo], inner);
    Associative(before, [lo] + inner, [hi]);
    added := WithUpper([lo] + inner, hi);
    if hi != dst.items[|dst.items| - 1] {
      dst.items := dst.items + [hi];
    }
  }

  function WithUpper(s: seq<int>, hi: int): seq<int>
    requires s != []
  {
    if hi != s[|s| - 1] then s + [hi] else s
  }

  /** The negative powers, zero and the positive powers between the bounds. */
  method AddInner(dst: ArgList, lo: int, hi: int, mult: nat, kmax: int) returns (ghost inner: seq<int>)
    requires -kmax - 1 <= lo && lo + 1 < hi <= kmax && mult >= 2 && kmax >= 1
    modifies dst
    ensures dst.items == old(dst.items) + inner
    ensures IsRange(WithUpper([lo] + inner, hi), lo, hi, Powers(mult))
  {
    ghost var before := dst.items;
    ghost var negative: seq<int>, zero: seq<int>, positive: seq<int> := [], [], [];
    var loInner, hiInner := Fit(lo + 1, kmax), Fit(hi - 1, kmax);
    if loInner < 0 {
      negative := AddNegatedPowers(dst, loInner, if hiInner < -1 then hiInner else -1, mult, kmax);
    }
    assert dst.items == before + negative;
    if lo < 0 && hi >= 0 {
      dst.items := dst.items + [0];
      zero := [0];
    }
    assert dst.items == before + negative + zero;
    if hiInner > 0 {
      var _, powers := AddPowers(dst, if loInner > 1 then loInner else 1, hiInner, mult, kmax);
      positive := powers;
    }
    assert dst.items == before + negative + zero + positive;
    inner := negative + zero + positive;
    AllPowersPositive(mult);
    Associative(before, negative, zero);
    Associative(before, negative + zero, positive);
    Associative([lo], negative, zero);
    Associative([lo], negative + zero, positive);
    PartsMakeRange(lo, hi, Powers(mult), negative, zero, positive);
  }

  lemma AllPowersPositive(mult: nat)
    requires mult >= 2
    ensures forall p :: p in Powers(mult) ==> p >= 1
  {
    forall p | p in Powers(mult) ensures p >= 1 {
      var k: nat :| Pow(mult, k) == p;
      PowPositive(mult, k);
    }
  }

  lemma OnlyBounds(s: seq<int>, lo: int, hi: int, powers: iset<int>)
    requires (lo == hi && s == [lo]) || (lo + 1 == hi && s == [lo, hi])
    ensures IsRange(s, lo, hi, powers)
  {
    assert lo in s && hi in s;
  }

  ghost predicate Within(s: seq<int>, lo: int, hi: int) {
    forall i :: 0 <= i < |s| ==> lo <= s[i] <= hi
  }

  lemma JoinIncreasing(a: seq<int>, b: seq<int>, lo: int, mid: int, hi: int)
    requires Increasing(a) && Within(a, lo, mid) && Increasing(b) && Within(b, mid + 1, hi) && lo <= mid + 1 && mid <= hi
    ensures Increasing(a + b) && Within(a + b, lo, hi)
  {
  }

  /** What stands between the bounds. */
  ghost predicate Parts(lo: int, hi: int, powers: iset<int>, negative: seq<int>, zero: seq<int>, positive: seq<int>) {
    && lo + 1 < hi
    && (if lo + 1 < 0 then AreNegatedPowers(negative, lo + 1, if hi - 1 < -1 then hi - 1 else -1, powers) else negative == [])
    && zero == (if lo < 0 <= hi then [0] else [])
    && (if hi - 1 > 0 then ArePowers(positive, if lo + 1 > 1 then lo + 1 else 1, hi - 1, powers) else positive == [])
  }

  lemma PartsIncrease(lo: int, hi: int, powers: iset<int>, negative: seq<int>, zero: seq<int>, positive: seq<int>)
    requires Parts(lo, hi, powers, negative, zero, positive)
    ensures Increasing([lo] + negative + zero + positive)
    ensures Within([lo] + negative + zero + positive, lo, if hi == 0 then 0 else hi - 1)
  {
    if lo + 1 < 0 {
      var m := if hi - 1 < -1 then hi - 1 else -1;
      JoinIncreasing([lo], negative, lo, lo, m);
      if hi >= 0 {
        JoinIncreasing([lo] + negative, zero, lo, -1, 0);
        JoinIncreasing([lo] + negative + zero, positive, lo, 0, if hi == 0 then 0 else hi - 1);
      }
    } else if lo < 0 {
      JoinIncreasing([lo], zero, lo, -1, 0);
      JoinIncreasing([lo] + zero, positive, lo, 0, if hi == 0 then 0 else hi - 1);
      assert [lo] + negative == [lo];
    } else {
      JoinIncreasing([lo], positive, lo, lo, hi - 1);
      assert [lo] + negative + zero == [lo];
    }
  }

  lemma PartsHold(x: int, lo: int, hi: int, powers: iset<int>, negative: seq<int>, zero: seq<int>, positive: seq<int>)
    requires Parts(lo, hi, powers, negative, zero, positive) && InRange(x, lo, hi, powers) && x != hi
    requires forall p :: p in powers ==> p >= 1
    ensures x == lo || x in negative || x in zero || x in positive
  {
  }

  lemma PartsHoldOnly(x: int, lo: int, hi: int, powers: iset<int>, negative: seq<int>, zero: seq<int>, positive: seq<int>)
    requires Parts(lo, hi, powers, negative, zero, positive)
    requires x == lo || x in negative || x in zero || x in positive || x == hi
    ensures InRange(x, lo, hi, powers)
  {
  }

  /** The parts between the bounds, and hi unless it is there already. */
  lemma PartsMakeRange(lo: int, hi: int, powers: iset<int>, negative: seq<int>, zero: seq<int>, positive: seq<int>)
    requires Parts(lo, hi, powers, negative, zero, positive)
    requires forall p :: p in powers ==> p >= 1
    ensures IsRange(WithUpper([lo] + negative + zero + positive, hi), lo, hi, powers)
  {
    var inner := [lo] + negative + zero + positive;
    var s := WithUpper(inner, hi);
    PartsIncrease(lo, hi, powers, negative, zero, positive);
    if hi == 0 {
      assert inner == [lo] + negative + zero;
    } else {
      JoinIncreasing(inner, [hi], lo, hi - 1, hi);
    }
    forall x | InRange(x, lo, hi, powers) ensures x in s {
      if x == hi { assert s[|s| - 1] == hi; } else { PartsHold(x, lo, hi, powers, negative, zero, positive); }
    }
    forall i | 0 <= i < |s| ensures InRange(s[i], lo, hi, powers) {
      assert s[i] in s;
      PartsHoldOnly(s[i], lo, hi, powers, negative, zero, positive);
    }
  }
}
