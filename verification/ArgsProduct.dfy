/** The Cartesian product of argument lists, enumerated by an odometer. */
module ArgsProducts {
  import opened Basics
  import opened Remainders

  /** One digit per list; the first digit counts fastest. */
  type Positions = seq<nat>

  function Sizes(lists: seq<seq<int>>): (r: seq<nat>)
    ensures |r| == |lists| && forall k :: 0 <= k < |r| ==> r[k] == |lists[k]|
  {
    seq(|lists|, k requires 0 <= k < |lists| => |lists[k]|)
  }

  function Product(sizes: seq<nat>): nat {
    if sizes == [] then 1 else sizes[0] * Product(sizes[1..])
  }

  ghost predicate Positive(sizes: seq<nat>) {
    forall k :: 0 <= k < |sizes| ==> sizes[k] > 0
  }

  ghost predicate InRange(sizes: seq<nat>, pos: Positions) {
    |pos| == |sizes| && forall k :: 0 <= k < |pos| ==> pos[k] < sizes[k]
  }

  /** The mixed-radix digits of i, least significant first. */
  function Digits(sizes: seq<nat>, i: nat): (r: Positions)
    ensures |r| == |sizes|
  {
    if sizes == [] then []
    else if sizes[0] == 0 then [0] + Digits(sizes[1..], i)
    else [i % sizes[0]] + Digits(sizes[1..], i / sizes[0])
  }

  /** The k-th digit counts whole rounds of the digits before it. */
  lemma {:induction false} DigitAt(sizes: seq<nat>, i: nat, k: nat)
    requires Positive(sizes) && k < |sizes|
    ensures Product(sizes[..k]) > 0 && Digits(sizes, i)[k] == i / Product(sizes[..k]) % sizes[k]
  {
    if k > 0 {
      DigitAt(sizes[1..], i / sizes[0], k - 1);
      assert sizes[..k][1..] == sizes[1..][..k - 1];
      DivideTwice(i, sizes[0], Product(sizes[1..][..k - 1]));
    }
  }

  /** The number with the given digits. */
  function Number(sizes: seq<nat>, pos: Positions): nat
    requires |pos| == |sizes|
  {
    if sizes == [] then 0 else pos[0] + sizes[0] * Number(sizes[1..], pos[1..])
  }

  function Tuple(lists: seq<seq<int>>, pos: Positions): (r: seq<int>)
    requires InRange(Sizes(lists), pos)
    ensures |r| == |lists| && forall k :: 0 <= k < |r| ==> r[k] == lists[k][pos[k]]
  {
    seq(|lists|, k requires 0 <= k < |lists| => lists[k][pos[k]])
  }

  lemma {:induction false} DigitsInRange(sizes: seq<nat>, i: nat)
    requires Positive(sizes)
    ensures InRange(sizes, Digits(sizes, i))
  {
    if sizes != [] { DigitsInRange(sizes[1..], i / sizes[0]); }
  }

  lemma DigitAndRest(d: nat, s: nat, m: nat)
    requires d < s
    ensures (d + s * m) % s == d && (d + s * m) / s == m
  {
    var k := d + s * m;
    assert m * s == s * m;
    RemainderUnique(k, s, m, d);
    var q := k / s;
    assert k == s * q + k % s;
    assert s * q == s * m;
    QuotientOrder(q, 0, m, 0, s) by { assert q * s == s * q; }
    QuotientOrder(m, 0, q, 0, s) by { assert q * s == s * q; }
  }

  /** A tuple of positions is the digits of its number, ... */
  lemma {:induction false} DigitsOfNumber(sizes: seq<nat>, pos: Positions)
    requires InRange(sizes, pos)
    ensures Digits(sizes, Number(sizes, pos)) == pos && Number(sizes, pos) < Product(sizes)
  {
    if sizes != [] {
      var m := Number(sizes[1..], pos[1..]);
      DigitsOfNumber(sizes[1..], pos[1..]);
      DigitAndRest(pos[0], sizes[0], m);
      BelowProduct(pos[0], sizes[0], m, Product(sizes[1..]));
      assert pos == [pos[0]] + pos[1..];
    }
  }

  lemma BelowProduct(d: nat, s: nat, m: nat, p: nat)
    requires d < s && m < p
    ensures d + s * m < s * p
  {
    assert s * p == s * m + s * (p - m);
    MulAtLeast(p - m, s);
    assert s * (p - m) == (p - m) * s;
  }

  lemma QuotientBelow(i: nat, s: nat, p: nat)
    requires s > 0 && i < s * p
    ensures i / s < p
  {
    assert i == s * (i / s) + i % s;
    if i / s >= p { MulOrder(p, i / s, s); }
  }

  /** ... and a number is the number of its digits: every position tuple comes exactly once. */
  lemma {:induction false} NumberOfDigits(sizes: seq<nat>, i: nat)
    requires i < Product(sizes) && Positive(sizes)
    ensures Number(sizes, Digits(sizes, i)) == i
  {
    if sizes != [] {
      var s, rest := sizes[0], Digits(sizes[1..], i / sizes[0]);
      QuotientBelow(i, s, Product(sizes[1..]));
      NumberOfDigits(sizes[1..], i / s);
      assert Digits(sizes, i)[1..] == rest;
      assert i == i % s + s * (i / s);
    }
  }

  lemma {:induction false} ProductPositive(sizes: seq<nat>)
    ensures Product(sizes) > 0 <==> Positive(sizes)
  {
    if sizes != [] {
      ProductPositive(sizes[1..]);
      assert Positive(sizes) ==> Positive(sizes[1..]);
      if sizes[0] > 0 && Positive(sizes[1..]) {
        assert forall k :: 1 <= k < |sizes| ==> sizes[k] == sizes[1..][k - 1];
        MulAtLeast(sizes[0], Product(sizes[1..]));
      }
    }
  }

  // --------------------------------------------------------------- odometer

  function Next(sizes: seq<nat>, pos: Positions): (r: Positions)
    requires |pos| == |sizes|
    ensures |r| == |pos|
  {
    if sizes == [] then []
    else if pos[0] + 1 == sizes[0] then [0] + Next(sizes[1..], pos[1..])
    else [pos[0] + 1] + pos[1..]
  }

  lemma QuotientOfNext(i: nat, s: nat)
    requires s > 0
    ensures i % s + 1 == s ==> (i + 1) % s == 0 && (i + 1) / s == i / s + 1
    ensures i % s + 1 != s ==> (i + 1) % s == i % s + 1 && (i + 1) / s == i / s
  {
    var d, q := i % s, i / s;
    assert i == d + s * q;
    if d + 1 == s {
      assert s * (q + 1) == s * q + s;
      DigitAndRest(0, s, q + 1);
    } else {
      DigitAndRest(d + 1, s, q);
    }
  }

  /** Turning the odometer adds one. */
  lemma {:induction false} DigitsOfNext(sizes: seq<nat>, i: nat)
    requires Positive(sizes)
    ensures Digits(sizes, i + 1) == Next(sizes, Digits(sizes, i))
  {
    if sizes != [] {
      QuotientOfNext(i, sizes[0]);
      DigitsOfNext(sizes[1..], i / sizes[0]);
    }
  }

  lemma {:induction false} DigitsOfZero(sizes: seq<nat>)
    ensures forall k :: 0 <= k < |sizes| ==> Digits(sizes, 0)[k] == 0
  {
    if sizes != [] { DigitsOfZero(sizes[1..]); }
  }

  /** The first j digits are about to wrap. */
  ghost predicate Full(sizes: seq<nat>, pos: Positions, j: nat)
    requires j <= |pos| == |sizes|
  {
    forall k :: 0 <= k < j ==> pos[k] + 1 == sizes[k]
  }

  lemma {:induction false} NextAt(sizes: seq<nat>, pos: Positions, j: nat)
    requires j < |pos| == |sizes| && Full(sizes, pos, j) && pos[j] + 1 != sizes[j]
    ensures forall k :: 0 <= k < j ==> Next(sizes, pos)[k] == 0
    ensures Next(sizes, pos)[j] == pos[j] + 1
    ensures forall k :: j < k < |pos| ==> Next(sizes, pos)[k] == pos[k]
  {
    if j > 0 {
      assert pos[0] + 1 == sizes[0];
      NextAt(sizes[1..], pos[1..], j - 1);
      assert forall k :: 1 <= k < |pos| ==> Next(sizes, pos)[k] == Next(sizes[1..], pos[1..])[k - 1];
    }
  }

  lemma {:induction false} NextWraps(sizes: seq<nat>, pos: Positions)
    requires |pos| == |sizes| && Full(sizes, pos, |pos|)
    ensures forall k :: 0 <= k < |pos| ==> Next(sizes, pos)[k] == 0
  {
    if pos != [] {
      NextWraps(sizes[1..], pos[1..]);
      assert pos[0] + 1 == sizes[0];
    }
  }

  /** The odometer after i turns. */
  function Turned(sizes: seq<nat>, i: nat): (r: Positions)
    ensures |r| == |sizes|
  {
    if i == 0 then Zeros(|sizes|) else Next(sizes, Turned(sizes, i - 1))
  }

  function Zeros(n: nat): (r: Positions)
    ensures |r| == n && forall k :: 0 <= k < n ==> r[k] == 0
  {
    seq(n, _ => 0)
  }

  lemma {:induction false} TurnedIsDigits(sizes: seq<nat>, i: nat)
    requires Positive(sizes)
    ensures Turned(sizes, i) == Digits(sizes, i) && InRange(sizes, Turned(sizes, i))
  {
    DigitsInRange(sizes, i);
    if i == 0 {
      DigitsOfZero(sizes);
      assert Zeros(|sizes|) == Digits(sizes, 0);
    } else {
      TurnedIsDigits(sizes, i - 1);
      DigitsOfNext(sizes, i - 1);
    }
  }

  method Odometer(sizes: seq<nat>, indices: array<nat>)
    requires sizes != [] && InRange(sizes, indices[..])
    modifies indices
    ensures indices[..] == Next(sizes, old(indices[..]))
  {
    ghost var pos := indices[..];
    var arg, carry := 0, true;
    while carry
      invariant arg <= |sizes| && (carry ==> arg < |sizes|)
      invariant carry ==> Full(sizes, pos, arg) && forall k :: 0 <= k < arg ==> indices[k] == 0
      invariant carry ==> forall k :: arg <= k < |sizes| ==> indices[k] == pos[k]
      invariant !carry ==> forall k :: 0 <= k < |sizes| ==> indices[k] == Next(sizes, pos)[k]
      decreases |sizes| - arg, if carry then 1 else 0
    {
      WrapAround(indices[arg], sizes[arg]);
      indices[arg] := (indices[arg] + 1) % sizes[arg];
      carry := indices[arg] == 0 && arg + 1 < |sizes|;
      if !carry {
        if indices[arg] == 0 { NextWraps(sizes, pos); } else { NextAt(sizes, pos, arg); }
      }
      arg := arg + 1;
    }
  }

  /** The product: its i-th tuple is at the digits of i. */
  function Tuples(lists: seq<seq<int>>): (r: seq<seq<int>>)
    ensures |r| == Product(Sizes(lists))
    ensures forall i :: 0 <= i < |r| ==> InRange(Sizes(lists), Digits(Sizes(lists), i)) && r[i] == Tuple(lists, Digits(Sizes(lists), i))
  {
    ProductPositive(Sizes(lists));
    assert forall i: nat :: Product(Sizes(lists)) > 0 ==> InRange(Sizes(lists), Digits(Sizes(lists), i)) by {
      forall i: nat | Product(Sizes(lists)) > 0 ensures InRange(Sizes(lists), Digits(Sizes(lists), i)) {
        DigitsInRange(Sizes(lists), i);
      }
    }
    seq(Product(Sizes(lists)), i requires 0 <= i < Product(Sizes(lists)) => Tuple(lists, Digits(Sizes(lists), i)))
  }

  lemma AllDigits(sizes: seq<nat>, pos: Positions)
    requires InRange(sizes, pos)
    ensures Positive(sizes)
  {
    assert forall k :: 0 <= k < |sizes| ==> pos[k] < sizes[k];
  }

  /** Every combination of positions is in the product, at exactly one place. */
  lemma EveryTupleOnce(lists: seq<seq<int>>, pos: Positions)
    requires InRange(Sizes(lists), pos)
    ensures var i := Number(Sizes(lists), pos);
            i < |Tuples(lists)| && Tuples(lists)[i] == Tuple(lists, pos)
    ensures forall i :: 0 <= i < |Tuples(lists)| && Digits(Sizes(lists), i) == pos ==> i == Number(Sizes(lists), pos)
  {
    var sizes := Sizes(lists);
    AllDigits(sizes, pos);
    DigitsOfNumber(sizes, pos);
    forall i | 0 <= i < Product(sizes) && Digits(sizes, i) == pos ensures i == Number(sizes, pos) {
      NumberOfDigits(sizes, i);
    }
  }

  /** The product by turns of the odometer. */
  ghost predicate ByTurns(lists: seq<seq<int>>, tuples: seq<seq<int>>) {
    forall i :: 0 <= i < |tuples| ==> TakenAt(lists, Turned(Sizes(lists), i), tuples[i])
  }

  ghost predicate TakenAt(lists: seq<seq<int>>, pos: Positions, t: seq<int>) {
    InRange(Sizes(lists), pos) && t == Tuple(lists, pos)
  }

  lemma TurnsGiveProduct(lists: seq<seq<int>>, tuples: seq<seq<int>>)
    requires ByTurns(lists, tuples) && |tuples| == Product(Sizes(lists))
    ensures tuples == Tuples(lists)
  {
    ProductPositive(Sizes(lists));
    forall i | 0 <= i < |tuples| ensures tuples[i] == Tuples(lists)[i] {
      assert TakenAt(lists, Turned(Sizes(lists), i), tuples[i]);
      TurnedIsDigits(Sizes(lists), i);
    }
  }

  class Benchmark {
    var args: seq<seq<int>>

    constructor ()
      ensures args == []
    {
      args := [];
    }

    method ArgsProduct(arglists: seq<seq<int>>)
      requires arglists != []
      requires args == [] || |args[0]| == |arglists|
      modifies this
      ensures args == old(args) + Tuples(arglists)
    {
      var sizes := Sizes(arglists);
      var indices := new nat[|arglists|](_ => 0);
      assert indices[..] == Zeros(|sizes|);
      var total := Product(sizes);
      ghost var before, added := args, [];
      for i := 0 to total
        invariant indices[..] == Turned(sizes, i)
        invariant args == before + added && |added| == i && ByTurns(arglists, added)
      {
        ProductPositive(sizes);
        TurnedIsDigits(sizes, i);
        var tuple := Pick(arglists, indices);
        OneMore(arglists, added, tuple);
        args := args + [tuple];
        added := added + [tuple];
        Odometer(sizes, indices);
      }
      TurnsGiveProduct(arglists, added);
    }
  }

  lemma OneMore(lists: seq<seq<int>>, tuples: seq<seq<int>>, t: seq<int>)
    requires ByTurns(lists, tuples) && TakenAt(lists, Turned(Sizes(lists), |tuples|), t)
    ensures ByTurns(lists, tuples + [t])
  {
  }

  method Pick(arglists: seq<seq<int>>, indices: array<nat>) returns (tuple: seq<int>)
    requires InRange(Sizes(arglists), indices[..])
    ensures tuple == Tuple(arglists, indices[..])
  {
    tuple := [];
    for arg := 0 to |arglists|
      invariant |tuple| == arg && forall k :: 0 <= k < arg ==> tuple[k] == arglists[k][indices[k]]
    {
      assert indices[arg] == indices[..][arg] < Sizes(arglists)[arg];
      tuple := tuple + [arglists[arg][indices[arg]]];
    }
  }
}
