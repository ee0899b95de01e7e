/**
 * How long a benchmark is run: rounds of growing iteration counts until one is
 * significant. Times are exact reals; what a round measures is up to `world`.
 */
module BenchmarkRunners {
  import opened Basics
  import opened Remainders

  const MAX_ITERATIONS: nat := 1_000_000_000_000

  /** What one round measured; counts has the completed iterations of each thread. */
  datatype Measured = Measured(counts: seq<nat>, cpuTime: real, realTime: real, manualTime: real, skipped: bool)

  datatype IterationResults = IterationResults(iters: nat, seconds: real, realTimeUsed: real, skipped: bool)

  /** The measurements of every round, by its number and the iterations it was asked for. */
  type World = (nat, nat) -> Measured

  lemma {:induction false} SumAtLeast(counts: seq<nat>, n: nat)
    requires forall i :: 0 <= i < |counts| ==> counts[i] >= n
    ensures Sum(counts) >= |counts| * n
  {
    if counts != [] {
      SumAtLeast(counts[1..], n);
      assert |counts| * n == n + |counts[1..]| * n by { assert |counts| == 1 + |counts[1..]|; }
    }
  }

  lemma {:induction false} SumOfEqual(counts: seq<nat>, n: nat)
    requires forall i :: 0 <= i < |counts| ==> counts[i] == n
    ensures Sum(counts) == |counts| * n
  {
    if counts != [] {
      SumOfEqual(counts[1..], n);
      assert |counts| * n == n + |counts[1..]| * n by { assert |counts| == 1 + |counts[1..]|; }
    }
  }

  lemma AverageAtLeast(counts: seq<nat>, n: nat)
    requires counts != [] && forall i :: 0 <= i < |counts| ==> counts[i] >= n
    ensures Sum(counts) / |counts| >= n
  {
    SumAtLeast(counts, n);
    QuotientAtLeast(Sum(counts), |counts|, n);
  }

  /** When all threads completed the same number, that is the average. */
  lemma AverageOfEqual(counts: seq<nat>, n: nat)
    requires counts != [] && forall i :: 0 <= i < |counts| ==> counts[i] == n
    ensures Sum(counts) / |counts| == n
  {
    SumOfEqual(counts, n);
    QuotientUnique(Sum(counts), |counts|, n, 0);
  }

  lemma QuotientAtLeast(total: nat, t: nat, n: nat)
    requires t > 0 && total >= t * n
    ensures total / t >= n
  {
    var q := total / t;
    assert total == t * q + total % t;
    if q < n { Short(t, q, n); }
  }

  lemma Short(t: nat, q: nat, n: nat)
    requires q < n && t > 0
    ensures t * q + t <= t * n
  {
    assert t * n == t * q + t * (n - q) && t * (n - q) == t + t * (n - q - 1) && t * (n - q - 1) >= 0;
  }

  /** The nearest integer to a number that is not negative; halves go up. */
  function Round(x: real): (n: nat)
    requires x >= 0.0
    ensures n as real - 0.5 <= x < n as real + 0.5
  {
    (x + 0.5).Floor
  }

  /** How many times as many iterations should do; 10 when too little was measured to tell. */
  function Multiplier(seconds: real, minTime: real): (m: real)
    requires minTime > 0.0
    ensures m <= 14.0
    ensures seconds <= 0.1 * minTime ==> m == 10.0
  {
    Significance(seconds, minTime);
    if seconds / minTime > 0.1 then minTime * 1.4 / Max(seconds, 0.000000001) else 10.0
  }

  function Wanted(multiplier: real, iters: nat): nat {
    Round(Max(multiplier * iters as real, iters as real + 1.0))
  }

  lemma WantedBounds(multiplier: real, iters: nat)
    requires multiplier <= 14.0 && iters >= 1
    ensures iters < Wanted(multiplier, iters) <= 14 * iters
  {
    var n := iters as real;
    Scale(multiplier, 14.0, n);
    var x := Max(multiplier * n, n + 1.0);
    assert n + 1.0 <= x <= 14.0 * n;
    assert (14 * iters) as real == 14.0 * n;
    RoundBetween(x, iters + 1, 14 * iters);
  }

  /** The wish is the rounded product, but at least one more. */
  lemma WantedIs(multiplier: real, iters: nat)
    ensures var n, x := Wanted(multiplier, iters), multiplier * iters as real;
            if x <= iters as real + 1.0 then n == iters + 1 else n as real - 0.5 <= x < n as real + 0.5
  {
    var x := multiplier * iters as real;
    if x <= iters as real + 1.0 { RoundBetween(Max(x, iters as real + 1.0), iters + 1, iters + 1); }
  }

  lemma RoundBetween(x: real, a: nat, b: nat)
    requires a as real <= x <= b as real
    ensures a <= Round(x) <= b
  {
  }

  lemma WantedTen(iters: nat)
    requires iters >= 1
    ensures Wanted(10.0, iters) == 10 * iters
  {
    var n := iters as real;
    assert (10 * iters) as real == 10.0 * n;
    assert Max(10.0 * n, n + 1.0) == 10.0 * n;
    RoundBetween(10.0 * n, 10 * iters, 10 * iters);
  }

  function Max(x: real, y: real): real { if x < y then y else x }

  /** One more round than the one before; `result` was not enough. */
  datatype Step = Step(requested: nat, result: IterationResults)

  function Following(steps: seq<Step>, k: nat, next: nat): nat
    requires k < |steps|
  {
    if k + 1 < |steps| then steps[k + 1].requested else next
  }

  ghost predicate Grows(s: Step, next: nat) {
    && !s.result.skipped
    && 1 <= s.requested <= s.result.iters < next <= MAX_ITERATIONS
    && next <= 14 * s.result.iters
  }

  class BenchmarkRunner {
    const minTime: real
    const minWarmupTime: real
    const threads: nat
    const useManualTime: bool
    const useRealTime: bool
    const hasExplicitIterationCount: bool
    var warmupDone: bool
    var iters: nat
    var repetitionsDone: nat
    var rounds: nat               // rounds run so far, of any kind

    constructor (minTime: real, minWarmupTime: real, threads: nat, useManualTime: bool, useRealTime: bool, explicitIters: nat)
      requires threads > 0
      ensures warmupDone == (minWarmupTime <= 0.0) && repetitionsDone == 0 && rounds == 0
      ensures this.minTime == minTime && this.minWarmupTime == minWarmupTime && this.threads == threads
      ensures this.useManualTime == useManualTime && this.useRealTime == useRealTime
      ensures hasExplicitIterationCount == (explicitIters > 0) && iters >= 1
      ensures iters == if explicitIters > 0 then explicitIters else 1
    {
      this.minTime, this.minWarmupTime, this.threads := minTime, minWarmupTime, threads;
      this.useManualTime, this.useRealTime := useManualTime, useRealTime;
      hasExplicitIterationCount := explicitIters > 0;
      warmupDone := !(minWarmupTime > 0.0);
      iters := if explicitIters > 0 then explicitIters else 1;
      repetitionsDone, rounds := 0, 0;
    }

    /** Each thread reports, times are not negative, and unless skipped every thread has run what was asked for. */
    ghost predicate Plausible(world: World) {
      forall r, n :: PlausibleRound(world(r, n), n)
    }

    ghost predicate PlausibleRound(m: Measured, n: nat) {
      && |m.counts| == threads
      && m.cpuTime >= 0.0 && m.realTime >= 0.0 && m.manualTime >= 0.0
      && (!m.skipped ==> forall i :: 0 <= i < threads ==> m.counts[i] >= n)
    }

    function ResultsOf(m: Measured): IterationResults
      requires |m.counts| > 0
    {
      var seconds := if useManualTime then m.manualTime else if useRealTime then m.realTime else m.cpuTime;
      IterationResults(Sum(m.counts) / |m.counts|, seconds, m.realTime, m.skipped)
    }

    /**
     * Rounds rejected against the time t: each is what the world measured in its turn from `first` on,
     * and leads to strictly more iterations, at most 14 times what it completed.
     */
    ghost predicate Rejected(world: World, first: nat, steps: seq<Step>, next: nat, t: real)
      requires Plausible(world) && threads > 0
    {
      forall k :: 0 <= k < |steps| ==>
        && Grows(steps[k], Following(steps, k, next))
        && steps[k].result == ResultOf(world, first + k, steps[k].requested)
        && !Enough(steps[k].result, t)
    }

    lemma RejectedNext(world: World, first: nat, steps: seq<Step>, s: Step, next: nat, t: real)
      requires Plausible(world) && threads > 0
      requires Rejected(world, first, steps, s.requested, t) && Grows(s, next)
      requires s.result == ResultOf(world, first + |steps|, s.requested) && !Enough(s.result, t)
      ensures Rejected(world, first, steps + [s], next, t)
    {
      var more := steps + [s];
      forall k | 0 <= k < |more|
        ensures Grows(more[k], Following(more, k, next))
             && more[k].result == ResultOf(world, first + k, more[k].requested) && !Enough(more[k].result, t)
      {
        if k < |steps| {
          assert Grows(steps[k], Following(steps, k, s.requested));
          assert more[k] == steps[k] && Following(more, k, next) == Following(steps, k, s.requested);
        }
      }
    }

    ghost function ResultOf(world: World, round: nat, requested: nat): IterationResults
      requires Plausible(world) && threads > 0
    {
      assert PlausibleRound(world(round, requested), requested);
      ResultsOf(world(round, requested))
    }

    /** A round is judged by the manual time if asked to, else by the real time if asked to, else by the CPU time. */
    lemma TimeUsed(world: World, round: nat, requested: nat)
      requires Plausible(world) && threads > 0
      ensures var m, i := world(round, requested), ResultOf(world, round, requested);
              && (useManualTime ==> i.seconds == m.manualTime)
              && (!useManualTime && useRealTime ==> i.seconds == m.realTime)
              && (!useManualTime && !useRealTime ==> i.seconds == m.cpuTime)
              && i.realTimeUsed == m.realTime && i.skipped == m.skipped
              && i.iters * threads <= Sum(m.counts) < (i.iters + 1) * threads
    {
      var m := world(round, requested);
      assert PlausibleRound(m, requested);
      var q := Sum(m.counts) / threads;
      assert Sum(m.counts) == threads * q + Sum(m.counts) % threads;
      assert (q + 1) * threads == q * threads + threads;
    }

    /** Runs `iters` iterations on every thread. */
    method DoNIterations(world: World) returns (i: IterationResults)
      requires Plausible(world) && threads > 0
      modifies this`rounds
      ensures rounds == old(rounds) + 1 && i == ResultOf(world, old(rounds), iters)
      ensures i.seconds >= 0.0 && (!i.skipped ==> i.iters >= iters)
    {
      var m := world(rounds, iters);
      assert PlausibleRound(m, iters);
      if !m.skipped { AverageAtLeast(m.counts, iters); }
      rounds := rounds + 1;
      i := ResultsOf(m);
    }

    function GetMinTimeToApply(): real
      reads this
    {
      if warmupDone then minTime else minWarmupTime
    }

    /** Skipped, or enough iterations or time when t is asked for. */
    predicate Enough(i: IterationResults, t: real) {
      || i.skipped
      || i.iters >= MAX_ITERATIONS
      || i.seconds >= t
      || (i.realTimeUsed >= 5.0 * t && !useManualTime)
    }

    predicate ShouldReport(i: IterationResults)
      reads this
    {
      Enough(i, GetMinTimeToApply())
    }

    /** For a round that was not worth reporting. */
    function PredictNumItersNeeded(i: IterationResults): (n: nat)
      reads this
      requires i.iters >= 1 && i.seconds >= 0.0 && !ShouldReport(i)
      ensures i.iters < n <= MAX_ITERATIONS
      ensures n <= 14 * i.iters
      ensures i.seconds <= 0.1 * GetMinTimeToApply() && 10 * i.iters <= MAX_ITERATIONS ==> n == 10 * i.iters
    {
      var multiplier := Multiplier(i.seconds, GetMinTimeToApply());
      WantedBounds(multiplier, i.iters);
      WantedTen(i.iters);
      var maxNext := Wanted(multiplier, i.iters);
      if maxNext < MAX_ITERATIONS then maxNext else MAX_ITERATIONS
    }

    /** When a round is reported, with the limits written out. */
    lemma ReportedWhen(i: IterationResults)
      ensures ShouldReport(i) <==>
                var t := if warmupDone then minTime else minWarmupTime;
                || i.skipped || i.iters >= 1_000_000_000_000 || i.seconds >= t
                || (!useManualTime && i.realTimeUsed >= 5.0 * t)
    {
    }

    /**
     * After a round that took more than a tenth of the time t, the next count is the one that should take
     * 1.4 t at the same speed, rounded, but at least one more and at most the maximum.
     */
    lemma PredictedAfter(i: IterationResults, t: real)
      requires i.iters >= 1 && i.seconds >= 0.000000001 && !ShouldReport(i)
      requires t == (if warmupDone then minTime else minWarmupTime) && i.seconds > 0.1 * t
      ensures var n, x := PredictNumItersNeeded(i), t * 1.4 / i.seconds * i.iters as real;
              if x <= i.iters as real + 1.0 then n == i.iters + 1
              else if n < 1_000_000_000_000 then n as real - 0.5 <= x < n as real + 0.5
              else n == 1_000_000_000_000 && x >= n as real - 0.5
    {
      Significance(i.seconds, t);
      var m := t * 1.4 / i.seconds;
      assert Multiplier(i.seconds, t) == m;
      WantedIs(m, i.iters);
    }

    /** From a count of `start`, rejected rounds led to `reached`, whose round measured i. */
    ghost predicate Searched(world: World, first: nat, start: nat, steps: seq<Step>, reached: nat, i: IterationResults, t: real)
      requires Plausible(world) && threads > 0
    {
      && Rejected(world, first, steps, reached, t)
      && (if steps == [] then reached == start else steps[0].requested == start)
      && i == ResultOf(world, first + |steps|, reached)
      && (!i.skipped ==> i.iters >= reached)
    }

    /** What that means round by round. */
    lemma SearchedMeans(world: World, first: nat, start: nat, steps: seq<Step>, reached: nat, i: IterationResults, t: real)
      requires Plausible(world) && threads > 0 && Searched(world, first, start, steps, reached, i, t)
      ensures i == ResultOf(world, first + |steps|, reached) && (!i.skipped ==> i.iters >= reached)
      ensures if steps == [] then reached == start else steps[0].requested == start
      ensures forall k :: 0 <= k < |steps| ==>
                var r, next := steps[k].result, if k + 1 < |steps| then steps[k + 1].requested else reached;
                && r == ResultOf(world, first + k, steps[k].requested)
                && !r.skipped && r.iters < 1_000_000_000_000 && r.seconds < t && (r.realTimeUsed < 5.0 * t || useManualTime)
                && 1 <= steps[k].requested <= r.iters < next <= 1_000_000_000_000 && next <= 14 * r.iters
    {
      forall k | 0 <= k < |steps| ensures Grows(steps[k], Following(steps, k, reached)) && !Enough(steps[k].result, t) {
      }
    }

    /** Warming up leaves the iteration count as it was. */
    method RunWarmUp(world: World) returns (ghost steps: seq<Step>, ghost reached: nat, ghost last: IterationResults)
      requires Plausible(world) && threads > 0 && !warmupDone && iters >= 1
      modifies this`rounds, this`iters, this`warmupDone
      ensures warmupDone && iters == old(iters) && rounds == old(rounds) + |steps| + 1
      ensures Searched(world, old(rounds), old(iters), steps, reached, last, minWarmupTime)
      ensures Enough(last, minWarmupTime)
    {
      var backup := iters;
      last, steps := SearchIterations(world, true);
      reached := iters;
      FinishWarmUp(backup);
    }

    method FinishWarmUp(i: nat)
      modifies this`iters, this`warmupDone
      ensures warmupDone && iters == i
    {
      warmupDone, iters := true, i;
    }

    /** Rejected rounds grow; the last one is reported, and later repetitions just use its count. */
    method DoOneRepetition(world: World) returns (i: IterationResults, ghost first: nat, ghost steps: seq<Step>)
      requires Plausible(world) && threads > 0 && iters >= 1
      modifies this`rounds, this`iters, this`warmupDone, this`repetitionsDone
      ensures warmupDone && iters >= 1 && repetitionsDone == old(repetitionsDone) + 1 && rounds == first + |steps| + 1
      ensures if old(warmupDone) then first == old(rounds) else first > old(rounds)
      ensures Searched(world, first, old(iters), steps, iters, i, minTime)
      ensures if old(repetitionsDone) > 0 || hasExplicitIterationCount then steps == [] else Enough(i, minTime)
    {
      var isTheFirstRepetition := repetitionsDone == 0;
      if !warmupDone {
        var _, _, _ := RunWarmUp(world);
      }
      first := rounds;
      i, steps := SearchIterations(world, isTheFirstRepetition && !hasExplicitIterationCount);
      repetitionsDone := repetitionsDone + 1;
    }

    /** The loop of rounds; without searching there is just one. */
    method SearchIterations(world: World, searching: bool) returns (i: IterationResults, ghost steps: seq<Step>)
      requires Plausible(world) && threads > 0 && iters >= 1
      modifies this`rounds, this`iters
      ensures iters >= 1 && rounds == old(rounds) + |steps| + 1
      ensures Searched(world, old(rounds), old(iters), steps, iters, i, GetMinTimeToApply())
      ensures if searching then Enough(i, GetMinTimeToApply()) else steps == []
    {
      steps := [];
      ghost var backup, first, t := iters, rounds, GetMinTimeToApply();
      while true
        invariant iters >= 1 && (iters == backup || iters <= MAX_ITERATIONS)
        invariant rounds == first + |steps| && Rejected(world, first, steps, iters, t)
        invariant if steps == [] then iters == backup else steps[0].requested == backup
        invariant steps != [] ==> searching
        decreases MAX_ITERATIONS - (if iters <= MAX_ITERATIONS then iters else MAX_ITERATIONS)
      {
        ghost var requested := iters;
        i := DoNIterations(world);
        if !searching || ShouldReport(i) { break; }
        Reestimate(i);
        RejectedNext(world, first, steps, Step(requested, i), iters, t);
        steps := steps + [Step(requested, i)];
      }
      SearchEnds(world, first, backup, steps, iters, i, t);
    }

    lemma SearchEnds(world: World, first: nat, start: nat, steps: seq<Step>, reached: nat, i: IterationResults, t: real)
      requires Plausible(world) && threads > 0 && Rejected(world, first, steps, reached, t)
      requires if steps == [] then reached == start else steps[0].requested == start
      requires i == ResultOf(world, first + |steps|, reached) && (!i.skipped ==> i.iters >= reached)
      ensures Searched(world, first, start, steps, reached, i, t)
    {
    }

    method Reestimate(i: IterationResults)
      requires i.iters >= iters >= 1 && i.seconds >= 0.0 && !ShouldReport(i)
      modifies this`iters
      ensures iters == old(PredictNumItersNeeded(i)) && Grows(Step(old(iters), i), iters)
    {
      iters := PredictNumItersNeeded(i);
    }
  }

  lemma Scale(a: real, b: real, x: real)
    requires a <= b && x >= 0.0
    ensures a * x <= b * x
  {
    assert (b - a) * x >= 0.0;
  }

  /** A significant round took more than a tenth of the time, so at most 14 times as many are needed. */
  lemma Significance(seconds: real, minTime: real)
    requires minTime > 0.0
    ensures seconds / minTime > 0.1 <==> seconds > 0.1 * minTime
    ensures seconds / minTime > 0.1 ==> minTime * 1.4 / Max(seconds, 0.000000001) <= 14.0
  {
    var q := seconds / minTime;
    assert q * minTime == seconds;
    if q > 0.1 { StrictScale(0.1, q, minTime); } else { Scale(q, 0.1, minTime); }
    if q > 0.1 { QuotientAtMost(minTime * 1.4, Max(seconds, 0.000000001), 14.0); }
  }

  lemma StrictScale(a: real, b: real, x: real)
    requires a < b && x > 0.0
    ensures a * x < b * x
  {
    assert (b - a) * x > 0.0;
  }

  lemma QuotientAtMost(x: real, d: real, bound: real)
    requires d > 0.0 && x <= bound * d
    ensures x / d <= bound
  {
    var m := x / d;
    assert m * d == x;
    if m > bound { StrictScale(bound, m, d); }
  }
}
