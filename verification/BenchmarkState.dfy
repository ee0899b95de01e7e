/** The loop counter that a benchmark function asks whether to go on. */
module BenchmarkStates {

  class State {
    const maxIterations: nat
    var totalIterations: nat     // still to be granted
    var batchLeftover: nat       // granted beyond the maximum by the last batch
    var started: bool
    var finished: bool
    var skipped: bool
    ghost var granted: nat       // what all calls together have allowed
    ghost var withheld: nat      // what a skip kept from being granted, as soon as it is counted

    ghost predicate Valid()
      reads this
    {
      && maxIterations > 0 && totalIterations <= maxIterations
      && (!started ==> totalIterations == batchLeftover == granted == withheld == 0 && !finished)
      && (started ==> granted + withheld == maxIterations - totalIterations + batchLeftover)
      && (withheld > 0 ==> skipped)
      && (batchLeftover > 0 ==> totalIterations == 0)
      && (skipped || finished ==> totalIterations == 0)
    }

    constructor (maxIterations: nat)
      requires maxIterations > 0
      ensures Valid() && this.maxIterations == maxIterations
      ensures !started && !finished && !skipped && granted == totalIterations == batchLeftover == withheld == 0
    {
      this.maxIterations := maxIterations;
      totalIterations, batchLeftover, granted, withheld := 0, 0, 0, 0;
      started, finished, skipped := false, false, false;
    }

    /** In every state the counter is off by exactly what a skip withheld. */
    function Iterations(): (n: nat)
      requires Valid()
      reads this
      ensures n == granted + withheld
      ensures !skipped ==> n == granted
    {
      if !started then 0 else maxIterations - totalIterations + batchLeftover
    }

    /** Grants n iterations; refuses exactly when the maximum is reached or the benchmark is skipped. */
    method KeepRunningInternal(n: nat, isBatch: bool) returns (more: bool)
      requires Valid() && n > 0 && (isBatch || n == 1) && (!finished || skipped)
      modifies this
      ensures Valid() && started && skipped == old(skipped)
      ensures !skipped ==> more == (old(granted) < maxIterations)
      ensures skipped ==> !more
      ensures granted == old(granted) + if more then n else 0
      ensures withheld == old(withheld) + if skipped && !old(started) then maxIterations else 0
      ensures finished == (old(finished) || !more)
      ensures old(started) && old(totalIterations) >= n ==> totalIterations == old(totalIterations) - n
      ensures !skipped ==> totalIterations == if granted < maxIterations then maxIterations - granted else 0
    {
      if totalIterations >= n {
        totalIterations, granted := totalIterations - n, granted + n;
        return true;
      }
      if !started {
        StartKeepRunning();
        if !skipped && totalIterations >= n {
          totalIterations, granted := totalIterations - n, granted + n;
          return true;
        }
      }
      if isBatch && totalIterations != 0 {
        batchLeftover := n - totalIterations;
        totalIterations, granted := 0, granted + n;
        return true;
      }
      FinishKeepRunning();
      return false;
    }

    method StartKeepRunning()
      requires Valid() && !started && !finished
      modifies this
      ensures Valid() && started && !finished && skipped == old(skipped)
      ensures granted == old(granted) && batchLeftover == old(batchLeftover)
      ensures totalIterations == (if skipped then 0 else maxIterations) && withheld == maxIterations - totalIterations
    {
      started := true;
      totalIterations := if skipped then 0 else maxIterations;
      withheld := maxIterations - totalIterations;
    }

    method FinishKeepRunning()
      requires Valid() && started && (!finished || skipped) && totalIterations == 0
      modifies this
      ensures Valid() && started && finished && skipped == old(skipped) && granted == old(granted)
      ensures withheld == old(withheld) && totalIterations == 0 && batchLeftover == old(batchLeftover)
    {
      totalIterations := 0;
      finished := true;
    }

    /** A right counter stays right exactly when nothing was still to be granted. */
    method Skip()
      requires Valid()
      modifies this
      ensures Valid() && skipped && started == old(started) && finished == old(finished)
      ensures granted == old(granted) && withheld == old(withheld) + old(totalIterations)
      ensures Iterations() == old(Iterations()) + old(totalIterations)
      ensures old(Iterations()) == old(granted) ==> (Iterations() == granted <==> old(totalIterations) == 0)
    {
      skipped := true;
      withheld := withheld + totalIterations;
      totalIterations := 0;
    }

    /** A benchmark function with batches of any sizes, skipped before batch number `skipAt` if it comes to that. */
    method RunBenchmark(size: nat -> nat, skipAt: nat) returns (batches: nat)
      requires Valid() && !started && !skipped && forall k :: size(k) > 0
      modifies this
      ensures Valid() && finished
      ensures !skipped ==> granted >= maxIterations && Iterations() == granted
      ensures !skipped ==> batches > 0 && granted < maxIterations + size(batches - 1)
      ensures skipped ==> (Iterations() == granted <==> granted >= maxIterations)
    {
      batches := 0;
      var more := true;
      while more
        invariant Valid() && (finished <==> !more) && (batches > 0 ==> started)
        invariant !skipped && more ==> (batches == 0 <==> !started)
        invariant !skipped ==> batches == 0 || granted < maxIterations + size(batches - 1)
        invariant !skipped && started ==> totalIterations == if granted < maxIterations then maxIterations - granted else 0
        invariant !more && !skipped ==> batches > 0 && granted >= maxIterations
        invariant skipped ==> !more && (withheld == 0 <==> granted >= maxIterations)
        decreases if more then 1 else 0, if skipped || granted >= maxIterations then 0 else maxIterations - granted
      {
        if batches == skipAt { Skip(); }
        more := KeepRunningInternal(size(batches), true);
        if more { batches := batches + 1; }
      }
    }
  }

  /** One of ten iterations is granted, then the benchmark is skipped: ten are counted. */
  method SkipAfterOne() returns (s: State)
    ensures fresh(s) && s.Valid() && s.granted == 1 && s.Iterations() == 10
  {
    s := new State(10);
    var _ := s.KeepRunningInternal(1, false);
    s.Skip();
  }

  /** All ten are granted before the skip: the count is right. */
  method SkipAfterAll() returns (s: State)
    ensures fresh(s) && s.Valid() && s.granted == 10 && s.Iterations() == 10
  {
    s := new State(10);
    var _ := s.KeepRunningInternal(10, true);
    s.Skip();
  }

  /** A skip before the first call: nothing is counted until that call, and then ten. */
  method SkipBeforeStart() returns (s: State, before: nat)
    ensures fresh(s) && s.Valid() && s.granted == 0 && before == 0 && s.Iterations() == 10
  {
    s := new State(10);
    s.Skip();
    before := s.Iterations();
    var _ := s.KeepRunningInternal(1, false);
  }
}
