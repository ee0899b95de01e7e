/**
 * Two pipelines that are driven from outside. Their running functions are
 * coroutines: an execution resumes one at its last yield.
 */
module ManualPipelines {
  import opened Basics
  import opened Remainders

  datatype State = Waiting | Busy | Ready

  /** Where a running function is: not begun, at the yield for activity i, or returned. */
  datatype Generator = NotStarted | Suspended(i: nat) | Done

  /** The numbers from a to b - 1. */
  function Range(a: nat, b: nat): (r: seq<nat>)
    ensures |r| == if a <= b then b - a else 0
    ensures forall k :: 0 <= k < |r| ==> r[k] == a + k
  {
    if a < b then seq(b - a, k requires 0 <= k < b - a => a + k) else []
  }

  lemma RangeNext(a: nat, b: nat)
    requires a <= b
    ensures Range(a, b) + [b] == Range(a, b + 1)
  {
  }

  lemma RangeJoin(a: nat, b: nat, c: nat)
    requires a <= b <= c
    ensures Range(a, b) + Range(b, c) == Range(a, c)
  {
  }

  /** The results once the activities in `ran` have run. */
  ghost predicate Reflect(results: seq<Option<int>>, outcomes: seq<int>, ran: seq<nat>) {
    && |results| == |outcomes|
    && forall i :: 0 <= i < |results| ==> results[i] == if i in ran then Some(outcomes[i]) else None
  }

  lemma ReflectNext(results: seq<Option<int>>, outcomes: seq<int>, ran: seq<nat>, i: nat)
    requires Reflect(results, outcomes, ran) && i < |outcomes|
    ensures Reflect(results[i := Some(outcomes[i])], outcomes, ran + [i])
  {
  }

  /** How many activities one execution runs, from position p of n with step count s. */
  function BatchSize(atStart: bool, n: nat, p: nat, s: nat): nat {
    if atStart && s > n then 0
    else if s >= 1 && p + s <= n then s
    else if !atStart && s >= 1 then 0
    else if p < n then n - p else 0
  }

  /**
   * A whole batch runs when it fits. At the start a step count beyond the number of activities runs none, and
   * a batch that only does not fit from there on runs what there is; later a batch that does not fit runs none.
   */
  lemma BatchCases(atStart: bool, n: nat, p: nat, s: nat)
    ensures var count := BatchSize(atStart, n, p, s);
            && (s >= 1 && p + s <= n ==> count == s)
            && (atStart && s > n ==> count == 0)
            && (atStart && s <= n < p + s ==> count == if p < n then n - p else 0)
            && (!atStart && s >= 1 && p + s > n ==> count == 0)
            && (s == 0 ==> count == if p < n then n - p else 0)
  {
  }

  class ManualStepsChainPipeline {
    const outcomes: seq<int>              // what each activity returns
    var results: seq<Option<int>>
    var state: State
    var startIndex: nat
    var steps: nat
    var generator: Generator
    ghost var ran: seq<nat>               // the activities in the order they ran

    ghost predicate Valid()
      reads this
    {
      && Reflect(results, outcomes, ran)
      && (generator.NotStarted? ==> ran == [])
      && (generator.Suspended? ==> startIndex <= generator.i < |outcomes| && ran == Range(startIndex, generator.i + 1))
      && (state.Waiting? ==> !generator.Done?)
    }

    constructor (outcomes: seq<int>)
      ensures Valid() && this.outcomes == outcomes && state == Waiting && generator == NotStarted
      ensures startIndex == 0 && steps == 1 && ran == []
    {
      this.outcomes, results := outcomes, seq(|outcomes|, _ => None);
      state, startIndex, steps, generator, ran := Waiting, 0, 1, NotStarted, [];
    }

    /** Where the next activity would run. */
    function Position(): nat
      reads this
    {
      match generator case NotStarted => startIndex case Suspended(i) => i + 1 case Done => |outcomes|
    }

    /** The results are the outcomes of the activities that have run, and of no others. */
    lemma ResultsShow()
      requires Valid()
      ensures |results| == |outcomes|
      ensures forall i :: 0 <= i < |results| ==> results[i] == if i in ran then Some(outcomes[i]) else None
    {
    }

    method SetSteps(s: nat)
      requires Valid() && !state.Busy?
      modifies this`steps
      ensures Valid() && steps == s
    {
      steps := s;
    }

    method SetStartIndex(index: nat)
      requires Valid() && generator.NotStarted?
      modifies this`startIndex
      ensures Valid() && startIndex == if state.Waiting? then index else old(startIndex)
    {
      if state.Waiting? { startIndex := index; }
    }

    /** Resumes the running function; false when it has returned. */
    method Next() returns (more: bool)
      requires Valid()
      modifies this`results, this`generator, this`ran
      ensures Reflect(results, outcomes, ran)
      ensures old(generator).Done? ==> !more && ran == old(ran) && generator.Done?
      ensures !old(generator).Done? ==>
        var n, p := |outcomes|, old(Position());
        var count := BatchSize(old(generator).NotStarted?, n, p, steps);
        && ran == old(ran) + Range(p, p + count)
        && more == (count > 0 && count == steps)
        && generator == if more then Suspended(p + count - 1) else Done
    {
      if generator.Done? { return false; }
      var i := Position();
      if (generator.NotStarted? && steps > |outcomes|) || (generator.Suspended? && generator.i + steps >= |outcomes|) {
        BatchCases(generator.NotStarted?, |outcomes|, i, steps);
        generator := Done;
        return false;
      }
      BatchCases(generator.NotStarted?, |outcomes|, i, steps);
      more := RunBatch(i);
      generator := if more then Suspended(i + steps - 1) else Done;
    }

    /** The loop, from activity p on: stops after a whole batch or at the end. */
    method RunBatch(p: nat) returns (more: bool)
      requires Reflect(results, outcomes, ran)
      modifies this`results, this`ran
      ensures Reflect(results, outcomes, ran) && more == (steps >= 1 && p + steps <= |outcomes|)
      ensures ran == old(ran) + Range(p, if more then p + steps else |outcomes|)
    {
      var step: int := steps;
      var i := p;
      ghost var before := ran;
      while i < |outcomes|
        invariant p <= i && (p <= |outcomes| ==> i <= |outcomes|) && (p > |outcomes| ==> i == p)
        invariant step == steps - (i - p) && (steps >= 1 ==> step >= 1)
        invariant ran == before + Range(p, i) && Reflect(results, outcomes, ran)
      {
        RunActivity(i);
        RangeNext(p, i);
        step := step - 1;
        if step == 0 { return true; }
        i := i + 1;
      }
      more := false;
    }

    method RunActivity(i: nat)
      requires i < |outcomes| && Reflect(results, outcomes, ran)
      modifies this`results, this`ran
      ensures ran == old(ran) + [i] && Reflect(results, outcomes, ran)
    {
      ReflectNext(results, outcomes, ran, i);
      results := results[i := Some(outcomes[i])];
      ran := ran + [i];
    }

    /** One execution. Waiting afterwards: exactly the next `steps` activities ran. */
    method Execute()
      requires Valid()
      modifies this`results, this`generator, this`ran, this`state
      ensures Valid()
      ensures !old(state).Waiting? ==> state == old(state) && ran == old(ran) && generator == old(generator)
      ensures old(state).Waiting? ==>
        var p := old(Position());
        var count := BatchSize(old(generator).NotStarted?, |outcomes|, p, steps);
        && ran == old(ran) + Range(p, p + count)
        && (state.Waiting? <==> count > 0 && count == steps) && (!state.Waiting? ==> state.Ready?)
        && (state.Waiting? ==> generator == Suspended(p + count - 1))
    {
      if state.Waiting? { ExecuteNext(); }
    }

    method ExecuteNext()
      requires Valid() && state.Waiting?
      modifies this`results, this`generator, this`ran, this`state
      ensures Valid()
      ensures
        var p := old(Position());
        var count := BatchSize(old(generator).NotStarted?, |outcomes|, p, steps);
        && ran == old(ran) + Range(p, p + count)
        && (state == if count > 0 && count == steps then Waiting else Ready)
        && (state.Waiting? ==> generator == Suspended(p + count - 1))
    {
      ghost var p := Position();
      ghost var count := BatchSize(generator.NotStarted?, |outcomes|, p, steps);
      BatchFits(generator.NotStarted?, |outcomes|, p, steps);
      assert ran == Range(startIndex, p);
      RangeJoin(startIndex, p, p + count);
      state := Busy;
      var more := Next();
      state := if more then Waiting else Ready;
    }

    /**
     * With a fixed step count all whole batches run, one per execution, and nothing else. When not even
     * one fits, whatever is left runs at once, but nothing when the step count exceeds the number of activities.
     */
    method ExecuteUntilReady() returns (executions: nat)
      requires Valid() && state.Waiting? && generator.NotStarted?
      modifies this`results, this`generator, this`ran, this`state
      ensures Valid() && state.Ready?
      ensures steps >= 1 && startIndex + steps <= |outcomes| ==>
        && executions == (|outcomes| - startIndex) / steps + 1
        && ran == Range(startIndex, startIndex + (|outcomes| - startIndex) / steps * steps)
      ensures steps == 0 || startIndex + steps > |outcomes| ==>
        executions == 1 && ran == if steps > |outcomes| then [] else Range(startIndex, |outcomes|)
    {
      if steps == 0 || startIndex + steps > |outcomes| {
        BatchCases(true, |outcomes|, startIndex, steps);
        Execute();
        executions := 1;
      } else {
        executions := ExecuteBatches();
      }
    }

    method ExecuteBatches() returns (executions: nat)
      requires Valid() && state.Waiting? && generator.NotStarted? && steps >= 1 && startIndex + steps <= |outcomes|
      modifies this`results, this`generator, this`ran, this`state
      ensures Valid() && state.Ready?
      ensures executions == (|outcomes| - startIndex) / steps + 1
      ensures ran == Range(startIndex, startIndex + (|outcomes| - startIndex) / steps * steps)
    {
      var s, n := steps, |outcomes|;
      executions := 0;
      ghost var p, k := startIndex, 0;
      while state.Waiting?
        invariant Valid() && (state.Waiting? || state.Ready?)
        invariant Batches(k, s) == p - startIndex && startIndex <= p <= n && ran == Range(startIndex, p)
        invariant state.Waiting? ==> executions == k && generator == if k == 0 then NotStarted else Suspended(p - 1)
        invariant state.Ready? ==> executions == k + 1 && n < p + s
        decreases if state.Waiting? then 1 else 0, n - p
      {
        BatchCases(k == 0, n, p, s);
        Execute();
        executions := executions + 1;
        if state.Waiting? {
          RangeJoin(startIndex, p, p + s);
          NextMultiple(k, s);
          p, k := p + s, k + 1;
        }
      }
      NextMultiple(k, s);
      QuotientIs(n - startIndex, s, k);
    }
  }

  /** The activities in k whole batches. */
  function Batches(k: nat, s: nat): nat { k * s }

  lemma BatchFits(atStart: bool, n: nat, p: nat, s: nat)
    ensures var count := BatchSize(atStart, n, p, s); count > 0 ==> p + count <= n
  {
  }

  lemma NextMultiple(k: nat, s: nat)
    ensures Batches(k + 1, s) == Batches(k, s) + s
  {
  }

  lemma QuotientIs(x: nat, s: nat, k: nat)
    requires s >= 1 && Batches(k, s) <= x < Batches(k + 1, s)
    ensures x / s == k
  {
    NextMultiple(k, s);
    var q, r := x / s, x % s;
    assert x == s * q + r && s * q == q * s;
    QuotientOrder(k, x - k * s, q, r, s);
    QuotientOrder(q, r, k, x - k * s, s);
  }

  /** Results and executed flags both show what has run. */
  ghost predicate Marked(outcomes: seq<int>, results: seq<Option<int>>, executed: seq<bool>, ran: seq<nat>) {
    && Reflect(results, outcomes, ran)
    && |executed| == |outcomes| && forall i :: 0 <= i < |executed| ==> executed[i] == (i in ran)
  }

  /** The activity the next execution stops at. */
  function Stop(g: Generator, start: nat, key: int, n: nat): nat {
    match g
    case NotStarted => start
    case Suspended(i) => if i == key then i else i + 1
    case Done => n
  }

  function Resumed(g: Generator, start: nat, key: int, n: nat): Generator {
    if Stop(g, start, key, n) < n then Suspended(Stop(g, start, key, n)) else Done
  }

  /** What that execution runs: nothing when it stops where it was. */
  function Runs(g: Generator, start: nat, key: int, n: nat): seq<nat> {
    if Resumed(g, start, key, n) == g then [] else
    if Resumed(g, start, key, n).Suspended? then [Stop(g, start, key, n)] else []
  }

  function ResumedTimes(g: Generator, start: nat, key: int, n: nat, t: nat): Generator {
    if t == 0 then g else Resumed(ResumedTimes(g, start, key, n, t - 1), start, key, n)
  }

  function RunsTimes(g: Generator, start: nat, key: int, n: nat, t: nat): seq<nat> {
    if t == 0 then []
    else RunsTimes(g, start, key, n, t - 1) + Runs(ResumedTimes(g, start, key, n, t - 1), start, key, n)
  }

  lemma {:induction false} NothingBeyondKey(g: Generator, start: nat, key: int, n: nat, t: nat)
    requires Stop(g, start, key, n) <= key || Stop(g, start, key, n) >= n
    ensures forall k :: 0 <= k < |RunsTimes(g, start, key, n, t)| ==> RunsTimes(g, start, key, n, t)[k] <= key
    ensures var p := Stop(ResumedTimes(g, start, key, n, t), start, key, n); p <= key || p >= n
  {
    if t > 0 { NothingBeyondKey(g, start, key, n, t - 1); }
  }

  lemma {:induction false} FirstBeyondKey(g: Generator, start: nat, key: int, n: nat, t: nat)
    requires key < Stop(g, start, key, n) < n && t > 0
    ensures RunsTimes(g, start, key, n, t) != [] && RunsTimes(g, start, key, n, t)[0] == Stop(g, start, key, n)
  {
    if t > 1 {
      FirstBeyondKey(g, start, key, n, t - 1);
    } else {
      assert RunsTimes(g, start, key, n, 0) == [];
    }
  }

  /**
   * Nothing beyond the key runs in t executions exactly when there are none, there is nothing to run,
   * or the next stop is not beyond the key. A key behind the position is run past.
   */
  lemma KeyHolds(g: Generator, start: nat, key: int, n: nat, t: nat)
    ensures (forall k :: 0 <= k < |RunsTimes(g, start, key, n, t)| ==> RunsTimes(g, start, key, n, t)[k] <= key)
              <==> t == 0 || Stop(g, start, key, n) <= key || Stop(g, start, key, n) >= n
  {
    if Stop(g, start, key, n) <= key || Stop(g, start, key, n) >= n {
      NothingBeyondKey(g, start, key, n, t);
    } else if t > 0 {
      FirstBeyondKey(g, start, key, n, t);
    }
  }

  /** Where a generator that has not begun gets in t executions, and what it runs on the way. */
  lemma {:induction false} FromStart(start: nat, key: int, n: nat, t: nat)
    ensures var limit := if start <= key < n then key + 1 else n;
            && RunsTimes(NotStarted, start, key, n, t) == Range(start, if start + t < limit then start + t else limit)
            && ResumedTimes(NotStarted, start, key, n, t)
                 == if t == 0 then NotStarted
                    else if start + t <= limit then Suspended(start + t - 1)
                    else if start <= key < n then Suspended(key) else Done
  {
    if t > 0 {
      FromStart(start, key, n, t - 1);
      if start + t - 1 < n { RangeNext(start, start + t - 1); }
    }
  }

  /** A key that is not behind the position is stopped at for good. */
  lemma {:induction false} ParkedAtKey(g: Generator, start: nat, key: int, n: nat, t: nat)
    requires Stop(g, start, key, n) <= key < n && t > key - Stop(g, start, key, n)
    ensures ResumedTimes(g, start, key, n, t) == Suspended(key)
  {
    var p := Stop(g, start, key, n);
    OnTheWay(g, start, key, n, key - p);
    if t > key - p + 1 { ParkedAtKey(g, start, key, n, t - 1); }
  }

  lemma {:induction false} OnTheWay(g: Generator, start: nat, key: int, n: nat, t: nat)
    requires Stop(g, start, key, n) <= key < n && t <= key - Stop(g, start, key, n)
    ensures Stop(ResumedTimes(g, start, key, n, t), start, key, n) == Stop(g, start, key, n) + t
  {
    if t > 0 { OnTheWay(g, start, key, n, t - 1); }
  }

  /** Once an execution stops at the key activity, the following ones stay there until the key is lifted. */
  class ManualKeyActivityChainPipeline {
    const outcomes: seq<int>
    var results: seq<Option<int>>
    var executed: seq<bool>
    var state: State
    var startIndex: nat
    var keyIndex: int                     // -1 when no key is set
    var generator: Generator
    ghost var ran: seq<nat>

    ghost predicate Valid()
      reads this
    {
      && Marked(outcomes, results, executed, ran)
      && (generator.NotStarted? ==> ran == [])
      && (generator.Suspended? ==> startIndex <= generator.i < |outcomes| && ran == Range(startIndex, generator.i + 1))
      && (generator.Done? ==> ran == Range(startIndex, |outcomes|))
      && (state.Waiting? <==> !generator.Done?) && !state.Busy?
    }

    constructor (outcomes: seq<int>)
      ensures Valid() && this.outcomes == outcomes && state == Waiting && generator == NotStarted
      ensures startIndex == 0 && keyIndex == -1 && ran == []
    {
      this.outcomes, results, executed := outcomes, seq(|outcomes|, _ => None), seq(|outcomes|, _ => false);
      state, startIndex, keyIndex, generator, ran := Waiting, 0, -1, NotStarted, [];
    }

    /** Results and executed flags are those of the activities that have run, and of no others. */
    lemma ResultsShow()
      requires Valid()
      ensures |results| == |executed| == |outcomes|
      ensures forall i :: 0 <= i < |results| ==>
                results[i] == (if i in ran then Some(outcomes[i]) else None) && executed[i] == (i in ran)
    {
    }

    method SetKeyActivity(index: int)
      requires Valid()
      modifies this`keyIndex
      ensures Valid() && keyIndex == index
    {
      keyIndex := index;
    }

    method SkipKeyActivity()
      requires Valid()
      modifies this`keyIndex
      ensures Valid() && keyIndex == -1
    {
      keyIndex := -1;
    }

    method SetStartIndex(index: nat)
      requires Valid() && generator.NotStarted?
      modifies this`startIndex
      ensures Valid() && startIndex == index
    {
      startIndex := index;
    }

    /** The activity the next execution stops at. */
    function Position(): nat
      reads this
    {
      Stop(generator, startIndex, keyIndex, |outcomes|)
    }

    /** One execution: stops at the next activity, or again at the key, and runs it if it has not run. */
    method Execute()
      requires Valid()
      modifies this`results, this`executed, this`generator, this`ran, this`state
      ensures Valid() && state == if generator.Done? then Ready else Waiting
      ensures generator == Resumed(old(generator), startIndex, keyIndex, |outcomes|)
      ensures ran == old(ran) + Runs(old(generator), startIndex, keyIndex, |outcomes|)
    {
      if !state.Waiting? { return; }
      var i := Position();
      if i >= |outcomes| {
        generator, state := Done, Ready;
        return;
      }
      RangeNext(startIndex, i);
      assert i in ran <==> generator == Suspended(i);
      if !executed[i] { RunActivity(i); }
      generator := Suspended(i);
    }

    method RunActivity(i: nat)
      requires i < |outcomes| && Marked(outcomes, results, executed, ran) && !executed[i]
      modifies this`results, this`executed, this`ran
      ensures Marked(outcomes, results, executed, ran) && ran == old(ran) + [i]
    {
      ReflectNext(results, outcomes, ran, i);
      results, executed := results[i := Some(outcomes[i])], executed[i := true];
      ran := ran + [i];
    }

    /** Any number of executions while the key is set. */
    method ExecuteTimes(times: nat)
      requires Valid()
      modifies this`results, this`executed, this`generator, this`ran, this`state
      ensures Valid() && |old(ran)| <= |ran| && ran[..|old(ran)|] == old(ran)
      ensures (forall k :: |old(ran)| <= k < |ran| ==> ran[k] <= keyIndex)
                <==> times == 0 || old(Position()) <= keyIndex || old(Position()) >= |outcomes|
      ensures old(Position()) <= keyIndex < |outcomes| && times > keyIndex - old(Position())
              ==> state.Waiting? && generator == Suspended(keyIndex)
      ensures old(generator).NotStarted? ==>
        var limit := if startIndex <= keyIndex < |outcomes| then keyIndex + 1 else |outcomes|;
        ran == Range(startIndex, if startIndex + times < limit then startIndex + times else limit)
    {
      ghost var before, g := ran, generator;
      ExecuteEach(times);
      TimesMeans(before, ran, g, startIndex, keyIndex, |outcomes|, times);
    }

    method ExecuteEach(times: nat)
      requires Valid()
      modifies this`results, this`executed, this`generator, this`ran, this`state
      ensures Valid() && generator == ResumedTimes(old(generator), startIndex, keyIndex, |outcomes|, times)
      ensures ran == old(ran) + RunsTimes(old(generator), startIndex, keyIndex, |outcomes|, times)
    {
      ghost var before, g, n, key := ran, generator, |outcomes|, keyIndex;
      for t := 0 to times
        invariant Valid() && generator == ResumedTimes(g, startIndex, key, n, t)
        invariant ran == before + RunsTimes(g, startIndex, key, n, t)
      {
        Associative(before, RunsTimes(g, startIndex, key, n, t), Runs(generator, startIndex, key, n));
        Execute();
      }
    }
  }

  /** What t executions mean for the list of what has run. */
  lemma TimesMeans(before: seq<nat>, all: seq<nat>, g: Generator, start: nat, key: int, n: nat, t: nat)
    requires all == before + RunsTimes(g, start, key, n, t) && (g.NotStarted? ==> before == [])
    ensures |before| <= |all| && all[..|before|] == before
    ensures (forall k :: |before| <= k < |all| ==> all[k] <= key)
              <==> t == 0 || Stop(g, start, key, n) <= key || Stop(g, start, key, n) >= n
    ensures Stop(g, start, key, n) <= key < n && t > key - Stop(g, start, key, n) ==>
              ResumedTimes(g, start, key, n, t) == Suspended(key)
    ensures g.NotStarted? ==>
              var limit := if start <= key < n then key + 1 else n;
              all == Range(start, if start + t < limit then start + t else limit)
  {
    var added, p := RunsTimes(g, start, key, n, t), Stop(g, start, key, n);
    KeyHolds(g, start, key, n, t);
    Shifted(before, added, key);
    FromStart(start, key, n, t);
    assert [] + added == added;
    if p <= key < n && t > key - p { ParkedAtKey(g, start, key, n, t); }
  }

  lemma Shifted(before: seq<nat>, added: seq<nat>, key: int)
    ensures var all := before + added;
            && all[..|before|] == before
            && ((forall k :: |before| <= k < |all| ==> all[k] <= key) <==> (forall k :: 0 <= k < |added| ==> added[k] <= key))
  {
    var all := before + added;
    assert forall k :: 0 <= k < |added| ==> all[|before| + k] == added[k];
  }

  /** A key set behind the position does not hold: of three activities the last runs beyond key 0. */
  method KeyBehindPosition() returns (pipeline: ManualKeyActivityChainPipeline)
    ensures fresh(pipeline) && pipeline.Valid() && pipeline.keyIndex == 0 && pipeline.ran == [0, 1, 2]
  {
    pipeline := new ManualKeyActivityChainPipeline([7, 8, 9]);
    pipeline.Execute();
    pipeline.Execute();
    pipeline.SetKeyActivity(0);
    pipeline.Execute();
  }
}
