/**
 * Any number of threads calling one proxy. A call first checks that there is
 * something to execute, then tries to flip the executed flag, and only the
 * call that flips it runs the activity and clears the function afterwards.
 */
module ActivityProxies {

  datatype Phase =
    | Outside
    | Checked          // found a function to execute
    | Won              // flipped the flag, about to run the activity
    | Ran              // the activity has run, the function is still set
    | Returned
    | Threw

  datatype Proxy = Proxy(executed: bool, hasFunction: bool, runs: nat, phase: seq<Phase>)

  function Init(threads: nat): Proxy {
    Proxy(false, true, 0, seq(threads, _ => Outside))
  }

  /** Thread t moves on by one atomic step; a finished call can be made again. */
  function Step(s: Proxy, t: nat): Proxy
    requires t < |s.phase|
  {
    match s.phase[t]
    case Outside => s.(phase := s.phase[t := if s.hasFunction then Checked else Threw])
    case Checked =>
      if s.executed then s.(phase := s.phase[t := Returned])
      else s.(executed := true, phase := s.phase[t := Won])
    case Won => s.(runs := s.runs + 1, phase := s.phase[t := Ran])
    case Ran => s.(hasFunction := false, phase := s.phase[t := Returned])
    case Returned => s.(phase := s.phase[t := Outside])
    case Threw => s.(phase := s.phase[t := Outside])
  }

  ghost predicate AtMostOneInside(phase: seq<Phase>) {
    forall t, u :: 0 <= t < |phase| && 0 <= u < |phase| && Inside(phase[t]) && Inside(phase[u]) ==> t == u
  }

  predicate Inside(p: Phase) { p.Won? || p.Ran? }

  ghost predicate SomeoneInside(phase: seq<Phase>) {
    exists t :: 0 <= t < |phase| && Inside(phase[t])
  }

  ghost predicate Safe(s: Proxy) {
    && AtMostOneInside(s.phase)
    && (SomeoneInside(s.phase) ==> s.executed && s.hasFunction)
    && (!s.hasFunction ==> s.executed && s.runs == 1)
    && (!s.executed ==> s.runs == 0)
    && (s.executed && s.hasFunction ==> SomeoneInside(s.phase))
    && (forall t :: 0 <= t < |s.phase| ==> (s.phase[t].Won? ==> s.runs == 0) && (s.phase[t].Ran? ==> s.runs == 1))
  }

  lemma InitIsSafe(threads: nat)
    ensures Safe(Init(threads))
  {
  }

  lemma StepKeepsSafe(s: Proxy, t: nat)
    requires Safe(s) && t < |s.phase|
    ensures Safe(Step(s, t))
  {
    var s' := Step(s, t);
    assert forall u :: 0 <= u < |s.phase| && u != t ==> s'.phase[u] == s.phase[u];
    match s.phase[t]
    case Outside =>
      if SomeoneInside(s.phase) {
        var u :| 0 <= u < |s.phase| && Inside(s.phase[u]);
        assert Inside(s'.phase[u]);
      }
    case Checked =>
      if SomeoneInside(s.phase) {
        var u :| 0 <= u < |s.phase| && Inside(s.phase[u]);
        assert Inside(s'.phase[u]);
      } else {
        assert !s.executed ==> Inside(s'.phase[t]);
      }
    case Won => assert Inside(s.phase[t]) && Inside(s'.phase[t]);
    case Ran => assert Inside(s.phase[t]);
    case Returned =>
      if SomeoneInside(s.phase) {
        var u :| 0 <= u < |s.phase| && Inside(s.phase[u]);
        assert Inside(s'.phase[u]);
      }
    case Threw =>
      if SomeoneInside(s.phase) {
        var u :| 0 <= u < |s.phase| && Inside(s.phase[u]);
        assert Inside(s'.phase[u]);
      }
  }

  function Run(s: Proxy, schedule: seq<nat>): (r: Proxy)
    requires forall k :: 0 <= k < |schedule| ==> schedule[k] < |s.phase|
    ensures |r.phase| == |s.phase|
    decreases |schedule|
  {
    if schedule == [] then s else Run(Step(s, schedule[0]), schedule[1..])
  }

  lemma {:induction false} RunKeepsSafe(s: Proxy, schedule: seq<nat>)
    requires Safe(s) && forall k :: 0 <= k < |schedule| ==> schedule[k] < |s.phase|
    ensures Safe(Run(s, schedule))
    decreases |schedule|
  {
    if schedule != [] {
      StepKeepsSafe(s, schedule[0]);
      RunKeepsSafe(Step(s, schedule[0]), schedule[1..]);
    }
  }

  /** In every interleaving the activity runs at most once, and has run once the function is gone. */
  lemma RunsAtMostOnce(threads: nat, schedule: seq<nat>)
    requires forall k :: 0 <= k < |schedule| ==> schedule[k] < threads
    ensures var r := Run(Init(threads), schedule);
            r.runs <= 1 && (!r.hasFunction ==> r.runs == 1) && (r.runs == 1 ==> r.executed)
    ensures forall t :: 0 <= t < threads ==> var r := Run(Init(threads), schedule); (r.phase[t].Ran? ==> r.runs == 1)
  {
    InitIsSafe(threads);
    RunKeepsSafe(Init(threads), schedule);
    var r := Run(Init(threads), schedule);
    if r.executed && r.hasFunction {
      var t :| 0 <= t < threads && Inside(r.phase[t]);
      assert r.phase[t].Won? || r.phase[t].Ran?;
    }
  }

  /** A call only returns once the flag is set, and only throws once the function is gone. */
  ghost predicate OutcomesHold(s: Proxy) {
    && (forall t :: 0 <= t < |s.phase| && s.phase[t] == Returned ==> s.executed)
    && (forall t :: 0 <= t < |s.phase| && s.phase[t] == Threw ==> !s.hasFunction)
  }

  lemma StepKeepsOutcomes(s: Proxy, t: nat)
    requires Safe(s) && OutcomesHold(s) && t < |s.phase|
    ensures OutcomesHold(Step(s, t)) && (s.executed ==> Step(s, t).executed) && (!s.hasFunction ==> !Step(s, t).hasFunction)
  {
    if s.phase[t].Ran? { assert Inside(s.phase[t]); }
  }

  lemma {:induction false} RunKeepsOutcomes(s: Proxy, schedule: seq<nat>)
    requires Safe(s) && OutcomesHold(s) && forall k :: 0 <= k < |schedule| ==> schedule[k] < |s.phase|
    ensures var r := Run(s, schedule); OutcomesHold(r) && (s.executed ==> r.executed) && (!s.hasFunction ==> !r.hasFunction)
    decreases |schedule|
  {
    if schedule != [] {
      StepKeepsSafe(s, schedule[0]);
      StepKeepsOutcomes(s, schedule[0]);
      RunKeepsOutcomes(Step(s, schedule[0]), schedule[1..]);
    }
  }

  /**
   * Once some call has returned, the flag is set for good, and the activity has run or exactly one call is
   * running it; when none is, it has run once and the function is gone. Once a call has thrown, it has run.
   */
  lemma ReturnedMeansRun(threads: nat, schedule: seq<nat>, later: seq<nat>, t: nat)
    requires forall k :: 0 <= k < |schedule| ==> schedule[k] < threads
    requires forall k :: 0 <= k < |later| ==> later[k] < threads
    requires t < threads
    ensures var r := Run(Init(threads), schedule);
            var end := Run(r, later);
            && (r.phase[t] == Returned ==>
                  && end.executed
                  && (end.runs == 1 || exists u :: 0 <= u < threads && (end.phase[u] == Won || end.phase[u] == Ran))
                  && (forall u, x :: 0 <= u < x < threads && (end.phase[u] == Won || end.phase[u] == Ran) ==>
                        end.phase[x] != Won && end.phase[x] != Ran)
                  && ((forall u :: 0 <= u < threads ==> end.phase[u] != Won && end.phase[u] != Ran) ==>
                        end.runs == 1 && !end.hasFunction))
            && (r.phase[t] == Threw ==> end.runs == 1 && !end.hasFunction)
  {
    var r := Run(Init(threads), schedule);
    var end := Run(r, later);
    InitIsSafe(threads);
    RunKeepsSafe(Init(threads), schedule);
    RunKeepsOutcomes(Init(threads), schedule);
    RunKeepsSafe(r, later);
    RunKeepsOutcomes(r, later);
    assert forall u, x :: 0 <= u < x < threads && Inside(end.phase[u]) ==> !Inside(end.phase[x]);
    if end.executed && end.hasFunction {
      var u :| 0 <= u < |end.phase| && Inside(end.phase[u]);
      assert end.phase[u] == Won || end.phase[u] == Ran;
    }
  }

  /** At some point of the run the call of thread t is over. */
  ghost predicate Ends(s: Proxy, schedule: seq<nat>, t: nat)
    requires t < |s.phase| && forall k :: 0 <= k < |schedule| ==> schedule[k] < |s.phase|
    decreases |schedule|
  {
    || s.phase[t] == Returned || s.phase[t] == Threw
    || (schedule != [] && Ends(Step(s, schedule[0]), schedule[1..], t))
  }

  ghost function StepsLeft(p: Phase): nat {
    match p
    case Outside => 4
    case Checked => 3
    case Won => 2
    case Ran => 1
    case Returned => 0
    case Threw => 0
  }

  lemma {:induction false} EndsInTime(s: Proxy, schedule: seq<nat>, t: nat)
    requires t < |s.phase| && forall k :: 0 <= k < |schedule| ==> schedule[k] < |s.phase|
    requires multiset(schedule)[t] >= StepsLeft(s.phase[t])
    ensures Ends(s, schedule, t)
    decreases |schedule|
  {
    if StepsLeft(s.phase[t]) > 0 {
      assert schedule != [];
      assert multiset(schedule) == multiset{schedule[0]} + multiset(schedule[1..]) by {
        assert schedule == [schedule[0]] + schedule[1..];
      }
      EndsInTime(Step(s, schedule[0]), schedule[1..], t);
    }
  }

  /** Whatever the others do in between, a call is over after four steps of its own. */
  lemma CallsEnd(s: Proxy, schedule: seq<nat>, t: nat)
    requires t < |s.phase| && forall k :: 0 <= k < |schedule| ==> schedule[k] < |s.phase|
    requires multiset(schedule)[t] >= 4
    ensures Ends(s, schedule, t)
  {
    EndsInTime(s, schedule, t);
  }

  /** A first call that nobody disturbs runs the activity and returns. */
  lemma FirstCallRuns(threads: nat, t: nat)
    requires t < threads
    ensures var r := Run(Init(threads), [t, t, t, t]);
            r.runs == 1 && r.executed && !r.hasFunction && r.phase == Init(threads).phase[t := Returned]
  {
    var s := Init(threads);
    var checked := Step(s, t);
    var won := Step(checked, t);
    var ran := Step(won, t);
    assert Run(s, [t, t, t, t]) == Run(checked, [t, t, t]) == Run(won, [t, t]) == Run(ran, [t]) == Run(Step(ran, t), []);
  }

  /**
   * Once the function is gone it is gone for good: in every continuation the one run stays the only one,
   * and a call that starts throws.
   */
  lemma {:induction false} LateCallsThrow(s: Proxy, schedule: seq<nat>, t: nat)
    requires Safe(s) && !s.hasFunction && forall k :: 0 <= k < |schedule| ==> schedule[k] < |s.phase|
    requires t < |s.phase|
    ensures var r := Run(s, schedule);
            !r.hasFunction && r.executed && r.runs == 1 && (r.phase[t] == Outside ==> Step(r, t) == r.(phase := r.phase[t := Threw]))
    decreases |schedule|
  {
    if schedule != [] {
      StepKeepsSafe(s, schedule[0]);
      LateCallsThrow(Step(s, schedule[0]), schedule[1..], t);
    }
  }
}
