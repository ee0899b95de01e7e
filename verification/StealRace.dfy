/** A run in which an unstealable activity runs on a foreign thread. */
module StealRace {
  import opened ThreadPool
  import opened ThreadPoolRuns
  import opened StealAffinity

  lemma {:induction false} Extend(s: Pool, actions: seq<Action>, a: Action)
    requires s.Shaped() && Feasible(s, actions) && Enabled(After(s, actions), a)
    ensures Feasible(s, actions + [a]) && After(s, actions + [a]) == Apply(After(s, actions), a)
    decreases |actions|
  {
    if actions == [] {
      assert (actions + [a])[1..] == [];
    } else {
      assert (actions + [a])[1..] == actions[1..] + [a];
      Extend(Apply(s, actions[0]), actions[1..], a);
    }
  }

  /**
   * Three threads. Thread 2 is given a stealable bait and an unstealable prize,
   * and thread 0 an errand after which it looks for something to steal. It
   * previews the bait, thread 2 pops the bait, and thread 0 pops the prize.
   */
  const BAIT := Job(0, 2, true)
  const PRIZE := Job(1, 2, false)
  const ERRAND := Job(2, 0, true)

  function Act(k: nat): Action {
    match k
    case 0 => Push(BAIT)
    case 1 => Push(PRIZE)
    case 2 => Push(ERRAND)
    case 3 => Release(0)
    case 4 => Release(2)
    case _ => Work(if 11 <= k < 14 then 2 else 0)
  }

  /** Before the errand has run: nothing but thread 0 has moved. */
  function Early(q0: seq<Ticket>, q2: seq<Ticket>, tokens: seq<nat>, pending: seq<nat>, w0: Pc,
                 jobs: seq<Job>, place: seq<Place>): Pool {
    Pool([q0, [], q2], tokens, pending, [w0, Blocked, Blocked], {}, [], jobs, place)
  }

  /** After it: the errand is finished, bait and prize are where they are said to be. */
  function Late(q2: seq<Ticket>, token: nat, w0: Pc, w2: Pc, bait: Place, prize: Place): Pool {
    Pool([[], [], q2], [0, 0, token], [0, 0, 1], [w0, Blocked, w2], {2}, [Execution(2, 0)],
         [BAIT, PRIZE, ERRAND], [bait, prize, Finished])
  }

  const JOBS := [BAIT, PRIZE, ERRAND]

  /** The state after k steps of the race. */
  function Scene(k: nat): Pool {
    match k
    case 0 => Early([], [], [0, 0, 0], [0, 0, 0], Blocked, [], [])
    case 1 => Early([], [0], [0, 0, 0], [0, 0, 1], Blocked, [BAIT], [InQueue(2)])
    case 2 => Early([], [0, 1], [0, 0, 0], [0, 0, 2], Blocked, [BAIT, PRIZE], [InQueue(2), InQueue(2)])
    case 3 => Early([2], [0, 1], [0, 0, 0], [1, 0, 2], Blocked, JOBS, [InQueue(2), InQueue(2), InQueue(0)])
    case 4 => Early([2], [0, 1], [1, 0, 0], [0, 0, 2], Blocked, JOBS, [InQueue(2), InQueue(2), InQueue(0)])
    case 5 => Early([2], [0, 1], [1, 0, 1], [0, 0, 1], Blocked, JOBS, [InQueue(2), InQueue(2), InQueue(0)])
    case 6 => Early([2], [0, 1], [0, 0, 1], [0, 0, 1], Draining, JOBS, [InQueue(2), InQueue(2), InQueue(0)])
    case 7 => Early([2], [0, 1], [0, 0, 1], [0, 0, 1], Popping, JOBS, [InQueue(2), InQueue(2), InQueue(0)])
    case 8 => Early([], [0, 1], [0, 0, 1], [0, 0, 1], Running(2, false), JOBS, [InQueue(2), InQueue(2), InHand(0)])
    case 9 => Late([0, 1], 1, Draining, Blocked, InQueue(2), InQueue(2))
    case 10 => Late([0, 1], 1, Probing(2), Blocked, InQueue(2), InQueue(2))
    case 11 => Late([0, 1], 1, Taking(2, 0), Blocked, InQueue(2), InQueue(2))
    case 12 => Late([0, 1], 0, Taking(2, 0), Draining, InQueue(2), InQueue(2))
    case 13 => Late([0, 1], 0, Taking(2, 0), Popping, InQueue(2), InQueue(2))
    case 14 => Late([1], 0, Taking(2, 0), Running(0, false), InHand(2), InQueue(2))
    case _ => Late([], 0, Running(1, true), Running(0, false), InHand(2), InHand(0))
  }

  /** Action a leads from s to s'. */
  ghost predicate LeadsTo(s: Pool, a: Action, s': Pool) {
    s.Shaped() && Enabled(s, a) && Apply(s, a) == s'
  }

  lemma SameQueues(a: seq<seq<Ticket>>, b: seq<seq<Ticket>>)
    requires |a| == |b| == 3 && a[0] == b[0] && a[1] == b[1] && a[2] == b[2]
    ensures a == b
  {
  }

  lemma Scene0()
    ensures LeadsTo(Scene(0), Act(0), Scene(1))
  {
    SameQueues(Apply(Scene(0), Act(0)).queues, Scene(1).queues);
  }

  lemma Scene1()
    ensures LeadsTo(Scene(1), Act(1), Scene(2))
  {
    SameQueues(Apply(Scene(1), Act(1)).queues, Scene(2).queues);
  }

  lemma Scene2()
    ensures LeadsTo(Scene(2), Act(2), Scene(3))
  {
    SameQueues(Apply(Scene(2), Act(2)).queues, Scene(3).queues);
  }

  lemma Scenes3And4(k: nat)
    requires 3 <= k < 5
    ensures LeadsTo(Scene(k), Act(k), Scene(k + 1))
  {
    SameQueues(Apply(Scene(k), Act(k)).queues, Scene(k + 1).queues);
  }

  lemma Scenes5And6(k: nat)
    requires 5 <= k < 7
    ensures LeadsTo(Scene(k), Act(k), Scene(k + 1))
  {
    SameQueues(Apply(Scene(k), Act(k)).queues, Scene(k + 1).queues);
  }

  lemma Scenes7And8(k: nat)
    requires 7 <= k < 9
    ensures LeadsTo(Scene(k), Act(k), Scene(k + 1))
  {
    SameQueues(Apply(Scene(k), Act(k)).queues, Scene(k + 1).queues);
  }

  lemma Scenes9And10(k: nat)
    requires 9 <= k < 11
    ensures LeadsTo(Scene(k), Act(k), Scene(k + 1))
  {
    SameQueues(Apply(Scene(k), Act(k)).queues, Scene(k + 1).queues);
  }

  lemma Scenes11And12(k: nat)
    requires 11 <= k < 13
    ensures LeadsTo(Scene(k), Act(k), Scene(k + 1))
  {
    SameQueues(Apply(Scene(k), Act(k)).queues, Scene(k + 1).queues);
  }

  lemma Scene13()
    ensures LeadsTo(Scene(13), Act(13), Scene(14))
  {
    SameQueues(Apply(Scene(13), Act(13)).queues, Scene(14).queues);
  }

  lemma Scene14()
    ensures LeadsTo(Scene(14), Act(14), Scene(15))
  {
    SameQueues(Apply(Scene(14), Act(14)).queues, Scene(15).queues);
  }

  lemma SceneStep(k: nat)
    requires k < 15
    ensures LeadsTo(Scene(k), Act(k), Scene(k + 1))
  {
    if k == 0 { Scene0(); } else if k == 1 { Scene1(); } else if k == 2 { Scene2(); }
    else if k < 5 { Scenes3And4(k); } else if k < 7 { Scenes5And6(k); } else if k < 9 { Scenes7And8(k); }
    else if k < 11 { Scenes9And10(k); } else if k < 13 { Scenes11And12(k); } else if k == 13 { Scene13(); } else { Scene14(); }
  }

  lemma {:induction false} RunTo(k: nat) returns (run: seq<Action>)
    requires k <= 15
    ensures Feasible(Start(3), run) && After(Start(3), run) == Scene(k)
  {
    run := [];
    if k == 0 {
      assert Start(3) == Scene(0);
    } else {
      run := RunTo(k - 1);
      SceneStep(k - 1);
      Extend(Start(3), run, Act(k - 1));
      run := run + [Act(k - 1)];
    }
  }

  lemma PrizeInHand()
    ensures Scene(15).workers == [Running(1, true), Blocked, Running(0, false)] && Scene(15).jobs == JOBS
  {
  }

  /** In the end thread 0 has run the unstealable prize, which it never inspected. */
  lemma StealRaceExists() returns (run: seq<Action>)
    ensures Feasible(Start(3), run) && Invariant(After(Start(3), run))
    ensures var s := After(Start(3), run); exists x :: x in s.runs && Foreign(s, x.ticket, x.worker)
  {
    run := RunTo(15);
    PoolIsSafe(3, run);
    PrizeInHand();
    ForeignHandRuns(Scene(15), 0);
    Extend(Start(3), run, Work(0));
    run := run + [Work(0)];
    PoolIsSafe(3, run);
  }
}
