/** What can be said about affinity from the posted jobs alone, whatever the schedule. */
module StealPosts {
  import opened ThreadPool
  import opened ThreadPoolRuns
  import opened StealAffinity
  import opened PostOrder

  /**
   * On some queue an unstealable job was posted after a stealable one, and a thread that
   * looks at that queue was given a job of its own.
   */
  ghost predicate Tempting(jobs: seq<Job>, n: nat) {
    exists a, b, c :: TemptedBy(jobs, n, a, b, c)
  }

  ghost predicate TemptedBy(jobs: seq<Job>, n: nat, a: nat, b: nat, c: nat) {
    && a < b < |jobs| && c < |jobs|
    && jobs[a].target == jobs[b].target && jobs[a].stealable && !jobs[b].stealable
    && jobs[c].target != jobs[a].target && Successor(jobs[c].target, n) != jobs[a].target
  }

  lemma TemptingGrows(jobs: seq<Job>, job: Job, n: nat)
    requires Tempting(jobs, n)
    ensures Tempting(jobs + [job], n)
  {
    var a, b, c :| TemptedBy(jobs, n, a, b, c);
    assert TemptedBy(jobs + [job], n, a, b, c);
  }

  /** Nothing older than a preview is left in its queue. */
  ghost predicate PreviewOld(s: Pool, w: nat)
    requires s.Shaped() && w < |s.workers| && s.workers[w].Taking?
  {
    var i, p := s.workers[w].from, s.workers[w].preview;
    s.jobs[p].stealable && s.jobs[p].target == i && forall k :: 0 <= k < |s.queues[i]| ==> p <= s.queues[i][k]
  }

  ghost predicate PreviewsOld(s: Pool)
    requires s.Shaped()
  {
    forall w :: 0 <= w < |s.workers| && s.workers[w].Taking? ==> PreviewOld(s, w)
  }

  ghost predicate Posted(jobs: seq<Job>, w: nat) {
    exists c :: 0 <= c < |jobs| && jobs[c].target == w
  }

  /** Only a thread that was given a job is, or is about to be, awake. */
  ghost predicate AwakePosted(s: Pool)
    requires s.Shaped()
  {
    forall w :: 0 <= w < |s.workers| && (!s.workers[w].Blocked? || s.tokens[w] > 0 || s.pending[w] > 0) ==> Posted(s.jobs, w)
  }

  ghost predicate Watched(s: Pool) {
    Invariant(s) && Ascending(s) && PreviewsOld(s) && AwakePosted(s)
  }

  lemma PostedGrows(jobs: seq<Job>, job: Job, w: nat)
    requires Posted(jobs, w) || job.target == w
    ensures Posted(jobs + [job], w)
  {
    if Posted(jobs, w) {
      var c :| 0 <= c < |jobs| && jobs[c].target == w;
      assert (jobs + [job])[c].target == w;
    } else {
      assert (jobs + [job])[|jobs|].target == w;
    }
  }

  lemma PushKeepsPreviewsOld(s: Pool, job: Job)
    requires Watched(s) && Enabled(s, Push(job))
    ensures PreviewsOld(PushTo(s, job)) && Ascending(PushTo(s, job))
  {
    var s' := PushTo(s, job);
    forall w | 0 <= w < |s'.workers| && s'.workers[w].Taking? ensures PreviewOld(s', w) {
      assert PreviewOld(s, w);
    }
  }

  lemma PushKeepsWatch(s: Pool, job: Job)
    requires Watched(s) && Enabled(s, Push(job)) && Invariant(PushTo(s, job))
    ensures Watched(PushTo(s, job))
  {
    var s' := PushTo(s, job);
    PushKeepsPreviewsOld(s, job);
    forall w | 0 <= w < |s'.workers| && (!s'.workers[w].Blocked? || s'.tokens[w] > 0 || s'.pending[w] > 0)
      ensures Posted(s'.jobs, w)
    {
      PostedGrows(s.jobs, job, w);
    }
  }

  lemma PopKeepsPreviewsOld(s: Pool, w: nat, i: nat, stolen: bool)
    requires Watched(s) && w < |s.workers| && i < |s.queues| && s.queues[i] != []
    ensures PreviewsOld(PopInto(s, w, i, stolen)) && Ascending(PopInto(s, w, i, stolen))
  {
    var s' := PopInto(s, w, i, stolen);
    forall v | 0 <= v < |s'.workers| && s'.workers[v].Taking? ensures PreviewOld(s', v) {
      assert PreviewOld(s, v);
    }
  }

  lemma PopKeepsWatch(s: Pool, w: nat, i: nat, stolen: bool)
    requires Watched(s) && w < |s.workers| && i < |s.queues| && s.queues[i] != [] && !s.workers[w].Blocked?
    requires Invariant(PopInto(s, w, i, stolen))
    ensures Watched(PopInto(s, w, i, stolen))
  {
    PopKeepsPreviewsOld(s, w, i, stolen);
  }

  lemma MoveKeepsPreviewsOld(s: Pool, a: Action)
    requires Watched(s) && Enabled(s, a) && !a.Push? && Apply(s, a).queues == s.queues
    requires a.Work? && s.workers[a.worker].Taking? ==> s.queues[s.workers[a.worker].from] == []
    ensures PreviewsOld(Apply(s, a))
  {
    var s' := Apply(s, a);
    forall v | 0 <= v < |s'.workers| && s'.workers[v].Taking? ensures PreviewOld(s', v) {
      if s'.workers[v] == s.workers[v] { assert PreviewOld(s, v); }
    }
  }

  lemma MoveKeepsAwake(s: Pool, a: Action)
    requires Watched(s) && Enabled(s, a) && !a.Push?
    ensures AwakePosted(Apply(s, a))
  {
  }

  /** Steps that neither push nor pop. */
  lemma MoveKeepsWatch(s: Pool, a: Action)
    requires Watched(s) && Enabled(s, a) && !a.Push? && Invariant(Apply(s, a)) && Apply(s, a).queues == s.queues
    requires a.Work? && s.workers[a.worker].Taking? ==> s.queues[s.workers[a.worker].from] == []
    ensures Watched(Apply(s, a))
  {
    MoveKeepsPreviewsOld(s, a);
    MoveKeepsAwake(s, a);
  }

  lemma StepKeepsWatch(s: Pool, a: Action)
    requires Watched(s) && Enabled(s, a)
    ensures Watched(Apply(s, a))
  {
    StepKeepsInvariant(s, a);
    match a
    case Push(job) => if Apply(s, a) == PushTo(s, job) { PushKeepsWatch(s, job); }
    case Release(_) => MoveKeepsWatch(s, a);
    case Work(w) =>
      var pc := s.workers[w];
      if pc.Popping? && s.queues[w] != [] {
        PopKeepsWatch(s, w, w, false);
      } else if pc.Taking? && s.queues[pc.from] != [] {
        PopKeepsWatch(s, w, pc.from, true);
      } else {
        MoveKeepsWatch(s, a);
      }
  }

  /** A thief that pops an unstealable front was tempted by an older stealable one. */
  lemma TakingIsTempted(s: Pool, a: Action)
    requires Watched(s) && Enabled(s, a) && TakesUnstealable(s, a)
    ensures Tempting(s.jobs, |s.workers|)
  {
    var w := a.worker;
    var i, p := s.workers[w].from, s.workers[w].preview;
    var t := s.queues[i][0];
    assert PreviewOld(s, w) && Skips(s.workers[w], w, |s.workers|) && Posted(s.jobs, w);
    var c :| 0 <= c < |s.jobs| && s.jobs[c].target == w;
    assert s.jobs[t].target == i && p < t;
    assert TemptedBy(s.jobs, |s.workers|, p, t, c);
  }

  lemma StepTempted(s: Pool, a: Action)
    requires Watched(s) && Enabled(s, a) && (RespectsAffinity(s) || Tempting(s.jobs, |s.workers|))
    ensures Watched(Apply(s, a)) && |Apply(s, a).workers| == |s.workers|
    ensures RespectsAffinity(Apply(s, a)) || Tempting(Apply(s, a).jobs, |s.workers|)
  {
    StepKeepsWatch(s, a);
    var n := |s.workers|;
    if Tempting(s.jobs, n) {
      if a.Push? { TemptingGrows(s.jobs, a.job, n); }
    } else {
      if TakesUnstealable(s, a) { TakingIsTempted(s, a); }
      StepAffinity(s, a);
    }
  }

  lemma {:induction false} TemptedFrom(s: Pool, actions: seq<Action>)
    requires Watched(s) && Feasible(s, actions) && (RespectsAffinity(s) || Tempting(s.jobs, |s.workers|))
    ensures Watched(After(s, actions)) && |After(s, actions).workers| == |s.workers|
    ensures RespectsAffinity(After(s, actions)) || Tempting(After(s, actions).jobs, |s.workers|)
    decreases |actions|
  {
    if actions != [] {
      StepTempted(s, actions[0]);
      TemptedFrom(Apply(s, actions[0]), actions[1..]);
    }
  }

  lemma NotTempting(jobs: seq<Job>, n: nat)
    requires forall a, b, c :: 0 <= a < b < |jobs| && 0 <= c < |jobs| ==>
               || jobs[a].target != jobs[b].target || !jobs[a].stealable || jobs[b].stealable
               || jobs[c].target == jobs[a].target || Successor(jobs[c].target, n) == jobs[a].target
    ensures !Tempting(jobs, n)
  {
  }

  /**
   * When no unstealable job was posted after a stealable one of the same thread, or no thread that looks at
   * that queue was given a job, unstealable activities stay on their threads in every schedule.
   */
  lemma UntemptingPostsRespectAffinity(n: nat, actions: seq<Action>, jobs: seq<Job>)
    requires Feasible(Start(n), actions) && jobs == After(Start(n), actions).jobs
    requires forall a, b, c :: 0 <= a < b < |jobs| && 0 <= c < |jobs| ==>
               || jobs[a].target != jobs[b].target || !jobs[a].stealable || jobs[b].stealable
               || jobs[c].target == jobs[a].target || Successor(jobs[c].target, n) == jobs[a].target
    ensures Invariant(After(Start(n), actions)) && RespectsAffinity(After(Start(n), actions))
  {
    NotTempting(jobs, n);
    TemptedFrom(Start(n), actions);
  }
}
