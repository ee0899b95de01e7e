/**
 * Which thread an activity is posted to. The queue sizes are read once each;
 * busy flags are read again at every comparison, and may change in between.
 */
module ThreadPriority {

  /** The value of an index that was never set. */
  const NO_THREAD: nat := 0xFFFF_FFFF_FFFF_FFFF

  /** What a read of a thread's busy flag gives at a moment. */
  type Flags = (nat, nat) -> bool

  /** The flags of all threads below |busy| do not change. */
  ghost predicate Steady(flags: Flags, busy: seq<bool>) {
    forall t, moment: nat :: 0 <= t < |busy| ==> flags(t, moment) == busy[t]
  }

  /** Less queued first, then busy or idle as wanted, then the lower index. */
  ghost predicate Precedes(sizes: seq<nat>, busy: seq<bool>, busyFirst: bool, i: nat, j: nat)
    requires i < |sizes| == |busy| && j < |sizes|
  {
    || sizes[i] < sizes[j]
    || (sizes[i] == sizes[j] && busy[i] != busy[j] && busy[i] == busyFirst)
    || (sizes[i] == sizes[j] && busy[i] == busy[j] && i <= j)
  }

  /** The first of the threads below n, leaving `except` out. */
  ghost predicate IsFirst(sizes: seq<nat>, busy: seq<bool>, busyFirst: bool, except: nat, n: nat, low: nat)
    requires n <= |sizes| == |busy|
  {
    if low < n then
      low != except && forall j :: 0 <= j < n && j != except ==> Precedes(sizes, busy, busyFirst, low, j)
    else
      low == NO_THREAD && (n == 0 || (n == 1 && except == 0))
  }

  /** No thread below n, `except` left out, has less queued. */
  ghost predicate IsLeast(sizes: seq<nat>, except: nat, n: nat, low: nat)
    requires n <= |sizes|
  {
    if low < n then
      low != except && forall j :: 0 <= j < n && j != except ==> sizes[low] <= sizes[j]
    else
      low == NO_THREAD && (n == 0 || (n == 1 && except == 0))
  }

  lemma StillFirst(sizes: seq<nat>, busy: seq<bool>, busyFirst: bool, except: nat, n: nat, low: nat)
    requires n < |sizes| == |busy| < NO_THREAD && IsFirst(sizes, busy, busyFirst, except, n, low)
    requires n == except || (low < n && Precedes(sizes, busy, busyFirst, low, n))
    ensures IsFirst(sizes, busy, busyFirst, except, n + 1, low)
  {
  }

  lemma NowFirst(sizes: seq<nat>, busy: seq<bool>, busyFirst: bool, except: nat, n: nat, low: nat)
    requires n < |sizes| == |busy| < NO_THREAD && IsFirst(sizes, busy, busyFirst, except, n, low)
    requires n != except && (low < n ==> !Precedes(sizes, busy, busyFirst, low, n))
    ensures IsFirst(sizes, busy, busyFirst, except, n + 1, n)
  {
    forall j | 0 <= j < n + 1 && j != except ensures Precedes(sizes, busy, busyFirst, n, j) {
      if j < n && low < n { assert Precedes(sizes, busy, busyFirst, low, j); }
    }
  }

  lemma NextFirst(sizes: seq<nat>, busy: seq<bool>, busyFirst: bool, except: nat, n: nat, low: nat)
    requires n < |sizes| == |busy| < NO_THREAD && IsFirst(sizes, busy, busyFirst, except, n, low)
    ensures var next := if n == except || (low < n && Precedes(sizes, busy, busyFirst, low, n)) then low else n;
            IsFirst(sizes, busy, busyFirst, except, n + 1, next)
  {
    if n == except || (low < n && Precedes(sizes, busy, busyFirst, low, n)) {
      StillFirst(sizes, busy, busyFirst, except, n, low);
    } else {
      NowFirst(sizes, busy, busyFirst, except, n, low);
    }
  }

  /** For an activity that must not wait for its own thread: idle threads win ties. */
  method TopPriorityThreadExcept(sizes: seq<nat>, flags: Flags, dependency: nat, ghost busy: seq<bool>) returns (lowIdx: nat)
    requires |sizes| == |busy| < NO_THREAD && forall i :: 0 <= i < |sizes| ==> sizes[i] < NO_THREAD
    ensures IsLeast(sizes, dependency, |sizes|, lowIdx)
    ensures Steady(flags, busy) ==> IsFirst(sizes, busy, false, dependency, |sizes|, lowIdx)
  {
    lowIdx := NO_THREAD;
    var lowSize := NO_THREAD;
    for idx: nat := 0 to |sizes|
      invariant IsLeast(sizes, dependency, idx, lowIdx)
      invariant Steady(flags, busy) ==> IsFirst(sizes, busy, false, dependency, idx, lowIdx)
      invariant lowSize == if lowIdx < idx then sizes[lowIdx] else NO_THREAD
    {
      if Steady(flags, busy) { NextFirst(sizes, busy, false, dependency, idx, lowIdx); }
      if idx == dependency { continue; }
      var curSize := sizes[idx];
      if curSize < lowSize {
        lowIdx, lowSize := idx, curSize;
      } else if curSize == lowSize {
        var curState := flags(idx, 2 * idx);
        var isLowState := flags(lowIdx, 2 * idx + 1);
        if !curState && isLowState {
          lowIdx := idx;
        } else if curState == isLowState && idx < lowIdx {
          lowIdx := idx;
        }
      }
    }
  }

  /** For a new object: busy threads win ties. */
  method TopPriorityThread(sizes: seq<nat>, flags: Flags, ghost busy: seq<bool>) returns (lowIdx: nat)
    requires |sizes| == |busy| < NO_THREAD && forall i :: 0 <= i < |sizes| ==> sizes[i] < NO_THREAD
    ensures IsLeast(sizes, NO_THREAD, |sizes|, lowIdx)
    ensures Steady(flags, busy) ==> IsFirst(sizes, busy, true, NO_THREAD, |sizes|, lowIdx)
  {
    lowIdx := NO_THREAD;
    var lowSize := NO_THREAD;
    for idx: nat := 0 to |sizes|
      invariant IsLeast(sizes, NO_THREAD, idx, lowIdx)
      invariant Steady(flags, busy) ==> IsFirst(sizes, busy, true, NO_THREAD, idx, lowIdx)
      invariant lowSize == if lowIdx < idx then sizes[lowIdx] else NO_THREAD
    {
      if Steady(flags, busy) { NextFirst(sizes, busy, true, NO_THREAD, idx, lowIdx); }
      var curSize := sizes[idx];
      if curSize < lowSize {
        lowIdx, lowSize := idx, curSize;
      } else if curSize == lowSize {
        var curState := flags(idx, 2 * idx);
        var isLowState := flags(lowIdx, 2 * idx + 1);
        if curState && !isLowState {
          lowIdx, lowSize := idx, curSize;
        } else if curState == isLowState && idx < lowIdx {
          lowIdx, lowSize := idx, curSize;
        }
      }
    }
  }

  /** The queue postActivity pushes to. */
  method PostTarget(sizes: seq<nat>, flags: Flags, affinity: nat, dependency: nat, ghost busy: seq<bool>) returns (idx: nat)
    requires |sizes| == |busy| < NO_THREAD && forall i :: 0 <= i < |sizes| ==> sizes[i] < NO_THREAD
    ensures affinity < |sizes| ==> idx == affinity
    ensures affinity >= |sizes| ==> IsLeast(sizes, dependency, |sizes|, idx)
    ensures affinity >= |sizes| && Steady(flags, busy) ==> IsFirst(sizes, busy, false, dependency, |sizes|, idx)
    ensures affinity >= |sizes| && idx < |sizes| ==>
              idx != dependency && forall j :: 0 <= j < |sizes| && j != dependency ==> sizes[idx] <= sizes[j]
    ensures affinity >= |sizes| && idx < |sizes| && Steady(flags, busy) ==>
              forall j :: 0 <= j < |sizes| && j != dependency && sizes[j] == sizes[idx] ==>
                (!busy[idx] && busy[j]) || (busy[idx] == busy[j] && idx <= j)
    ensures idx < |sizes| <==> affinity < |sizes| || |sizes| > 1 || (|sizes| == 1 && dependency != 0)
  {
    if affinity < |sizes| {
      idx := affinity;
    } else {
      idx := TopPriorityThreadExcept(sizes, flags, dependency, busy);
      if Steady(flags, busy) && idx < |sizes| {
        forall j | 0 <= j < |sizes| && j != dependency && sizes[j] == sizes[idx]
          ensures (!busy[idx] && busy[j]) || (busy[idx] == busy[j] && idx <= j)
        {
          assert Precedes(sizes, busy, false, idx, j);
        }
      }
    }
  }

  /** A pool of one thread, on which the activity depends: the index is outside the pool. */
  method PostWithoutOtherThread() returns (idx: nat)
    ensures idx == NO_THREAD
  {
    idx := PostTarget([0], (_, _) => false, NO_THREAD, 0, [false]);
  }

  /** There is only one first thread. */
  lemma FirstIsUnique(sizes: seq<nat>, busy: seq<bool>, busyFirst: bool, except: nat, a: nat, b: nat)
    requires |sizes| == |busy| < NO_THREAD
    requires IsFirst(sizes, busy, busyFirst, except, |sizes|, a) && IsFirst(sizes, busy, busyFirst, except, |sizes|, b)
    ensures a == b
  {
    var n := |sizes|;
    if a < n && b < n {
      assert Precedes(sizes, busy, busyFirst, a, b) && Precedes(sizes, busy, busyFirst, b, a);
    }
  }
}
