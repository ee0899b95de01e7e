/** The ring queue used by one thread at a time: a bounded FIFO of N - 1 elements. */
module ActivityQueue {
  import opened Basics
  import Remainders

  class ActivityQueue<T(0)> {
    const data: array<T>
    var frontIndex: nat
    var rearIndex: nat

    ghost predicate Valid()
      reads this, data
    {
      data.Length > 0 && frontIndex < data.Length && rearIndex < data.Length
    }

    /** The queued elements, oldest first. One slot always stays free. */
    ghost function Contents(): (s: seq<T>)
      requires Valid()
      reads this, data
      ensures |s| < data.Length
    {
      if frontIndex <= rearIndex then data[frontIndex..rearIndex]
      else data[frontIndex..] + data[..rearIndex]
    }

    constructor (capacity: nat)
      requires capacity > 0
      ensures Valid() && fresh(data) && data.Length == capacity && Contents() == []
    {
      data := new T[capacity];
      frontIndex, rearIndex := 0, 0;
    }

    method IsFull() returns (full: bool)
      requires Valid()
      ensures full <==> |Contents()| == data.Length - 1
    {
      Remainders.WrapAround(rearIndex, data.Length);
      full := frontIndex == (rearIndex + 1) % data.Length;
    }

    method IsEmpty() returns (empty: bool)
      requires Valid()
      ensures empty <==> Contents() == []
    {
      empty := frontIndex == rearIndex;
    }

    method Size() returns (n: nat)
      requires Valid()
      ensures n == |Contents()|
    {
      n := if rearIndex >= frontIndex then rearIndex - frontIndex
           else data.Length - (frontIndex - rearIndex);
    }

    method Push(t: T) returns (ok: bool)
      requires Valid()
      modifies this`rearIndex, data
      ensures Valid()
      ensures ok <==> |old(Contents())| < data.Length - 1
      ensures Contents() == if ok then old(Contents()) + [t] else old(Contents())
    {
      Remainders.WrapAround(rearIndex, data.Length);
      var rearNew := (rearIndex + 1) % data.Length;
      if rearNew == frontIndex { return false; }
      data[rearIndex] := t;
      rearIndex := rearNew;
      ok := true;
    }

    method Pop() returns (t: Option<T>)
      requires Valid()
      modifies this`frontIndex
      ensures Valid()
      ensures t == if old(Contents()) == [] then None else Some(old(Contents())[0])
      ensures Contents() == if t.None? then [] else old(Contents())[1..]
    {
      if frontIndex == rearIndex { return None; }
      Remainders.WrapAround(frontIndex, data.Length);
      t := Some(data[frontIndex]);
      frontIndex := (frontIndex + 1) % data.Length;
    }

    method Top() returns (t: Option<T>)
      requires Valid()
      ensures t == if Contents() == [] then None else Some(Contents()[0])
    {
      if frontIndex == rearIndex { return None; }
      t := Some(data[frontIndex]);
    }
  }
}
