/**
 * Signal and slot connections. Each object has a table of the connections it
 * sends on and one of those it receives; destruction unlinks both sides.
 * `live` is the set of objects that exist.
 */
module MetaObjects {
  import opened Basics

  class ConnectionObject {
    const sender: MetaObject
    const receiver: MetaObject
    const signal: string
    const slot: string
    const isLambda: bool

    constructor (sender: MetaObject, receiver: MetaObject, signal: string, slot: string, isLambda: bool)
      ensures this.sender == sender && this.receiver == receiver
      ensures this.signal == signal && this.slot == slot && this.isLambda == isLambda
    {
      this.sender, this.receiver, this.signal, this.slot, this.isLambda := sender, receiver, signal, slot, isLambda;
    }
  }

  type Connections = seq<ConnectionObject>
  type Table = map<MetaObject, Connections>

  // ---------------------------------------------------------------- tables

  predicate Fits(c: ConnectionObject, signal: string, receiver: MetaObject, slot: string) {
    c.signal == signal && c.receiver == receiver && c.slot == slot
  }

  /** The position of the first connection that fits, or the length. */
  function FirstFit(s: Connections, signal: string, receiver: MetaObject, slot: string): (i: nat)
    ensures i <= |s| && (i < |s| ==> Fits(s[i], signal, receiver, slot))
    ensures forall k :: 0 <= k < i ==> !Fits(s[k], signal, receiver, slot)
  {
    if s == [] then 0 else
    if Fits(s[0], signal, receiver, slot) then 0 else
    var i := FirstFit(s[1..], signal, receiver, slot);
    assert forall k :: 1 <= k < i + 1 ==> s[k] == s[1..][k - 1];
    1 + i
  }

  ghost predicate Registered(s: Connections, signal: string, receiver: MetaObject, slot: string) {
    exists i :: 0 <= i < |s| && Fits(s[i], signal, receiver, slot)
  }

  /** No two connections with the same signal, receiver and slot. */
  ghost predicate Unique(s: Connections) {
    Distinct(s) && forall c, d :: c in s && d in s && Fits(c, d.signal, d.receiver, d.slot) ==> c == d
  }

  ghost predicate OutputsFine(out: Table, inp: Table, o: MetaObject)
    requires o in out && out.Keys == inp.Keys
  {
    && Unique(out[o])
    && forall c :: c in out[o] ==> c.sender == o && c.receiver in inp && (if c.isLambda then c.receiver == o else c in inp[c.receiver])
  }

  ghost predicate InputsFine(out: Table, inp: Table, o: MetaObject)
    requires o in out && out.Keys == inp.Keys
  {
    && Distinct(inp[o])
    && forall c :: c in inp[o] ==> c.receiver == o && !c.isLambda && c.sender in out && c in out[c.sender]
  }

  /** The two tables mirror each other, and mention only objects that have a table. */
  ghost predicate Linked(out: Table, inp: Table) {
    out.Keys == inp.Keys && forall o :: o in out ==> OutputsFine(out, inp, o) && InputsFine(out, inp, o)
  }

  ghost function Without(s: Connections, gone: set<ConnectionObject>): Connections {
    if s == [] then [] else (if s[0] in gone then [] else [s[0]]) + Without(s[1..], gone)
  }

  ghost function Dropped(t: Table, gone: set<ConnectionObject>): Table {
    map o | o in t :: Without(t[o], gone)
  }

  lemma {:induction false} WithoutIn(s: Connections, gone: set<ConnectionObject>)
    ensures forall c :: c in Without(s, gone) ==> c in s && c !in gone
    ensures forall c :: c in s && c !in gone ==> c in Without(s, gone)
  {
    if s != [] { WithoutIn(s[1..], gone); }
  }

  lemma DistinctParts(s: Connections)
    requires Distinct(s) && s != []
    ensures s[0] !in s[1..] && Distinct(s[1..])
  {
  }

  lemma DistinctJoined(c: ConnectionObject, s: Connections)
    requires Distinct(s) && c !in s
    ensures Distinct([c] + s)
  {
  }

  lemma {:induction false} WithoutDistinct(s: Connections, gone: set<ConnectionObject>)
    requires Distinct(s)
    ensures Distinct(Without(s, gone))
  {
    if s != [] {
      var later := Without(s[1..], gone);
      DistinctParts(s);
      WithoutDistinct(s[1..], gone);
      WithoutIn(s[1..], gone);
      DistinctJoined(s[0], later);
      assert [] + later == later;
    }
  }

  lemma {:induction false} WithoutNone(s: Connections, gone: set<ConnectionObject>)
    requires forall c :: c in s ==> c !in gone
    ensures Without(s, gone) == s
  {
    if s != [] { WithoutNone(s[1..], gone); }
  }

  lemma {:induction false} WithoutOne(s: Connections, i: nat)
    requires i < |s| && Distinct(s)
    ensures Without(s, {s[i]}) == s[..i] + s[i + 1..]
  {
    if i == 0 {
      WithoutNone(s[1..], {s[0]});
    } else {
      assert s[1..][i - 1] == s[i];
      WithoutOne(s[1..], i - 1);
      assert [s[0]] + (s[1..][..i - 1] + s[1..][i..]) == s[..i] + s[i + 1..];
    }
  }

  lemma {:induction false} WithoutTwice(s: Connections, gone: set<ConnectionObject>, more: set<ConnectionObject>)
    ensures Without(Without(s, gone), more) == Without(s, gone + more)
  {
    if s != [] {
      var later := Without(s[1..], gone);
      WithoutTwice(s[1..], gone, more);
      assert [] + later == later && ([s[0]] + later)[1..] == later;
    }
  }

  lemma {:induction false} WithoutSame(s: Connections, gone: set<ConnectionObject>, other: set<ConnectionObject>)
    requires forall c :: c in s ==> (c in gone <==> c in other)
    ensures Without(s, gone) == Without(s, other)
  {
    if s != [] { WithoutSame(s[1..], gone, other); }
  }

  lemma AddKeepsLinked(out: Table, inp: Table, c: ConnectionObject)
    requires Linked(out, inp) && c.sender in out && c.receiver in out && !c.isLambda
    requires !Registered(out[c.sender], c.signal, c.receiver, c.slot) && c !in inp[c.receiver]
    ensures Linked(out[c.sender := out[c.sender] + [c]], inp[c.receiver := inp[c.receiver] + [c]])
  {
    var s, r := c.sender, c.receiver;
    var out', inp' := out[s := out[s] + [c]], inp[r := inp[r] + [c]];
    forall o | o in out' ensures OutputsFine(out', inp', o) && InputsFine(out', inp', o) {
      assert OutputsFine(out, inp, o) && InputsFine(out, inp, o);
    }
  }

  lemma AddLambdaKeepsLinked(out: Table, inp: Table, c: ConnectionObject)
    requires Linked(out, inp) && c.sender in out && c.receiver == c.sender && c.isLambda
    requires !Registered(out[c.sender], c.signal, c.receiver, c.slot)
    ensures Linked(out[c.sender := out[c.sender] + [c]], inp)
  {
    var s := c.sender;
    var out' := out[s := out[s] + [c]];
    forall o | o in out' ensures OutputsFine(out', inp, o) && InputsFine(out', inp, o) {
      assert OutputsFine(out, inp, o) && InputsFine(out, inp, o);
    }
  }

  /** Connections may go in any number, as long as they go from both sides. */
  lemma DropKeepsLinked(out: Table, inp: Table, gone: set<ConnectionObject>)
    requires Linked(out, inp)
    ensures Linked(Dropped(out, gone), Dropped(inp, gone))
  {
    forall o | o in out
      ensures OutputsFine(Dropped(out, gone), Dropped(inp, gone), o) && InputsFine(Dropped(out, gone), Dropped(inp, gone), o)
    {
      DroppedOutputsFine(out, inp, gone, o);
      DroppedInputsFine(out, inp, gone, o);
    }
  }

  lemma DroppedOutputsFine(out: Table, inp: Table, gone: set<ConnectionObject>, o: MetaObject)
    requires Linked(out, inp) && o in out
    ensures OutputsFine(Dropped(out, gone), Dropped(inp, gone), o)
  {
    assert OutputsFine(out, inp, o);
    WithoutDistinct(out[o], gone);
    WithoutIn(out[o], gone);
    forall c | c in Dropped(out, gone)[o]
      ensures c.sender == o && c.receiver in inp && (if c.isLambda then c.receiver == o else c in Dropped(inp, gone)[c.receiver])
    {
      WithoutIn(inp[c.receiver], gone);
    }
  }

  lemma DroppedInputsFine(out: Table, inp: Table, gone: set<ConnectionObject>, o: MetaObject)
    requires Linked(out, inp) && o in out
    ensures InputsFine(Dropped(out, gone), Dropped(inp, gone), o)
  {
    assert InputsFine(out, inp, o);
    WithoutDistinct(inp[o], gone);
    WithoutIn(inp[o], gone);
    forall c | c in Dropped(inp, gone)[o]
      ensures c.receiver == o && !c.isLambda && c.sender in out && c in Dropped(out, gone)[c.sender]
    {
      WithoutIn(out[c.sender], gone);
    }
  }

  /** Dropping one connection touches one row of each table. */
  lemma DropOneOutput(out: Table, inp: Table, c: ConnectionObject)
    requires Linked(out, inp) && c.sender in out
    ensures Dropped(out, {c}) == out[c.sender := Without(out[c.sender], {c})]
  {
    forall o | o in out && o != c.sender ensures Without(out[o], {c}) == out[o] {
      assert OutputsFine(out, inp, o);
      WithoutNone(out[o], {c});
    }
  }

  lemma DropOneInput(out: Table, inp: Table, c: ConnectionObject)
    requires Linked(out, inp) && c.receiver in inp
    ensures Dropped(inp, {c}) == inp[c.receiver := Without(inp[c.receiver], {c})]
    ensures c.isLambda ==> Dropped(inp, {c}) == inp
  {
    forall o | o in inp && (o != c.receiver || c.isLambda) ensures Without(inp[o], {c}) == inp[o] {
      assert InputsFine(out, inp, o);
      WithoutNone(inp[o], {c});
    }
  }

  /** An object without connections can go. */
  lemma RemoveKeepsLinked(out: Table, inp: Table, o: MetaObject)
    requires Linked(out, inp) && o in out && out[o] == inp[o] == []
    ensures Linked(out - {o}, inp - {o})
  {
    forall x | x in out - {o} ensures OutputsFine(out - {o}, inp - {o}, x) && InputsFine(out - {o}, inp - {o}, x) {
      assert OutputsFine(out, inp, x) && InputsFine(out, inp, x);
    }
  }

  /** Erasing c, which only r's row can hold, after others went. */
  lemma DropOneMore(t: Table, gone: set<ConnectionObject>, c: ConnectionObject, r: MetaObject)
    requires forall o :: o in t && o != r ==> c !in t[o]
    ensures r !in t ==> Dropped(t, gone + {c}) == Dropped(t, gone)
    ensures r in t ==> Dropped(t, gone + {c}) == Dropped(t, gone)[r := Without(Dropped(t, gone)[r], {c})]
  {
    forall o | o in t ensures Without(t[o], gone + {c}) == if o == r then Without(Without(t[o], gone), {c}) else Without(t[o], gone) {
      WithoutTwice(t[o], gone, {c});
      if o != r { WithoutSame(t[o], gone, gone + {c}); }
    }
  }

  ghost function SetOf(s: Connections): set<ConnectionObject> {
    set c | c in s
  }

  lemma SetOfNext(s: Connections, i: nat)
    requires i < |s|
    ensures SetOf(s[..i + 1]) == SetOf(s[..i]) + {s[i]}
  {
  }

  // ---------------------------------------------------------------- objects

  ghost function Outputs(live: set<MetaObject>): (t: Table)
    reads live`outputs
    ensures t.Keys == live
  {
    map o | o in live :: o.outputs
  }

  ghost function Inputs(live: set<MetaObject>): (t: Table)
    reads live`inputs
    ensures t.Keys == live
  {
    map o | o in live :: o.inputs
  }

  /** What every operation keeps. */
  ghost predicate Sound(live: set<MetaObject>)
    reads live`outputs, live`inputs, live`expired
  {
    Linked(Outputs(live), Inputs(live)) && forall o :: o in live ==> !o.expired
  }

  /** All rows of the objects that exist. */
  datatype Tables = Tables(out: Table, inp: Table)

  datatype Change =
    | Created(object: MetaObject)
    | Connected(connection: ConnectionObject)
    | Disconnected(connection: ConnectionObject)
    | Destroyed(object: MetaObject)

  /** When a change can happen: its objects exist, and no connection is registered twice. */
  ghost predicate CanHappen(t: Tables, change: Change) {
    match change
    case Created(o) => o !in t.out && o !in t.inp
    case Connected(c) =>
      && c.sender in t.out && c.receiver in t.inp && !Registered(t.out[c.sender], c.signal, c.receiver, c.slot)
      && if c.isLambda then c.receiver == c.sender else c !in t.inp[c.receiver]
    case Disconnected(c) => c.sender in t.out && c in t.out[c.sender] && c.receiver in t.inp
    case Destroyed(o) => o in t.out && o in t.inp
  }

  ghost function Changed(t: Tables, change: Change): Tables
    requires CanHappen(t, change)
  {
    match change
    case Created(o) => Tables(t.out[o := []], t.inp[o := []])
    case Connected(c) =>
      Tables(t.out[c.sender := t.out[c.sender] + [c]],
             if c.isLambda then t.inp else t.inp[c.receiver := t.inp[c.receiver] + [c]])
    case Disconnected(c) =>
      Tables(t.out[c.sender := Without(t.out[c.sender], {c})], t.inp[c.receiver := Without(t.inp[c.receiver], {c})])
    case Destroyed(o) =>
      var gone := SetOf(t.out[o]) + SetOf(t.inp[o]);
      Tables(Dropped(t.out - {o}, gone), Dropped(t.inp - {o}, gone))
  }

  ghost function Now(live: set<MetaObject>): Tables
    reads live`outputs, live`inputs
  {
    Tables(Outputs(live), Inputs(live))
  }

  class MetaObject {
    var outputs: Connections
    var inputs: Connections
    const shared: bool    // owned by a shared pointer
    var expired: bool     // that pointer has let go

    constructor (shared: bool)
      ensures outputs == [] && inputs == [] && !expired && this.shared == shared
    {
      outputs, inputs, expired, this.shared := [], [], false, shared;
    }

    method FindOutput(signal: string, receiver: MetaObject, slot: string) returns (i: nat)
      ensures i == FirstFit(outputs, signal, receiver, slot)
    {
      i := 0;
      while i < |outputs| && !Fits(outputs[i], signal, receiver, slot)
        invariant i <= |outputs| && forall k :: 0 <= k < i ==> !Fits(outputs[k], signal, receiver, slot)
      {
        i := i + 1;
      }
    }

    method SetOutputs(ghost some: set<MetaObject>, row: Connections)
      modifies this`outputs
      ensures outputs == row
      ensures Outputs(some) == if this in some then old(Outputs(some))[this := row] else old(Outputs(some))
    {
      ghost var before := Outputs(some);
      outputs := row;
      assert forall o :: o in some && o != this ==> o.outputs == before[o];
    }

    method EraseOutput(ghost some: set<MetaObject>, c: ConnectionObject)
      requires Distinct(outputs)
      modifies this`outputs
      ensures outputs == Without(old(outputs), {c})
      ensures Outputs(some) == if this in some then old(Outputs(some))[this := outputs] else old(Outputs(some))
    {
      var i := 0;
      while i < |outputs| && outputs[i] != c
        invariant i <= |outputs| && forall k :: 0 <= k < i ==> outputs[k] != c
      {
        i := i + 1;
      }
      if i < |outputs| {
        WithoutOne(outputs, i);
        SetOutputs(some, outputs[..i] + outputs[i + 1..]);
      } else {
        WithoutNone(outputs, {c});
        assert this in some ==> Outputs(some)[this := outputs] == Outputs(some);
      }
    }

    method SetInputs(ghost some: set<MetaObject>, row: Connections)
      modifies this`inputs
      ensures inputs == row
      ensures Inputs(some) == if this in some then old(Inputs(some))[this := row] else old(Inputs(some))
    {
      ghost var before := Inputs(some);
      inputs := row;
      assert forall o :: o in some && o != this ==> o.inputs == before[o];
    }

    method EraseInput(ghost some: set<MetaObject>, c: ConnectionObject)
      requires Distinct(inputs)
      modifies this`inputs
      ensures inputs == Without(old(inputs), {c})
      ensures Inputs(some) == if this in some then old(Inputs(some))[this := inputs] else old(Inputs(some))
    {
      var i := 0;
      while i < |inputs| && inputs[i] != c
        invariant i <= |inputs| && forall k :: 0 <= k < i ==> inputs[k] != c
      {
        i := i + 1;
      }
      if i < |inputs| {
        WithoutOne(inputs, i);
        SetInputs(some, inputs[..i] + inputs[i + 1..]);
      } else {
        WithoutNone(inputs, {c});
        assert this in some ==> Inputs(some)[this := inputs] == Inputs(some);
      }
    }

    /** A shared object can no longer be resolved while it is being destroyed. */
    method Destroy(ghost live: set<MetaObject>)
      requires this in live && Sound(live)
      modifies live`outputs, live`inputs, this`expired
      ensures outputs == inputs == [] && Sound(live - {this})
      ensures Now(live - {this}) == Changed(old(Now(live)), Destroyed(this))
    {
      expired := shared;
      DestroyConnections(live);
    }

    method DestroyConnections(ghost live: set<MetaObject>)
      requires this in live && Linked(Outputs(live), Inputs(live))
      requires forall o :: o in live && o != this ==> !o.expired
      modifies live`outputs, live`inputs
      ensures outputs == inputs == [] && Linked(Outputs(live - {this}), Inputs(live - {this}))
      ensures Now(live - {this}) == Changed(old(Now(live)), Destroyed(this))
    {
      ghost var out, inp, rest := Outputs(live), Inputs(live), live - {this};
      assert Outputs(rest) == out - {this};
      UnlinkReceivers(live, out, inp);
      SetOutputs(rest, []);
      UnlinkSenders(live, out, inp);
      ghost var left := inputs;
      SetInputs(rest, []);
      BothHalves(out, inp, this, left);
    }

    /** First half: the receivers forget the connections of this object. */
    method UnlinkReceivers(ghost live: set<MetaObject>, ghost out: Table, ghost inp: Table)
      requires this in live && out.Keys == live && Linked(out, inp) && outputs == out[this] && Inputs(live) == inp
      requires forall o :: o in live && o != this ==> !o.expired
      modifies live`inputs
      ensures Inputs(live - {this}) == Dropped(inp - {this}, SetOf(outputs))
      ensures LeftOver(inp[this], inputs, this)
    {
      var list := outputs;
      ghost var rest, others := live - {this}, inp - {this};
      assert OutputsFine(out, inp, this) && InputsFine(out, inp, this);
      DropNothing(others);
      assert Inputs(rest) == others && SetOf(list[..0]) == {};
      for i := 0 to |list|
        invariant Inputs(rest) == Dropped(others, SetOf(list[..i]))
        invariant LeftOver(inp[this], inputs, this)
      {
        var c := list[i];
        var receiver := c.receiver;
        ghost var gone, before, mine := SetOf(list[..i]), Inputs(rest), inputs;
        assert c in out[this] && receiver in live;
        if !receiver.expired {
          InputRowDistinct(out, inp, gone, receiver);
          assert receiver != this ==> receiver.inputs == before[receiver];
          receiver.EraseInput(rest, c);
          if receiver == this { LeftOverErased(inp[this], mine, this, c); }
        }
        InputOnlyAt(out, inp, c);
        DropOneMore(others, gone, c, receiver);
        SetOfNext(list, i);
      }
      assert list[..|list|] == list;
    }

    /** Second half: the senders forget the connections to this object. */
    method UnlinkSenders(ghost live: set<MetaObject>, ghost out: Table, ghost inp: Table)
      requires this in live && out.Keys == live && Linked(out, inp) && outputs == [] && Outputs(live - {this}) == out - {this}
      requires LeftOver(inp[this], inputs, this)
      requires forall o :: o in live && o != this ==> !o.expired
      modifies live`outputs
      ensures outputs == [] && Outputs(live - {this}) == Dropped(out - {this}, SetOf(inputs))
    {
      var list := inputs;
      ghost var rest, others := live - {this}, out - {this};
      assert InputsFine(out, inp, this);
      DropNothing(others);
      assert SetOf(list[..0]) == {};
      for i := 0 to |list|
        invariant outputs == [] && Outputs(rest) == Dropped(others, SetOf(list[..i]))
      {
        var c := list[i];
        var sender := c.sender;
        ghost var gone, before := SetOf(list[..i]), Outputs(rest);
        assert c in inp[this] && sender in live;
        if !sender.expired {
          OutputRowDistinct(out, inp, gone, sender);
          assert sender != this ==> sender.outputs == before[sender];
          sender.EraseOutput(rest, c);
        }
        OutputOnlyAt(out, inp, c);
        DropOneMore(others, gone, c, sender);
        SetOfNext(list, i);
      }
      assert list[..|list|] == list;
    }
  }

  lemma DropNothing(t: Table)
    ensures Dropped(t, {}) == t
  {
    forall o | o in t ensures Without(t[o], {}) == t[o] { WithoutNone(t[o], {}); }
  }

  lemma SameDrop(t: Table, gone: set<ConnectionObject>, other: set<ConnectionObject>)
    requires forall o, c :: o in t && c in t[o] ==> (c in gone <==> c in other)
    ensures Dropped(t, gone) == Dropped(t, other)
  {
    forall o | o in t ensures Without(t[o], gone) == Without(t[o], other) { WithoutSame(t[o], gone, other); }
  }

  /** Part of a row of inputs; only connections from o itself may be missing. */
  ghost predicate LeftOver(row: Connections, now: Connections, o: MetaObject) {
    Distinct(now) && (forall c :: c in now ==> c in row) && (forall c :: c in row && c.sender != o ==> c in now)
  }

  lemma LeftOverErased(row: Connections, now: Connections, o: MetaObject, c: ConnectionObject)
    requires LeftOver(row, now, o) && c.sender == o
    ensures LeftOver(row, Without(now, {c}), o)
  {
    WithoutIn(now, {c});
    WithoutDistinct(now, {c});
  }

  lemma InputRowDistinct(out: Table, inp: Table, gone: set<ConnectionObject>, o: MetaObject)
    requires Linked(out, inp) && o in inp
    ensures Distinct(Dropped(inp, gone)[o])
  {
    assert InputsFine(out, inp, o);
    WithoutDistinct(inp[o], gone);
  }

  lemma OutputRowDistinct(out: Table, inp: Table, gone: set<ConnectionObject>, o: MetaObject)
    requires Linked(out, inp) && o in out
    ensures Distinct(Dropped(out, gone)[o])
  {
    assert OutputsFine(out, inp, o);
    WithoutDistinct(out[o], gone);
  }

  lemma InputOnlyAt(out: Table, inp: Table, c: ConnectionObject)
    requires Linked(out, inp)
    ensures forall o :: o in inp && o != c.receiver ==> c !in inp[o]
  {
    forall o | o in inp && o != c.receiver ensures c !in inp[o] { assert InputsFine(out, inp, o); }
  }

  lemma OutputOnlyAt(out: Table, inp: Table, c: ConnectionObject)
    requires Linked(out, inp)
    ensures forall o :: o in out && o != c.sender ==> c !in out[o]
  {
    forall o | o in out && o != c.sender ensures c !in out[o] { assert OutputsFine(out, inp, o); }
  }

  lemma OthersInputs(out: Table, inp: Table, o: MetaObject)
    requires Linked(out, inp) && o in out
    ensures forall x, c :: x in inp - {o} && c in (inp - {o})[x] ==> c !in SetOf(inp[o])
    ensures forall x, c :: x in inp - {o} && c in (inp - {o})[x] && c.sender == o ==> c in SetOf(out[o])
  {
    forall x, c | x in inp - {o} && c in (inp - {o})[x]
      ensures c !in SetOf(inp[o]) && (c.sender == o ==> c in SetOf(out[o]))
    {
      assert InputsFine(out, inp, x) && InputsFine(out, inp, o);
    }
  }

  lemma OthersOutputs(out: Table, inp: Table, o: MetaObject)
    requires Linked(out, inp) && o in out
    ensures forall x, c :: x in out - {o} && c in (out - {o})[x] ==> c !in SetOf(out[o])
    ensures forall x, c :: x in out - {o} && c in (out - {o})[x] && c.receiver == o ==> c in SetOf(inp[o]) && c.sender != o
  {
    forall x, c | x in out - {o} && c in (out - {o})[x]
      ensures c !in SetOf(out[o]) && (c.receiver == o ==> c in SetOf(inp[o]) && c.sender != o)
    {
      assert OutputsFine(out, inp, x) && OutputsFine(out, inp, o);
    }
  }

  lemma {:induction false} NothingLeft(s: Connections, gone: set<ConnectionObject>)
    requires forall c :: c in s ==> c in gone
    ensures Without(s, gone) == []
  {
    if s != [] { NothingLeft(s[1..], gone); }
  }

  /** What destruction leaves behind is linked. */
  lemma DestroyKeepsLinked(out: Table, inp: Table, o: MetaObject)
    requires Linked(out, inp) && o in out
    ensures var gone := SetOf(out[o]) + SetOf(inp[o]);
            Linked(Dropped(out - {o}, gone), Dropped(inp - {o}, gone))
  {
    var gone := SetOf(out[o]) + SetOf(inp[o]);
    DropKeepsLinked(out, inp, gone);
    NothingLeft(out[o], gone);
    NothingLeft(inp[o], gone);
    RemoveKeepsLinked(Dropped(out, gone), Dropped(inp, gone), o);
    DropBeforeRemove(out, gone, o);
    DropBeforeRemove(inp, gone, o);
  }

  lemma DropBeforeRemove(t: Table, gone: set<ConnectionObject>, o: MetaObject)
    ensures Dropped(t, gone) - {o} == Dropped(t - {o}, gone)
  {
  }

  /** Together the two halves drop every connection of o from the others. */
  lemma BothHalves(out: Table, inp: Table, o: MetaObject, left: Connections)
    requires Linked(out, inp) && o in out && LeftOver(inp[o], left, o)
    ensures var gone := SetOf(out[o]) + SetOf(inp[o]);
            && Dropped(inp - {o}, SetOf(out[o])) == Dropped(inp - {o}, gone)
            && Dropped(out - {o}, SetOf(left)) == Dropped(out - {o}, gone)
            && Linked(Dropped(out - {o}, gone), Dropped(inp - {o}, gone))
    ensures Changed(Tables(out, inp), Destroyed(o))
         == Tables(Dropped(out - {o}, SetOf(left)), Dropped(inp - {o}, SetOf(out[o])))
  {
    var gone := SetOf(out[o]) + SetOf(inp[o]);
    OthersInputs(out, inp, o);
    SameDrop(inp - {o}, SetOf(out[o]), gone);
    OthersOutputs(out, inp, o);
    SameDrop(out - {o}, SetOf(left), gone);
    DestroyKeepsLinked(out, inp, o);
  }

  // ------------------------------------------------------------- operations

  method NewObject(ghost live: set<MetaObject>, shared: bool) returns (o: MetaObject)
    requires Sound(live)
    ensures fresh(o) && o.outputs == o.inputs == [] && o.shared == shared && Sound(live + {o})
    ensures Outputs(live + {o}) == old(Outputs(live))[o := []] && Inputs(live + {o}) == old(Inputs(live))[o := []]
    ensures Now(live + {o}) == Changed(old(Now(live)), Created(o))
  {
    ghost var out, inp := Outputs(live), Inputs(live);
    o := new MetaObject(shared);
    assert Outputs(live + {o}) == out[o := []] && Inputs(live + {o}) == inp[o := []];
    NewRowsKeepLinked(out, inp, o);
  }

  lemma NewRowsKeepLinked(out: Table, inp: Table, o: MetaObject)
    requires Linked(out, inp) && o !in out
    ensures Linked(out[o := []], inp[o := []])
  {
    var out', inp' := out[o := []], inp[o := []];
    forall x | x in out' ensures OutputsFine(out', inp', x) && InputsFine(out', inp', x) {
      if x != o { assert OutputsFine(out, inp, x) && InputsFine(out, inp, x); }
    }
  }

  method RegisterConnection(ghost live: set<MetaObject>, sender: MetaObject, signal: string, receiver: MetaObject, slot: string)
    returns (ok: bool, ghost c: ConnectionObject?)
    requires Sound(live) && sender in live && receiver in live
    modifies sender`outputs, receiver`inputs
    ensures Sound(live) && ok == (c != null) == !Registered(old(sender.outputs), signal, receiver, slot)
    ensures c == null ==> sender.outputs == old(sender.outputs) && receiver.inputs == old(receiver.inputs)
    ensures c != null ==>
      && fresh(c) && c.sender == sender && Fits(c, signal, receiver, slot) && !c.isLambda
      && sender.outputs == old(sender.outputs) + [c] && receiver.inputs == old(receiver.inputs) + [c]
      && Now(live) == Changed(old(Now(live)), Connected(c))
  {
    c := null;
    var i := sender.FindOutput(signal, receiver, slot);
    if i < |sender.outputs| { return false, null; }
    var conn := new ConnectionObject(sender, receiver, signal, slot, false);
    Link(live, conn);
    return true, conn;
  }

  /** The connection goes to the end of both tables. */
  method Link(ghost live: set<MetaObject>, c: ConnectionObject)
    requires Sound(live) && !c.isLambda && CanHappen(Now(live), Connected(c))
    modifies c.sender`outputs, c.receiver`inputs
    ensures Sound(live) && Now(live) == Changed(old(Now(live)), Connected(c))
    ensures c.sender.outputs == old(c.sender.outputs) + [c] && c.receiver.inputs == old(c.receiver.inputs) + [c]
  {
    AddKeepsLinked(Outputs(live), Inputs(live), c);
    c.sender.SetOutputs(live, c.sender.outputs + [c]);
    c.receiver.SetInputs(live, c.receiver.inputs + [c]);
  }

  /** The connection is only in the sender's table; the holder keeps it for unregistering. */
  method RegisterLambda(ghost live: set<MetaObject>, sender: MetaObject, signal: string, lambda: string)
    returns (holder: ConnectionObject?)
    requires Sound(live) && sender in live
    modifies sender`outputs
    ensures Sound(live) && (holder != null) == !Registered(old(sender.outputs), signal, sender, lambda)
    ensures holder == null ==> sender.outputs == old(sender.outputs)
    ensures holder != null ==>
      && fresh(holder) && holder.sender == sender && Fits(holder, signal, sender, lambda) && holder.isLambda
      && sender.outputs == old(sender.outputs) + [holder]
      && Now(live) == Changed(old(Now(live)), Connected(holder))
  {
    ghost var out, inp := Outputs(live), Inputs(live);
    var i := sender.FindOutput(signal, sender, lambda);
    if i < |sender.outputs| { return null; }
    var conn := new ConnectionObject(sender, sender, signal, lambda, true);
    AddLambdaKeepsLinked(out, inp, conn);
    sender.SetOutputs(live, sender.outputs + [conn]);
    return conn;
  }

  method UnregisterConnection(ghost live: set<MetaObject>, sender: MetaObject, signal: string, receiver: MetaObject, slot: string)
    returns (ok: bool)
    requires Sound(live) && sender in live && receiver in live
    modifies sender`outputs, receiver`inputs
    ensures Sound(live) && !Registered(sender.outputs, signal, receiver, slot)
    ensures var i := FirstFit(old(sender.outputs), signal, receiver, slot);
      if i == |old(sender.outputs)|
      then !ok && sender.outputs == old(sender.outputs) && receiver.inputs == old(receiver.inputs)
      else var c := old(sender.outputs)[i];
        && ok == (exists d :: d in old(receiver.inputs) && d.slot == slot)
        && (!c.isLambda ==> ok)
        && Now(live) == Changed(old(Now(live)), Disconnected(c))
  {
    assert OutputsFine(Outputs(live), Inputs(live), sender);
    var i := sender.FindOutput(signal, receiver, slot);
    if i == |sender.outputs| { return false; }
    ok := Unlink(live, sender.outputs[i]);
  }

  /** The connection goes from its sender's table, and from its receiver's when that has one with its slot. */
  method Unlink(ghost live: set<MetaObject>, c: ConnectionObject) returns (ok: bool)
    requires Sound(live) && c.sender in live && c.receiver in live && c in c.sender.outputs
    modifies c.sender`outputs, c.receiver`inputs
    ensures Sound(live) && !Registered(c.sender.outputs, c.signal, c.receiver, c.slot)
    ensures ok == (exists d :: d in old(c.receiver.inputs) && d.slot == c.slot) && (!c.isLambda ==> ok)
    ensures Now(live) == Changed(old(Now(live)), Disconnected(c))
  {
    ghost var out, inp := Outputs(live), Inputs(live);
    assert OutputsFine(out, inp, c.sender) && InputsFine(out, inp, c.receiver);
    c.sender.EraseOutput(live, c);
    ok := UnregisterAtReceiver(live, c.receiver, c);
    UnregisterLinks(out, inp, c);
    assert Now(live) == Changed(Tables(out, inp), Disconnected(c));
  }

  method UnregisterAtReceiver(ghost live: set<MetaObject>, receiver: MetaObject, c: ConnectionObject) returns (ok: bool)
    requires receiver in live && Distinct(receiver.inputs)
    modifies receiver`inputs
    ensures ok == exists d :: d in old(receiver.inputs) && d.slot == c.slot
    ensures receiver.inputs == Without(old(receiver.inputs), {c})
    ensures Inputs(live) == old(Inputs(live))[receiver := Without(old(receiver.inputs), {c})]
  {
    ok := exists d | d in receiver.inputs :: d.slot == c.slot;
    if ok {
      receiver.EraseInput(live, c);
    } else {
      WithoutNone(receiver.inputs, {c});
      assert Inputs(live)[receiver := receiver.inputs] == Inputs(live);
    }
  }

  lemma UnregisterLinks(out: Table, inp: Table, c: ConnectionObject)
    requires Linked(out, inp) && c.sender in out && c in out[c.sender] && c.receiver in inp
    ensures var out', inp' := out[c.sender := Without(out[c.sender], {c})], inp[c.receiver := Without(inp[c.receiver], {c})];
            && Linked(out', inp') && !Registered(out'[c.sender], c.signal, c.receiver, c.slot)
            && CanHappen(Tables(out, inp), Disconnected(c)) && Changed(Tables(out, inp), Disconnected(c)) == Tables(out', inp')
    ensures !c.isLambda ==> c in inp[c.receiver]
    ensures c.isLambda ==> Linked(out[c.sender := Without(out[c.sender], {c})], inp)
  {
    assert OutputsFine(out, inp, c.sender);
    DropKeepsLinked(out, inp, {c});
    DropOneOutput(out, inp, c);
    DropOneInput(out, inp, c);
    WithoutIn(out[c.sender], {c});
    var row := Without(out[c.sender], {c});
    forall i | 0 <= i < |row| ensures !Fits(row[i], c.signal, c.receiver, c.slot) {
      assert row[i] in row;
    }
  }

  /**
   * Gives the connection of the holder up; returns false when the holder is empty or a live sender
   * sends nothing on its signal. A shared sender that is gone has no table to look in any more.
   */
  method UnregisterHolder(ghost live: set<MetaObject>, holder: ConnectionObject?)
    returns (ok: bool, after: ConnectionObject?)
    requires Sound(live) && (holder != null ==> holder.isLambda && (holder.sender in live || holder.sender.expired))
    modifies if holder == null || holder.sender.expired then {} else {holder.sender}
    ensures Sound(live)
    ensures holder == null ==> !ok && after == null
    ensures holder != null && old(holder.sender.expired) ==> ok && after == null
    ensures holder != null && !old(holder.sender.expired) ==>
      && holder.sender.inputs == old(holder.sender.inputs)
      && holder.sender.outputs == Without(old(holder.sender.outputs), {holder})
      && ok == (exists d :: d in old(holder.sender.outputs) && d.signal == holder.signal)
      && after == (if ok then null else holder)
      && (holder in old(holder.sender.outputs) ==> Now(live) == Changed(old(Now(live)), Disconnected(holder)))
  {
    if holder == null { return false, null; }
    var sender := holder.sender;
    if sender.expired { return true, null; }
    ghost var out, inp := Outputs(live), Inputs(live);
    assert OutputsFine(out, inp, sender);
    if !(exists d | d in sender.outputs :: d.signal == holder.signal) {
      WithoutNone(sender.outputs, {holder});
      return false, holder;
    }
    if holder in out[sender] { UnregisterLinks(out, inp, holder); DropOneInput(out, inp, holder); } else { WithoutNone(out[sender], {holder}); }
    sender.EraseOutput(live, holder);
    assert out[sender := out[sender]] == out;
    return true, null;
  }

  method IsConnectionExisted(ghost live: set<MetaObject>, sender: MetaObject, signal: string, receiver: MetaObject, slot: string)
    returns (ok: bool)
    requires Sound(live) && sender in live && receiver in live
    ensures ok == Registered(sender.outputs, signal, receiver, slot)
  {
    var i := sender.FindOutput(signal, receiver, slot);
    ok := i < |sender.outputs|;
  }

  /** Unregistering undoes registering. */
  method RegisterThenUnregister(ghost live: set<MetaObject>, sender: MetaObject, signal: string, receiver: MetaObject, slot: string)
    returns (ok: bool)
    requires Sound(live) && sender in live && receiver in live
    modifies sender`outputs, receiver`inputs
    ensures ok == !Registered(old(sender.outputs), signal, receiver, slot)
    ensures ok ==> sender.outputs == old(sender.outputs) && receiver.inputs == old(receiver.inputs)
  {
    ghost var outputs, inputs := sender.outputs, receiver.inputs;
    ghost var c;
    ok, c := RegisterConnection(live, sender, signal, receiver, slot);
    if ok {
      FirstFitIsLast(outputs, c, signal, receiver, slot);
      AddedThenErased(outputs, c);
      AddedThenErased(inputs, c);
      var _ := UnregisterConnection(live, sender, signal, receiver, slot);
    }
  }

  lemma FirstFitIsLast(s: Connections, c: ConnectionObject, signal: string, receiver: MetaObject, slot: string)
    requires !Registered(s, signal, receiver, slot) && Fits(c, signal, receiver, slot)
    ensures FirstFit(s + [c], signal, receiver, slot) == |s|
  {
    var t := s + [c];
    assert Fits(t[|s|], signal, receiver, slot);
    assert forall i :: 0 <= i < |s| ==> t[i] == s[i];
  }

  lemma AddedThenErased(s: Connections, c: ConnectionObject)
    requires c !in s
    ensures Without(s + [c], {c}) == s
    decreases |s|
  {
    if s == [] {
      assert Without([c], {c}) == [];
    } else {
      assert (s + [c])[1..] == s[1..] + [c];
      AddedThenErased(s[1..], c);
    }
  }
}
