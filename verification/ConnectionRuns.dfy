/** Whole runs: any number of objects come and go, and connect and disconnect, in any order. */
module ConnectionRuns {
  import opened MetaObjects

  ghost predicate Feasible(t: Tables, changes: seq<Change>)
    decreases |changes|
  {
    changes == [] || (CanHappen(t, changes[0]) && Feasible(Changed(t, changes[0]), changes[1..]))
  }

  ghost function After(t: Tables, changes: seq<Change>): Tables
    requires Feasible(t, changes)
    decreases |changes|
  {
    if changes == [] then t else After(Changed(t, changes[0]), changes[1..])
  }

  lemma ChangeKeepsLinked(t: Tables, change: Change)
    requires Linked(t.out, t.inp) && CanHappen(t, change)
    ensures var next := Changed(t, change);
            Linked(next.out, next.inp)
  {
    match change
    case Created(o) => NewRowsKeepLinked(t.out, t.inp, o);
    case Connected(c) => if c.isLambda { AddLambdaKeepsLinked(t.out, t.inp, c); } else { AddKeepsLinked(t.out, t.inp, c); }
    case Disconnected(c) => UnregisterLinks(t.out, t.inp, c);
    case Destroyed(o) => DestroyKeepsLinked(t.out, t.inp, o);
  }

  /** The two tables mirror each other after every run. */
  lemma {:induction false} TablesStayLinked(t: Tables, changes: seq<Change>)
    requires Linked(t.out, t.inp) && Feasible(t, changes)
    ensures var end := After(t, changes);
            Linked(end.out, end.inp)
    decreases |changes|
  {
    if changes != [] {
      ChangeKeepsLinked(t, changes[0]);
      TablesStayLinked(Changed(t, changes[0]), changes[1..]);
    }
  }

  /** What makes a connection one that fits: the signal, the receiver and the slot. */
  lemma FirstFitIs(s: Connections, signal: string, receiver: MetaObject, slot: string)
    ensures var i := FirstFit(s, signal, receiver, slot);
            && (i < |s| ==> s[i].signal == signal && s[i].receiver == receiver && s[i].slot == slot)
            && forall k :: 0 <= k < i ==> s[k].signal != signal || s[k].receiver != receiver || s[k].slot != slot
    ensures Registered(s, signal, receiver, slot) <==>
              exists k :: 0 <= k < |s| && s[k].signal == signal && s[k].receiver == receiver && s[k].slot == slot
  {
    if Registered(s, signal, receiver, slot) {
      var k :| 0 <= k < |s| && Fits(s[k], signal, receiver, slot);
      assert s[k].signal == signal;
    }
  }

  /** Next to c, d can be connected exactly when it has another sender or differs in signal, receiver or slot. */
  lemma WhatCoexists(t: Tables, c: ConnectionObject, d: ConnectionObject)
    requires CanHappen(t, Connected(c)) && CanHappen(t, Connected(d)) && d != c
    ensures CanHappen(Changed(t, Connected(c)), Connected(d)) <==>
              d.sender != c.sender || d.signal != c.signal || d.receiver != c.receiver || d.slot != c.slot
  {
    var row, next := t.out[d.sender], Changed(t, Connected(c)).out[d.sender];
    FirstFitIs(row, d.signal, d.receiver, d.slot);
    FirstFitIs(next, d.signal, d.receiver, d.slot);
    if d.sender == c.sender {
      assert next == row + [c];
      assert next[|row|] == c;
      assert forall k :: 0 <= k < |row| ==> next[k] == row[k];
    }
  }

  /** Linked tables mention no object that does not exist. */
  lemma OnlyLiveMentioned(t: Tables, o: MetaObject)
    requires Linked(t.out, t.inp) && o !in t.out
    ensures forall x, c :: x in t.out && (c in t.out[x] || c in t.inp[x]) ==> c.sender != o && c.receiver != o
  {
    forall x, c | x in t.out && (c in t.out[x] || c in t.inp[x]) ensures c.sender != o && c.receiver != o {
      assert OutputsFine(t.out, t.inp, x) && InputsFine(t.out, t.inp, x);
    }
  }

  lemma {:induction false} StaysGone(t: Tables, changes: seq<Change>, o: MetaObject)
    requires Linked(t.out, t.inp) && Feasible(t, changes) && o !in t.out && Created(o) !in changes
    ensures o !in After(t, changes).out
    decreases |changes|
  {
    if changes != [] {
      ChangeKeepsLinked(t, changes[0]);
      StaysGone(Changed(t, changes[0]), changes[1..], o);
    }
  }

  /** Once an object is destroyed, no connection leads to it or from it, whatever the others do. */
  lemma NothingDangles(t: Tables, o: MetaObject, changes: seq<Change>)
    requires Linked(t.out, t.inp) && CanHappen(t, Destroyed(o)) && Feasible(Changed(t, Destroyed(o)), changes)
    requires Created(o) !in changes
    ensures var end := After(Changed(t, Destroyed(o)), changes);
            && o !in end.out && o !in end.inp && end.inp.Keys == end.out.Keys
            && forall x, c :: x in end.out && (c in end.out[x] || c in end.inp[x]) ==> c.sender != o && c.receiver != o
  {
    var next := Changed(t, Destroyed(o));
    ChangeKeepsLinked(t, Destroyed(o));
    TablesStayLinked(next, changes);
    StaysGone(next, changes, o);
    OnlyLiveMentioned(After(next, changes), o);
  }


  /** A connection whose two objects live on stays in both tables until it is taken down. */
  lemma {:induction false} ConnectionLasts(t: Tables, c: ConnectionObject, changes: seq<Change>)
    requires Linked(t.out, t.inp) && Feasible(t, changes) && c.sender in t.out && c in t.out[c.sender]
    requires forall k :: 0 <= k < |changes| ==>
               changes[k] != Disconnected(c) && changes[k] != Destroyed(c.sender) && changes[k] != Destroyed(c.receiver)
    ensures var end := After(t, changes);
            && c.sender in end.out && c in end.out[c.sender]
            && (!c.isLambda ==> c.receiver in end.inp && c in end.inp[c.receiver])
    decreases |changes|
  {
    assert OutputsFine(t.out, t.inp, c.sender);
    if changes != [] {
      ConnectionStays(t, c, changes[0]);
      ChangeKeepsLinked(t, changes[0]);
      ConnectionLasts(Changed(t, changes[0]), c, changes[1..]);
    }
  }

  lemma ConnectionStays(t: Tables, c: ConnectionObject, change: Change)
    requires Linked(t.out, t.inp) && CanHappen(t, change) && c.sender in t.out && c in t.out[c.sender]
    requires change != Disconnected(c) && change != Destroyed(c.sender) && change != Destroyed(c.receiver)
    ensures var next := Changed(t, change);
            c.sender in next.out && c in next.out[c.sender]
  {
    match change
    case Created(o) =>
    case Connected(d) =>
    case Disconnected(d) => WithoutIn(t.out[c.sender], {d});
    case Destroyed(o) =>
      var gone := SetOf(t.out[o]) + SetOf(t.inp[o]);
      assert OutputsFine(t.out, t.inp, o) && InputsFine(t.out, t.inp, o);
      WithoutIn(t.out[c.sender], gone);
  }
}
