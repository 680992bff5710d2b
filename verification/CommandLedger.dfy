// The bridge's command ledger: an insertion-ordered dictionary bounded to
// MAX_PROCESSED_COMMANDS entries. A key that is written again keeps its place;
// only a new key goes to the end, and only the front is evicted.

module CommandLedger {

  type Id = string

  const MAX_PROCESSED_COMMANDS: nat := 200
  const ACK_OUTBOX_BATCH_SIZE: nat := 20

  datatype Status = Executing | Completed | Failed

  datatype Resolution = Unset | Pending | Acked | StateConflict

  datatype Entry = Entry(
    status: Status,
    roomId: string,
    errorCode: string,
    errorScope: string,
    roomControlState: string,
    ackPending: bool,
    resolution: Resolution)
  {
    predicate Terminal() { status != Executing }

    predicate Unresolved() { status == Executing || ackPending }

    predicate InOutbox() { Terminal() && ackPending }
  }

  function NewEntry(status: Status, roomId: string, errorCode: string := "", errorScope: string := "",
                    roomControlState: string := "", ackPending: bool := false): Entry
  {
    Entry(status, roomId, errorCode, errorScope, roomControlState, ackPending,
          if ackPending then Pending else Unset)
  }

  datatype Ledger = Ledger(order: seq<Id>, entries: map<Id, Entry>)

  const EMPTY_LEDGER := Ledger([], map[])

  ghost predicate NoDup(s: seq<Id>) {
    forall i, j :: 0 <= i < j < |s| ==> s[i] != s[j]
  }

  ghost predicate Wellformed(l: Ledger) {
    && NoDup(l.order)
    && (forall x :: x in l.order <==> x in l.entries)
  }

  ghost predicate Valid(l: Ledger) {
    Wellformed(l) && |l.order| <= MAX_PROCESSED_COMMANDS
  }

  // ----- Specification of the operations -----

  function LastN<T>(s: seq<T>, n: nat): seq<T> {
    if |s| <= n then s else s[|s| - n..]
  }

  function Touch(order: seq<Id>, id: Id): seq<Id> {
    if id in order then order else order + [id]
  }

  // The ledger cut down to its youngest MAX_PROCESSED_COMMANDS keys.
  function Youngest(l: Ledger): Ledger {
    var kept := LastN(l.order, MAX_PROCESSED_COMMANDS);
    Ledger(kept, map x | x in kept && x in l.entries :: l.entries[x])
  }

  function Mark(l: Ledger, id: Id, e: Entry): Ledger {
    Youngest(Ledger(Touch(l.order, id), l.entries[id := e]))
  }

  function SetAck(l: Ledger, id: Id, pending: bool, resolution: Resolution): Ledger {
    if id !in l.entries then l
    else Ledger(l.order, l.entries[id := l.entries[id].(ackPending := pending, resolution := resolution)])
  }

  // What came of sending an ACK: the server took it, answered with a state
  // conflict, or refused it or was not heard.
  datatype AckAnswer = Accepted | Conflicted | Unsettled

  function Settle(l: Ledger, id: Id, answer: AckAnswer): Ledger {
    match answer
    case Accepted => SetAck(l, id, false, Acked)
    case Conflicted => SetAck(l, id, false, StateConflict)
    case Unsettled => SetAck(l, id, true, Pending)
  }

  predicate IsAckPending(l: Ledger, id: Id) {
    id in l.entries && l.entries[id].ackPending
  }

  // Every outbox row, oldest first.
  function Outbox(l: Ledger, order: seq<Id>): (ids: seq<Id>)
    ensures forall x :: x in ids ==> x in l.entries && l.entries[x].InOutbox()
  {
    if order == [] then []
    else
      var rest := Outbox(l, order[..|order| - 1]);
      var id := order[|order| - 1];
      if id in l.entries && l.entries[id].InOutbox() then rest + [id] else rest
  }

  function FirstN<T>(s: seq<T>, n: nat): seq<T> {
    if |s| <= n then s else s[..n]
  }

  ghost predicate HasUnresolved(l: Ledger) {
    exists x :: x in l.entries && l.entries[x].Unresolved()
  }

  // ----- What the specification promises -----

  lemma {:induction false} NoDupCardinality(s: seq<Id>)
    requires NoDup(s)
    ensures |set x | x in s| == |s|
  {
    if s != [] {
      var n := |s| - 1;
      NoDupCardinality(s[..n]);
      assert (set x | x in s) == (set x | x in s[..n]) + {s[n]} by {
        assert s == s[..n] + [s[n]];
      }
      assert s[n] !in s[..n];
    }
  }

  lemma TouchKeepsNoDup(order: seq<Id>, id: Id)
    requires NoDup(order)
    ensures NoDup(Touch(order, id))
    ensures forall x :: x in Touch(order, id) <==> x in order || x == id
  {
  }

  // The last n of a list that grows are the last n of the last n and the new element.
  lemma LastNAppend<T>(s: seq<T>, x: T, n: nat)
    requires n > 0
    ensures LastN(LastN(s, n) + [x], n) == LastN(s + [x], n)
  {
  }

  /** Recording a command keeps the ledger valid. The recorded command is
      present with the entry just written, and every other retained command
      keeps its old entry. */
  lemma MarkIsValid(l: Ledger, id: Id, e: Entry)
    requires Valid(l)
    ensures Valid(Mark(l, id, e))
    ensures id in Mark(l, id, e).entries && Mark(l, id, e).entries[id] == e
    ensures forall x :: x in Mark(l, id, e).entries && x != id ==>
              x in l.entries && Mark(l, id, e).entries[x] == l.entries[x]
  {
    TouchKeepsNoDup(l.order, id);
    var t := Touch(l.order, id);
    var kept := LastN(t, MAX_PROCESSED_COMMANDS);
    assert NoDup(kept);
    assert id in kept by {
      if id !in l.order {
        assert kept[|kept| - 1] == id;
      }
    }
    assert forall x :: x in kept ==> x in t;
  }

  /** Exactly when a command is lost: recording `id` evicts `x` if and only if
      `id` is new, the ledger is full, and `x` is the oldest insertion. */
  lemma MarkEvicts(l: Ledger, id: Id, e: Entry, x: Id)
    requires Valid(l) && x in l.entries
    ensures x !in Mark(l, id, e).entries <==>
            id !in l.entries && |l.order| == MAX_PROCESSED_COMMANDS && l.order[0] == x
  {
    var t := Touch(l.order, id);
    TouchKeepsNoDup(l.order, id);
    var kept := LastN(t, MAX_PROCESSED_COMMANDS);
    var i :| 0 <= i < |l.order| && l.order[i] == x;
    if |t| > MAX_PROCESSED_COMMANDS {
      assert kept == t[1..];
      if i > 0 {
        assert kept[i - 1] == x;
      } else {
        assert forall j :: 0 < j < |t| ==> t[j] != x;
      }
    }
  }

  /** Changing an ACK flag changes the flag and its resolution in that entry, and
      nothing else: no entry moves, appears or disappears. */
  lemma SetAckIsValid(l: Ledger, id: Id, pending: bool, resolution: Resolution)
    requires Valid(l)
    ensures Valid(SetAck(l, id, pending, resolution))
    ensures SetAck(l, id, pending, resolution).order == l.order
    ensures SetAck(l, id, pending, resolution).entries.Keys == l.entries.Keys
    ensures forall x :: x in l.entries && x != id ==> SetAck(l, id, pending, resolution).entries[x] == l.entries[x]
    ensures id in l.entries ==>
              var e, f := l.entries[id], SetAck(l, id, pending, resolution).entries[id];
              && f.ackPending == pending && f.resolution == resolution
              && (f.status, f.roomId, f.errorCode, f.errorScope, f.roomControlState)
                 == (e.status, e.roomId, e.errorCode, e.errorScope, e.roomControlState)
  {
  }

  /** Reading back a ledger that was saved gives the same ledger. */
  lemma LoadOfSaved(l: Ledger)
    requires Valid(l)
    ensures Youngest(l) == l
  {
    assert Youngest(l).entries == l.entries;
  }

  lemma PopIsWellformed(l: Ledger)
    requires Wellformed(l) && l.order != []
    ensures Wellformed(Ledger(l.order[1..], l.entries - {l.order[0]}))
  {
  }

  // Dropping the oldest key of an overfull ledger does not change what is kept.
  lemma {:induction false} PopKeepsYoungest(l: Ledger)
    requires Wellformed(l) && |l.order| > MAX_PROCESSED_COMMANDS
    ensures var popped := Ledger(l.order[1..], l.entries - {l.order[0]});
            Wellformed(popped) && Youngest(popped) == Youngest(l)
  {
    PopIsWellformed(l);
    var popped := Ledger(l.order[1..], l.entries - {l.order[0]});
    var n := |l.order| - MAX_PROCESSED_COMMANDS;
    assert l.order[n..] == popped.order[n - 1..];
    assert Youngest(popped).entries == Youngest(l).entries by {
      forall x | x in l.order[n..] ensures x in popped.entries && popped.entries[x] == l.entries[x] {
        assert x in popped.order;
      }
    }
  }

  /** The outbox holds exactly the finished commands whose ACK is still owed,
      in the order they were first recorded. */
  lemma {:induction false} OutboxIsExact(l: Ledger, order: seq<Id>)
    requires NoDup(order)
    ensures forall x :: x in Outbox(l, order) <==> x in order && x in l.entries && l.entries[x].InOutbox()
    ensures NoDup(Outbox(l, order))
    ensures |Outbox(l, order)| <= |order|
  {
    if order != [] {
      var n := |order| - 1;
      OutboxIsExact(l, order[..n]);
      assert order == order[..n] + [order[n]];
      assert order[n] !in order[..n];
    }
  }
}
