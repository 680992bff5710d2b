// The durable store around the ledger. Every write goes to memory first and
// then to the file; the file is replaced as a whole, so it always holds one
// complete earlier memory. `canSave` says whether the four write attempts end
// in success; when they do not, the caller sees an exception (`saved` false).

module StateStores {
  import opened CommandLedger
  import Runs = BoundedExecution

  class StateStore {
    var order: seq<Id>
    var entries: map<Id, Entry>
    var file: Ledger

    ghost function View(): Ledger
      reads this
    {
      Ledger(order, entries)
    }

    ghost predicate Ok()
      reads this
    {
      Valid(View()) && Valid(file)
    }

    // Memory and file, as the runs of `BoundedExecution` see them: every operation is
    // one of their events.
    ghost function State(): Runs.Store
      reads this
    {
      Runs.Store(View(), file)
    }

    // A start, or a restart after a crash: memory is what the file holds.
    constructor (saved: Ledger)
      requires Valid(saved)
      ensures Ok() && View() == saved && file == saved
      ensures forall lost :: State() == Runs.Apply(Runs.Store(lost, saved), Runs.Crash)
    {
      var kept := LastN(saved.order, MAX_PROCESSED_COMMANDS);
      order := kept;
      entries := map x | x in kept && x in saved.entries :: saved.entries[x];
      file := saved;
      new;
      LoadOfSaved(saved);
    }

    method Save(canSave: bool) returns (saved: bool)
      requires Ok()
      modifies this`file
      ensures Ok() && saved == canSave
      ensures file == if saved then View() else old(file)
      ensures State() == if saved then Runs.Apply(old(State()), Runs.SaveAll) else old(State())
    {
      if canSave {
        file := Ledger(order, entries);
      }
      saved := canSave;
    }

    method EvictOldest()
      requires Wellformed(View())
      modifies this`order, this`entries
      ensures View() == Youngest(old(View()))
    {
      while |order| > MAX_PROCESSED_COMMANDS
        invariant Wellformed(View())
        invariant Youngest(View()) == Youngest(old(View()))
      {
        PopKeepsYoungest(View());
        order, entries := order[1..], entries - {order[0]};
      }
      LoadOfSaved(View());
    }

    method MarkCommand(id: Id, e: Entry, canSave: bool) returns (saved: bool)
      requires Ok()
      modifies this
      ensures Ok() && saved == canSave
      ensures View() == Mark(old(View()), id, e)
      ensures file == if saved then View() else old(file)
      ensures State() == Runs.Apply(old(State()), Runs.Record(id, e, canSave))
    {
      MarkIsValid(View(), id, e);
      TouchKeepsNoDup(order, id);
      if id !in entries {
        order := order + [id];
      }
      entries := entries[id := e];
      EvictOldest();
      saved := Save(canSave);
    }

    method SetAckPending(id: Id, pending: bool, resolution: Resolution, canSave: bool) returns (saved: bool)
      requires Ok()
      modifies this
      ensures Ok()
      ensures View() == SetAck(old(View()), id, pending, resolution)
      ensures file == if canSave && id in old(entries) then View() else old(file)
      ensures saved == (canSave || id !in old(entries))
      ensures State() == if id !in old(entries) then old(State())
                         else Runs.Apply(old(State()), Runs.AckFlag(id, pending, resolution, canSave))
    {
      SetAckIsValid(View(), id, pending, resolution);
      if id !in entries {
        return true;
      }
      entries := entries[id := entries[id].(ackPending := pending, resolution := resolution)];
      saved := Save(canSave);
    }

    method PendingAckCommands(limit: nat) returns (pending: seq<Id>)
      requires Ok()
      ensures pending == FirstN(Outbox(View(), order), if limit < 1 then 1 else limit)
    {
      var cap := if limit < 1 then 1 else limit;
      pending := [];
      var i := 0;
      ghost var l := View();
      while i < |order|
        invariant 0 <= i <= |order|
        invariant pending == Outbox(l, order[..i]) && |pending| < cap
      {
        var id := order[i];
        OutboxStep(l, order, i);
        i := i + 1;
        if entries[id].InOutbox() {
          pending := pending + [id];
          if |pending| >= cap {
            OutboxFront(l, order, i, cap);
            return;
          }
        }
      }
      assert order[..i] == order;
    }

    method HasUnresolvedCommands() returns (unresolved: bool)
      requires Ok()
      ensures unresolved <==> HasUnresolved(View())
      ensures unresolved <==>
        exists x :: x in entries && (entries[x].status == Executing || entries[x].ackPending)
    {
      var i := 0;
      while i < |order|
        invariant 0 <= i <= |order|
        invariant forall j :: 0 <= j < i ==> !entries[order[j]].Unresolved()
      {
        if entries[order[i]].Unresolved() {
          return true;
        }
        i := i + 1;
      }
      return false;
    }
  }

  // The outbox of a front part of the ledger is a front part of the outbox.
  lemma {:induction false} OutboxPrefix(l: Ledger, order: seq<Id>, i: nat)
    requires i <= |order|
    ensures Outbox(l, order[..i]) <= Outbox(l, order)
    decreases |order|
  {
    if i == |order| {
      assert order[..i] == order;
    } else {
      var n := |order| - 1;
      OutboxPrefix(l, order[..n], i);
      assert order[..n][..i] == order[..i];
    }
  }

  // Once the limit is reached the rest of the ledger adds nothing.
  lemma OutboxFront(l: Ledger, order: seq<Id>, i: nat, cap: nat)
    requires i <= |order| && |Outbox(l, order[..i])| == cap
    ensures FirstN(Outbox(l, order), cap) == Outbox(l, order[..i])
  {
    OutboxPrefix(l, order, i);
  }

  lemma OutboxStep(l: Ledger, order: seq<Id>, i: nat)
    requires i < |order|
    ensures Outbox(l, order[..i + 1])
            == Outbox(l, order[..i]) + if order[i] in l.entries
               && l.entries[order[i]].InOutbox() then [order[i]] else []
  {
    assert order[..i + 1][..i] == order[..i];
  }
}
