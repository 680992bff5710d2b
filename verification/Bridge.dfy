// The bridge object: its store, its readiness, and the loop that works through
// a claimed batch.

module Bridges {
  import opened CommandLedger
  import opened ControlStatuses
  import opened StateStores
  import opened BatchSpec

  class Bridge {
    const store: StateStore
    const status: ControlStatus
    // The turns of the current batch whose action was performed, a record of
    // what reached the manager or the terminal.
    var executed: seq<nat>

    ghost predicate Ok()
      reads this, store, status
    {
      store.Ok()
    }

    constructor (saved: Ledger)
      requires Valid(saved)
      ensures Ok() && store.View() == saved && store.file == saved && status.View() == Readiness(IDLE, 0)
      ensures fresh(store) && fresh(status) && executed == []
    {
      store := new StateStore(saved);
      status := new ControlStatus();
      executed := [];
    }

    ghost function World(blocked: bool, aborted: bool): World
      reads this, store, status
    {
      BatchSpec.World(store.View(), store.file, status.View(), blocked, executed, aborted)
    }

    // _ack_durable_command around the exchange. The outbox passes `pendingOnly`: a
    // command whose ACK was settled meanwhile is left alone. A failing save of the
    // flag is logged and ignored.
    method AckDurableCommand(id: CommandLedger.Id, answer: AckAnswer, flagSaved: bool, pendingOnly: bool)
        returns (settled: bool)
      requires Ok()
      modifies store
      ensures Ok()
      ensures var asks := !pendingOnly || IsAckPending(old(store.View()), id);
              && store.View() == (if asks then Settle(old(store.View()), id, answer) else old(store.View()))
              && store.file == (if asks && flagSaved && id in old(store.entries) then store.View() else old(store.file))
              && settled == (asks ==> !answer.Unsettled?)
    {
      if pendingOnly && !(id in store.entries && store.entries[id].ackPending) {
        return true;
      }
      match answer {
        case Accepted => var _ := store.SetAckPending(id, false, Acked, flagSaved);
        case Conflicted => var _ := store.SetAckPending(id, false, StateConflict, flagSaved);
        case Unsettled => var _ := store.SetAckPending(id, true, Pending, flagSaved);
      }
      settled := !answer.Unsettled?;
    }

    // One pass over the outbox: the oldest ACK_OUTBOX_BATCH_SIZE owed ACKs are sent
    // once each, and no other entry is touched. `saved` are the ids whose flag is
    // saved.
    method FlushAckOutbox(answers: map<CommandLedger.Id, AckAnswer>, saved: set<CommandLedger.Id>)
        returns (resolved: nat)
      requires Ok()
      modifies store
      ensures Ok()
      ensures store.file == FlushedFile(old(store.View()), old(store.file), Due(old(store.View())), answers, saved)
      ensures store.View() == Flushed(old(store.View()), Due(old(store.View())), answers)
      ensures resolved == Answered(Due(old(store.View())), answers)
    {
      ghost var before, fileBefore := store.View(), store.file;
      var ids := store.PendingAckCommands(ACK_OUTBOX_BATCH_SIZE);
      DueIsOwed(before);
      resolved := 0;
      var i := 0;
      while i < |ids|
        invariant 0 <= i <= |ids| && Ok()
        invariant FlushedTo(before, fileBefore, ids, answers, saved, i, store.View(), store.file, resolved)
      {
        var answer := AnswerTo(answers, ids[i]);
        FlushedOneMore(before, fileBefore, ids, answers, saved, i, store.View(), store.file, resolved);
        var settled := AckDurableCommand(ids[i], answer, ids[i] in saved, true);
        if settled {
          resolved := resolved + 1;
        }
        i := i + 1;
      }
      assert ids[..i] == ids;
    }

    // The irrevocable call. It may be made only for a command whose execution is
    // already recorded in the file.
    method Perform(i: nat, c: Command)
      requires Ok()
      requires c.id in store.file.entries && store.file.entries[c.id].status == Executing
      modifies this`executed
      ensures Ok() && executed == old(executed) + [i]
    {
      executed := executed + [i];
    }

    // The manager keeps the command active: recovery's gate stays shut.
    method RunManagerCommand(i: nat, c: Command, o: Outcome) returns (failedGlobally: bool)
      requires Ok()
      requires c.id in store.file.entries && store.file.entries[c.id].status == Executing
      modifies this`executed, status
      ensures Ok() && executed == old(executed) + [i]
      ensures status.View() == ReadinessAfter(old(status.View()), o)
      ensures status.activeCommandId == c.id && status.claimed == old(status.claimed)
      ensures failedGlobally == o.GlobalError?
    {
      var before, errorBefore := status.state, status.lastError;
      status.activeCommandId := c.id;
      status.SetControlStatus(BUSY, "");
      Perform(i, c);
      match o {
        case Done(_) =>
          if before == DEGRADED || before == ERROR {
            status.SetControlStatus(DEGRADED, errorBefore);
          } else {
            status.SetControlStatus(IDLE, "");
          }
        case RoomError(code, _) =>
          status.SetControlStatus(DEGRADED, code);
        case GlobalError(code) =>
          status.SetControlStatus(ERROR, code);
      }
      failedGlobally := o.GlobalError?;
    }

    // The record of the outcome and its ACK, made while a manager command is still
    // the active one.
    method ConcludeCommand(t: Turn, ghost w: World) returns (raised: bool)
      requires Ok() && t.command.id != "" && t.command.id in store.entries
      requires !t.command.payment ==> status.activeCommandId == t.command.id
      requires w.ledger == store.View() && w.file == store.file && !w.aborted
      modifies store
      ensures Ok()
      ensures var w' := AckedUnlessAborted(Concluded(w, t), t);
              store.View() == w'.ledger && store.file == w'.file && raised == w'.aborted
      ensures t.command.id in store.entries && VerdictOfRun(t, store.entries[t.command.id])
      ensures !raised ==> AnsweredWith(store.entries[t.command.id], t.answer)
      ensures !raised && !t.saves.flag ==> t.command.id in store.file.entries && Owed(store.file.entries[t.command.id])
    {
      var c := t.command;
      MarkIsValid(store.View(), c.id, OutcomeEntry(c, t.outcome));
      var saved := store.MarkCommand(c.id, OutcomeEntry(c, t.outcome), t.saves.outcome);
      if !saved && t.outcome.Done? {
        MarkIsValid(store.View(), c.id, UnsavedEntry(c, t.saves.error));
        saved := store.MarkCommand(c.id, UnsavedEntry(c, t.saves.error), t.saves.retry);
      }
      raised := !saved;
      if saved {
        var _ := AckDurableCommand(c.id, t.answer, t.saves.flag, false);
      }
    }

    // The action of a started command; a manager's global failure blocks the rest.
    method Act(i: nat, t: Turn, blocked: bool) returns (blocksRest: bool)
      requires Ok()
      requires t.command.id in store.file.entries && store.file.entries[t.command.id].status == Executing
      modifies this`executed, status
      ensures Ok() && World(blocksRest, false) == Performed(old(World(blocked, false)), i, t)
      ensures status.claimed == old(status.claimed)
      ensures status.activeCommandId == if t.command.payment then old(status.activeCommandId) else t.command.id
    {
      blocksRest := blocked;
      if t.command.payment {
        Perform(i, t.command);
      } else {
        var failedGlobally := RunManagerCommand(i, t.command, t.outcome);
        if failedGlobally {
          blocksRest := true;
        }
      }
    }

    method RunFresh(i: nat, t: Turn, blocked: bool) returns (blocksRest: bool, raised: bool)
      requires Ok() && TakenAsNew(World(blocked, false), t) && (t.command.payment || !blocked)
      modifies this`executed, store, status
      ensures Ok()
      ensures World(blocksRest, raised) == TakeTurn(old(World(blocked, false)), i, t)
      ensures status.claimed == old(status.claimed) - if t.saves.first then ManagerId(t) else {}
      ensures status.activeCommandId
              == if t.saves.first && !t.command.payment then "" else old(status.activeCommandId)
    {
      var c := t.command;
      MarkIsValid(store.View(), c.id, NewEntry(Executing, c.roomId));
      var saved := store.MarkCommand(c.id, NewEntry(Executing, c.roomId), t.saves.first);
      if !saved {
        return blocked, true;
      }
      blocksRest := Act(i, t, blocked);
      raised := ConcludeCommand(t, World(blocksRest, false));
      if !c.payment {
        status.activeCommandId := "";
        status.claimed := status.claimed - {c.id};
      }
    }

    // A turn on a command the ledger knows: it is answered again, never run again.
    method AnswerKnown(i: nat, t: Turn, blocked: bool) returns (raised: bool)
      requires Ok() && t.command.id != "" && t.command.id in store.entries
      modifies store, status
      ensures Ok()
      ensures World(blocked, raised) == TakeTurn(old(World(blocked, false)), i, t)
      ensures status.claimed == old(status.claimed) - ManagerId(t)
      ensures status.activeCommandId == old(status.activeCommandId)
    {
      var c := t.command;
      if !c.payment {
        status.claimed := status.claimed - {c.id};
      }
      var saved := true;
      var previous := store.entries[c.id];
      if previous.status == Executing {
        saved := store.MarkCommand(c.id, InterruptedEntry(previous), t.saves.first);
        MarkIsValid(old(store.View()), c.id, InterruptedEntry(previous));
      }
      raised := !saved;
      if saved {
        var _ := AckDurableCommand(c.id, t.answer, t.saves.flag, false);
      }
    }

    // A turn on a manager command behind the block.
    method StopBlocked(i: nat, t: Turn, blocked: bool) returns (raised: bool)
      requires Ok() && t.command.id != "" && t.command.id !in store.entries && !t.command.payment && blocked
      modifies store, status
      ensures Ok()
      ensures World(blocked, raised) == TakeTurn(old(World(blocked, false)), i, t)
      ensures status.claimed == old(status.claimed) - if raised then {} else ManagerId(t)
      ensures status.activeCommandId == old(status.activeCommandId)
    {
      var c := t.command;
      MarkIsValid(store.View(), c.id, BlockedEntry(c));
      var saved := store.MarkCommand(c.id, BlockedEntry(c), t.saves.first);
      if !saved {
        return true;
      }
      var _ := AckDurableCommand(c.id, t.answer, t.saves.flag, false);
      status.claimed := status.claimed - {c.id};
      raised := false;
    }

    // One turn of the batch loop.
    method TakeCommand(i: nat, t: Turn, blocked: bool) returns (blocksRest: bool, raised: bool)
      requires Ok()
      modifies this`executed, store, status
      ensures Ok()
      ensures World(blocksRest, raised) == TakeTurn(old(World(blocked, false)), i, t)
      ensures Unclaims(old(status.claimed), status.claimed, ManagerId(t))
      ensures status.activeCommandId == "" || status.activeCommandId == old(status.activeCommandId)
    {
      var c := t.command;
      blocksRest, raised := blocked, false;
      if c.id == "" {
        return;
      }
      if c.id in store.entries {
        raised := AnswerKnown(i, t, blocked);
      } else if !c.payment && blocked {
        raised := StopBlocked(i, t, blocked);
      } else {
        blocksRest, raised := RunFresh(i, t, blocked);
      }
    }

    // The batch loop. Whatever the environment does, it ends in the world the turns
    // compute one after the other; an exception leaves it where it is.
    method ProcessClaimedCommands(turns: seq<Turn>) returns (blocked: bool, raised: bool)
      requires Ok() && executed == []
      modifies this`executed, store, status
      ensures Ok()
      ensures World(blocked, raised) == TakeTurns(old(AtClaim(store.View(), store.file, status.View())), turns)
      ensures Unclaims(old(status.claimed), status.claimed, ManagerIds(turns))
      ensures status.activeCommandId == "" || status.activeCommandId == old(status.activeCommandId)
    {
      ghost var start := AtClaim(store.View(), store.file, status.View());
      blocked, raised := status.state == ERROR, false;
      var i := 0;
      AtStart(start, turns);
      while i < |turns| && !raised
        invariant 0 <= i <= |turns| && Ok()
        invariant World(blocked, raised) == At(start, turns, i)
        invariant Unclaims(old(status.claimed), status.claimed, ManagerIds(turns))
        invariant status.activeCommandId == "" || status.activeCommandId == old(status.activeCommandId)
      {
        AtNext(start, turns, i);
        ghost var claimed := status.claimed;
        blocked, raised := TakeCommand(i, turns[i], blocked);
        UnclaimsOneMore(old(status.claimed), claimed, status.claimed, turns, i);
        i := i + 1;
      }
      AbortedStays(start, turns, i, |turns|);
      assert turns[..|turns|] == turns;
    }

    // Every manager command of the batch is claimed before the first turn, so
    // recovery keeps away, and none is left claimed after the last, even when an
    // exception ends the batch.
    method ProcessCommands(turns: seq<Turn>) returns (blocked: bool, raised: bool)
      requires Ok() && executed == [] && status.activeCommandId == ""
      modifies this`executed, store, status
      ensures Ok()
      ensures World(blocked, raised) == TakeTurns(old(AtClaim(store.View(), store.file, status.View())), turns)
      ensures status.activeCommandId == ""
      ensures status.claimed == old(status.claimed) - ManagerIds(turns)
    {
      var ids := set t | t in turns && t.command.id != "" && !t.command.payment :: t.command.id;
      status.claimed := status.claimed + ids;
      blocked, raised := ProcessClaimedCommands(turns);
      status.claimed := status.claimed - ids;
    }
  }

  // The id a turn on a manager command is claimed under, and those of a batch.
  ghost function ManagerId(t: Turn): set<CommandLedger.Id> {
    if t.command.payment || t.command.id == "" then {} else {t.command.id}
  }

  ghost function ManagerIds(turns: seq<Turn>): set<CommandLedger.Id> {
    set t | t in turns && t.command.id != "" && !t.command.payment :: t.command.id
  }

  // None but `ids` lose their claim.
  ghost predicate Unclaims(before: set<CommandLedger.Id>, after: set<CommandLedger.Id>, ids: set<CommandLedger.Id>) {
    before - ids <= after <= before
  }

  lemma UnclaimsOneMore(before: set<CommandLedger.Id>, mid: set<CommandLedger.Id>, after: set<CommandLedger.Id>,
                        turns: seq<Turn>, i: nat)
    requires i < |turns| && Unclaims(before, mid, ManagerIds(turns)) && Unclaims(mid, after, ManagerId(turns[i]))
    ensures Unclaims(before, after, ManagerIds(turns))
  {
  }

  // ----- One pass over the outbox -----

  function AnswerTo(answers: map<CommandLedger.Id, AckAnswer>, id: CommandLedger.Id): AckAnswer {
    if id in answers then answers[id] else Unsettled
  }

  function Due(l: Ledger): seq<CommandLedger.Id> {
    FirstN(Outbox(l, l.order), ACK_OUTBOX_BATCH_SIZE)
  }

  // The ledger after the ACKs of `ids` were sent.
  function Flushed(l: Ledger, ids: seq<CommandLedger.Id>, answers: map<CommandLedger.Id, AckAnswer>): Ledger {
    if ids == [] then l
    else
      var n := |ids| - 1;
      Settle(Flushed(l, ids[..n], answers), ids[n], AnswerTo(answers, ids[n]))
  }

  // The file after that: each saved flag writes the whole ledger.
  function FlushedFile(l: Ledger, file: Ledger, ids: seq<CommandLedger.Id>,
                       answers: map<CommandLedger.Id, AckAnswer>, saved: set<CommandLedger.Id>): Ledger
  {
    if ids == [] then file
    else
      var n := |ids| - 1;
      if ids[n] in saved then Flushed(l, ids, answers) else FlushedFile(l, file, ids[..n], answers, saved)
  }

  function Answered(ids: seq<CommandLedger.Id>, answers: map<CommandLedger.Id, AckAnswer>): nat {
    if ids == [] then 0
    else
      var n := |ids| - 1;
      Answered(ids[..n], answers) + if AnswerTo(answers, ids[n]).Unsettled? then 0 else 1
  }

  lemma DueIsOwed(l: Ledger)
    requires Valid(l)
    ensures NoDup(Due(l)) && forall x :: x in Due(l) ==> x in l.entries && l.entries[x].InOutbox()
  {
    OutboxIsExact(l, l.order);
  }

  /** A pass over the outbox keeps every entry's verdict and place; an ACK that was
      answered is no longer owed, one that was not is owed as before, and whoever
      was not asked about is as it was. */
  lemma {:induction false} FlushSettles(l: Ledger, ids: seq<CommandLedger.Id>,
                                        answers: map<CommandLedger.Id, AckAnswer>, x: CommandLedger.Id)
    requires Valid(l) && NoDup(ids) && forall y :: y in ids ==> y in l.entries && l.entries[y].InOutbox()
    ensures var after := Flushed(l, ids, answers);
            && Valid(after) && after.order == l.order && after.entries.Keys == l.entries.Keys
            && (x in l.entries && x !in ids ==> after.entries[x] == l.entries[x])
            && (x in ids ==>
                  && SameVerdict(after.entries[x], l.entries[x])
                  && AnsweredWith(after.entries[x], if x in answers then answers[x] else Unsettled))
  {
    if ids != [] {
      var n := |ids| - 1;
      FlushSettles(l, ids[..n], answers, x);
      assert ids == ids[..n] + [ids[n]];
      var before := Flushed(l, ids[..n], answers);
      SettleIsValid(before, ids[n], AnswerTo(answers, ids[n]));
    }
  }

  // The ledger, the file and the count after the first `i` ACKs.
  ghost predicate FlushedTo(l: Ledger, file: Ledger, ids: seq<CommandLedger.Id>,
                            answers: map<CommandLedger.Id, AckAnswer>, saved: set<CommandLedger.Id>, i: nat,
                            l': Ledger, file': Ledger, resolved: nat)
    requires i <= |ids|
  {
    && l' == Flushed(l, ids[..i], answers)
    && file' == FlushedFile(l, file, ids[..i], answers, saved)
    && resolved == Answered(ids[..i], answers)
  }

  // The next ACK is still owed when its turn comes.
  lemma FlushedOneMore(l: Ledger, file: Ledger, ids: seq<CommandLedger.Id>,
                       answers: map<CommandLedger.Id, AckAnswer>, saved: set<CommandLedger.Id>, i: nat,
                       l': Ledger, file': Ledger, resolved: nat)
    requires Valid(l) && NoDup(ids) && i < |ids| && forall y :: y in ids ==> y in l.entries && l.entries[y].InOutbox()
    requires FlushedTo(l, file, ids, answers, saved, i, l', file', resolved)
    ensures IsAckPending(l', ids[i])
    ensures var answer := AnswerTo(answers, ids[i]);
            var next := Settle(l', ids[i], answer);
            FlushedTo(l, file, ids, answers, saved, i + 1, next, if ids[i] in saved then next else file',
                      resolved + if answer.Unsettled? then 0 else 1)
  {
    assert ids[..i + 1][..i] == ids[..i];
    assert forall y :: y in ids[..i] ==> y in ids;
    FlushSettles(l, ids[..i], answers, ids[i]);
  }

  /** The file ends as the ledger was after the last flag that was saved, or as it was
      before if none was. */
  lemma {:induction false} FlushedFileIsLastSaved(l: Ledger, file: Ledger, ids: seq<CommandLedger.Id>,
                                                  answers: map<CommandLedger.Id, AckAnswer>,
                                                  saved: set<CommandLedger.Id>, k: nat)
    requires k <= |ids| && (k > 0 ==> ids[k - 1] in saved) && forall j :: k <= j < |ids| ==> ids[j] !in saved
    ensures FlushedFile(l, file, ids, answers, saved) == if k == 0 then file else Flushed(l, ids[..k], answers)
  {
    if k < |ids| {
      var n := |ids| - 1;
      FlushedFileIsLastSaved(l, file, ids[..n], answers, saved, k);
      assert ids[..n][..k] == ids[..k];
    } else {
      assert ids[..k] == ids;
    }
  }
}
