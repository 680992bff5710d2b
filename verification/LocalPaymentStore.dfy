// The store and the runtime as objects: rows change in place, and `Execute` is
// the path of one HTTP request when no other request interleaves.

module LocalPaymentStores {
  import opened Wrappers
  import opened LocalPayment

  // A result that claims nothing: no success, and an unknown status.
  ghost predicate ClaimsNothing(r: Result) {
    !r.success && r.status.UNKNOWN? && r.errorCode == "UNKNOWN"
  }

  // The transaction and its outbox row carry the result `raw`, made UNKNOWN if its
  // status is not a final one, and the row is due.
  ghost predicate IsStored(tx: Tx, row: OutboxRow, i: Intent, raw: Result) {
    var r := row.result;
    && tx == Tx(i, r.status, Some(r), false) && row.intent == i && (row.status == Waiting || row.status == Failed)
    && r == if raw.status.PENDING? || raw.status.PROCESSING? || raw.status.Unlisted?
            then raw.(status := UNKNOWN, errorCode := "UNKNOWN") else raw
  }

  class LocalPaymentStore {
    var order: seq<IntentId>
    var intents: map<IntentId, IntentRow>
    var txs: map<Uuid, Tx>
    var outbox: map<Uuid, OutboxRow>

    ghost function View(): Store
      reads this
    {
      Store(order, intents, txs, outbox)
    }

    // Opening the database: quarantine, then recovery.
    constructor (saved: Store)
      requires Ok(saved)
      ensures View() == Recover(saved) && Ok(View())
      ensures forall u :: u in txs ==> IsFinal(txs[u].status)
    {
      order, intents, txs, outbox := saved.order, saved.intents, saved.txs, saved.outbox;
      new;
      QuarantineFindsNothing(saved);
      RecoverKeepsOk(saved);
      QuarantineNonretryableOutbox();
      RecoverInterruptedTransactions();
    }

    method QuarantineNonretryableOutbox()
      modifies this`outbox
      ensures View() == Quarantine(old(View()))
      ensures forall u :: u in outbox && Due(outbox[u]) ==> !outbox[u].permanent
      ensures old(Ok(View())) ==> View() == old(View())
    {
      if Ok(View()) {
        QuarantineFindsNothing(View());
      }
      outbox := map u | u in outbox ::
        if Due(outbox[u]) && outbox[u].permanent then outbox[u].(status := Quarantined) else outbox[u];
    }

    method RecoverInterruptedTransactions()
      requires Ok(View())
      modifies this`txs, this`outbox
      ensures View() == Recover(old(View()))
    {
      UnfinishedAreRecoverable(View());
      ghost var target := Recover(View());
      var rows := set u | u in txs && (txs[u].status == PENDING || txs[u].status == PROCESSING);
      while rows != {}
        invariant forall u :: u in rows <==> Recoverable(View(), u)
        invariant forall u :: u in rows ==> u !in outbox
        invariant Recover(View()) == target
        decreases rows
      {
        var u :| u in rows;
        RecoverOneIsAStep(View(), u);
        RecoverRow(u);
        rows := rows - {u};
      }
      NothingToRecover(View());
    }

    method RecoverRow(u: Uuid)
      requires Recoverable(View(), u) && u !in outbox
      modifies this`txs, this`outbox
      ensures View() == RecoverOne(old(View()), u)
    {
      txs, outbox := txs[u := txs[u].(status := UNKNOWN, result := Some(Interrupted()))],
                     outbox[u := OutboxRow(intents[txs[u].intent.id].intent, Interrupted(), Waiting, 0, false)];
    }

    method Save(i: Intent) returns (outcome: SaveOutcome)
      requires Ok(View())
      modifies this`order, this`intents
      ensures Ok(View())
      ensures (View(), outcome) == SaveIntent(old(View()), i)
    {
      SaveIntentKeepsOk(View(), i);
      if i.id in intents {
        var row := intents[i.id];
        if row.intent != i {
          return ReplayConflict;
        }
        if (row.status == REVOKED || row.status == EXPIRED) && i.uuid !in txs {
          return Inactive;
        }
        return Saved;
      }
      var prior := YoungestFor(i.uuid);
      if prior.Some? {
        var row := intents[prior.value];
        if i.uuid in txs || !Replaceable(row.status) {
          return ReplayConflict;
        }
        if row.intent.amount != i.amount {
          return ReplayConflict;
        }
      }
      if exists x | x in intents :: intents[x].intent.nonce == i.nonce {
        return NonceTaken;
      }
      if prior.Some? && intents[prior.value].status == READY {
        intents := intents[prior.value := intents[prior.value].(status := REVOKED)];
      }
      intents := intents[i.id := IntentRow(i, READY)];
      order := order + [i.id];
      outcome := Saved;
    }

    method YoungestFor(uuid: Uuid) returns (id: Option<IntentId>)
      ensures id == Prior(View(), order, uuid)
      ensures id.Some? ==> id.value in intents
    {
      var n := |order|;
      assert order[..n] == order;
      while n > 0
        invariant 0 <= n <= |order|
        invariant Prior(View(), order, uuid) == Prior(View(), order[..n], uuid)
      {
        n := n - 1;
        assert order[..n + 1][..n] == order[..n];
        if order[n] in intents && intents[order[n]].intent.uuid == uuid {
          return Some(order[n]);
        }
      }
      id := None;
    }

    method BeginTransaction(i: Intent) returns (outcome: BeginOutcome)
      requires Ok(View()) && i.id in intents && intents[i.id].intent == i
      modifies this`txs, this`intents
      ensures Ok(View())
      ensures (View(), outcome) == Begin(old(View()), i)
    {
      BeginKeepsOk(View(), i);
      if i.uuid in txs {
        var tx := txs[i.uuid];
        if tx.intent.id != i.id || tx.intent.amount != i.amount {
          return TransactionConflict;
        }
        return Repeated(if tx.result.Some? then tx.result.value else StillUnknown());
      }
      txs := txs[i.uuid := Tx(i, PROCESSING, None, false)];
      intents := intents[i.id := intents[i.id].(status := InTransaction(PROCESSING))];
      outcome := Began;
    }

    method CompleteTransaction(i: Intent, raw: Result)
      requires Ok(View()) && i.uuid in txs && txs[i.uuid].intent == i && txs[i.uuid].status == PROCESSING
      modifies this`txs, this`intents, this`outbox
      ensures Ok(View())
      ensures View() == Complete(old(View()), i, raw)
      ensures i.uuid in txs && i.uuid in outbox && IsStored(txs[i.uuid], outbox[i.uuid], i, raw)
    {
      CompleteKeepsOk(View(), i, raw);
      var r := raw;
      if !IsFinal(r.status) {
        r := r.(status := UNKNOWN, errorCode := "UNKNOWN");
      }
      txs := txs[i.uuid := txs[i.uuid].(status := r.status, result := Some(r), synced := false)];
      if i.id in intents {
        intents := intents[i.id := intents[i.id].(status := InTransaction(r.status))];
      }
      outbox := outbox[i.uuid := OutboxRow(i, r, Waiting, 0, false)];
    }

    // The row is no longer due, and its transaction is marked with it.
    method MarkRowSynced(u: Uuid)
      modifies this`outbox, this`txs
      ensures View() == MarkSynced(old(View()), u)
      ensures old(Ok(View())) && u in outbox ==> Ok(View()) && txs[u].synced && !Due(outbox[u])
    {
      if u in outbox {
        if Ok(View()) {
          SyncedRowKeepsOk(View(), u);
        }
        outbox := outbox[u := outbox[u].(status := Synced)];
      }
      if u in txs {
        txs := txs[u := txs[u].(synced := true)];
      }
    }

    // The row is due again unless the error is permanent; the agreement holds unless
    // someone had synced the row.
    method MarkRowFailed(u: Uuid, attempts: nat, permanent: bool)
      modifies this`outbox
      ensures View() == MarkSyncFailed(old(View()), u, attempts, permanent)
      ensures u in outbox ==> (Due(outbox[u]) <==> !permanent)
      ensures old(Ok(View())) && u in outbox ==> (Ok(View()) <==> old(outbox)[u].status != Synced)
    {
      if u !in outbox {
        return;
      }
      if Ok(View()) {
        UnsyncedMoveKeepsOkExactlyWhen(View(), u, attempts, permanent);
      }
      if permanent {
        outbox := outbox[u := outbox[u].(status := Quarantined, attempts := attempts + 1, permanent := true)];
        return;
      }
      outbox := outbox[u := outbox[u].(status := Failed, attempts := attempts + 1, permanent := false)];
    }

    // The row is due; the agreement holds unless someone had synced it.
    method DeferRow(u: Uuid)
      modifies this`outbox
      ensures View() == DeferSync(old(View()), u)
      ensures u in outbox ==> Due(outbox[u])
      ensures old(Ok(View())) && u in outbox ==> (Ok(View()) <==> old(outbox)[u].status != Synced)
    {
      if u in outbox {
        if Ok(View()) {
          UnsyncedMoveKeepsOkExactlyWhen(View(), u, 0, false);
        }
        outbox := outbox[u := outbox[u].(status := Waiting, permanent := false)];
      }
    }
  }

  datatype Reply = Stored(result: Result) | InUse | Fresh(result: Result) | Rejected(reason: string)

  class LocalPaymentRuntime {
    const store: LocalPaymentStore
    var executing: bool
    // Every call made to the card terminal, in order.
    var calls: seq<Uuid>

    constructor (store: LocalPaymentStore)
      ensures this.store == store && !executing && calls == []
    {
      this.store := store;
      executing, calls := false, [];
    }

    method Charge(u: Uuid)
      requires executing && u in store.txs && store.txs[u].status == PROCESSING
      modifies this`calls
      ensures calls == old(calls) + [u]
    {
      calls := calls + [u];
    }

    // The part of `execute` under the lock, for an intent that was just saved and a
    // transaction that is not final.
    method ExecuteLocked(i: Intent, terminal: Option<Result>) returns (reply: Reply)
      requires Ok(store.View()) && !executing && i.id in store.intents && store.intents[i.id].intent == i
      requires i.uuid in store.txs ==> !IsFinal(store.txs[i.uuid].status)
      modifies this, store
      ensures Ok(store.View()) && !executing
      ensures calls == old(calls) + (if reply.Fresh? then [i.uuid] else [])
      ensures reply.Fresh? <==> i.uuid !in old(store.txs)
      ensures reply.Stored? <==> i.uuid in old(store.txs) && old(store.txs)[i.uuid].intent == i
      ensures !reply.Fresh? && !reply.Stored? ==> reply == Rejected("LOCAL_PAYMENT_TRANSACTION_CONFLICT")
      ensures reply.Fresh? ==>
        && (if terminal.Some? then reply.result == terminal.value else ClaimsNothing(reply.result))
        && i.uuid in store.txs && i.uuid in store.outbox
        && IsStored(store.txs[i.uuid], store.outbox[i.uuid], i, reply.result)
      ensures reply.Stored? ==> ClaimsNothing(reply.result)
      ensures !reply.Fresh? ==> store.txs == old(store.txs) && store.outbox == old(store.outbox)
    {
      executing := true;
      BeginKeepsOk(store.View(), i);
      var begun := store.BeginTransaction(i);
      match begun {
        case Began =>
          Charge(i.uuid);
          var raw := if terminal.Some? then terminal.value else NotHeard();
          CompleteKeepsOk(store.View(), i, raw);
          store.CompleteTransaction(i, raw);
          reply := Fresh(raw);
        case Repeated(r) => reply := Stored(r);
        case TransactionConflict => reply := Rejected("LOCAL_PAYMENT_TRANSACTION_CONFLICT");
        case IntentIdTaken => assert false;
      }
      executing := false;
    }

    // `terminal` is what the card terminal answers, None if the call raises: then
    // neither the reply nor the stored result claims anything.
    method Execute(i: Intent, terminal: Option<Result>) returns (reply: Reply)
      requires Ok(store.View())
      modifies this, store
      ensures Ok(store.View()) && executing == old(executing)
      ensures calls == old(calls) + (if reply.Fresh? then [i.uuid] else [])
      ensures reply.Fresh? <==>
        !old(executing) && i.uuid !in old(store.txs) && SaveIntent(old(store.View()), i).1 == Saved
      ensures reply.InUse? <==>
        && old(executing) && SaveIntent(old(store.View()), i).1 == Saved
        && !(i.uuid in old(store.txs) && IsFinal(old(store.txs)[i.uuid].status))
      ensures reply.Stored? <==>
        && SaveIntent(old(store.View()), i).1 == Saved && i.uuid in old(store.txs)
        && (IsFinal(old(store.txs)[i.uuid].status) || (!old(executing) && old(store.txs)[i.uuid].intent == i))
      ensures reply.Rejected? ==>
        reply.reason == if SaveIntent(old(store.View()), i).1 != Saved then "PAYMENT_INTENT"
                        else "LOCAL_PAYMENT_TRANSACTION_CONFLICT"
      ensures reply.Fresh? ==>
        && (if terminal.Some? then reply.result == terminal.value else ClaimsNothing(reply.result))
        && i.uuid in store.txs && i.uuid in store.outbox
        && IsStored(store.txs[i.uuid], store.outbox[i.uuid], i, reply.result)
      ensures reply.Stored? ==>
        if IsFinal(old(store.txs)[i.uuid].status) then old(store.txs)[i.uuid].result == Some(reply.result)
        else ClaimsNothing(reply.result)
      ensures !reply.Fresh? ==> store.txs == old(store.txs) && store.outbox == old(store.outbox)
    {
      SaveIntentKeepsOk(store.View(), i);
      var outcome := store.Save(i);
      if outcome != Saved {
        return Rejected("PAYMENT_INTENT");
      }
      if i.uuid in store.txs {
        assert TxAgrees(store.View(), i.uuid);
        if IsFinal(store.txs[i.uuid].status) {
          return Stored(store.txs[i.uuid].result.value);
        }
      }
      if executing {
        return InUse;
      }
      reply := ExecuteLocked(i, terminal);
    }
  }
}
