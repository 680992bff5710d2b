// The store PC's local payment tables: signed intents, one transaction per
// transaction uuid, and the cloud outbox.

module LocalPayment {
  import opened Wrappers

  // Each function is one database transaction: it takes effect as a whole or not at
  // all. An intent's signature determines all its fields, so comparing signatures is
  // comparing intents. Outbox rows are unique per transaction uuid and are never
  // deleted, so the uuid stands for the row's id.

  type Uuid = string
  type IntentId = string

  datatype Intent = Intent(id: IntentId, uuid: Uuid, amount: nat, nonce: string)

  datatype Status =
    | PENDING | PROCESSING
    | APPROVED | COMPLETED | DECLINED | USER_CANCELLED | CANCELLED | UNKNOWN | BUSY | ERROR
    | Unlisted(text: string)

  predicate IsFinal(s: Status)
    ensures IsFinal(s) <==> !s.PENDING? && !s.PROCESSING? && !s.Unlisted?
  {
    s.APPROVED? || s.COMPLETED? || s.DECLINED? || s.USER_CANCELLED? || s.CANCELLED? || s.UNKNOWN? || s.BUSY? || s.ERROR?
  }

  datatype IntentStatus = READY | REVOKED | EXPIRED | InTransaction(status: Status)

  datatype IntentRow = IntentRow(intent: Intent, status: IntentStatus)

  // What a payment came to; `reference` stands for the fields nobody inspects.
  datatype Result = Result(success: bool, status: Status, errorCode: string, reference: string)

  datatype Tx = Tx(intent: Intent, status: Status, result: Option<Result>, synced: bool)

  datatype OutboxStatus = Waiting | Failed | Synced | Quarantined

  // `permanent` says that the last recorded error is a permanent one.
  datatype OutboxRow = OutboxRow(intent: Intent, result: Result, status: OutboxStatus, attempts: nat, permanent: bool)

  // `order` lists intent ids in the order their rows were created.
  datatype Store = Store(
    order: seq<IntentId>,
    intents: map<IntentId, IntentRow>,
    txs: map<Uuid, Tx>,
    outbox: map<Uuid, OutboxRow>)

  const EMPTY_STORE := Store([], map[], map[], map[])

  // ----- Intents -----

  datatype SaveOutcome = Saved | ReplayConflict | Inactive | NonceTaken

  // The youngest intent row for a transaction.
  function Prior(s: Store, order: seq<IntentId>, uuid: Uuid): Option<IntentId> {
    if order == [] then None
    else
      var id := order[|order| - 1];
      if id in s.intents && s.intents[id].intent.uuid == uuid then Some(id)
      else Prior(s, order[..|order| - 1], uuid)
  }

  predicate Replaceable(status: IntentStatus)
    ensures Replaceable(status) <==> !status.InTransaction?
  {
    status == READY || status == REVOKED || status == EXPIRED
  }

  predicate NonceUsed(s: Store, nonce: string) {
    exists x | x in s.intents :: s.intents[x].intent.nonce == nonce
  }

  function Revoke(rows: map<IntentId, IntentRow>, id: IntentId): map<IntentId, IntentRow> {
    if id in rows && rows[id].status == READY then rows[id := rows[id].(status := REVOKED)] else rows
  }

  function SaveIntent(s: Store, i: Intent): (Store, SaveOutcome) {
    if i.id in s.intents then
      var row := s.intents[i.id];
      if row.intent != i then (s, ReplayConflict)
      else if (row.status == REVOKED || row.status == EXPIRED) && i.uuid !in s.txs then (s, Inactive)
      else (s, Saved)
    else
      var prior := Prior(s, s.order, i.uuid);
      if prior.Some? && prior.value in s.intents
         && (i.uuid in s.txs || !Replaceable(s.intents[prior.value].status)
             || s.intents[prior.value].intent.amount != i.amount)
      then (s, ReplayConflict)
      else if NonceUsed(s, i.nonce) then (s, NonceTaken)
      else
        var rows := if prior.Some? then Revoke(s.intents, prior.value) else s.intents;
        (s.(order := s.order + [i.id], intents := rows[i.id := IntentRow(i, READY)]), Saved)
  }

  function WithIntentStatus(rows: map<IntentId, IntentRow>, id: IntentId, status: IntentStatus): map<IntentId,
                            IntentRow> {
    if id in rows then rows[id := rows[id].(status := status)] else rows
  }

  // ----- Transactions -----

  datatype BeginOutcome = Began | Repeated(result: Result) | TransactionConflict | IntentIdTaken

  function StillUnknown(): (r: Result)
    ensures !r.success && r.status.UNKNOWN? && r.errorCode == "UNKNOWN"
  {
    Result(false, UNKNOWN, "UNKNOWN", "already in progress")
  }

  predicate IntentIdUsed(s: Store, id: IntentId) {
    exists u | u in s.txs :: s.txs[u].intent.id == id
  }

  function Begin(s: Store, i: Intent): (Store, BeginOutcome) {
    if i.uuid in s.txs then
      var tx := s.txs[i.uuid];
      if tx.intent.id != i.id || tx.intent.amount != i.amount then (s, TransactionConflict)
      else (s, Repeated(if tx.result.Some? then tx.result.value else StillUnknown()))
    else if IntentIdUsed(s, i.id) then (s, IntentIdTaken)
    else
      (s.(txs := s.txs[i.uuid := Tx(i, PROCESSING, None, false)],
          intents := WithIntentStatus(s.intents, i.id, InTransaction(PROCESSING))), Began)
  }

  // What `execute` makes of a terminal call that raises.
  function NotHeard(): (r: Result)
    ensures !r.success && r.status.UNKNOWN? && r.errorCode == "UNKNOWN"
  {
    Result(false, UNKNOWN, "UNKNOWN", "the terminal's answer was not heard")
  }

  function Normalised(r: Result): (n: Result)
    ensures IsFinal(n.status) && n.success == r.success && n.reference == r.reference
    ensures !r.status.PENDING? && !r.status.PROCESSING? && !r.status.Unlisted? ==>
              n.status == r.status && n.errorCode == r.errorCode
    ensures r.status.PENDING? || r.status.PROCESSING? || r.status.Unlisted? ==>
              n.status.UNKNOWN? && n.errorCode == "UNKNOWN"
  {
    if IsFinal(r.status) then r else r.(status := UNKNOWN, errorCode := "UNKNOWN")
  }

  // The INSERT ... ON CONFLICT of `complete`: a conflicting row keeps SYNCED.
  function Upsert(outbox: map<Uuid, OutboxRow>, i: Intent, r: Result): map<Uuid, OutboxRow> {
    if i.uuid in outbox then
      var row := outbox[i.uuid];
      outbox[i.uuid := row.(intent := i, result := r, status := if row.status == Synced then Synced else Waiting)]
    else outbox[i.uuid := OutboxRow(i, r, Waiting, 0, false)]
  }

  function Complete(s: Store, i: Intent, raw: Result): Store {
    var r := Normalised(raw);
    s.(txs := if i.uuid in s.txs
              then s.txs[i.uuid := s.txs[i.uuid].(status := r.status, result := Some(r), synced := false)]
              else s.txs,
       intents := WithIntentStatus(s.intents, i.id, InTransaction(r.status)),
       outbox := Upsert(s.outbox, i, r))
  }

  // ----- Restart -----

  function Interrupted(): (r: Result)
    ensures !r.success && r.status.UNKNOWN? && r.errorCode == "UNKNOWN"
  {
    Result(false, UNKNOWN, "UNKNOWN", "restarted before the result was known")
  }

  predicate Recoverable(s: Store, u: Uuid) {
    && u in s.txs
    && (s.txs[u].status == PENDING || s.txs[u].status == PROCESSING)
    && s.txs[u].intent.id in s.intents
  }

  function RecoveredRow(s: Store, u: Uuid): OutboxRow
    requires Recoverable(s, u)
  {
    var i := s.intents[s.txs[u].intent.id].intent;
    if u in s.outbox then s.outbox[u].(intent := i, result := Interrupted(), status := Waiting)
    else OutboxRow(i, Interrupted(), Waiting, 0, false)
  }

  function Recover(s: Store): Store {
    s.(txs := map u | u in s.txs ::
         if Recoverable(s, u) then s.txs[u].(status := UNKNOWN, result := Some(Interrupted())) else s.txs[u],
       outbox := map u | u in s.outbox.Keys + s.txs.Keys && (u in s.outbox || Recoverable(s, u)) ::
         if Recoverable(s, u) then RecoveredRow(s, u) else s.outbox[u])
  }

  predicate Due(row: OutboxRow) {
    row.status == Waiting || row.status == Failed
  }

  function Quarantine(s: Store): Store {
    s.(outbox := map u | u in s.outbox ::
         if Due(s.outbox[u]) && s.outbox[u].permanent then s.outbox[u].(status := Quarantined) else s.outbox[u])
  }

  // ----- Cloud sync -----

  function MarkSynced(s: Store, u: Uuid): Store {
    s.(outbox := if u in s.outbox then s.outbox[u := s.outbox[u].(status := Synced)] else s.outbox,
       txs := if u in s.txs then s.txs[u := s.txs[u].(synced := true)] else s.txs)
  }

  function MarkSyncFailed(s: Store, u: Uuid, attempts: nat, permanent: bool): Store {
    if u !in s.outbox then s
    else s.(outbox := s.outbox[u := s.outbox[u].(status := if permanent then Quarantined else Failed,
                                                  attempts := attempts + 1, permanent := permanent)])
  }

  function DeferSync(s: Store, u: Uuid): Store {
    if u !in s.outbox then s
    else s.(outbox := s.outbox[u := s.outbox[u].(status := Waiting, permanent := false)])
  }

  // ----- The store's invariant -----

  predicate TxAgrees(s: Store, u: Uuid)
    requires u in s.txs
  {
    var tx := s.txs[u];
    && tx.intent.uuid == u
    && tx.intent.id in s.intents && s.intents[tx.intent.id].intent == tx.intent
    && (tx.status == PROCESSING || IsFinal(tx.status))
    && (IsFinal(tx.status) <==> u in s.outbox)
    && (if IsFinal(tx.status)
        then s.outbox[u].intent == tx.intent && tx.result == Some(s.outbox[u].result)
             && s.outbox[u].result.status == tx.status
             && (tx.synced <==> s.outbox[u].status == Synced)
        else tx.result.None? && !tx.synced)
  }

  // Each final transaction has exactly one outbox row, carrying the stored
  // result, and is marked synced exactly when that row is.
  ghost predicate Ok(s: Store) {
    && (forall u | u in s.txs :: TxAgrees(s, u))
    && (forall u | u in s.outbox :: u in s.txs && (Due(s.outbox[u]) ==> !s.outbox[u].permanent))
    && (forall x | x in s.intents :: s.intents[x].intent.id == x)
  }

  // ----- What each operation keeps -----

  // Rows may be added to the intents, and statuses may change.
  ghost predicate KeepsIntents(s: Store, s': Store) {
    && (forall x | x in s.intents :: x in s'.intents && s'.intents[x].intent == s.intents[x].intent)
    && (forall x | x in s'.intents && x !in s.intents :: s'.intents[x].intent.id == x)
  }

  lemma IntentMoveKeepsOk(s: Store, s': Store)
    requires Ok(s) && s'.txs == s.txs && s'.outbox == s.outbox && KeepsIntents(s, s')
    ensures Ok(s')
  {
  }

  /** Saving an intent touches intents only; if it answers Saved, the intent's
      row is there with exactly its fields. */
  lemma SaveIntentKeepsOk(s: Store, i: Intent)
    requires Ok(s)
    ensures var (s', outcome) := SaveIntent(s, i);
            && Ok(s') && s'.txs == s.txs && s'.outbox == s.outbox && KeepsIntents(s, s')
            && (outcome == Saved ==> i.id in s'.intents && s'.intents[i.id].intent == i)
            && (outcome != Saved ==> s' == s)
  {
    IntentMoveKeepsOk(s, SaveIntent(s, i).0);
  }

  /** For an intent that was saved, a transaction begins exactly when its uuid has
      none yet: the uniqueness of intent ids is never violated, and a repeated
      call gets the stored result once there is one. */
  lemma BeginKeepsOk(s: Store, i: Intent)
    requires Ok(s) && i.id in s.intents && s.intents[i.id].intent == i
    ensures var (s', outcome) := Begin(s, i);
            && Ok(s') && s'.outbox == s.outbox
            && (outcome == Began <==> i.uuid !in s.txs)
            && outcome != IntentIdTaken
            && (outcome == Began ==> s'.txs == s.txs[i.uuid := Tx(i, PROCESSING, None, false)])
            && (outcome != Began ==> s' == s)
            && (outcome.Repeated? ==> s.txs[i.uuid].intent == i)
            && (outcome.Repeated? && IsFinal(s.txs[i.uuid].status) ==> s.txs[i.uuid].result == Some(outcome.result))
            && (outcome.Repeated? && !IsFinal(s.txs[i.uuid].status) ==>
                  !outcome.result.success && outcome.result.status == UNKNOWN && outcome.result.errorCode == "UNKNOWN")
            && (outcome.TransactionConflict? <==> i.uuid in s.txs && s.txs[i.uuid].intent != i)
  {
    var (s', outcome) := Begin(s, i);
    forall u | u in s.txs ensures i.uuid !in s.txs ==> s.txs[u].intent.id != i.id {
      assert TxAgrees(s, u);
    }
    if i.uuid in s.txs {
      assert TxAgrees(s, i.uuid);
    }
    forall u | u in s'.txs ensures TxAgrees(s', u) {
      if u in s.txs {
        assert TxAgrees(s, u);
      }
    }
  }

  // Transaction `u` finishes with result `r`.
  ghost predicate Finishes(s: Store, s': Store, u: Uuid, r: Result)
    requires u in s.txs
  {
    && s'.txs == s.txs[u := s.txs[u].(status := r.status, result := Some(r), synced := false)]
    && s'.outbox == s.outbox[u := OutboxRow(s.txs[u].intent, r, Waiting, 0, false)]
    && s'.intents.Keys == s.intents.Keys
    && forall x | x in s.intents :: s'.intents[x].intent == s.intents[x].intent
  }

  /** Completing a transaction in progress makes it final with one fresh outbox
      row: the ON CONFLICT arm is never taken. No other transaction changes. */
  lemma CompleteKeepsOk(s: Store, i: Intent, raw: Result)
    requires Ok(s) && i.uuid in s.txs && s.txs[i.uuid].intent == i && s.txs[i.uuid].status == PROCESSING
    ensures i.uuid !in s.outbox
    ensures Finishes(s, Complete(s, i, raw), i.uuid, Normalised(raw)) && IsFinal(Normalised(raw).status)
    ensures Ok(Complete(s, i, raw))
  {
    assert TxAgrees(s, i.uuid);
  }

  /** On any store, in agreement or not: should an outbox row be there already, completing
      replaces what it carries and keeps its attempts, and does not send a synced row
      again; recovery replaces it too, but makes it due in any case. */
  lemma ConflictArms(s: Store, i: Intent, raw: Result, u: Uuid)
    requires i.uuid in s.outbox
    ensures var row, row' := s.outbox[i.uuid], Complete(s, i, raw).outbox[i.uuid];
            && row'.intent == i && row'.result == Normalised(raw)
            && row'.attempts == row.attempts && row'.permanent == row.permanent
            && (row'.status.Synced? <==> row.status.Synced?) && (row'.status.Waiting? <==> !row.status.Synced?)
    ensures Recoverable(s, u) && u in s.outbox ==>
              var row := Recover(s).outbox[u];
              && row.intent == s.intents[s.txs[u].intent.id].intent && row.result == Interrupted()
              && row.status.Waiting? && row.attempts == s.outbox[u].attempts
  {
  }

  /** Quarantine at start finds nothing to do: a row that can still be sent never
      carries a permanent error. */
  lemma QuarantineFindsNothing(s: Store)
    requires Ok(s)
    ensures Quarantine(s) == s
  {
    assert Quarantine(s).outbox == s.outbox;
  }

  // Recovery reaches exactly the transactions in progress, none of which has an
  // outbox row.
  lemma RecoverableExactly(s: Store, u: Uuid)
    requires Ok(s) && u in s.txs
    ensures Recoverable(s, u) <==> !IsFinal(s.txs[u].status)
    ensures Recoverable(s, u) <==> u !in s.outbox
  {
    assert TxAgrees(s, u);
  }

  lemma UnfinishedAreRecoverable(s: Store)
    requires Ok(s)
    ensures forall u | u in s.txs ::
              && (Recoverable(s, u) <==> s.txs[u].status == PENDING || s.txs[u].status == PROCESSING)
              && (Recoverable(s, u) ==> u !in s.outbox)
  {
    forall u | u in s.txs
      ensures Recoverable(s, u) <==> s.txs[u].status == PENDING || s.txs[u].status == PROCESSING
      ensures Recoverable(s, u) ==> u !in s.outbox
    {
      assert TxAgrees(s, u);
    }
  }

  lemma RecoveredTxAgrees(s: Store, u: Uuid)
    requires Ok(s) && u in s.txs
    ensures TxAgrees(Recover(s), u)
  {
    assert TxAgrees(s, u);
  }

  lemma RecoverStaysOk(s: Store)
    requires Ok(s)
    ensures Ok(Recover(s))
  {
    forall u | u in s.txs ensures TxAgrees(Recover(s), u) {
      RecoveredTxAgrees(s, u);
    }
    UnfinishedAreRecoverable(s);
  }

  /** After a restart no transaction is left in progress, every final one is as it
      was, one that was in progress is unknown and not successful, with an outbox row
      that is due, and the ON CONFLICT arm of recovery is never taken. */
  lemma {:induction false} RecoverKeepsOk(s: Store)
    requires Ok(s)
    ensures Ok(Recover(s)) && Recover(s).txs.Keys == s.txs.Keys && Recover(s).intents == s.intents
    ensures forall u | u in s.txs :: IsFinal(Recover(s).txs[u].status)
    ensures forall u | u in s.txs && IsFinal(s.txs[u].status) :: Recover(s).txs[u] == s.txs[u]
    ensures forall u | u in s.txs && !IsFinal(s.txs[u].status) ::
              && u !in s.outbox && u in Recover(s).outbox && Due(Recover(s).outbox[u])
              && Recover(s).txs[u].status == UNKNOWN && Recover(s).txs[u].result == Some(Recover(s).outbox[u].result)
              && !Recover(s).outbox[u].result.success && Recover(s).outbox[u].result.errorCode == "UNKNOWN"
    ensures forall u | u in s.outbox :: u in Recover(s).outbox && Recover(s).outbox[u] == s.outbox[u]
  {
    RecoverStaysOk(s);
    forall u | u in s.txs
      ensures Recoverable(s, u) <==> !IsFinal(s.txs[u].status)
      ensures Recoverable(s, u) <==> u !in s.outbox
    {
      RecoverableExactly(s, u);
      RecoveredTxAgrees(s, u);
    }
  }

  function RecoverOne(s: Store, u: Uuid): Store
    requires Recoverable(s, u)
  {
    s.(txs := s.txs[u := s.txs[u].(status := UNKNOWN, result := Some(Interrupted()))],
       outbox := s.outbox[u := RecoveredRow(s, u)])
  }

  lemma RecoverOneSettlesOne(s: Store, u: Uuid)
    requires Recoverable(s, u)
    ensures forall x :: Recoverable(RecoverOne(s, u), x) <==> Recoverable(s, x) && x != u
  {
  }

  lemma RecoverOneTxs(s: Store, u: Uuid)
    requires Recoverable(s, u)
    ensures Recover(RecoverOne(s, u)).txs == Recover(s).txs
  {
  }

  lemma RecoverOneRow(s: Store, u: Uuid, x: Uuid)
    requires Recoverable(s, u)
    ensures x in Recover(RecoverOne(s, u)).outbox <==> x in Recover(s).outbox
    ensures x in Recover(s).outbox ==> Recover(RecoverOne(s, u)).outbox[x] == Recover(s).outbox[x]
  {
  }

  // Recovery may go row by row, in any order.
  lemma RecoverOneIsAStep(s: Store, u: Uuid)
    requires Recoverable(s, u)
    ensures Recover(RecoverOne(s, u)) == Recover(s)
    ensures forall x :: Recoverable(RecoverOne(s, u), x) <==> Recoverable(s, x) && x != u
  {
    RecoverOneSettlesOne(s, u);
    RecoverOneTxs(s, u);
    var a, b := Recover(RecoverOne(s, u)).outbox, Recover(s).outbox;
    forall x ensures x in a <==> x in b
             ensures x in b ==> a[x] == b[x]
    {
      RecoverOneRow(s, u, x);
    }
    assert a == b;
  }

  lemma NothingToRecover(s: Store)
    requires forall u :: !Recoverable(s, u)
    ensures Recover(s) == s
  {
  }

  lemma SyncedRowKeepsOk(s: Store, u: Uuid)
    requires Ok(s) && u in s.outbox
    ensures var s' := MarkSynced(s, u);
            Ok(s') && s'.txs[u].synced && s'.outbox[u].status == Synced
  {
  }

  // A row that moves to an unsynced status keeps the agreement if and only if it was
  // not synced.
  lemma OutboxMoveKeepsOk(s: Store, s': Store, u: Uuid)
    requires Ok(s) && u in s.outbox && s' == s.(outbox := s'.outbox)
    requires s'.outbox.Keys == s.outbox.Keys && forall x | x in s.outbox && x != u :: s'.outbox[x] == s.outbox[x]
    requires s'.outbox[u].intent == s.outbox[u].intent && s'.outbox[u].result == s.outbox[u].result
    requires s'.outbox[u].status != Synced && (Due(s'.outbox[u]) ==> !s'.outbox[u].permanent)
    ensures Ok(s') <==> s.outbox[u].status != Synced
  {
    assert TxAgrees(s, u);
    if s.outbox[u].status == Synced {
      assert !TxAgrees(s', u);
    } else {
      forall x | x in s'.txs ensures TxAgrees(s', x) {
        assert TxAgrees(s, x);
      }
    }
  }

  lemma FailedMoveKeepsOk(s: Store, u: Uuid, attempts: nat, permanent: bool)
    requires Ok(s) && u in s.outbox
    ensures Ok(MarkSyncFailed(s, u, attempts, permanent)) <==> s.outbox[u].status != Synced
  {
    OutboxMoveKeepsOk(s, MarkSyncFailed(s, u, attempts, permanent), u);
  }

  lemma DeferredMoveKeepsOk(s: Store, u: Uuid)
    requires Ok(s) && u in s.outbox
    ensures Ok(DeferSync(s, u)) <==> s.outbox[u].status != Synced
  {
    OutboxMoveKeepsOk(s, DeferSync(s, u), u);
  }

  /** Exactly when a failure or a deferral keeps row and transaction in agreement,
      for any row, due or quarantined: if and only if no one had synced it. Marking a
      row synced always does. This is why one sync worker is assumed. */
  lemma {:induction false} UnsyncedMoveKeepsOkExactlyWhen(s: Store, u: Uuid, attempts: nat, permanent: bool)
    requires Ok(s) && u in s.outbox
    ensures Ok(MarkSynced(s, u))
    ensures Ok(MarkSyncFailed(s, u, attempts, permanent)) <==> s.outbox[u].status != Synced
    ensures Ok(DeferSync(s, u)) <==> s.outbox[u].status != Synced
  {
    SyncedRowKeepsOk(s, u);
    FailedMoveKeepsOk(s, u, attempts, permanent);
    DeferredMoveKeepsOk(s, u);
  }

  // One worker sends due rows only, and none of these is synced.
  lemma SyncKeepsOk(s: Store, u: Uuid, attempts: nat, permanent: bool)
    requires Ok(s) && u in s.outbox && Due(s.outbox[u])
    ensures Ok(MarkSynced(s, u)) && Ok(MarkSyncFailed(s, u, attempts, permanent)) && Ok(DeferSync(s, u))
  {
    UnsyncedMoveKeepsOkExactlyWhen(s, u, attempts, permanent);
  }

  /** The failing side: marking a row failed after another worker synced it breaks
      the agreement. */
  lemma StaleFailureBreaksAgreement(s: Store, u: Uuid, attempts: nat, permanent: bool)
    requires Ok(s) && u in s.outbox && s.outbox[u].status == Synced
    ensures !Ok(MarkSyncFailed(s, u, attempts, permanent))
  {
    UnsyncedMoveKeepsOkExactlyWhen(s, u, attempts, permanent);
  }
}
