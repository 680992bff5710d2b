// The local payment runtime under concurrency.

module LocalPaymentRuns {
  import opened Wrappers
  import opened LocalPayment

  // Any number of HTTP threads, one sync worker, and crashes. Every store operation is
  // one step; so are taking and releasing the execute lock, calling the terminal, and
  // its return.

  type Tid = nat

  // Where a thread serving `execute` stands.
  datatype Thread =
    | Saving(intent: Intent)
    | Checking(intent: Intent)
    | Locking(intent: Intent)
    | Beginning(intent: Intent)
    | Calling(intent: Intent)
    | InTerminal(intent: Intent)
    | Completing(intent: Intent, raw: Result)

  // `calls`, `heard` and `replies` are history: the terminal calls made, one entry each,
  // what the terminal answered, and the results `execute` returned from a stored row.
  datatype Sys = Sys(
    store: Store,
    threads: map<Tid, Thread>,
    lock: Option<Tid>,
    sync: seq<Uuid>,
    calls: multiset<Uuid>,
    heard: set<(Uuid, Result)>,
    replies: set<(Uuid, Result)>)

  datatype SyncOutcome = Accepted | NotYet | Refused(permanent: bool)

  datatype Step =
    | Prepare(intent: Intent)
    | Arrive(tid: Tid, intent: Intent)
    | Save(tid: Tid)
    | Check(tid: Tid)
    | TakeLock(tid: Tid)
    | BeginTx(tid: Tid)
    | CallTerminal(tid: Tid)
    | TerminalReturns(tid: Tid, raw: Result)
    | TerminalRaises(tid: Tid)
    | CompleteTx(tid: Tid, durable: bool)
    | SyncPoll(due: seq<Uuid>)
    | SyncNext(outcome: SyncOutcome)
    | CrashAndRestart

  function Drop(s: Sys, tid: Tid): Sys {
    s.(threads := s.threads - {tid})
  }

  function Move(s: Sys, tid: Tid, t: Thread): Sys {
    s.(threads := s.threads[tid := t])
  }

  // `finally: release()`, then the response.
  function Leave(s: Sys, tid: Tid): Sys {
    s.(threads := s.threads - {tid}, lock := None)
  }

  predicate Enabled(s: Sys, step: Step) {
    match step
    case Prepare(_) => true
    case Arrive(tid, _) => tid !in s.threads
    case Save(tid) => tid in s.threads && s.threads[tid].Saving?
    case Check(tid) => tid in s.threads && s.threads[tid].Checking?
    case TakeLock(tid) => tid in s.threads && s.threads[tid].Locking?
    case BeginTx(tid) => tid in s.threads && s.threads[tid].Beginning?
    case CallTerminal(tid) => tid in s.threads && s.threads[tid].Calling?
    case TerminalReturns(tid, _) => tid in s.threads && s.threads[tid].InTerminal?
    case TerminalRaises(tid) => tid in s.threads && s.threads[tid].InTerminal?
    case CompleteTx(tid, _) => tid in s.threads && s.threads[tid].Completing?
    case SyncPoll(due) =>
      && s.sync == []
      && (forall i | 0 <= i < |due| :: due[i] in s.store.outbox && Due(s.store.outbox[due[i]]))
      && (forall i, j | 0 <= i < j < |due| :: due[i] != due[j])
    case SyncNext(_) => s.sync != []
    case CrashAndRestart => true
  }

  function Saves(s: Sys, tid: Tid): Sys
    requires tid in s.threads
  {
    var i := s.threads[tid].intent;
    var (store, outcome) := SaveIntent(s.store, i);
    if outcome == Saved then Move(s.(store := store), tid, Checking(i)) else Drop(s.(store := store), tid)
  }

  function Checks(s: Sys, tid: Tid): Sys
    requires tid in s.threads
  {
    var i := s.threads[tid].intent;
    if i.uuid in s.store.txs && IsFinal(s.store.txs[i.uuid].status) then
      var tx := s.store.txs[i.uuid];
      Drop(s, tid).(replies := if tx.result.Some? then s.replies + {(i.uuid, tx.result.value)} else s.replies)
    else Move(s, tid, Locking(i))
  }

  function TakesLock(s: Sys, tid: Tid): Sys
    requires tid in s.threads
  {
    if s.lock.None? then Move(s.(lock := Some(tid)), tid, Beginning(s.threads[tid].intent)) else Drop(s, tid)
  }

  function Begins(s: Sys, tid: Tid): Sys
    requires tid in s.threads
  {
    var i := s.threads[tid].intent;
    var (store, outcome) := Begin(s.store, i);
    match outcome
    case Began => Move(s.(store := store), tid, Calling(i))
    case Repeated(r) =>
      var done := i.uuid in s.store.txs && s.store.txs[i.uuid].result.Some?;
      Leave(s, tid).(replies := if done then s.replies + {(i.uuid, r)} else s.replies)
    case TransactionConflict => Leave(s, tid)
    case IntentIdTaken => Leave(s, tid)
  }

  function Completes(s: Sys, tid: Tid, durable: bool): Sys
    requires tid in s.threads && s.threads[tid].Completing?
  {
    var i := s.threads[tid].intent;
    Leave(if durable then s.(store := Complete(s.store, i, s.threads[tid].raw)) else s, tid)
  }

  function SyncedStore(store: Store, u: Uuid, outcome: SyncOutcome): Store {
    var attempts := if u in store.outbox then store.outbox[u].attempts else 0;
    match outcome
    case Accepted => MarkSynced(store, u)
    case NotYet => DeferSync(store, u)
    case Refused(permanent) => MarkSyncFailed(store, u, attempts, permanent)
  }

  function Syncs(s: Sys, outcome: SyncOutcome): Sys
    requires s.sync != []
  {
    s.(store := SyncedStore(s.store, s.sync[0], outcome), sync := s.sync[1..])
  }

  function Apply(s: Sys, step: Step): Sys
    requires Enabled(s, step)
  {
    match step
    case Prepare(i) => s.(store := SaveIntent(s.store, i).0)
    case Arrive(tid, i) => Move(s, tid, Saving(i))
    case Save(tid) => Saves(s, tid)
    case Check(tid) => Checks(s, tid)
    case TakeLock(tid) => TakesLock(s, tid)
    case BeginTx(tid) => Begins(s, tid)
    case CallTerminal(tid) =>
      var i := s.threads[tid].intent;
      Move(s, tid, InTerminal(i)).(calls := s.calls + multiset{i.uuid})
    case TerminalReturns(tid, raw) =>
      var i := s.threads[tid].intent;
      Move(s, tid, Completing(i, raw)).(heard := s.heard + {(i.uuid, raw)})
    case TerminalRaises(tid) => Move(s, tid, Completing(s.threads[tid].intent, NotHeard()))
    case CompleteTx(tid, durable) => Completes(s, tid, durable)
    case SyncPoll(due) => s.(sync := due)
    case SyncNext(outcome) => Syncs(s, outcome)
    case CrashAndRestart =>
      s.(store := Recover(Quarantine(s.store)), threads := map[], lock := None, sync := [])
  }

  const INITIAL := Sys(EMPTY_STORE, map[], None, [], multiset{}, {}, {})

  // ----- The invariant -----

  predicate HoldsLock(t: Thread) {
    t.Beginning? || t.Calling? || t.InTerminal? || t.Completing?
  }

  predicate InProgress(store: Store, i: Intent) {
    i.uuid in store.txs && store.txs[i.uuid].intent == i && store.txs[i.uuid].status == PROCESSING
  }

  predicate ThreadOk(s: Sys, tid: Tid, t: Thread) {
    && (!t.Saving? ==> t.intent.id in s.store.intents && s.store.intents[t.intent.id].intent == t.intent)
    && (HoldsLock(t) ==> s.lock == Some(tid))
    && (t.Calling? ==> InProgress(s.store, t.intent) && s.calls[t.intent.uuid] == 0)
    && (t.InTerminal? || t.Completing? ==> InProgress(s.store, t.intent))
  }

  ghost predicate CallsOk(s: Sys) {
    && (forall u :: s.calls[u] <= 1)
    && (forall u | u in s.calls :: u in s.store.txs)
  }

  ghost predicate RepliesOk(s: Sys) {
    forall u, r | (u, r) in s.replies ::
      u in s.store.txs && IsFinal(s.store.txs[u].status) && s.store.txs[u].result == Some(r)
  }

  predicate SyncOk(s: Sys) {
    && (forall i | 0 <= i < |s.sync| :: s.sync[i] in s.store.outbox && Due(s.store.outbox[s.sync[i]]))
    && (forall i, j | 0 <= i < j < |s.sync| :: s.sync[i] != s.sync[j])
  }

  ghost predicate Inv(s: Sys) {
    && Ok(s.store)
    && (forall tid | tid in s.threads :: ThreadOk(s, tid, s.threads[tid]))
    && CallsOk(s)
    && RepliesOk(s)
    && SyncOk(s)
  }

  // From `a` to `b` no intent changes its fields, no transaction disappears,
  // and no final one changes its status or result.
  ghost predicate Settles(a: Store, b: Store) {
    && (forall x | x in a.intents :: x in b.intents && b.intents[x].intent == a.intents[x].intent)
    && (forall u | u in a.txs :: u in b.txs)
    && (forall u | u in a.txs && IsFinal(a.txs[u].status) ::
          b.txs[u].status == a.txs[u].status && b.txs[u].result == a.txs[u].result)
  }

  ghost predicate KeepsProgress(a: Store, b: Store) {
    forall u | u in a.txs && a.txs[u].status == PROCESSING :: u in b.txs && b.txs[u] == a.txs[u]
  }

  lemma RepliesKeepOk(s: Sys, s': Sys)
    requires RepliesOk(s) && Settles(s.store, s'.store) && s'.replies == s.replies
    ensures RepliesOk(s')
  {
  }

  lemma SyncKeepsDue(s: Sys, s': Sys)
    requires SyncOk(s) && s'.sync == s.sync
    requires forall u | u in s.store.outbox :: u in s'.store.outbox && s'.store.outbox[u] == s.store.outbox[u]
    ensures SyncOk(s')
  {
  }

  // A step of the store alone: the threads, the lock and the history stay.
  lemma StoreStepKeepsInv(s: Sys, s': Sys)
    requires Inv(s) && Ok(s'.store) && Settles(s.store, s'.store) && KeepsProgress(s.store, s'.store) && SyncOk(s')
    requires s'.threads == s.threads && s'.lock == s.lock && s'.calls == s.calls && s'.replies == s.replies
    ensures Inv(s')
  {
  }

  lemma SavedStoreMoves(store: Store, i: Intent)
    requires Ok(store)
    ensures var after := SaveIntent(store, i).0;
            Ok(after) && Settles(store, after) && KeepsProgress(store, after) && after.outbox == store.outbox
  {
    SaveIntentKeepsOk(store, i);
  }

  lemma PrepareStepKeepsInv(s: Sys, i: Intent)
    requires Inv(s)
    ensures Inv(Apply(s, Prepare(i))) && Settles(s.store, Apply(s, Prepare(i)).store)
  {
    var s' := Apply(s, Prepare(i));
    SavedStoreMoves(s.store, i);
    SyncKeepsDue(s, s');
    StoreStepKeepsInv(s, s');
  }

  // A step of one thread that leaves the store and the sync worker alone.
  lemma ThreadStepKeepsInv(s: Sys, s': Sys, tid: Tid)
    requires Inv(s) && s'.store == s.store && s'.calls == s.calls && s'.sync == s.sync && RepliesOk(s')
    requires s'.lock == s.lock || (s.lock.None? && s'.lock == Some(tid))
    requires forall x | x in s'.threads && x != tid :: x in s.threads && s'.threads[x] == s.threads[x]
    requires tid in s'.threads ==> ThreadOk(s', tid, s'.threads[tid])
    ensures Inv(s')
  {
  }

  lemma SaveStepKeepsInv(s: Sys, tid: Tid)
    requires Inv(s) && Enabled(s, Save(tid))
    ensures Inv(Apply(s, Save(tid))) && Settles(s.store, Apply(s, Save(tid)).store)
  {
    var i := s.threads[tid].intent;
    var saved := Apply(s, Prepare(i));
    PrepareStepKeepsInv(s, i);
    SaveIntentKeepsOk(s.store, i);
    ThreadStepKeepsInv(saved, Apply(s, Save(tid)), tid);
  }

  lemma CheckStepKeepsInv(s: Sys, tid: Tid)
    requires Inv(s) && Enabled(s, Check(tid))
    ensures Inv(Checks(s, tid)) && Checks(s, tid).store == s.store
  {
  }

  lemma LocalStepKeepsInv(s: Sys, step: Step)
    requires Inv(s) && Enabled(s, step) && (step.Arrive? || step.TakeLock?)
    ensures Inv(Apply(s, step)) && Apply(s, step).store == s.store
  {
    if step.TakeLock? {
      assert ThreadOk(s, step.tid, s.threads[step.tid]);
    }
    ThreadStepKeepsInv(s, Apply(s, step), step.tid);
  }

  // A step of the thread that holds the lock.
  lemma HolderStepKeepsInv(s: Sys, s': Sys, tid: Tid)
    requires Inv(s) && tid in s.threads && HoldsLock(s.threads[tid])
    requires Ok(s'.store) && Settles(s.store, s'.store) && CallsOk(s') && RepliesOk(s') && SyncOk(s')
    requires forall x | x in s'.threads && x != tid :: x in s.threads && s'.threads[x] == s.threads[x]
    requires tid in s'.threads ==> ThreadOk(s', tid, s'.threads[tid])
    ensures Inv(s')
  {
  }

  lemma BegunReplies(s: Sys, tid: Tid)
    requires Inv(s) && Enabled(s, BeginTx(tid))
    ensures RepliesOk(Begins(s, tid))
  {
    var i := s.threads[tid].intent;
    assert ThreadOk(s, tid, s.threads[tid]);
    BeginKeepsOk(s.store, i);
    if i.uuid in s.store.txs {
      assert TxAgrees(s.store, i.uuid);
    }
  }

  lemma BeginStepKeepsInv(s: Sys, tid: Tid)
    requires Inv(s) && Enabled(s, BeginTx(tid))
    ensures Inv(Begins(s, tid)) && Settles(s.store, Begins(s, tid).store)
  {
    var s' := Begins(s, tid);
    assert ThreadOk(s, tid, s.threads[tid]);
    BeginKeepsOk(s.store, s.threads[tid].intent);
    BegunReplies(s, tid);
    SyncKeepsDue(s, s');
    HolderStepKeepsInv(s, s', tid);
  }

  lemma CallStepKeepsInv(s: Sys, tid: Tid)
    requires Inv(s) && Enabled(s, CallTerminal(tid))
    ensures Inv(Apply(s, CallTerminal(tid))) && Apply(s, CallTerminal(tid)).store == s.store
  {
    assert ThreadOk(s, tid, s.threads[tid]);
    HolderStepKeepsInv(s, Apply(s, CallTerminal(tid)), tid);
  }

  lemma ReturnStepKeepsInv(s: Sys, step: Step)
    requires Inv(s) && Enabled(s, step) && (step.TerminalReturns? || step.TerminalRaises?)
    ensures Inv(Apply(s, step)) && Apply(s, step).store == s.store
  {
    assert ThreadOk(s, step.tid, s.threads[step.tid]);
    ThreadStepKeepsInv(s, Apply(s, step), step.tid);
  }

  lemma FinishMoves(a: Store, b: Store, u: Uuid, r: Result)
    requires u in a.txs && a.txs[u].status == PROCESSING && u !in a.outbox && Finishes(a, b, u, r)
    ensures Settles(a, b)
    ensures forall v | v in a.outbox :: v in b.outbox && b.outbox[v] == a.outbox[v]
  {
  }

  lemma CompletedMoves(store: Store, i: Intent, raw: Result)
    requires Ok(store) && InProgress(store, i)
    ensures var after := Complete(store, i, raw);
            && Ok(after) && Settles(store, after)
            && (forall u | u in store.outbox :: u in after.outbox && after.outbox[u] == store.outbox[u])
  {
    CompleteKeepsOk(store, i, raw);
    FinishMoves(store, Complete(store, i, raw), i.uuid, Normalised(raw));
  }

  lemma CompleteStepKeepsInv(s: Sys, tid: Tid, durable: bool)
    requires Inv(s) && Enabled(s, CompleteTx(tid, durable))
    ensures Inv(Completes(s, tid, durable)) && Settles(s.store, Completes(s, tid, durable).store)
  {
    var s', t := Completes(s, tid, durable), s.threads[tid];
    assert ThreadOk(s, tid, t);
    CompletedMoves(s.store, t.intent, t.raw);
    RepliesKeepOk(s, s');
    SyncKeepsDue(s, s');
    HolderStepKeepsInv(s, s', tid);
  }

  lemma SyncedStoreIsOk(store: Store, u: Uuid, outcome: SyncOutcome)
    requires Ok(store) && u in store.outbox && Due(store.outbox[u])
    ensures Ok(SyncedStore(store, u, outcome))
  {
    SyncKeepsOk(store, u, store.outbox[u].attempts, outcome.Refused? && outcome.permanent);
  }

  lemma SyncedStoreMoves(store: Store, u: Uuid, outcome: SyncOutcome)
    requires u in store.outbox && u in store.txs && store.txs[u].status != PROCESSING
    ensures var after := SyncedStore(store, u, outcome);
            && Settles(store, after) && KeepsProgress(store, after)
            && (forall x | x in store.outbox && x != u :: x in after.outbox && after.outbox[x] == store.outbox[x])
  {
  }

  lemma RestOfSyncOk(s: Sys, s': Sys)
    requires SyncOk(s) && s.sync != [] && s'.sync == s.sync[1..]
    requires forall x | x in s.store.outbox && x != s.sync[0] ::
               x in s'.store.outbox && s'.store.outbox[x] == s.store.outbox[x]
    ensures SyncOk(s')
  {
  }

  lemma SyncStepKeepsInv(s: Sys, outcome: SyncOutcome)
    requires Inv(s) && s.sync != []
    ensures Inv(Syncs(s, outcome)) && Settles(s.store, Syncs(s, outcome).store)
  {
    var s', u := Syncs(s, outcome), s.sync[0];
    SyncedStoreIsOk(s.store, u, outcome);
    assert TxAgrees(s.store, u);
    SyncedStoreMoves(s.store, u, outcome);
    RestOfSyncOk(s, s');
    StoreStepKeepsInv(s, s');
  }

  lemma CrashKeepsInv(s: Sys)
    requires Inv(s)
    ensures Inv(Apply(s, CrashAndRestart)) && Settles(s.store, Apply(s, CrashAndRestart).store)
  {
    QuarantineFindsNothing(s.store);
    RecoverKeepsOk(s.store);
  }

  lemma {:induction false} ApplyKeepsInv(s: Sys, step: Step)
    requires Inv(s) && Enabled(s, step)
    ensures Inv(Apply(s, step)) && Settles(s.store, Apply(s, step).store)
  {
    match step
    case Prepare(i) => PrepareStepKeepsInv(s, i);
    case Save(tid) => SaveStepKeepsInv(s, tid);
    case Arrive(_, _) => LocalStepKeepsInv(s, step);
    case Check(tid) => CheckStepKeepsInv(s, tid);
    case TakeLock(_) => LocalStepKeepsInv(s, step);
    case BeginTx(tid) => BeginStepKeepsInv(s, tid);
    case CallTerminal(tid) => CallStepKeepsInv(s, tid);
    case TerminalReturns(_, _) => ReturnStepKeepsInv(s, step);
    case TerminalRaises(_) => ReturnStepKeepsInv(s, step);
    case CompleteTx(tid, durable) => CompleteStepKeepsInv(s, tid, durable);
    case SyncPoll(_) =>
      var s' := Apply(s, step);
      forall x | x in s'.threads ensures ThreadOk(s', x, s'.threads[x]) {
        assert ThreadOk(s, x, s.threads[x]);
      }
    case SyncNext(outcome) => SyncStepKeepsInv(s, outcome);
    case CrashAndRestart => CrashKeepsInv(s);
  }

  // ----- Theorems over runs -----

  // The states before and after each step, every step enabled when its turn comes.
  ghost predicate Follows(states: seq<Sys>, steps: seq<Step>) {
    && |states| == |steps| + 1
    && forall i :: 0 <= i < |steps| ==> Enabled(states[i], steps[i]) && states[i + 1] == Apply(states[i], steps[i])
  }

  ghost predicate IsRun(states: seq<Sys>, steps: seq<Step>) {
    Follows(states, steps) && states[0] == INITIAL
  }

  lemma {:induction false} InvAlongRun(states: seq<Sys>, steps: seq<Step>, k: nat)
    requires IsRun(states, steps) && k <= |steps|
    ensures Inv(states[k])
  {
    if k > 0 {
      InvAlongRun(states, steps, k - 1);
      ApplyKeepsInv(states[k - 1], steps[k - 1]);
    }
  }

  // In this step the card terminal is called for `u`.
  predicate CallsFor(s: Sys, step: Step, u: Uuid) {
    step.CallTerminal? && step.tid in s.threads && s.threads[step.tid].intent.uuid == u
  }

  // In this step the terminal answers `raw` for `u`.
  predicate AnswersFor(s: Sys, step: Step, u: Uuid, raw: Result) {
    && step.TerminalReturns? && step.raw == raw
    && step.tid in s.threads && s.threads[step.tid].intent.uuid == u
  }

  // In this step `execute` returns the result stored for `u`: found final before the
  // lock, or found by `begin`.
  predicate RepliesFor(s: Sys, step: Step, u: Uuid, r: Result) {
    && (step.Check? || step.BeginTx?) && step.tid in s.threads && s.threads[step.tid].intent.uuid == u
    && u in s.store.txs && s.store.txs[u].result == Some(r)
    && (step.BeginTx? ==> s.store.txs[u].intent == s.threads[step.tid].intent)
  }

  lemma CallsNext(s: Sys, step: Step, u: Uuid)
    requires Enabled(s, step)
    ensures Apply(s, step).calls[u] == s.calls[u] + if CallsFor(s, step, u) then 1 else 0
  {
  }

  lemma HeardNext(s: Sys, step: Step, u: Uuid, raw: Result)
    requires Enabled(s, step)
    ensures (u, raw) in Apply(s, step).heard <==> (u, raw) in s.heard || AnswersFor(s, step, u, raw)
  {
  }

  lemma OtherStepsDoNotReply(s: Sys, step: Step)
    requires Enabled(s, step) && !step.Check? && !step.BeginTx?
    ensures Apply(s, step).replies == s.replies
  {
  }

  lemma CheckReplies(s: Sys, tid: Tid, u: Uuid, r: Result)
    requires Inv(s) && Enabled(s, Check(tid))
    ensures (u, r) in Checks(s, tid).replies <==> (u, r) in s.replies || RepliesFor(s, Check(tid), u, r)
  {
    if u in s.store.txs {
      assert TxAgrees(s.store, u);
    }
  }

  lemma BeginReplies(s: Sys, tid: Tid, u: Uuid, r: Result)
    requires Inv(s) && Enabled(s, BeginTx(tid))
    ensures (u, r) in Begins(s, tid).replies <==> (u, r) in s.replies || RepliesFor(s, BeginTx(tid), u, r)
  {
    var i := s.threads[tid].intent;
    assert ThreadOk(s, tid, s.threads[tid]);
    if i.uuid in s.store.txs {
      assert TxAgrees(s.store, i.uuid);
    }
  }

  lemma RepliesNext(s: Sys, step: Step, u: Uuid, r: Result)
    requires Inv(s) && Enabled(s, step)
    ensures (u, r) in Apply(s, step).replies <==> (u, r) in s.replies || RepliesFor(s, step, u, r)
  {
    if step.Check? {
      CheckReplies(s, step.tid, u, r);
    } else if step.BeginTx? {
      BeginReplies(s, step.tid, u, r);
    } else {
      OtherStepsDoNotReply(s, step);
    }
  }

  /** The histories are true to the steps: a terminal call is on record exactly when a
      step made it, */
  lemma {:induction false} CallsAreExact(states: seq<Sys>, steps: seq<Step>, k: nat, u: Uuid)
    requires IsRun(states, steps) && k <= |steps|
    ensures u in states[k].calls <==> exists j :: 0 <= j < k && CallsFor(states[j], steps[j], u)
    decreases k
  {
    if k > 0 {
      CallsAreExact(states, steps, k - 1, u);
      CallsNext(states[k - 1], steps[k - 1], u);
    }
  }

  /** so is what the terminal answered, */
  lemma {:induction false} AnswersAreExact(states: seq<Sys>, steps: seq<Step>, k: nat, u: Uuid, raw: Result)
    requires IsRun(states, steps) && k <= |steps|
    ensures (u, raw) in states[k].heard <==> exists j :: 0 <= j < k && AnswersFor(states[j], steps[j], u, raw)
    decreases k
  {
    if k > 0 {
      AnswersAreExact(states, steps, k - 1, u, raw);
      HeardNext(states[k - 1], steps[k - 1], u, raw);
    }
  }

  lemma {:induction false} RepliedOnce(states: seq<Sys>, steps: seq<Step>, k: nat, u: Uuid, r: Result)
    requires |states| == |steps| + 1 && k <= |steps| && (u, r) !in states[0].replies
    requires forall j :: 0 <= j < k ==> ((u, r) in states[j + 1].replies <==>
                                         (u, r) in states[j].replies || RepliesFor(states[j], steps[j], u, r))
    ensures (u, r) in states[k].replies <==> exists j :: 0 <= j < k && RepliesFor(states[j], steps[j], u, r)
    decreases k
  {
    if k > 0 {
      RepliedOnce(states, steps, k - 1, u, r);
    }
  }

  /** and so are the results returned from the store. */
  lemma {:induction false} RepliesAreExact(states: seq<Sys>, steps: seq<Step>, k: nat, u: Uuid, r: Result)
    requires IsRun(states, steps) && k <= |steps|
    ensures (u, r) in states[k].replies <==> exists j :: 0 <= j < k && RepliesFor(states[j], steps[j], u, r)
  {
    forall j | 0 <= j < k
      ensures (u, r) in states[j + 1].replies <==>
              (u, r) in states[j].replies || RepliesFor(states[j], steps[j], u, r)
    {
      InvAlongRun(states, steps, j);
      RepliesNext(states[j], steps[j], u, r);
    }
    RepliedOnce(states, steps, k, u, r);
  }

  /** Over every interleaving and every crash, the card terminal is called at most
      once for a transaction. */
  lemma TerminalCalledAtMostOnce(states: seq<Sys>, steps: seq<Step>, i: nat, j: nat, u: Uuid)
    requires IsRun(states, steps) && i < j < |steps| && CallsFor(states[i], steps[i], u)
    ensures !CallsFor(states[j], steps[j], u)
  {
    CallsAreExact(states, steps, j, u);
    InvAlongRun(states, steps, j);
  }

  /** And never while another call is under way. */
  lemma OneCallAtATime(states: seq<Sys>, steps: seq<Step>, k: nat)
    requires IsRun(states, steps) && k <= |steps|
    ensures forall a, b | a in states[k].threads && b in states[k].threads
                          && states[k].threads[a].InTerminal? && states[k].threads[b].InTerminal? :: a == b
  {
    InvAlongRun(states, steps, k);
    var s := states[k];
    forall a | a in s.threads && s.threads[a].InTerminal? ensures s.lock == Some(a) {
      assert ThreadOk(s, a, s.threads[a]);
    }
  }

  // `u` is final as `was` was, with one outbox row that carries its result and
  // is synced exactly when the transaction is marked so.
  ghost predicate FinalAs(store: Store, u: Uuid, was: Tx) {
    && u in store.txs && store.txs[u].status == was.status && store.txs[u].result == was.result
    && u in store.outbox && was.result == Some(store.outbox[u].result)
    && (store.txs[u].synced <==> store.outbox[u].status == Synced)
  }

  lemma FinalNow(s: Sys, u: Uuid)
    requires Inv(s) && u in s.store.txs && IsFinal(s.store.txs[u].status)
    ensures FinalAs(s.store, u, s.store.txs[u])
  {
    assert TxAgrees(s.store, u);
  }

  lemma FinalStaysFinal(s: Sys, s': Sys, u: Uuid, was: Tx)
    requires Inv(s) && Inv(s') && Settles(s.store, s'.store)
    requires FinalAs(s.store, u, was) && IsFinal(was.status)
    ensures FinalAs(s'.store, u, was)
  {
    assert TxAgrees(s'.store, u);
  }

  lemma FinalNext(states: seq<Sys>, steps: seq<Step>, k: nat, u: Uuid, was: Tx)
    requires IsRun(states, steps) && k < |steps| && IsFinal(was.status)
    ensures FinalAs(states[k].store, u, was) ==> FinalAs(states[k + 1].store, u, was)
  {
    InvAlongRun(states, steps, k);
    ApplyKeepsInv(states[k], steps[k]);
    if FinalAs(states[k].store, u, was) {
      FinalStaysFinal(states[k], states[k + 1], u, was);
    }
  }

  lemma {:induction false} FinalUntil(states: seq<Sys>, i: nat, k: nat, u: Uuid, was: Tx)
    requires i <= k < |states| && FinalAs(states[i].store, u, was)
    requires forall j :: i <= j < k && FinalAs(states[j].store, u, was) ==> FinalAs(states[j + 1].store, u, was)
    ensures FinalAs(states[k].store, u, was)
    decreases k
  {
    if k > i {
      FinalUntil(states, i, k - 1, u, was);
    }
  }

  /** A final transaction keeps its status and result for ever, and its single
      outbox row always agrees with it. */
  lemma {:induction false} FinalResultsAreStable(states: seq<Sys>, steps: seq<Step>, i: nat, k: nat, u: Uuid)
    requires IsRun(states, steps) && i <= k <= |steps|
    requires u in states[i].store.txs && IsFinal(states[i].store.txs[u].status)
    ensures FinalAs(states[k].store, u, states[i].store.txs[u])
  {
    var was := states[i].store.txs[u];
    InvAlongRun(states, steps, i);
    FinalNow(states[i], u);
    forall j | i <= j < k && FinalAs(states[j].store, u, was) ensures FinalAs(states[j + 1].store, u, was) {
      FinalNext(states, steps, j, u, was);
    }
    FinalUntil(states, i, k, u, was);
  }

  /** Whatever `execute` ever returned from the store is the one stored result: two
      replies for one transaction never differ, and any later state still stores it. */
  lemma RepliesAgree(states: seq<Sys>, steps: seq<Step>, i: nat, j: nat, k: nat, u: Uuid, r: Result, q: Result)
    requires IsRun(states, steps) && i < k <= |steps| && j < k
    requires RepliesFor(states[i], steps[i], u, r) && RepliesFor(states[j], steps[j], u, q)
    ensures r == q && u in states[k].store.txs && states[k].store.txs[u].result == Some(r)
  {
    RepliesAreExact(states, steps, k, u, r);
    RepliesAreExact(states, steps, k, u, q);
    InvAlongRun(states, steps, k);
  }

  /** The first response carries the terminal's own words, later ones what was
      stored: they agree if and only if the terminal named a final status. */
  lemma FirstResponseMatchesStoredExactlyWhen(s: Sys, tid: Tid)
    requires Inv(s) && tid in s.threads && s.threads[tid].Completing?
    ensures var t := s.threads[tid];
            var tx := Complete(s.store, t.intent, t.raw).txs[t.intent.uuid];
            tx.result == Some(t.raw) <==> IsFinal(t.raw.status)
  {
    var t := s.threads[tid];
    assert ThreadOk(s, tid, t);
    CompleteKeepsOk(s.store, t.intent, t.raw);
  }

  // ----- Where a stored result comes from -----

  // A result that claims nothing, or what the terminal answered for `u`, its status
  // replaced by UNKNOWN if it is not a final one.
  ghost predicate Grounded(heard: set<(Uuid, Result)>, u: Uuid, r: Result) {
    || (!r.success && r.status.UNKNOWN?)
    || (u, r) in heard
    || exists raw | (u, raw) in heard :: !IsFinal(raw.status) && r.success == raw.success && r.status.UNKNOWN?
  }

  ghost predicate GroundedThreads(s: Sys) {
    forall tid | tid in s.threads && s.threads[tid].Completing? ::
      var t := s.threads[tid];
      (!t.raw.success && t.raw.status.UNKNOWN?) || (t.intent.uuid, t.raw) in s.heard
  }

  ghost predicate GroundedStore(store: Store, heard: set<(Uuid, Result)>) {
    forall u | u in store.txs && store.txs[u].result.Some? :: Grounded(heard, u, store.txs[u].result.value)
  }

  // A step of the store that puts no new result on record.
  lemma SameResultsAreGrounded(a: Store, b: Store, heard: set<(Uuid, Result)>)
    requires GroundedStore(a, heard)
    requires forall u | u in b.txs && b.txs[u].result.Some? :: u in a.txs && a.txs[u].result == b.txs[u].result
    ensures GroundedStore(b, heard)
  {
  }

  lemma CompletedIsGrounded(s: Sys, tid: Tid)
    requires Inv(s) && GroundedThreads(s) && GroundedStore(s.store, s.heard)
    requires tid in s.threads && s.threads[tid].Completing?
    ensures GroundedStore(Complete(s.store, s.threads[tid].intent, s.threads[tid].raw), s.heard)
  {
    var t := s.threads[tid];
    assert ThreadOk(s, tid, t);
    var after := Complete(s.store, t.intent, t.raw);
    forall u | u in after.txs && after.txs[u].result.Some?
      ensures Grounded(s.heard, u, after.txs[u].result.value)
    {
      if u != t.intent.uuid {
        assert after.txs[u] == s.store.txs[u];
      }
    }
  }

  lemma RecoveredIsGrounded(store: Store, heard: set<(Uuid, Result)>)
    requires Ok(store) && GroundedStore(store, heard)
    ensures GroundedStore(Recover(Quarantine(store)), heard)
  {
    QuarantineFindsNothing(store);
    RecoverKeepsOk(store);
  }

  lemma BegunIsGrounded(s: Sys, tid: Tid)
    requires Inv(s) && GroundedStore(s.store, s.heard) && Enabled(s, BeginTx(tid))
    ensures GroundedStore(Begins(s, tid).store, s.heard) && Begins(s, tid).heard == s.heard
  {
    assert ThreadOk(s, tid, s.threads[tid]);
    BeginKeepsOk(s.store, s.threads[tid].intent);
    SameResultsAreGrounded(s.store, Begins(s, tid).store, s.heard);
  }

  lemma SavedIsGrounded(s: Sys, i: Intent)
    requires Inv(s) && GroundedStore(s.store, s.heard)
    ensures GroundedStore(SaveIntent(s.store, i).0, s.heard)
  {
    SaveIntentKeepsOk(s.store, i);
  }

  lemma SyncedIsGrounded(store: Store, u: Uuid, outcome: SyncOutcome, heard: set<(Uuid, Result)>)
    requires GroundedStore(store, heard)
    ensures GroundedStore(SyncedStore(store, u, outcome), heard)
  {
    SameResultsAreGrounded(store, SyncedStore(store, u, outcome), heard);
  }

  lemma MoreHeardStaysGrounded(store: Store, heard: set<(Uuid, Result)>, more: set<(Uuid, Result)>)
    requires GroundedStore(store, heard) && heard <= more
    ensures GroundedStore(store, more)
  {
    forall u | u in store.txs && store.txs[u].result.Some? ensures Grounded(more, u, store.txs[u].result.value) {
      assert Grounded(heard, u, store.txs[u].result.value);
    }
  }

  // Which steps touch the store, and which add to what was heard.
  lemma StepTouches(s: Sys, step: Step)
    requires Enabled(s, step)
    ensures s.heard <= Apply(s, step).heard
    ensures Apply(s, step).heard == s.heard || Apply(s, step).store == s.store
    ensures step.Prepare? ==> Apply(s, step).store == SaveIntent(s.store, step.intent).0
    ensures step.Save? ==> Apply(s, step).store == SaveIntent(s.store, s.threads[step.tid].intent).0
    ensures step.Arrive? || step.Check? || step.TakeLock? || step.CallTerminal? || step.SyncPoll? ==>
              Apply(s, step).store == s.store
    ensures step.CompleteTx? ==>
              var t := s.threads[step.tid];
              Apply(s, step).store == if step.durable then Complete(s.store, t.intent, t.raw) else s.store
    ensures step.SyncNext? ==> Apply(s, step).store == SyncedStore(s.store, s.sync[0], step.outcome)
  {
  }

  lemma GroundedNext(s: Sys, step: Step)
    requires Inv(s) && Enabled(s, step) && GroundedThreads(s) && GroundedStore(s.store, s.heard)
    ensures GroundedStore(Apply(s, step).store, Apply(s, step).heard)
  {
    StepTouches(s, step);
    if Apply(s, step).store == s.store {
      MoreHeardStaysGrounded(s.store, s.heard, Apply(s, step).heard);
    } else if step.BeginTx? {
      BegunIsGrounded(s, step.tid);
    } else if step.CompleteTx? {
      CompletedIsGrounded(s, step.tid);
    } else if step.CrashAndRestart? {
      RecoveredIsGrounded(s.store, s.heard);
    } else if step.SyncNext? {
      SyncedIsGrounded(s.store, s.sync[0], step.outcome, s.heard);
    } else {
      SavedIsGrounded(s, if step.Save? then s.threads[step.tid].intent else step.intent);
    }
  }

  lemma GroundedThreadsNext(s: Sys, step: Step)
    requires Enabled(s, step) && GroundedThreads(s)
    ensures GroundedThreads(Apply(s, step))
  {
  }

  lemma {:induction false} GroundedAlongRun(states: seq<Sys>, steps: seq<Step>, k: nat)
    requires IsRun(states, steps) && k <= |steps|
    ensures GroundedThreads(states[k]) && GroundedStore(states[k].store, states[k].heard)
    decreases k
  {
    if k > 0 {
      GroundedAlongRun(states, steps, k - 1);
      InvAlongRun(states, steps, k - 1);
      GroundedThreadsNext(states[k - 1], steps[k - 1]);
      GroundedNext(states[k - 1], steps[k - 1]);
    }
  }

  /** No payment is made up: in every run a transaction that is stored as successful, as
      APPROVED or as COMPLETED has this from the card terminal, which answered so in an
      earlier step for that very transaction; and a stored APPROVED or COMPLETED is the
      terminal's answer word for word. A lost answer, a repeated call, a crash and the
      recovery after it never put one on record. The outbox row carries the same. */
  lemma SuccessCameFromTheTerminal(states: seq<Sys>, steps: seq<Step>, k: nat, u: Uuid)
    requires IsRun(states, steps) && k <= |steps| && u in states[k].store.outbox
    requires var r := states[k].store.outbox[u].result;
             r.success || r.status.APPROVED? || r.status.COMPLETED?
    ensures var r := states[k].store.outbox[u].result;
            && u in states[k].store.txs && states[k].store.txs[u].result == Some(r)
            && exists j, raw :: 0 <= j < k && AnswersFor(states[j], steps[j], u, raw)
                                && raw.success == r.success && (r == raw || (!IsFinal(raw.status) && r.status.UNKNOWN?))
  {
    InvAlongRun(states, steps, k);
    GroundedAlongRun(states, steps, k);
    var s := states[k];
    var r := s.store.outbox[u].result;
    assert TxAgrees(s.store, u);
    assert Grounded(s.heard, u, r);
    var raw :| (u, raw) in s.heard && raw.success == r.success
               && (r == raw || (!IsFinal(raw.status) && r.status.UNKNOWN?));
    AnswersAreExact(states, steps, k, u, raw);
  }

  // ----- What an undisturbed request comes to -----

  ghost predicate Goes(s: Sys, step: Step, s': Sys) {
    Enabled(s, step) && s' == Apply(s, step)
  }

  // `s` with a thread `tid` that stands at `t`, and the store and lock it left.
  function Standing(s: Sys, tid: Tid, t: Thread, store: Store, lock: Option<Tid>): Sys {
    s.(threads := s.threads[tid := t], store := store, lock := lock)
  }

  lemma MovesOn(threads: map<Tid, Thread>, tid: Tid, t: Thread, next: Thread)
    ensures var moved: map<Tid, Thread> := threads[tid := t]; moved[tid := next] == threads[tid := next]
  {
  }

  /** A request that no other thread disturbs, first: its intent is saved and it takes
      the lock when that is free, in these steps. */
  lemma RequestTakesLock(s: Sys, tid: Tid, i: Intent, saved: Store)
    requires tid !in s.threads && s.lock.None? && SaveIntent(s.store, i) == (saved, Saved)
    requires i.uuid in saved.txs ==> !IsFinal(saved.txs[i.uuid].status)
    ensures Goes(s, Arrive(tid, i), Standing(s, tid, Saving(i), s.store, None))
    ensures Goes(Standing(s, tid, Saving(i), s.store, None), Save(tid), Standing(s, tid, Checking(i), saved, None))
    ensures Goes(Standing(s, tid, Checking(i), saved, None), Check(tid), Standing(s, tid, Locking(i), saved, None))
    ensures Goes(Standing(s, tid, Locking(i), saved, None), TakeLock(tid),
                 Standing(s, tid, Beginning(i), saved, Some(tid)))
  {
    MovesOn(s.threads, tid, Saving(i), Checking(i));
    MovesOn(s.threads, tid, Checking(i), Locking(i));
    MovesOn(s.threads, tid, Locking(i), Beginning(i));
  }

  function Heard(s: Sys, i: Intent, answer: Option<Result>): Sys {
    if answer.Some? then s.(heard := s.heard + {(i.uuid, answer.value)}) else s
  }

  /** Second, it begins its transaction and calls the terminal, whose answer is heard
      or not. */
  lemma RequestIsAnswered(s: Sys, called: Sys, tid: Tid, i: Intent, saved: Store, begun: Store,
                          answer: Option<Result>, raw: Result)
    requires Begin(saved, i) == (begun, Began) && s.lock.None?
    requires called == s.(calls := s.calls + multiset{i.uuid})
    requires raw == if answer.Some? then answer.value else NotHeard()
    ensures Goes(Standing(s, tid, Beginning(i), saved, Some(tid)), BeginTx(tid),
                 Standing(s, tid, Calling(i), begun, Some(tid)))
    ensures Goes(Standing(s, tid, Calling(i), begun, Some(tid)), CallTerminal(tid),
                 Standing(called, tid, InTerminal(i), begun, Some(tid)))
    ensures Goes(Standing(called, tid, InTerminal(i), begun, Some(tid)),
                 if answer.Some? then TerminalReturns(tid, raw) else TerminalRaises(tid),
                 Standing(Heard(called, i, answer), tid, Completing(i, raw), begun, Some(tid)))
  {
    MovesOn(s.threads, tid, Beginning(i), Calling(i));
    MovesOn(s.threads, tid, Calling(i), InTerminal(i));
    MovesOn(s.threads, tid, InTerminal(i), Completing(i, raw));
  }

  lemma BegunStore(s: Store, saved: Store, begun: Store, i: Intent)
    requires Ok(s) && SaveIntent(s, i) == (saved, Saved) && i.uuid !in s.txs && begun == Begin(saved, i).0
    ensures Begin(saved, i).1 == Began && Ok(begun)
    ensures begun.txs == s.txs[i.uuid := Tx(i, PROCESSING, None, false)] && begun.outbox == s.outbox
  {
    SaveIntentKeepsOk(s, i);
    BeginKeepsOk(saved, i);
  }

  lemma StoredResult(s: Store, begun: Store, i: Intent, raw: Result)
    requires Ok(begun) && begun.txs == s.txs[i.uuid := Tx(i, PROCESSING, None, false)] && begun.outbox == s.outbox
    ensures Complete(begun, i, raw).txs
            == s.txs[i.uuid := Tx(i, Normalised(raw).status, Some(Normalised(raw)), false)]
    ensures Complete(begun, i, raw).outbox == s.outbox[i.uuid := OutboxRow(i, Normalised(raw), Waiting, 0, false)]
  {
    CompleteKeepsOk(begun, i, raw);
  }

  // A request's transaction is stored with result `r` and one outbox row that is due;
  // the thread is gone and the lock free.
  ghost predicate Served(s: Sys, s': Sys, i: Intent, r: Result) {
    && s'.threads == s.threads && s'.lock.None? && s'.sync == s.sync && s'.replies == s.replies
    && s'.calls == s.calls + multiset{i.uuid}
    && s'.store.txs == s.store.txs[i.uuid := Tx(i, r.status, Some(r), false)]
    && s'.store.outbox == s.store.outbox[i.uuid := OutboxRow(i, r, Waiting, 0, false)]
  }

  /** Third and last, its transaction begins and its answer is stored: the request has
      called the terminal once and left the answer - an unsuccessful UNKNOWN if it was
      not heard, its status made UNKNOWN if it is not final - with one outbox row that is
      due, and the lock free. */
  lemma RequestIsServed(s: Sys, called: Sys, tid: Tid, i: Intent, saved: Store, begun: Store,
                        answer: Option<Result>, raw: Result)
    requires Ok(s.store) && tid !in s.threads && s.lock.None?
    requires SaveIntent(s.store, i) == (saved, Saved) && i.uuid !in s.store.txs && begun == Begin(saved, i).0
    requires called == s.(calls := s.calls + multiset{i.uuid})
    requires raw == if answer.Some? then answer.value else NotHeard()
    ensures Begin(saved, i) == (begun, Began)
    ensures var s' := Heard(called, i, answer).(store := Complete(begun, i, raw));
            && Goes(Standing(Heard(called, i, answer), tid, Completing(i, raw), begun, Some(tid)),
                    CompleteTx(tid, true), s')
            && Served(s, s', i, if IsFinal(raw.status) then raw
                                else raw.(status := UNKNOWN, errorCode := "UNKNOWN"))
  {
    BegunStore(s.store, saved, begun, i);
    StoredResult(s.store, begun, i, raw);
    assert s.threads[tid := Completing(i, raw)] - {tid} == s.threads;
  }

  /** What may happen at any time, whatever the threads are doing: a crash, a preparation,
      a new request, and for each thread its next step, with any answer of the terminal
      or none, and a completion that is saved or not; and any answer of the cloud. */
  lemma AnytimeMayHappen(s: Sys, tid: Tid, i: Intent, raw: Result, durable: bool, outcome: SyncOutcome)
    ensures Enabled(s, CrashAndRestart) && Enabled(s, Prepare(i))
    ensures tid !in s.threads <==> Enabled(s, Arrive(tid, i))
    ensures tid in s.threads ==>
              match s.threads[tid]
              case Saving(_) => Enabled(s, Save(tid))
              case Checking(_) => Enabled(s, Check(tid))
              case Locking(_) => Enabled(s, TakeLock(tid))
              case Beginning(_) => Enabled(s, BeginTx(tid))
              case Calling(_) => Enabled(s, CallTerminal(tid))
              case InTerminal(_) => Enabled(s, TerminalReturns(tid, raw)) && Enabled(s, TerminalRaises(tid))
              case Completing(_, _) => Enabled(s, CompleteTx(tid, durable))
    ensures if s.sync != [] then Enabled(s, SyncNext(outcome))
            else forall u | u in s.store.outbox && Due(s.store.outbox[u]) :: Enabled(s, SyncPoll([u]))
  {
  }

  /** A request for a final transaction gets the stored result without the lock, one that
      finds the lock taken leaves at once, and an answer that could not be stored leaves
      the transaction in progress: none of them changes the store. */
  lemma RequestsThatChangeNothing(s: Sys, tid: Tid)
    requires Inv(s) && tid in s.threads
    ensures s.threads[tid].Checking? ==>
              var u, s' := s.threads[tid].intent.uuid, Apply(s, Check(tid));
              if u in s.store.txs && IsFinal(s.store.txs[u].status)
              then s' == s.(threads := s.threads - {tid}, replies := s.replies + {(u, s.store.txs[u].result.value)})
              else s' == s.(threads := s.threads[tid := Locking(s.threads[tid].intent)])
    ensures s.threads[tid].Locking? && s.lock.Some? ==> Apply(s, TakeLock(tid)) == s.(threads := s.threads - {tid})
    ensures s.threads[tid].Completing? ==>
              var s' := Apply(s, CompleteTx(tid, false));
              && s' == s.(threads := s.threads - {tid}, lock := None)
              && s'.store.txs[s.threads[tid].intent.uuid].status == PROCESSING
  {
    assert ThreadOk(s, tid, s.threads[tid]);
    if s.threads[tid].intent.uuid in s.store.txs {
      assert TxAgrees(s.store, s.threads[tid].intent.uuid);
    }
  }

  // A row after the cloud's answer, and whether its transaction is marked synced.
  ghost predicate MarkedAs(row: OutboxRow, row': OutboxRow, synced: bool, outcome: SyncOutcome) {
    && row'.intent == row.intent && row'.result == row.result
    && row'.attempts == row.attempts + (if outcome.Refused? then 1 else 0)
    && (outcome.Accepted? <==> row'.status.Synced?) && (outcome.Accepted? <==> synced)
    && (outcome.NotYet? <==> row'.status.Waiting?)
    && (outcome == Refused(true) <==> row'.status.Quarantined?)
    && (outcome == Refused(false) <==> row'.status.Failed?)
  }

  lemma SyncedRow(store: Store, u: Uuid, outcome: SyncOutcome)
    requires u in store.outbox && u in store.txs && !store.txs[u].synced
    ensures u in SyncedStore(store, u, outcome).outbox && u in SyncedStore(store, u, outcome).txs
    ensures MarkedAs(store.outbox[u], SyncedStore(store, u, outcome).outbox[u],
                     SyncedStore(store, u, outcome).txs[u].synced, outcome)
  {
  }

  lemma SyncedNext(s: Sys, outcome: SyncOutcome)
    requires s.sync != [] && s.sync[0] in s.store.outbox && s.sync[0] in s.store.txs && !s.store.txs[s.sync[0]].synced
    ensures CloudMarks(s, Apply(s, SyncNext(outcome)), outcome)
  {
    SyncedRow(s.store, s.sync[0], outcome);
  }

  ghost predicate CloudMarks(s: Sys, s': Sys, outcome: SyncOutcome)
    requires s.sync != []
  {
    var u := s.sync[0];
    && s'.sync == s.sync[1..] && s'.threads == s.threads && s'.lock == s.lock
    && u in s.store.outbox && u in s'.store.outbox && u in s'.store.txs
    && MarkedAs(s.store.outbox[u], s'.store.outbox[u], s'.store.txs[u].synced, outcome)
  }

  /** The sync worker takes the first row of its poll and marks it as the cloud says:
      synced together with its transaction, waiting again, failed, or set aside. */
  lemma SyncFollowsTheCloud(s: Sys, outcome: SyncOutcome)
    requires Inv(s)
    ensures forall due | Enabled(s, SyncPoll(due)) :: Apply(s, SyncPoll(due)) == s.(sync := due)
    ensures s.sync != [] ==> CloudMarks(s, Apply(s, SyncNext(outcome)), outcome)
  {
    if s.sync == [] {
      return;
    }
    assert s.sync[0] in s.store.txs && TxAgrees(s.store, s.sync[0]);
    SyncedNext(s, outcome);
  }

  /** A restart leaves no thread, a free lock, nothing to sync and no transaction in
      progress. */
  lemma RestartFinishesAll(states: seq<Sys>, steps: seq<Step>, k: nat)
    requires IsRun(states, steps) && k < |steps| && steps[k] == CrashAndRestart
    ensures states[k + 1].threads == map[] && states[k + 1].lock.None? && states[k + 1].sync == []
    ensures var store := states[k + 1].store;
            forall u | u in store.txs :: IsFinal(store.txs[u].status) && u in store.outbox
  {
    InvAlongRun(states, steps, k);
    InvAlongRun(states, steps, k + 1);
    QuarantineFindsNothing(states[k].store);
    RecoverKeepsOk(states[k].store);
    var store := states[k + 1].store;
    forall u | u in store.txs ensures u in store.outbox {
      assert TxAgrees(store, u);
    }
  }
}
