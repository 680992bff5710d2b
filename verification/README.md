# Exactly-once commands, payments and benefits of the store system

This project models the parts of the store system where a mistake costs money or moves a machine twice, and
proves what they promise over every input, every run and every crash. `dafny verify dfyconfig.toml` checks all of it.

**The bridge and the command table.** The store PC's bridge keeps a durable ledger of at most 200 commands. It
records "executing" before it acts, records a terminal result afterwards, and delivers the ACK from an outbox until
the server settles it. `CommandLedger` and `StateStore` are the ledger and its file; `BoundedExecution` is about runs
with crashes and failing saves; `BatchSpec` and `Bridge` are the batch loop; `ControlStatus` and `RecoveryRuns` are
readiness and the two-probe way back to IDLE. `ControlTable` and `ControlDb` are the server: four triggers that keep
rooms exclusive, a per-room index, and first-ACK-wins finalisation. `AckComposition` puts both ends on one network that
loses, delays and repeats messages; `AckOutcomes` follows an outcome from the action to the rooms; `HandOut` shows why
a command must be handed out once.

**Local card payments.** `LocalPayment`, `LocalPaymentStore` and `LocalPaymentRuns` are the signed intents, the
transactions and the cloud outbox around a card terminal that must never charge twice, with any number of HTTP threads,
one sync worker and a crash between any two database operations.

**Passes and money.** `MemberBenefits`, `BenefitLaws`, `BenefitRuns` and `BenefitStore` keep balances and discounts
beside an append-only ledger. `PaymentLedger` builds split plans and derives a payment's status; `PaymentGroup` pours
payments over reservations. `AddOnAllocation`, `PassCredit` and `CouponSlots` are the three small allocators.

**Parking.** `Parking` and `ParkingService` are the save, read back, save once more protocol against a remote site
that may lose any request or answer.

Code that updates state in place is a class or a loop here, proved equal to a specification function; the laws are
lemmas about those functions and about runs of steps.

## What turned out not to hold

Each has a lemma with the failing case, and the exact condition or the hypothesis under which the promise does hold.

- A recovery flip to IDLE is decided in one locked section and done in another. It replaces DEGRADED or ERROR if and
  only if no command is running when it is made (`FlipIsSafeExactlyWhen`); a command that starts in between runs while
  the bridge reports IDLE, and such a state is reached (`FlipCanHideARunningCommand`).
- A full command ledger evicts its oldest entry while a batch is worked through; if that id comes later in the same
  batch it runs again, evicts the next oldest, and so on through the whole ledger (`FullLedgerRunsAgain`). A turn is
  exactly new when the youngest 200 recordings do not hold its id (`BatchContract`); a batch takes nothing twice if and
  only if no turn takes an evicted id (`NothingTakenTwiceExactlyWhen`).
- The update triggers never clear the index of a room that a command leaves: the index stays exact if and only if an
  active row stays active on every indexed room it covered (`UpdateKeepsIndexExactlyWhen`). ACKs, expiry and time-outs
  also end active rows, and clear the index in the same batch. Ending a kiosk visit does not: its pending control
  commands expire and the rooms they waited for keep naming them (`ExpiredRowStaysIndexed`). A room is stale if and only
  if that happened and no new command was accepted there since (`StaleExactlyWhen`), which the readiness check refuses
  for any command but one for ALL rooms (`StrandedStays`).
- The room row of a failed ACK holds the whole result as its error text; the helper that repairs a duplicate would write
  300 characters of it. They agree if and only if the result is no longer (`SqlAgreesWithHelper`).
- Deleting a cancelled pass lowers the count behind reservation keys, so the next redemption can ask for a key another
  pass holds (`DeletedPassTakesNextKey`), exactly when one holds the number that the count falls back to
  (`DeletionKeepsKeysFreshExactlyWhen`).
- The first response of a local payment carries the terminal's own words. It equals the stored result if and only if
  the terminal named a final status (`FirstResponseMatchesStoredExactlyWhen`).
- Failing or deferring an outbox row keeps row and transaction in agreement if and only if no other worker synced it
  before (`UnsyncedMoveKeepsOkExactlyWhen`), so one sync worker is assumed.
- Repeating a CANCELLED sync moves the order to REFUND_REVIEW if and only if the first one closed an unused pass that
  had uses on it (`CancelTwiceExactlyWhen`).
- Restoring a use that a purchase credit recorded lowers a discount the purchase never raised
  (`RestoredCreditLowersDiscount`). A run conserves a discount if and only if it restores no such use worth something
  while there is a discount (`DiscountIsConservedExactlyWhen`).
- The last share of an add-on split can exceed what was paid with that method by 1 (`OverchargeExample`), exactly when
  the other two rounded-up shortfalls take more than the whole shortfall (`LastIsOverchargedExactlyWhen`).

One hypothetical is shown beside these. The server hands a control command out once, because it claims pending rows
only and never puts a control row back. This is needed: a state is reached in which a second hand-out, after the ledger
evicted the id, would make the server answer CONFLICT to the first ACK (`SecondHandOutWouldConflict`). The code itself
cannot do that.

## Model

| member | source | states |
|---|---|---|
| CommandLedger.MarkIsValid | bridge/jumping_bridge.py:279-312 | recording a command keeps the ledger free of duplicates and within 200 entries, holds the new entry, and leaves every retained other entry as it was |
| CommandLedger.MarkEvicts | bridge/jumping_bridge.py:309-311 | recording loses another entry if and only if the recorded id is new, the ledger is full and that entry is the oldest |
| CommandLedger.SetAckIsValid | bridge/jumping_bridge.py:314-332 | changing an ACK flag moves no entry and changes no other entry and no other field of that one |
| CommandLedger.LoadOfSaved | bridge/jumping_bridge.py:201-253 | loading a file that a valid ledger was saved to gives that ledger back |
| CommandLedger.PopKeepsYoungest | bridge/jumping_bridge.py:309-311 | dropping the oldest key of an overfull ledger leaves the same 200 youngest keys to keep |
| CommandLedger.OutboxIsExact | bridge/jumping_bridge.py:339-355 | the outbox holds exactly the finished entries whose ACK is owed, once each |
| StateStores.StateStore.constructor | bridge/jumping_bridge.py:192-253 | a start holds exactly what the file held, as the restart after a crash in the runs of BoundedExecution |
| StateStores.StateStore.Save | bridge/jumping_bridge.py:255-277 | a successful save makes the file equal memory, as the runs' save does, a failing one leaves the file |
| StateStores.StateStore.EvictOldest | bridge/jumping_bridge.py:309-311 | the eviction loop cuts the ledger to its 200 youngest keys |
| StateStores.StateStore.MarkCommand | bridge/jumping_bridge.py:279-312 | memory becomes the ledger with the entry recorded, and the file follows if the save succeeds: one recording event of the runs |
| StateStores.StateStore.SetAckPending | bridge/jumping_bridge.py:314-332 | the flag changes in memory and, if saved, in the file, one flag event of the runs; an unknown id changes nothing |
| StateStores.StateStore.PendingAckCommands | bridge/jumping_bridge.py:339-355 | returns the oldest outbox ids up to the limit, at least one |
| StateStores.StateStore.HasUnresolvedCommands | bridge/jumping_bridge.py:357-365 | true exactly when some entry is executing or its ACK is owed |
| StateStores.OutboxPrefix | bridge/jumping_bridge.py:339-355 | the outbox of a front part of the ledger is a front part of the outbox |
| BoundedExecution.EvictedAfterBound | bridge/jumping_bridge.py:309-311 | an entry is pushed out only after 200 distinct other ids were recorded behind it |
| BoundedExecution.GuardedAlongRun | bridge/jumping_bridge.py:201-312 | after an execution, memory and file both either retain the id or have recorded 200 others since, over crashes and failing saves |
| BoundedExecution.ExecutionsAreFarApart | bridge/jumping_bridge.py:3819-3925 | any two executions of one command id are separated by the recording of at least 200 distinct other ids, in every run |
| BoundedExecution.BoundIsTight | bridge/jumping_bridge.py:279-312 | recording new distinct ids loses a fresh entry if and only if there are at least 200 of them |
| BatchSpec.TakeTurnIsValid | bridge/jumping_bridge.py:3781-4105 | a turn leaves its non-empty id terminal, with the verdict of its run, of the block or of an interruption and its ACK as it was answered, and every other retained entry as it was |
| BatchSpec.FileOwesAck | bridge/jumping_bridge.py:3976-4085 | no ACK is lost to a crash: after a turn that decided its command the file holds the same verdict, and until the answer is saved there it says that the ACK is owed |
| BatchSpec.PerformedExactly | bridge/jumping_bridge.py:3819-3964 | a turn's action is performed exactly when the turn ran, once and in order |
| BatchSpec.BlockedExactly | bridge/jumping_bridge.py:3770-3780 | the batch is blocked exactly when it was claimed in ERROR or an earlier performed manager command failed globally |
| BatchSpec.HeldExactly | bridge/jumping_bridge.py:279-312 | in every batch the ledger holds exactly the youngest 200 recordings |
| BatchSpec.NewExactly | bridge/jumping_bridge.py:3819-3925 | a turn finds its id new if and only if the youngest 200 recordings before it do not hold it |
| BatchSpec.BatchContract | bridge/jumping_bridge.py:3764-4105 | for every ledger and every batch, a turn runs if and only if no failing save ended the batch before, its start is saved, its id is non-empty and not among the youngest 200 recordings, and it is a payment or no manager block stands |
| BatchSpec.BatchContractUntilRetake | bridge/jumping_bridge.py:3764-4105 | up to the first turn that takes an evicted id again, that reads: the id is new to ledger and batch, or was evicted since |
| BatchSpec.KnownAre | bridge/jumping_bridge.py:3819-3925 | the ids known at a turn are those the ledger held at claim and those of the turns before |
| BatchSpec.KnownExactly | bridge/jumping_bridge.py:279-312 | while no turn took an evicted id again the ledger holds exactly the youngest 200 known ids: the id at position p if and only if at most 200 lie from p to the end |
| BatchSpec.NothingTakenTwiceExactlyWhen | bridge/jumping_bridge.py:279-312 | a batch takes no known command as new if and only if no turn takes an id that was evicted |
| BatchSpec.RetainedBatchRetakesNothing | bridge/jumping_bridge.py:279-312 | if every id of the batch that the ledger holds is young enough to outlast the batch, no turn takes an evicted id |
| BatchSpec.VerdictStays | bridge/jumping_bridge.py:3819-3873 | a verdict is final: while the ledger holds the command and no later turn takes it as new, status, room, code, scope and room state stay |
| BatchSpec.VerdictAtEnd | bridge/jumping_bridge.py:3976-4085 | at the end of a batch a command that ran is completed if and only if its action was done and saved; a room error, a global error and an unsaved success are failures with their own scope, code and room state |
| BatchSpec.BatchEndsTerminal | bridge/jumping_bridge.py:3819-4085 | after a batch every id of it that the ledger holds is terminal; without a retaken id, a batch of at most 200 still holds every id it took, each with the verdict of its run, or failed with CONTROL_BATCH_BLOCKED if it was stopped |
| BatchSpec.FullLedgerRunsAgain | bridge/jumping_bridge.py:309-311 | the failing side: on a full ledger a batch of one new command and then the ledger's ids from the oldest on performs every one of them again |
| Bridges.Bridge.AckDurableCommand | bridge/jumping_bridge.py:3611-3697 | an accepted or conflicting ACK is settled, any other stays owed, in memory and in the file if the flag is saved; from the outbox, an ACK settled meanwhile is left alone |
| Bridges.Bridge.FlushAckOutbox | bridge/jumping_bridge.py:3699-3734 | one pass sends the oldest owed ACKs once each and counts those that were answered; ledger and file follow, whichever flags are saved |
| Bridges.FlushedFileIsLastSaved | bridge/jumping_bridge.py:3699-3734 | the file ends as the ledger was after the last flag that was saved, or unchanged if none was |
| Bridges.FlushSettles | bridge/jumping_bridge.py:3699-3734 | a pass keeps every verdict and place; each ACK it sent is as it was answered, and entries it did not send are untouched |
| Bridges.Bridge.Perform | bridge/jumping_bridge.py:3919-3964 | the action may be performed only for a command whose execution is already recorded in the file |
| Bridges.Bridge.RunManagerCommand | bridge/jumping_bridge.py:3952-3975 | performs the action once and leaves the readiness its outcome calls for, IDLE only if the bridge was ready before; the command stays active and claimed |
| Bridges.Bridge.ConcludeCommand | bridge/jumping_bridge.py:3976-4085 | records completed if and only if the action was done and that could be saved, and otherwise the failure with its own scope and code, and sends the ACK, whose answer is kept; a manager command is still active while this is done |
| Bridges.Bridge.AnswerKnown | bridge/jumping_bridge.py:3824-3873 | a known command is answered again and never run; one found executing becomes failed first |
| Bridges.Bridge.StopBlocked | bridge/jumping_bridge.py:3875-3914 | a manager command behind the block becomes failed with CONTROL_BATCH_BLOCKED and is not run |
| Bridges.Bridge.RunFresh | bridge/jumping_bridge.py:3919-4105 | a fresh command is recorded, performed, recorded terminal and acknowledged exactly as the turn says, whichever of its saves fail; only then is it, and nothing else, no longer active or claimed |
| Bridges.Bridge.TakeCommand | bridge/jumping_bridge.py:3781-4105 | one turn of the loop, whichever way it goes and whichever of its saves fail, ends in the world the turn computes |
| Bridges.Bridge.ProcessClaimedCommands | bridge/jumping_bridge.py:3764-4105 | the batch loop ends in exactly the world the turns compute one after the other, the world BatchEndsTerminal is about, also when a save raises and ends it |
| Bridges.Bridge.ProcessCommands | bridge/jumping_bridge.py:3736-3762 | every manager id is claimed before the batch, and exactly those lose their claim by the end of it, none left active, however it ends |
| ControlStatuses.ControlStatus.SetControlStatus | bridge/jumping_bridge.py:3299-3326 | sets the state and resets the probe counter as each state demands |
| ControlStatuses.CounterCountsProbes | bridge/jumping_bridge.py:3265-3297 | over any sequence of probes the counter is the number of good probes that count since the last bad one, up to 2, and the state stays |
| ControlStatuses.ControlStatus.ConsiderControlRecovery | bridge/jumping_bridge.py:3411-3496 | without interleaving, the attempt goes to IDLE exactly on a second good probe and otherwise keeps the state |
| RecoveryRuns.ReachableIsInv | bridge/jumping_bridge.py:3265-3326 | at rest the counter is at most 1 in every reachable state that is not IDLE |
| RecoveryRuns.AnytimeMayHappen | bridge/jumping_bridge.py:3265-3496 | a probe, a failed gate and a command outcome may come at any time the locks allow |
| RecoveryRuns.ProbesOutside | bridge/jumping_bridge.py:3265-3297 | outside an attempt a bad probe and a failed gate set the counter back, and a good probe counts only while the bridge is IDLE, up to 2 |
| RecoveryRuns.UndisturbedAttempt | bridge/jumping_bridge.py:3411-3496 | an undisturbed attempt passes the gate exactly when no command is claimed, goes IDLE exactly on a good probe that is not the first, and otherwise keeps the state and counts the probe |
| RecoveryRuns.UndisturbedCommand | bridge/jumping_bridge.py:3952-4040 | an undisturbed command leaves IDLE only if it succeeded and the bridge was ready before, ERROR and a blocked batch exactly when it failed globally, and DEGRADED otherwise |
| RecoveryRuns.OnlyRecoveryReturnsToIdle | bridge/jumping_bridge.py:3952-3975 | after DEGRADED or ERROR the bridge is IDLE again only if recovery flipped it in between |
| RecoveryRuns.CounterMeansProbes | bridge/jumping_bridge.py:3265-3297 | a counter of 1 means one good recovery probe and nothing that resets it since |
| RecoveryRuns.FlipNeedsTwoProbes | bridge/jumping_bridge.py:3411-3496 | a flip to IDLE comes after two good recovery probes with no failed gate, failed probe, command start or failure between |
| RecoveryRuns.FlipIsSafeExactlyWhen | bridge/jumping_bridge.py:3479-3496 | the flip replaces DEGRADED or ERROR if and only if no command is running when it is made |
| RecoveryRuns.FlipReplacesUnready | bridge/jumping_bridge.py:3479-3496 | so it does if no command starts after the deciding probe |
| RecoveryRuns.FlipCanHideARunningCommand | bridge/jumping_bridge.py:3479-3496 | a reachable state reports IDLE while a command runs |
| ControlTable.InsertKeepsOk | db/control.ts:202-243 | a control command is accepted if and only if its id is new and no active one shares a room with it; accepting marks exactly its rooms as pending for it, and keeps rooms exclusive and the index exact if it was |
| ControlTable.UpdateKeepsExclusive | db/control.ts:244-267 | the update guard refuses exactly a row that becomes an unfinished control, or moves, where another contends for a room, and never lets two of them share one |
| ControlTable.UpdateKeepsIndexExactlyWhen | db/control.ts:244-295 | an update keeps the index exact if and only if an active row stays active on every indexed room it covered |
| ControlTable.ExpiredRowStaysIndexed | db/customer-flow.ts:2677-2678 | the failing side: a pending control row that a kiosk termination expires leaves its rooms, and the index still names it there |
| ControlTable.TerminateExpires | db/customer-flow.ts:2660-2692 | ending a kiosk visit expires exactly its pending commands and touches no room |
| ControlTable.TerminateStrandsExactlyWhen | db/customer-flow.ts:2660-2692 | ending a kiosk visit leaves a room stale if and only if it was stale before or a control command of the visit waited for it |
| ControlTable.ClaimKeepsOk | app/api/agent/control-commands/route.ts:57-77 | a claim succeeds exactly on a pending row meant for the agent and not expired, for a control command only while no other one is claimed; it changes that status and no room |
| ControlTable.SqlAgreesWithHelper | db/control.ts:526-596 | the CASE expressions of the batch and the helper that repairs a duplicate write the same room row, the error text too if and only if the command succeeded or its result has at most 300 characters |
| ControlTable.RepairReleases | db/control.ts:526-596 | the repair of a duplicate writes, to a room that still names the command, the row an ACK with the stored result releases it to, and nothing to any other room |
| ControlTable.FirstAckWins | db/control.ts:616-699 | the first ACK of a claimed command makes it final with its status and, in the same batch, releases exactly the rooms it covered: READY if and only if it was completed, otherwise the failure, action and error code the ACK calls for |
| ControlTable.LateAckChangesNothing | db/control.ts:701-738 | any later, duplicate or conflicting ACK leaves the whole table as it was and is answered as such |
| ControlTable.ExpireClears | app/api/agent/sync/route.ts:127-200 | expiring or timing out fails exactly the unfinished commands among the chosen and clears in the same batch exactly the rooms that waited for one of them, each with the state its action calls for |
| ControlTable.ExpireKeepsOk | app/api/agent/sync/route.ts:127-200 | so rooms stay exclusive and an exact index exact |
| ControlTable.RoomsStayExclusive | db/control.ts:201-295 | over every run of inserts, claims, ACKs, expiries and ended kiosk visits no room has two unfinished controls, every room an active command covers names it, and any other command a room names covers it and expired unclaimed |
| ControlTable.ExactUnlessStale | db/control.ts:201-295 | the index is exact if and only if no room names a command that is over |
| ControlTable.StaleExactlyWhen | db/customer-flow.ts:2660-2692 | in every run a room is stale if and only if a kiosk visit was ended while a control command of it waited for the room and no new one was accepted there since |
| ControlTable.IndexIsExactExactlyWhen | db/customer-flow.ts:2660-2692 | over every run the index is exact all along if and only if no ended kiosk visit had a control command waiting for a room |
| ControlTable.StrandedStays | db/control-readiness.ts:109-137 | while the readiness check is made and no command for ALL rooms comes, a stranded room stays stale and refuses every command of its own |
| ControlTable.OneClaimAtATime | app/api/agent/control-commands/route.ts:57-77 | in every such run at most one control command is claimed at a time |
| ControlTable.FinalForEver | db/control.ts:616-738 | a completed, failed or expired row never changes again in any run |
| ControlDbs.TargetsAreCovered | db/control.ts:522-524 | the target list of a command is exactly the rooms it covers, without repetition |
| ControlDbs.ControlDb.constructor | db/control.ts:304-320 | the schema starts with four ready rooms and no command |
| ControlDbs.ControlDb.InsertCommand | db/control.ts:202-243 | an insert with its guard and trigger does what the table specification says, on stale tables too |
| ControlDbs.ControlDb.TerminateKioskVisit | db/customer-flow.ts:2660-2692 | the visit's pending commands expire, no room is touched, and exactly the rooms they waited for become stale |
| ControlDbs.ControlDb.ClaimCommand | app/api/agent/control-commands/route.ts:57-77 | the guarded update claims the row if and only if the table specification does, and keeps the invariant |
| ControlDbs.ControlDb.MarkRoomControlResult | db/control.ts:598-614 | one update per target room writes the same rooms as updating all covered rooms at once: those that still name the command are released, all others stay |
| ControlDbs.ControlDb.UpdateRooms | db/control.ts:537-596 | exactly the listed rooms are updated, each once |
| ControlDbs.ControlDb.FinalizeCommandAck | db/control.ts:616-738 | the batch, the classification and the repair together release the rooms of a claimed command as its ACK says, change nothing for any other ACK, and keep the table's invariant |
| AckComposition.ApplyKeepsInv | bridge/jumping_bridge.py:3611-3734 | every step of either end, of the network, of an ended kiosk visit and of a crash keeps the joint invariant |
| AckComposition.DeliveredServer | db/control.ts:616-738 | the ACK of a control command always finds its row claimed or final with the same status |
| AckComposition.ConcludeKeepsInv | bridge/jumping_bridge.py:3819-4085 | recording a verdict durably and owing its ACK keeps the joint invariant |
| AckComposition.AcksAgree | bridge/jumping_bridge.py:3611-3734 | in every run, time-outs, expiry and ended kiosk visits included, all ACKs of one control command carry one status, CONFLICT is answered only about a row the server closed itself, no ACK the server has not settled is dropped, and the index is exact until an ended visit strands a room |
| AckComposition.FinalisedOnce | db/control.ts:616-738 | once final, a control command's row never changes in any run |
| AckComposition.ExchangedSettles | bridge/jumping_bridge.py:3611-3697 | delivering an ACK of a control command and reading the answer settles it, whoever sent it and whatever was lost before |
| AckComposition.GoodExchangeSettles | bridge/jumping_bridge.py:3629-3697 | one undisturbed exchange of the lane settles the ACK and saves that |
| AckComposition.UndisturbedPassSettles | bridge/jumping_bridge.py:3699-3734 | one undisturbed pass over the outbox settles every control ACK in its batch |
| AckOutcomes.AnytimeMayHappen | bridge/jumping_bridge.py:3611-3734 | whatever the threads do there may be a crash, an expiry, an ended visit, a late or repeated delivery, a lost answer and a flag that cannot be saved |
| AckOutcomes.ProcessStepsAre | bridge/jumping_bridge.py:201-312 | a crash keeps the file and nothing else of the process, a save keeps all, and what another lane records is in memory and file |
| AckOutcomes.ServerStepsAre | app/api/agent/sync/route.ts:127-200 | a claim hands the row out, to the control lane if it is a control row; an expiry puts on record exactly the unfinished control rows it closes |
| AckOutcomes.OutcomeReachesServer | db/control.ts:616-738 | in every run a control command's final row is completed if and only if its action ended well and the server had not closed the row itself, and every ACK and every verdict in the ledger says the same |
| AckOutcomes.UndisturbedFinishReleases | bridge/jumping_bridge.py:3976-4085 | from the action to the rooms, undisturbed: READY after a success, and after a failure the action, code and room state the bridge reported |
| AckOutcomes.AnswersAreRead | bridge/jumping_bridge.py:3629-3697 | whoever sent an ACK, reading its answer changes that command's entry alone, as the answer says, and the file with it if the flag could be saved |
| AckOutcomes.HandOutLeadsTo | bridge/jumping_bridge.py:3819-3919 | a command that is handed out starts only if the ledger does not hold it and the batch is not blocked; otherwise its ACK is sent with everything its entry holds |
| AckOutcomes.FlushTakesOn | bridge/jumping_bridge.py:3699-3734 | the flusher takes on the oldest owed ACKs, at most 20, and passes over one that was settled meanwhile |
| HandOut.SecondHandOutConflicts | bridge/jumping_bridge.py:309-311 | were an evicted command handed out a second time, the server would answer CONFLICT to its first ACK |
| HandOut.SecondHandOutWouldConflict | bridge/jumping_bridge.py:309-311 | a state in which that would happen is reached: a command is executed, 200 others recorded, its first ACK still on its way |
| LocalPayment.SaveIntentKeepsOk | bridge/local_payment_server.py:236-288 | saving an intent changes intents only, and Saved means its row is there with exactly its fields |
| LocalPayment.BeginKeepsOk | bridge/local_payment_server.py:307-341 | a saved intent begins a transaction if and only if its uuid has none; a repeated call gets the stored result, or a result that claims nothing while there is none |
| LocalPayment.CompleteKeepsOk | bridge/local_payment_server.py:343-377 | completing makes the transaction final with one fresh outbox row carrying its result; the ON CONFLICT arm is never taken |
| LocalPayment.ConflictArms | bridge/local_payment_server.py:226-377 | should an outbox row be there already, completing replaces what it carries and does not send a synced row again, and recovery makes it due in any case |
| LocalPayment.QuarantineFindsNothing | bridge/local_payment_server.py:390-401 | quarantine at start changes nothing |
| LocalPayment.RecoverableExactly | bridge/local_payment_server.py:194-234 | recovery reaches exactly the unfinished transactions, none of which has an outbox row |
| LocalPayment.RecoverKeepsOk | bridge/local_payment_server.py:194-234 | after recovery every transaction is final, every final one is as it was, and one that was in progress is unknown and not successful, with an outbox row that is due |
| LocalPayment.RecoverOneIsAStep | bridge/local_payment_server.py:194-234 | recovery may go row by row in any order |
| LocalPayment.UnsyncedMoveKeepsOkExactlyWhen | bridge/local_payment_server.py:403-446 | for any row, failing or deferring it keeps row and transaction in agreement if and only if no one synced it before; marking it synced always does |
| LocalPayment.SyncKeepsOk | bridge/local_payment_server.py:403-446 | each way a due row can move keeps row and transaction in agreement |
| LocalPayment.StaleFailureBreaksAgreement | bridge/local_payment_server.py:418-437 | the failing side: marking a synced row failed breaks the agreement |
| LocalPaymentStores.LocalPaymentStore.constructor | bridge/local_payment_server.py:107-113 | opening the database leaves every transaction final |
| LocalPaymentStores.LocalPaymentStore.QuarantineNonretryableOutbox | bridge/local_payment_server.py:390-401 | afterwards no row that can be sent carries a permanent error; on tables in agreement nothing changes |
| LocalPaymentStores.LocalPaymentStore.RecoverInterruptedTransactions | bridge/local_payment_server.py:194-234 | the loop over unfinished rows computes recovery |
| LocalPaymentStores.LocalPaymentStore.RecoverRow | bridge/local_payment_server.py:201-234 | settles one unfinished transaction as unknown together with its fresh outbox row |
| LocalPaymentStores.LocalPaymentStore.Save | bridge/local_payment_server.py:236-288 | saves or refuses an intent as specified |
| LocalPaymentStores.LocalPaymentStore.YoungestFor | bridge/local_payment_server.py:258-262 | finds the youngest intent row of a transaction |
| LocalPaymentStores.LocalPaymentStore.BeginTransaction | bridge/local_payment_server.py:307-341 | begins or repeats a transaction as specified |
| LocalPaymentStores.LocalPaymentStore.CompleteTransaction | bridge/local_payment_server.py:343-377 | completes a transaction as specified: the result, made UNKNOWN if its status is not final, in the transaction and in an outbox row that is due |
| LocalPaymentStores.LocalPaymentStore.MarkRowSynced | bridge/local_payment_server.py:403-416 | afterwards the row is not due, its transaction is marked synced, and row and transaction agree |
| LocalPaymentStores.LocalPaymentStore.MarkRowFailed | bridge/local_payment_server.py:418-437 | afterwards the row is due if and only if the error is not permanent; the agreement holds if and only if the row was not synced |
| LocalPaymentStores.LocalPaymentStore.DeferRow | bridge/local_payment_server.py:439-446 | afterwards the row is due; the agreement holds if and only if it was not synced |
| LocalPaymentStores.LocalPaymentRuntime.Charge | bridge/local_payment_server.py:510-527 | the terminal may be called only under the execute lock and for a transaction in progress |
| LocalPaymentStores.LocalPaymentRuntime.ExecuteLocked | bridge/local_payment_server.py:511-563 | under the lock, a new transaction calls the terminal once and stores its answer, or an unsuccessful UNKNOWN; a repeated one claims nothing |
| LocalPaymentStores.LocalPaymentRuntime.Execute | bridge/local_payment_server.py:489-563 | calls the terminal once if and only if the intent was saved, its uuid is new and no other call is under way; replies exactly what the terminal answered, or an unsuccessful UNKNOWN if it was not heard, and stores that, its status made UNKNOWN if it is not final; otherwise no transaction changes, and when each other reply is given |
| LocalPaymentRuns.ApplyKeepsInv | bridge/local_payment_server.py:489-580 | every step of every thread, of the sync worker and of a crash keeps the invariant and settles nothing anew |
| LocalPaymentRuns.AnytimeMayHappen | bridge/local_payment_server.py:489-580 | whatever the threads do there may be a crash, a new request, and for each thread its next step with any answer of the terminal or none, saved or not |
| LocalPaymentRuns.CallsAreExact | bridge/local_payment_server.py:522-531 | a terminal call is on record exactly when a step made it |
| LocalPaymentRuns.AnswersAreExact | bridge/local_payment_server.py:522-531 | so is what the terminal answered |
| LocalPaymentRuns.RepliesAreExact | bridge/local_payment_server.py:493-513 | and so are the results returned from the store |
| LocalPaymentRuns.TerminalCalledAtMostOnce | bridge/local_payment_server.py:489-563 | over every interleaving and crash no two steps call the terminal for one transaction |
| LocalPaymentRuns.OneCallAtATime | bridge/local_payment_server.py:489-563 | nor is the terminal ever called while another call is under way |
| LocalPaymentRuns.FinalResultsAreStable | bridge/local_payment_server.py:343-377 | a final transaction keeps its result for ever, and its one outbox row carries it and is synced exactly when the transaction is |
| LocalPaymentRuns.RepliesAgree | bridge/local_payment_server.py:489-513 | any two steps that return a stored result for one transaction return the same, and it stays stored |
| LocalPaymentRuns.SuccessCameFromTheTerminal | bridge/local_payment_server.py:522-560 | no payment is made up: in every run a stored success, APPROVED or COMPLETED was answered by the terminal in an earlier step for that very transaction, and the outbox row carries the same |
| LocalPaymentRuns.RequestTakesLock | bridge/local_payment_server.py:489-511 | an undisturbed request whose intent is saved takes the lock when it is free |
| LocalPaymentRuns.RequestIsAnswered | bridge/local_payment_server.py:511-545 | then begins its transaction, calls the terminal and hears the answer or not |
| LocalPaymentRuns.RequestIsServed | bridge/local_payment_server.py:546-563 | and leaves the answer stored, or an unsuccessful UNKNOWN if it was not heard, with one outbox row that is due and the lock free |
| LocalPaymentRuns.RequestsThatChangeNothing | bridge/local_payment_server.py:493-511 | a request for a final transaction gets the stored result without the lock, one that finds the lock taken leaves at once, and neither changes the store |
| LocalPaymentRuns.SyncFollowsTheCloud | bridge/local_payment_server.py:565-580 | the sync worker marks the first row of its poll as the cloud says: synced with its transaction, waiting, failed, or set aside |
| LocalPaymentRuns.FirstResponseMatchesStoredExactlyWhen | bridge/local_payment_server.py:549-560 | the first response equals the stored result if and only if the terminal named a final status |
| LocalPaymentRuns.RestartFinishesAll | bridge/local_payment_server.py:194-234 | a restart leaves no transaction in progress and every one with its outbox row |
| BenefitLaws.ActiveRestore | db/member-benefits.ts:944-1007 | restoring a use lowers every sum over unrestored uses by exactly that use |
| BenefitLaws.RedeemKeepsStoreOk | db/member-benefits.ts:844-942 | over operations that delete no row, redeeming never meets a duplicate key, takes exactly the uses off the balance, or changes nothing |
| BenefitLaws.DeletionKeepsKeysFreshExactlyWhen | db/payments.ts:3356-3376 | after a cancelled pass is deleted the next redemption on a reservation has a key of its own if and only if the pass held no use there or no other pass holds the number the count falls back to |
| BenefitLaws.DeletedPassTakesNextKey | db/payments.ts:3356-3376 | two passes used on one reservation: once the first is cancelled and deleted the next redemption asks for the key of the second |
| BenefitLaws.RedeemSucceedsExactlyWhen | db/member-benefits.ts:851-890 | redeeming succeeds if and only if the pass is active, not expired and has the uses, and a named reservation is the member's, open, under no payment plan and has people left |
| BenefitLaws.RestoreKeepsStoreOk | db/member-benefits.ts:944-1007 | restoring gives back exactly the uses taken, its clamp never bites, and a use is restored at most once |
| BenefitLaws.RestoreSucceedsExactlyWhen | db/member-benefits.ts:944-958 | restoring succeeds if and only if the row is a use not restored yet and its reservation, if any, is under no payment plan |
| BenefitLaws.RepeatedPaidAddsNothing | db/member-benefits.ts:658-715 | a repeated PAID sync adds no row and changes no balance |
| BenefitLaws.FirstPaidKeepsStoreOk | db/member-benefits.ts:633-715 | the first PAID sync opens the pass with what the credits leave, and a ledger that adds up to it |
| BenefitLaws.FirstPaidOpens | db/member-benefits.ts:633-715 | the first PAID sync writes one purchase row and one use per credited reservation, in order, a pass at the order's price and the paid order |
| BenefitLaws.SyncPaidKeepsStoreOk | db/member-benefits.ts:633-715 | every PAID sync keeps balances equal to their ledgers |
| BenefitLaws.SyncCancelledKeepsStoreOk | db/member-benefits.ts:717-736 | every CANCELLED sync keeps balances equal to their ledgers |
| BenefitLaws.CancelledCloses | db/member-benefits.ts:717-736 | a CANCELLED sync sends the order of a used pass to review, and closes an unused one with a row that takes its balance |
| BenefitLaws.CancelTwiceExactlyWhen | db/member-benefits.ts:717-736 | repeating a CANCELLED sync changes the order if and only if the first one closed an unused pass with uses on it |
| BenefitRuns.QuoteIsWithinBase | app/pass-use.ts:9-31 | for any amounts, a quote takes exactly the smaller of what is left of the base amount and what the uses are worth, and discount and payment make up the whole |
| BenefitRuns.RedeemDiscountsItsWorth | db/member-benefits.ts:844-942 | the discount rises by exactly the smaller of what is left of the base amount and the price of the uses, the row records exactly that, and payment and paid flag follow from it |
| BenefitRuns.ManualUseRecordsItsPrice | db/member-benefits.ts:844-942 | a use without a reservation records the price of its uses and changes no reservation |
| BenefitRuns.RedeemKeepsDiscount | db/member-benefits.ts:863-924 | redeeming keeps a reservation's discount equal to its start plus its unrestored uses, within the base amount |
| BenefitRuns.ReservationUsesAreCounted | db/member-benefits.ts:863-890 | a redemption adds exactly its uses to those of its reservation, a restore takes exactly the restored ones away, and no other reservation's uses move |
| BenefitRuns.RestoreKeepsDiscountExactlyWhen | db/member-benefits.ts:954-987 | restoring keeps a discount equal to its sum, losing no money to the clamp, if and only if it does not take a credit's worth from a discount |
| BenefitRuns.RestoreGivesBack | db/member-benefits.ts:944-1007 | a restore gives the pass its uses, up to what was purchased, and takes the recorded amount from the reservation's discount, from which the payment is priced; only the named rows change |
| BenefitRuns.RestoreUndoesRedeem | db/member-benefits.ts:844-1007 | restoring a redemption gives back the pass and the discount as they were and prices the payment from them: the reservation is whole again if and only if it was priced so before |
| BenefitRuns.RestoringCreditKeepsDiscountExactlyWhen | db/member-benefits.ts:968-987 | restoring a purchase credit's use keeps the discount if and only if there is none or the credit was worth nothing; otherwise it falls |
| BenefitRuns.RestoredCreditLowersDiscount | db/member-benefits.ts:685-987 | a purchase and a restore after which a reservation has lost the whole discount it had before |
| BenefitRuns.StepConservesExactlyWhen | db/member-benefits.ts:623-1007 | one operation conserves a discount if and only if it is not such a restore |
| BenefitRuns.DiscountIsConservedExactlyWhen | db/member-benefits.ts:623-1007 | over every sequence of operations a discount is conserved all along if and only if no restored credit use lowers it |
| BenefitRuns.BenefitsAreConserved | db/member-benefits.ts:623-1007 | over every sequence of syncs, uses, restores and cancellations balances equal their ledgers within 0 and what was bought, ACTIVE means a positive balance, and a reservation outside purchase credits keeps its discount and no more uses than people |
| BenefitStores.BenefitStore.constructor | db/member-benefits.ts:194-274 | the tables start valid |
| BenefitStores.BenefitStore.InsertOnce | db/member-benefits.ts:672-677 | afterwards the reference key is there, earlier rows are where they were, and unique keys stay unique |
| BenefitStores.BenefitStore.SyncPassPurchasePaid | db/member-benefits.ts:633-715 | the PAID batch does what its specification says and keeps the tables valid |
| BenefitStores.BenefitStore.InsertPass | db/member-benefits.ts:648-671 | a new pass holds what the credited uses leave of the purchase, one that exists stays |
| BenefitStores.BenefitStore.TotalCredit | db/member-benefits.ts:648-652 | adds up the credited uses |
| BenefitStores.BenefitStore.InsertCredits | db/member-benefits.ts:685-713 | inserts one USE row per credited reservation |
| BenefitStores.BenefitStore.SyncPassPurchaseCancelled | db/member-benefits.ts:717-736 | the CANCELLED batch does what its specification says and keeps the tables valid |
| BenefitStores.BenefitStore.RedeemMemberPass | db/member-benefits.ts:844-942 | redeeming does what its specification says, discounts exactly the smaller of what is left and what the uses are worth, and keeps the tables valid |
| BenefitStores.BenefitStore.RestorePassUse | db/member-benefits.ts:944-1007 | restoring does what its specification says and keeps the tables valid |
| PaymentGroup.ReceivedIsReach | db/payment-group.ts:24-76 | what a stretch of the line receives in all is how much of it the payments reach |
| PaymentGroup.ReceivedSplits | db/payment-group.ts:24-76 | splitting a stretch splits what it receives, method by method |
| PaymentGroup.AllHandedOut | db/payment-group.ts:24-76 | in all, the smaller of what is payable and what was paid is handed out |
| PaymentGroup.MethodsAreConserved | db/payment-group.ts:24-76 | no method hands out more than was paid with it, and exactly that when the payables cover all payments |
| PaymentGroup.ServedInOrder | db/payment-group.ts:24-76 | each reservation receives the smaller of its payable and what is left, and after one left short later ones receive nothing |
| PaymentGroup.KeptReceivesTheSame | db/payment-group.ts:29-31 | dropping payments without an amount changes nobody's share |
| PaymentGroup.Draw | db/payment-group.ts:35-50 | the inner loop hands one reservation exactly its overlap with the payments |
| PaymentGroup.KeepPositive | db/payment-group.ts:29-31 | keeps the payments with an amount, in order |
| PaymentGroup.LabelTellsMethods | db/payment-group.ts:52-74 | a share is labelled by the one method it received from, as mixed from two on, and not at all when it received nothing |
| PaymentGroup.Summarise | db/payment-group.ts:52-74 | label and status say what was received |
| PaymentGroup.AllocateOne | db/payment-group.ts:34-75 | one turn of the outer loop computes one reservation's share and moves the cursor behind it |
| PaymentGroup.AllocateGroupPaymentMethods | db/payment-group.ts:24-76 | the loop that consumes payments in place computes for every reservation exactly its share of the line |
| PaymentLedger.LedgerBalances | db/payment-ledger.ts:158-245 | the deposit is cut to the final amount, approved and remaining make up the final amount, methods make up the completed amount, and the status follows from what was completed |
| PaymentLedger.LockedExactlyWhen | db/payment-ledger.ts:198-244 | by the attempts' own columns: exactly when a payment is on its way, when an outcome is unknown, and when the amount is locked |
| PaymentLedger.UnlockedMeansNothingTaken | db/payment-ledger.ts:206-244 | the amount is unlocked only while nothing was taken, nothing is in progress and nothing is unknown |
| PaymentLedger.StatusExactlyWhen | db/payment-ledger.ts:204-225 | exactly when each status is given; with nothing completed, cancelled, failed and pending payments are told apart |
| PaymentLedger.AttemptAddsItsAmount | db/payment-ledger.ts:158-198 | one more attempt adds exactly the amount of a payment that took money and was not given back, to its own method and to the whole |
| PaymentLedger.LedgerPermutes | db/payment-ledger.ts:158-245 | the whole ledger does not depend on the order of the attempts |
| PaymentLedger.CancelTakesItsPayment | db/payment-ledger.ts:169-206 | a successful cancellation of a payment with a unique id lowers the completed amount by exactly that payment |
| PaymentLedger.CancelTakesFromItsMethod | db/payment-ledger.ts:169-206 | giving back a payment with a unique id takes its amount from its own method and from no other |
| PaymentLedger.EqualPlanIsSound | db/payment-ledger.ts:70-127 | an equal split exists exactly for 1 to 20 parts of at least 1, adds up and differs by at most 1; each refusal names its own reason |
| PaymentLedger.CustomPlanIsSound | db/payment-ledger.ts:87-127 | a custom plan is accepted exactly when it has 1 to 20 positive items that add up; each refusal names its own reason |
| PaymentLedger.EveryPlanIsSound | db/payment-ledger.ts:87-127 | every plan for a positive amount has indices 1 to n and positive amounts that add up |
| PaymentLedger.StoredPlanMatchesExactlyWhen | db/payment-ledger.ts:129-156 | any stored plan matches a ledger if and only if the stored amounts are the ledger's own and its items add up to the payable amount |
| PaymentLedger.BuiltPlanMatches | db/payment-ledger.ts:129-156 | a built plan matches the ledger exactly when the stored amounts are the ledger's own |
| PaymentLedger.ApprovingThePlan | db/payment-ledger.ts:158-245 | approving a plan item by item is PARTIALLY_PAID on every proper part and PAID exactly at the end |
| PaymentLedger.CancellingThePlan | db/payment-ledger.ts:158-245 | cancelling some items of a paid plan gives PARTIALLY_CANCELLED, cancelling all gives CANCELLED |
| AddOnAllocation.SplitAddsUp | app/add-on-allocation.ts:12-35 | the shares add up to the smaller of the add-on amount and the physical total |
| AddOnAllocation.OtherShareLaw | app/add-on-allocation.ts:25-33 | a share that is not the last is at most what was paid and less than 1 below its exact proportion |
| AddOnAllocation.LastShareLaw | app/add-on-allocation.ts:25-33 | the last share is less than 2 above its proportion, exceeds what was paid by at most 1, and never with at most two methods |
| AddOnAllocation.LastIsOverchargedExactlyWhen | app/add-on-allocation.ts:25-33 | the last of three shares exceeds what was paid if and only if the other two rounded-up shortfalls exceed the whole shortfall |
| AddOnAllocation.OverchargeExample | app/add-on-allocation.ts:25-33 | payments of 1, 1 and 1 with an add-on of 2 give the last method 2 |
| AddOnAllocation.HandedIsAllocation | app/add-on-allocation.ts:23-33 | the running sum of the loop computes the allocation |
| AddOnAllocation.AllocateAddOnPaymentMethods | app/add-on-allocation.ts:12-35 | the loop computes the allocation the laws are about |
| PassCredit.People | app/pass-purchase-credit.ts:22-28 | an age group counts its own heads, and the total only where no head was recorded by age |
| PassCredit.LimitIsLargest | app/pass-purchase-credit.ts:37-40 | a number of uses fits a reservation if and only if it is within its limit |
| PassCredit.GivenIsFeasible | app/pass-purchase-credit.ts:60-72 | the plan is feasible and covers the whole of a request within the limit |
| PassCredit.MaximumIsOptimal | app/pass-purchase-credit.ts:30-41 | no feasible allocation exceeds the announced maximum, and the maximum is reached |
| PassCredit.EarliestFirst | app/pass-purchase-credit.ts:62-72 | no feasible allocation of as many uses takes more from the first k reservations, for any k |
| PassCredit.RequestMetExactlyWhen | app/pass-purchase-credit.ts:43-79 | a request is met in full if and only if some feasible allocation has that many uses and the pass has room |
| PassCredit.EntriesFit | app/pass-purchase-credit.ts:62-72 | every allocation has at least one use, within the people and the money of its reservation |
| PassCredit.TakeUses | app/pass-purchase-credit.ts:60-72 | the loop ends with nothing remaining and exactly the specified allocations |
| PassCredit.BuildPassCreditPlan | app/pass-purchase-credit.ts:43-79 | the plan has exactly as many uses as asked for, at least one, or as are available, a credit of uses times unit price, and nothing without a price |
| PassCredit.PlanMakesOrder | db/member-benefits.ts:526-599 | a plan over distinct reservations gives an order as the pass ledger needs it |
| CouponSlots.YouthsComeFirst | app/member-coupon-allocation.ts:25-51 | youths come first, each group is numbered from 1, and a group without a price has no slot |
| CouponSlots.MemberCouponSlotsFit | app/member-coupon-allocation.ts:18-53 | slots are positive, whole prices except possibly the last, and add up to the smaller of the maximum and the total price |
| CouponSlots.FillGroup | app/member-coupon-allocation.ts:42-50 | the inner loop fills one group's slots until the maximum is spent |
| CouponSlots.BuildMemberCouponSlots | app/member-coupon-allocation.ts:18-53 | the loops with their early return compute the slots |
| CouponSlots.AllocatedExactlyWhen | app/member-coupon-allocation.ts:55-72 | coupons are handed out if and only if each is named, none twice, and slots suffice; coupon i then covers participant i |
| CouponSlots.FindIndex | app/member-coupon-allocation.ts:85-85 | finds the first slot of an amount, or -1 exactly when there is none |
| CouponSlots.MemberCouponAmountsFitParticipantSlots | app/member-coupon-allocation.ts:74-90 | accepts exactly the lists that are sub-multisets of the slot amounts |
| CouponSlots.AcceptedAmountsAreBounded | app/member-coupon-allocation.ts:74-90 | accepted amounts are positive and together within the maximum and the total price |
| CouponSlots.AllocationPassesCheck | app/member-coupon-allocation.ts:55-90 | whatever the allocator hands out passes the check, in any order |
| Parking.CountMinutes | bridge/parking_service.py:348-386 | adds up a history, or refuses it if one discount cannot be read |
| Parking.ChosenCodeIsSafe | bridge/parking_service.py:389-419 | a code is chosen exactly when the free discounts of the asked length, or those with the preferred name if there are any, carry only one; anything else is ambiguous |
| Parking.RunsKeepLimit | bridge/parking_service.py:562-603 | over any sequence of registrations a readable total within 270 stays within 270 |
| Parking.FreshEntryTotals | bridge/parking_service.py:562-603 | starting without discounts, an entry only ever holds 0, 120, 180 or 240 minutes |
| Parking.SuccessHidesNoError | bridge/parking_service.py:660-673 | a request succeeds exactly when some entry did and none ended in an error; the gravest error is reported |
| ParkingServices.Entry.Save | bridge/parking_service.py:486-540 | a save spends a policy approval made for it, which no other save can use, and takes effect once or not at all |
| ParkingServices.FirstTry | bridge/parking_service.py:507-516 | the first save and its confirmation; only an uncertain or expired connection leaves it open |
| ParkingServices.SaveWithVerification | bridge/parking_service.py:486-540 | whatever is lost, at most one discount takes effect, SUCCESS means it did and the total was read back; without a save the policy refused; with a remote that cooperates, giving up takes two saves |
| ParkingServices.Assess | bridge/parking_service.py:542-600 | when the entry can be read, a save is attempted if and only if the entry is eligible, and each refusal is given exactly in its own case |
| ParkingServices.ProcessEntry | bridge/parking_service.py:542-607 | an entry gains nothing or one discount within the limit; if it was not eligible no save is sent, its history stays, and it is skipped, over the limit or in error exactly in the case for each |
| ParkingServices.Matches | bridge/parking_service.py:632-640 | the two searches give every identified entry once, and an error in one ends the request |
| ParkingServices.ProcessAll | bridge/parking_service.py:650-662 | every entry in turn gains at most one discount, SUCCESS means it did, and an ineligible one is left as it was |
| ParkingServices.Register | bridge/parking_service.py:609-690 | an invalid query, a policy that is off and a failing search touch no entry and are reported as such; otherwise exactly the found entries are worked through and the summary follows from them |

## Left out

- Screen automation, MQTT, HTTP clients and servers, COM threads and the stop-dialog watcher: an action, a terminal call and a remote answer are outcomes chosen by the environment.
- Signatures, PINs, cookies, password hashing and rate limits. An intent's signature is assumed to determine all its fields.
- Result texts, log lines, latency traces, trace ids and most time stamps; of the server's stamps only `completed_at` is kept, because the batches compare it.
- Two lanes that take the same command id at the same time, and two manager lanes interleaving BUSY: one lane at a time is assumed, because the look-up and the recording are separate locked sections.
- The parking lane of the bridge and its own ledger entries, which become terminal without an owed ACK.
- AckComposition.AcksAgree: assumes that recording a verdict is saved or the process stops first; the batch itself is proved for every failing save, in `BatchSpec` and `Bridge`.
- AckComposition.UndisturbedPassSettles: says that one exchange or one pass suffices, not that one ever happens; there is no fairness or timing in the model.
- Room heartbeats (`upsertRoomControlStates`), which may set a room's state without regard to the index.
- The order and the limit of `due_outbox`, back-off times and the count of pending rows.
- A promise that a revoked intent never begins: saving and beginning are separate steps, and a `prepare` may come between.
- BenefitLaws.RedeemKeepsStoreOk: says nothing about ledgers from which `deleteCancelledPaymentRecord` removed a pass; what that does to the keys is `DeletionKeepsKeysFreshExactlyWhen`, and it is no operation of the runs.
- Stamps, coupons as records, legacy member import, expiry dates, and the deletion of unpaid orders in other files.
- The screens of a pass purchase: which reservations of a group become candidates, and the order's price after credit.
- Parsing of numbers, dates, JSON and raw parking fields, text trimming, and the spelling variants of payment methods: values are integers, histories of minutes and names already normalised.
- Floating point: amounts are integers, exact where the products stay below 2 to the 53rd.
- `db/payment-intents.ts` and the rest of `db/customer-flow.ts`, which rest on modules that are not part of this model.
