// The bridge's ledger and ACK outbox composed with the server's command table.

module AckComposition {
  import opened Wrappers
  import L = CommandLedger
  import T = ControlTable

  // One lane handles control commands; an outbox flusher runs beside it; other
  // lanes record commands of their own. Requests and answers may be lost, delayed
  // or repeated without bound, the process may crash between any two steps, the
  // server may close rows that expired or were not acknowledged in time, a kiosk
  // visit may end while its commands wait, and saving an ACK flag may fail (the
  // bridge logs that and goes on).
  //
  // A claim hands a control command out once; while the ledger holds it, it may come
  // again any number of times. Recording a verdict is saved or the process crashes
  // first: the one hypothesis, visible in `Conclude`.

  type Id = string

  datatype Message = Message(id: Id, status: L.Status, errorCode: string, roomState: string)

  datatype Lane = Idle | Running(id: Id) | Sending(msg: Message) | Waiting(msg: Message)

  datatype Flusher = Resting | Flushing(queue: seq<Message>) | Awaiting(msg: Message, queue: seq<Message>)

  // `offered` holds the control commands claimed and not yet taken. `verdict` and
  // `closed` are history: the first terminal status recorded for an id, and the
  // control rows the server failed by itself.
  datatype Sys = Sys(
    server: T.Table,
    mem: L.Ledger,
    file: L.Ledger,
    lane: Lane,
    flusher: Flusher,
    offered: set<Id>,
    recorded: set<Id>,
    sent: set<Message>,
    answers: set<(Message, T.Disposition)>,
    verdict: map<Id, L.Status>,
    closed: set<Id>)

  datatype Step =
    | ServerInsert(id: Id, command: T.Command)
    | ServerClaim(id: Id, eligible: bool)
    | ServerExpire(ids: set<Id>, result: string, errorCode: string, now: string)
    | ServerTerminate(ids: set<Id>, now: string)
    | ServerOther(id: Id, command: T.Command)
    | OtherLane(id: Id, entry: L.Entry)
    | Take(id: Id, blocked: bool, roomId: string)
    | Finish(roomId: string, success: bool, errorCode: string, errorScope: string, roomState: string)
    | LaneSend
    | LaneReturn(answer: Option<T.Disposition>, saved: bool)
    | FlushStart
    | FlushNext
    | FlushReturn(answer: Option<T.Disposition>, saved: bool)
    | Deliver(msg: Message, result: string, now: string)
    | SaveAll
    | Crash

  function StatusName(s: L.Status): string {
    match s
    case Executing => "executing"
    case Completed => "completed"
    case Failed => "failed"
  }

  function AckOf(m: Message, result: string, now: string): T.Ack {
    T.Ack(StatusName(m.status), result, m.errorCode, m.roomState, now)
  }

  function MessageOf(id: Id, e: L.Entry): Message {
    Message(id, e.status, e.errorCode, e.roomControlState)
  }

  function Snapshot(l: L.Ledger, ids: seq<Id>): seq<Message>
    requires forall x :: x in ids ==> x in l.entries
  {
    seq(|ids|, i requires 0 <= i < |ids| => MessageOf(ids[i], l.entries[ids[i]]))
  }

  function Batch(l: L.Ledger): (ids: seq<Id>)
    ensures forall x :: x in ids ==> x in l.entries && l.entries[x].InOutbox()
  {
    L.FirstN(L.Outbox(l, l.order), L.ACK_OUTBOX_BATCH_SIZE)
  }

  // Record a terminal entry durably and owe its ACK.
  function Conclude(s: Sys, id: Id, e: L.Entry): Sys {
    var mem := L.Mark(s.mem, id, e);
    s.(mem := mem, file := mem, lane := Sending(MessageOf(id, e)), recorded := s.recorded + {id},
       verdict := s.verdict[id := e.status])
  }

  function Heard(answer: Option<T.Disposition>): L.AckAnswer {
    match answer
    case None => L.Unsettled
    case Some(d) =>
      match d
      case Finalized => L.Accepted
      case Duplicate => L.Accepted
      case Conflict => L.Conflicted
      case NotFound => L.Unsettled
  }

  // _ack_durable_command after the exchange: an answer, or None for a lost one.
  function Settle(s: Sys, id: Id, answer: Option<T.Disposition>, saved: bool): Sys {
    var mem := L.Settle(s.mem, id, Heard(answer));
    s.(mem := mem, file := if saved then mem else s.file)
  }

  function TakeCommand(s: Sys, id: Id, blocked: bool, roomId: string): Sys {
    if id in s.mem.entries then
      var previous := s.mem.entries[id];
      if previous.Terminal() then s.(lane := Sending(MessageOf(id, previous)))
      else Conclude(s, id, L.NewEntry(L.Failed, previous.roomId, ackPending := true))
    else if blocked then
      Conclude(s, id, L.NewEntry(L.Failed, roomId, "CONTROL_BATCH_BLOCKED", "global", "", true))
    else
      var mem := L.Mark(s.mem, id, L.NewEntry(L.Executing, roomId));
      s.(mem := mem, file := mem, lane := Running(id), recorded := s.recorded + {id})
  }

  predicate IsControlRow(t: T.Table, id: Id) {
    id in t.commands && T.IsControl(t.commands[id].action)
  }

  // The control rows a closing batch fails.
  function ClosedBy(t: T.Table, ids: set<Id>): set<Id> {
    set x | x in ids && T.Expires(t, ids, x) && T.IsControl(t.commands[x].action)
  }

  predicate Received(s: Sys, m: Message, answer: Option<T.Disposition>) {
    answer.Some? ==> (m, answer.value) in s.answers
  }

  ghost predicate Enabled(s: Sys, step: Step) {
    match step
    case ServerInsert(id, c) => id != "" && id !in s.recorded && c.status == "pending"
    case ServerClaim(id, eligible) => T.Claim(s.server, id, eligible).Some?
    case ServerExpire(_, _, _, _) => true
    case ServerTerminate(_, _) => true
    case ServerOther(id, c) =>
      id in s.server.commands && !IsControlRow(s.server, id) && !T.IsControl(c.action)
    case OtherLane(id, e) => !IsControlRow(s.server, id)
    case Take(id, _, _) =>
      s.lane.Idle? && (id in s.offered || (id in s.mem.entries && IsControlRow(s.server, id)))
    case Finish(_, _, _, _, _) => s.lane.Running?
    case LaneSend => s.lane.Sending?
    case LaneReturn(answer, _) => s.lane.Waiting? && Received(s, s.lane.msg, answer)
    case FlushStart => s.flusher.Resting?
    case FlushNext => s.flusher.Flushing?
    case FlushReturn(answer, _) => s.flusher.Awaiting? && Received(s, s.flusher.msg, answer)
    case Deliver(m, result, _) => m in s.sent && result != T.TIMEOUT_AMBIGUOUS
    case SaveAll => true
    case Crash => true
  }

  function Apply(s: Sys, step: Step): Sys {
    match step
    case ServerInsert(id, c) => s.(server := T.OrSame(s.server, T.Insert(s.server, id, c)))
    case ServerClaim(id, eligible) =>
      s.(server := T.OrSame(s.server, T.Claim(s.server, id, eligible)),
         offered := if IsControlRow(s.server, id) then s.offered + {id} else s.offered)
    case ServerExpire(ids, result, errorCode, now) =>
      s.(server := T.Expire(s.server, ids, result, errorCode, now), closed := s.closed + ClosedBy(s.server, ids))
    case ServerTerminate(ids, now) => s.(server := T.Terminate(s.server, ids, now))
    case ServerOther(id, c) =>
      if id in s.server.commands then s.(server := T.OrSame(s.server, T.Update(s.server, id, c))) else s
    case OtherLane(id, e) =>
      var mem := L.Mark(s.mem, id, e);
      s.(mem := mem, file := mem, recorded := s.recorded + {id})
    case Take(id, blocked, roomId) => TakeCommand(s.(offered := s.offered - {id}), id, blocked, roomId)
    case Finish(roomId, success, errorCode, errorScope, roomState) =>
      if s.lane.Running? then
        Conclude(s, s.lane.id,
                 if success then L.NewEntry(L.Completed, roomId, ackPending := true)
                 else L.NewEntry(L.Failed, roomId, errorCode, errorScope,
                                 if errorScope == "room" then roomState else "", true))
      else s
    case LaneSend =>
      if s.lane.Sending? then s.(lane := Waiting(s.lane.msg), sent := s.sent + {s.lane.msg}) else s
    case LaneReturn(answer, saved) =>
      if s.lane.Waiting? then Settle(s, s.lane.msg.id, answer, saved).(lane := Idle) else s
    case FlushStart => s.(flusher := Flushing(Snapshot(s.mem, Batch(s.mem))))
    case FlushNext =>
      if !s.flusher.Flushing? then s
      else if s.flusher.queue == [] then s.(flusher := Resting)
      else
        var m := s.flusher.queue[0];
        if L.IsAckPending(s.mem, m.id)
        then s.(flusher := Awaiting(m, s.flusher.queue[1..]), sent := s.sent + {m})
        else s.(flusher := Flushing(s.flusher.queue[1..]))
    case FlushReturn(answer, saved) =>
      if s.flusher.Awaiting?
      then Settle(s, s.flusher.msg.id, answer, saved).(flusher := Flushing(s.flusher.queue))
      else s
    case Deliver(m, result, now) =>
      var (server, d) := T.FinalizeAck(s.server, m.id, AckOf(m, result, now));
      s.(server := server, answers := s.answers + {(m, d)})
    case SaveAll => s.(file := s.mem)
    case Crash => s.(mem := L.Youngest(s.file), lane := Idle, flusher := Resting)
  }

  // ----- The invariant -----

  predicate Final(t: T.Table, id: Id) {
    id in t.commands && (t.commands[id].status == "completed" || t.commands[id].status == "failed")
  }

  // The status an ACK or a ledger entry carries for a control command is the
  // verdict reached for it.
  predicate Carried(s: Sys, id: Id, status: L.Status) {
    IsControlRow(s.server, id) ==> id in s.verdict && s.verdict[id] == status
  }

  predicate EntryAgrees(s: Sys, id: Id, e: L.Entry) {
    && (e.Terminal() ==> Carried(s, id, e.status))
    && (IsControlRow(s.server, id) && !e.Terminal() ==> id !in s.verdict)
    && (IsControlRow(s.server, id) && e.Terminal() && !e.ackPending ==> Final(s.server, id))
  }

  ghost predicate LedgerAgrees(s: Sys, l: L.Ledger) {
    && L.Valid(l)
    && forall x :: x in l.entries ==> x in s.recorded && EntryAgrees(s, x, l.entries[x])
  }

  predicate MessageAgrees(s: Sys, m: Message) {
    m.id in s.recorded && m.status != L.Executing && Carried(s, m.id, m.status)
  }

  predicate LaneAgrees(s: Sys) {
    match s.lane
    case Idle => true
    case Running(id) => id in s.recorded && IsControlRow(s.server, id) && id !in s.verdict
    case Sending(m) => MessageAgrees(s, m)
    case Waiting(m) => MessageAgrees(s, m)
  }

  predicate QueueAgrees(s: Sys, queue: seq<Message>) {
    forall i | 0 <= i < |queue| :: MessageAgrees(s, queue[i])
  }

  predicate FlusherAgrees(s: Sys) {
    match s.flusher
    case Resting => true
    case Flushing(queue) => QueueAgrees(s, queue)
    case Awaiting(m, queue) => MessageAgrees(s, m) && QueueAgrees(s, queue)
  }

  // The server's answer about a control command: it is final, and in conflict only
  // if the server had closed it.
  predicate Settled(s: Sys, m: Message, d: T.Disposition) {
    Final(s.server, m.id) && (d == T.Finalized || d == T.Duplicate || (d == T.Conflict && m.id in s.closed))
  }

  ghost predicate NetworkAgrees(s: Sys) {
    && (forall m :: m in s.sent ==> MessageAgrees(s, m))
    && (forall m, d :: (m, d) in s.answers ==>
          m in s.sent && (IsControlRow(s.server, m.id) ==> Settled(s, m, d)))
  }

  // A row that was never handed out: it waits, or its kiosk visit ended.
  predicate Unclaimed(row: T.Command) {
    row.status == "pending" || row.status == "expired"
  }

  predicate RowAgrees(s: Sys, x: Id)
    requires x in s.server.commands
  {
    var row := s.server.commands[x];
    T.IsControl(row.action) ==>
      && (Unclaimed(row) || row.status == "claimed" || Final(s.server, x))
      && (x in s.recorded ==> !Unclaimed(row))
      && (Final(s.server, x) && x !in s.closed ==>
            x in s.verdict && row.status == StatusName(s.verdict[x]) && row.result != T.TIMEOUT_AMBIGUOUS)
  }

  ghost predicate RowsAgree(s: Sys) {
    && (forall x | x in s.server.commands :: RowAgrees(s, x))
    && (forall x | x in s.offered ::
          IsControlRow(s.server, x) && !Unclaimed(s.server.commands[x]) && x !in s.recorded)
    && (forall x | x in s.closed :: IsControlRow(s.server, x) && Final(s.server, x))
    && (forall x | x in s.verdict :: x in s.recorded && s.verdict[x] != L.Executing)
  }

  ghost predicate ServerAgrees(s: Sys) {
    T.Sound(s.server) && RowsAgree(s)
  }

  ghost predicate Inv(s: Sys) {
    && ServerAgrees(s)
    && LedgerAgrees(s, s.mem)
    && LedgerAgrees(s, s.file)
    && LaneAgrees(s)
    && FlusherAgrees(s)
    && NetworkAgrees(s)
  }

  ghost predicate Initial(s: Sys) {
    && T.Ok(s.server) && s.server.commands == map[]
    && s.mem == L.EMPTY_LEDGER && s.file == L.EMPTY_LEDGER
    && s.lane == Idle && s.flusher == Resting
    && s.offered == {} && s.recorded == {} && s.sent == {} && s.answers == {} && s.verdict == map[]
    && s.closed == {}
  }

  // ----- What every step keeps -----

  // From `s` to `s'` nothing that was settled is unsettled.
  ghost predicate Grows(s: Sys, s': Sys) {
    && s.recorded <= s'.recorded && s.closed <= s'.closed
    && (forall x | x in s.recorded :: IsControlRow(s.server, x) == IsControlRow(s'.server, x))
    && (forall x | Final(s.server, x) && IsControlRow(s.server, x) :: Final(s'.server, x))
    && (forall x | x in s.verdict :: x in s'.verdict && s'.verdict[x] == s.verdict[x])
  }

  lemma LedgerKeepsAgreeing(s: Sys, s': Sys, l: L.Ledger)
    requires Grows(s, s') && LedgerAgrees(s, l) && s.verdict == s'.verdict
    ensures LedgerAgrees(s', l)
  {
  }

  lemma FlusherKeepsAgreeing(s: Sys, s': Sys)
    requires Grows(s, s') && FlusherAgrees(s) && s'.flusher == s.flusher
    ensures FlusherAgrees(s')
  {
  }

  lemma NetworkKeepsAgreeing(s: Sys, s': Sys)
    requires Grows(s, s') && NetworkAgrees(s) && s'.sent == s.sent && s'.answers == s.answers
    ensures NetworkAgrees(s')
  {
  }

  lemma RowsKeepAgreeing(s: Sys, s': Sys)
    requires ServerAgrees(s) && s'.server == s.server && s'.offered == s.offered
    requires s'.recorded == s.recorded && s'.verdict == s.verdict && s'.closed == s.closed
    ensures ServerAgrees(s')
  {
  }

  // Steps of the server alone.

  lemma ServerMoveKeepsInv(s: Sys, s': Sys)
    requires Inv(s) && Grows(s, s') && ServerAgrees(s')
    requires s' == s.(server := s'.server, offered := s'.offered, closed := s'.closed)
    ensures Inv(s')
  {
    LedgerKeepsAgreeing(s, s', s.mem);
    LedgerKeepsAgreeing(s, s', s.file);
    FlusherKeepsAgreeing(s, s');
    NetworkKeepsAgreeing(s, s');
  }

  // One row is new or moves on: a row that was handed out stays so, a final one final.
  lemma RowMoveAgrees(s: Sys, s': Sys, id: Id, row: T.Command)
    requires RowsAgree(s) && s' == s.(server := s'.server)
    requires s'.server.commands == s.server.commands[id := row] && RowAgrees(s', id)
    requires id !in s.server.commands ==> id !in s.recorded
    requires id in s.server.commands ==>
               && T.IsControl(s.server.commands[id].action) == T.IsControl(row.action)
               && (T.IsControl(row.action) && !Unclaimed(s.server.commands[id]) ==> !Unclaimed(row))
               && (IsControlRow(s.server, id) && Final(s.server, id) ==> Final(s'.server, id))
    ensures RowsAgree(s') && Grows(s, s')
  {
    forall x | x in s'.server.commands ensures RowAgrees(s', x) {
      if x != id {
        assert RowAgrees(s, x);
      }
    }
  }

  lemma InsertKeepsInv(s: Sys, step: Step)
    requires Inv(s) && Enabled(s, step) && step.ServerInsert?
    ensures Inv(Apply(s, step))
  {
    var s' := Apply(s, step);
    T.InsertKeepsOk(s.server, step.id, step.command);
    if T.Insert(s.server, step.id, step.command).Some? {
      RowMoveAgrees(s, s', step.id, step.command);
      ServerMoveKeepsInv(s, s');
    }
  }

  lemma ClaimedAgrees(s: Sys, s': Sys, id: Id)
    requires RowsAgree(s) && id in s.server.commands && s.server.commands[id].status == "pending"
    requires s'.server.commands == s.server.commands[id := s.server.commands[id].(status := "claimed")]
    requires s'.offered == if IsControlRow(s.server, id) then s.offered + {id} else s.offered
    requires s'.recorded == s.recorded && s'.verdict == s.verdict && s'.closed == s.closed
    ensures RowsAgree(s') && Grows(s, s')
  {
    assert RowAgrees(s, id);
    forall x | x in s'.server.commands ensures RowAgrees(s', x) {
      assert RowAgrees(s, x);
    }
  }

  lemma ClaimKeepsInv(s: Sys, step: Step)
    requires Inv(s) && Enabled(s, step) && step.ServerClaim?
    ensures Inv(Apply(s, step))
  {
    T.ClaimKeepsOk(s.server, step.id, step.eligible);
    ClaimedAgrees(s, Apply(s, step), step.id);
    ServerMoveKeepsInv(s, Apply(s, step));
  }

  lemma ClosedAgrees(s: Sys, s': Sys, ids: set<Id>, result: string, errorCode: string, now: string)
    requires RowsAgree(s) && s'.server == T.Expire(s.server, ids, result, errorCode, now)
    requires s'.closed == s.closed + ClosedBy(s.server, ids)
    requires s'.offered == s.offered && s'.recorded == s.recorded && s'.verdict == s.verdict
    ensures RowsAgree(s') && Grows(s, s')
  {
    forall x | x in s'.server.commands ensures RowAgrees(s', x) {
      assert RowAgrees(s, x);
    }
  }

  lemma ExpireKeepsInv(s: Sys, step: Step)
    requires Inv(s) && step.ServerExpire?
    ensures Inv(Apply(s, step))
  {
    T.ExpireKeepsOk(s.server, step.ids, step.result, step.errorCode, step.now);
    ClosedAgrees(s, Apply(s, step), step.ids, step.result, step.errorCode, step.now);
    ServerMoveKeepsInv(s, Apply(s, step));
  }

  // Only rows that were never handed out expire with their visit.
  lemma TerminatedAgrees(s: Sys, s': Sys, ids: set<Id>, now: string)
    requires RowsAgree(s) && s' == s.(server := T.Terminate(s.server, ids, now))
    ensures RowsAgree(s') && Grows(s, s')
  {
    forall x | x in s'.server.commands ensures RowAgrees(s', x) {
      assert RowAgrees(s, x);
    }
  }

  lemma TerminateKeepsInv(s: Sys, step: Step)
    requires Inv(s) && step.ServerTerminate?
    ensures Inv(Apply(s, step))
  {
    T.TerminateKeepsSound(s.server, step.ids, step.now);
    TerminatedAgrees(s, Apply(s, step), step.ids, step.now);
    ServerMoveKeepsInv(s, Apply(s, step));
  }

  lemma OtherRowKeepsInv(s: Sys, step: Step)
    requires Inv(s) && Enabled(s, step) && step.ServerOther?
    ensures Inv(Apply(s, step))
  {
    var s' := Apply(s, step);
    T.InertUpdateKeepsSound(s.server, step.id, step.command);
    RowMoveAgrees(s, s', step.id, step.command);
    ServerMoveKeepsInv(s, s');
  }

  // The ACK that makes the row final carries the verdict.
  lemma FirstAckAgrees(s: Sys, m: Message, a: T.Ack)
    requires ServerAgrees(s) && MessageAgrees(s, m)
    requires a.status == StatusName(m.status) && a.result != T.TIMEOUT_AMBIGUOUS
    requires m.id in s.server.commands && s.server.commands[m.id].status == "claimed"
    ensures var moved := s.(server := T.FinalizeAck(s.server, m.id, a).0);
            ServerAgrees(moved) && Grows(s, moved) && Final(moved.server, m.id)
  {
    var row := s.server.commands[m.id];
    T.FirstAckWins(s.server, m.id, a);
    assert RowAgrees(s, m.id);
    RowMoveAgrees(s, s.(server := T.FinalizeAck(s.server, m.id, a).0), m.id,
                  row.(status := a.status, result := a.result, completedAt := a.now));
  }

  // A control command's ACK always finds the row claimed, final with the same status
  // or closed: the server's answer is never NOT_FOUND, and CONFLICT only if closed.
  lemma {:induction false} DeliveredServer(s: Sys, m: Message, a: T.Ack)
    requires ServerAgrees(s) && MessageAgrees(s, m)
    requires a.status == StatusName(m.status) && a.result != T.TIMEOUT_AMBIGUOUS
    ensures var (server, d) := T.FinalizeAck(s.server, m.id, a);
            && ServerAgrees(s.(server := server)) && Grows(s, s.(server := server))
            && (IsControlRow(server, m.id) ==> Settled(s.(server := server), m, d))
  {
    if m.id in s.server.commands && s.server.commands[m.id].status == "claimed" {
      FirstAckAgrees(s, m, a);
      T.FirstAckWins(s.server, m.id, a);
    } else {
      T.LateAckChangesNothing(s.server, m.id, a);
      if m.id in s.server.commands {
        assert RowAgrees(s, m.id);
      }
      RowsKeepAgreeing(s, s.(server := T.FinalizeAck(s.server, m.id, a).0));
    }
  }

  lemma AnswerKeepsInv(s: Sys, s': Sys, m: Message, d: T.Disposition)
    requires Inv(s) && m in s.sent && s' == s.(answers := s.answers + {(m, d)})
    requires IsControlRow(s.server, m.id) ==> Settled(s, m, d)
    ensures Inv(s')
  {
    RowsKeepAgreeing(s, s');
    LedgerKeepsAgreeing(s, s', s.mem);
    LedgerKeepsAgreeing(s, s', s.file);
    FlusherKeepsAgreeing(s, s');
  }

  lemma DeliverKeepsInv(s: Sys, step: Step)
    requires Inv(s) && Enabled(s, step) && step.Deliver?
    ensures Inv(Apply(s, step))
  {
    var m, a := step.msg, AckOf(step.msg, step.result, step.now);
    var (server, d) := T.FinalizeAck(s.server, m.id, a);
    var moved := s.(server := server);
    DeliveredServer(s, m, a);
    ServerMoveKeepsInv(s, moved);
    AnswerKeepsInv(moved, Apply(s, step), m, d);
  }

  // Steps of the bridge.

  // A control command that was claimed and taken.
  predicate Handed(s: Sys, id: Id) {
    IsControlRow(s.server, id) && !Unclaimed(s.server.commands[id]) && id !in s.offered
  }

  lemma {:induction false} ConcludeKeepsInv(s: Sys, id: Id, e: L.Entry)
    requires Inv(s) && e.Terminal() && e.ackPending
    requires Handed(s, id) && id !in s.verdict
    ensures Inv(Conclude(s, id, e))
  {
    var s' := Conclude(s, id, e);
    L.MarkIsValid(s.mem, id, e);
    assert Grows(s, s');
    assert LedgerAgrees(s', s'.mem) by {
      forall x | x in s'.mem.entries ensures x in s'.recorded && EntryAgrees(s', x, s'.mem.entries[x]) {
        if x != id {
          assert EntryAgrees(s, x, s.mem.entries[x]);
        }
      }
    }
    forall x | x in s'.server.commands ensures RowAgrees(s', x) {
      assert RowAgrees(s, x);
    }
    FlusherKeepsAgreeing(s, s');
    NetworkKeepsAgreeing(s, s');
  }

  // Recording an entry that decides nothing: an execution that starts, or
  // another lane's command.
  lemma RecordKeepsInv(s: Sys, id: Id, e: L.Entry, lane: Lane)
    requires Inv(s)
    requires IsControlRow(s.server, id) ==> Handed(s, id) && id !in s.verdict && !e.Terminal()
    requires id !in s.offered
    requires var mem := L.Mark(s.mem, id, e);
             LaneAgrees(s.(mem := mem, file := mem, lane := lane, recorded := s.recorded + {id}))
    ensures var mem := L.Mark(s.mem, id, e);
            Inv(s.(mem := mem, file := mem, lane := lane, recorded := s.recorded + {id}))
  {
    var mem := L.Mark(s.mem, id, e);
    var s' := s.(mem := mem, file := mem, lane := lane, recorded := s.recorded + {id});
    L.MarkIsValid(s.mem, id, e);
    assert LedgerAgrees(s', mem) by {
      forall x | x in mem.entries ensures x in s'.recorded && EntryAgrees(s', x, mem.entries[x]) {
        if x != id {
          assert EntryAgrees(s, x, s.mem.entries[x]);
        }
      }
    }
    forall x | x in s'.server.commands ensures RowAgrees(s', x) {
      assert RowAgrees(s, x);
    }
    FlusherKeepsAgreeing(s, s');
    NetworkKeepsAgreeing(s, s');
  }

  lemma TakenOffKeepsInv(s: Sys, s': Sys, id: Id)
    requires Inv(s) && s' == s.(offered := s.offered - {id})
    ensures Inv(s')
  {
    LedgerKeepsAgreeing(s, s', s.mem);
    LedgerKeepsAgreeing(s, s', s.file);
    FlusherKeepsAgreeing(s, s');
    NetworkKeepsAgreeing(s, s');
    forall x | x in s'.server.commands ensures RowAgrees(s', x) {
      assert RowAgrees(s, x);
    }
  }

  // A command that comes again while the ledger holds it.
  lemma TakeKnownKeepsInv(s: Sys, id: Id, blocked: bool, roomId: string)
    requires Inv(s) && s.lane.Idle? && id in s.mem.entries && Handed(s, id)
    ensures Inv(TakeCommand(s, id, blocked, roomId))
  {
    var previous := s.mem.entries[id];
    assert EntryAgrees(s, id, previous);
    if previous.Terminal() {
      SendKeepsInv(s, TakeCommand(s, id, blocked, roomId));
    } else {
      ConcludeKeepsInv(s, id, L.NewEntry(L.Failed, previous.roomId, ackPending := true));
    }
  }

  lemma TakeNewKeepsInv(s: Sys, id: Id, blocked: bool, roomId: string)
    requires Inv(s) && s.lane.Idle? && id !in s.mem.entries && id !in s.recorded && Handed(s, id)
    ensures Inv(TakeCommand(s, id, blocked, roomId))
  {
    if blocked {
      ConcludeKeepsInv(s, id, L.NewEntry(L.Failed, roomId, "CONTROL_BATCH_BLOCKED", "global", "", true));
    } else {
      RecordKeepsInv(s, id, L.NewEntry(L.Executing, roomId), Running(id));
    }
  }

  lemma TakeKeepsInv(s: Sys, step: Step)
    requires Inv(s) && Enabled(s, step) && step.Take?
    ensures Inv(Apply(s, step))
  {
    var taken := s.(offered := s.offered - {step.id});
    TakenOffKeepsInv(s, taken, step.id);
    assert RowAgrees(s, step.id);
    if step.id in s.mem.entries {
      assert step.id in s.recorded;
      TakeKnownKeepsInv(taken, step.id, step.blocked, step.roomId);
    } else {
      TakeNewKeepsInv(taken, step.id, step.blocked, step.roomId);
    }
  }

  lemma FinishKeepsInv(s: Sys, step: Step)
    requires Inv(s) && Enabled(s, step) && step.Finish?
    ensures Inv(Apply(s, step))
  {
    assert RowAgrees(s, s.lane.id);
    ConcludeKeepsInv(s, s.lane.id,
                     if step.success then L.NewEntry(L.Completed, step.roomId, ackPending := true)
                     else L.NewEntry(L.Failed, step.roomId, step.errorCode, step.errorScope,
                                     if step.errorScope == "room" then step.roomState else "", true));
  }

  lemma SetAckKeepsAgreeing(s: Sys, id: Id, pending: bool, resolution: L.Resolution)
    requires LedgerAgrees(s, s.mem)
    requires pending || (IsControlRow(s.server, id) ==> Final(s.server, id))
    ensures LedgerAgrees(s, L.SetAck(s.mem, id, pending, resolution))
  {
  }

  lemma SettledLedgerAgrees(s: Sys, m: Message, answer: Option<T.Disposition>, saved: bool)
    requires Inv(s) && Received(s, m, answer)
    ensures LedgerAgrees(s, Settle(s, m.id, answer, saved).mem)
    ensures LedgerAgrees(s, Settle(s, m.id, answer, saved).file)
  {
    match Heard(answer)
    case Accepted => SetAckKeepsAgreeing(s, m.id, false, L.Acked);
    case Conflicted => SetAckKeepsAgreeing(s, m.id, false, L.StateConflict);
    case Unsettled => SetAckKeepsAgreeing(s, m.id, true, L.Pending);
  }

  lemma SettleKeepsInv(s: Sys, m: Message, answer: Option<T.Disposition>, saved: bool, lane: Lane, flusher: Flusher)
    requires Inv(s) && Received(s, m, answer)
    requires LaneAgrees(s.(lane := lane)) && FlusherAgrees(s.(flusher := flusher))
    ensures Inv(Settle(s, m.id, answer, saved).(lane := lane, flusher := flusher))
  {
    var s' := Settle(s, m.id, answer, saved).(lane := lane, flusher := flusher);
    SettledLedgerAgrees(s, m, answer, saved);
    LedgerKeepsAgreeing(s, s', s'.mem);
    LedgerKeepsAgreeing(s, s', s'.file);
    RowsKeepAgreeing(s, s');
    FlusherKeepsAgreeing(s.(flusher := flusher), s');
    NetworkKeepsAgreeing(s, s');
  }

  lemma SnapshotAgrees(s: Sys, ids: seq<Id>)
    requires LedgerAgrees(s, s.mem)
    requires forall x :: x in ids ==> x in s.mem.entries && s.mem.entries[x].InOutbox()
    ensures QueueAgrees(s, Snapshot(s.mem, ids))
  {
  }

  // Steps that move only a program counter or put a message on the network.
  lemma SendKeepsInv(s: Sys, s': Sys)
    requires Inv(s) && s' == s.(lane := s'.lane, flusher := s'.flusher, sent := s'.sent)
    requires LaneAgrees(s') && FlusherAgrees(s')
    requires s.sent <= s'.sent && forall m | m in s'.sent :: MessageAgrees(s', m)
    ensures Inv(s')
  {
    LedgerKeepsAgreeing(s, s', s.mem);
    LedgerKeepsAgreeing(s, s', s.file);
    RowsKeepAgreeing(s, s');
    forall m, d | (m, d) in s'.answers
      ensures m in s'.sent
      ensures IsControlRow(s'.server, m.id) ==> Settled(s', m, d)
    {
      assert m in s.sent;
    }
  }

  lemma FlushKeepsInv(s: Sys, step: Step)
    requires Inv(s) && Enabled(s, step) && (step.FlushStart? || step.FlushNext?)
    ensures Inv(Apply(s, step))
  {
    var s' := Apply(s, step);
    if step.FlushStart? {
      SnapshotAgrees(s, Batch(s.mem));
    } else if s.flusher.queue != [] {
      assert MessageAgrees(s, s.flusher.queue[0]);
      assert QueueAgrees(s, s.flusher.queue[1..]);
    }
    assert forall m :: m in s.sent ==> MessageAgrees(s, m);
    SendKeepsInv(s, s');
  }

  lemma CrashKeepsInv(s: Sys)
    requires Inv(s)
    ensures Inv(Apply(s, Crash)) && Inv(Apply(s, SaveAll))
  {
    L.LoadOfSaved(s.file);
    var crashed, saved := Apply(s, Crash), Apply(s, SaveAll);
    LedgerKeepsAgreeing(s, crashed, s.file);
    LedgerKeepsAgreeing(s, saved, s.mem);
    RowsKeepAgreeing(s, crashed);
    RowsKeepAgreeing(s, saved);
    NetworkKeepsAgreeing(s, crashed);
    NetworkKeepsAgreeing(s, saved);
    FlusherKeepsAgreeing(s, saved);
  }

  lemma {:induction false} ApplyKeepsInv(s: Sys, step: Step)
    requires Inv(s) && Enabled(s, step)
    ensures Inv(Apply(s, step))
  {
    match step
    case ServerInsert(_, _) => InsertKeepsInv(s, step);
    case ServerClaim(_, _) => ClaimKeepsInv(s, step);
    case ServerExpire(_, _, _, _) => ExpireKeepsInv(s, step);
    case ServerTerminate(_, _) => TerminateKeepsInv(s, step);
    case ServerOther(_, _) => OtherRowKeepsInv(s, step);
    case OtherLane(id, e) => RecordKeepsInv(s, id, e, s.lane);
    case Take(_, _, _) => TakeKeepsInv(s, step);
    case Finish(_, _, _, _, _) => FinishKeepsInv(s, step);
    case LaneSend => SendKeepsInv(s, Apply(s, step));
    case LaneReturn(answer, saved) => SettleKeepsInv(s, s.lane.msg, answer, saved, Idle, s.flusher);
    case FlushStart => FlushKeepsInv(s, step);
    case FlushNext => FlushKeepsInv(s, step);
    case FlushReturn(answer, saved) =>
      SettleKeepsInv(s, s.flusher.msg, answer, saved, s.lane, Flushing(s.flusher.queue));
    case Deliver(_, _, _) => DeliverKeepsInv(s, step);
    case SaveAll => CrashKeepsInv(s);
    case Crash => CrashKeepsInv(s);
  }

  // ----- Theorems over runs -----

  ghost predicate IsRun(states: seq<Sys>, steps: seq<Step>) {
    && |states| == |steps| + 1
    && Initial(states[0])
    && forall i :: 0 <= i < |steps| ==> Enabled(states[i], steps[i]) && states[i + 1] == Apply(states[i], steps[i])
  }

  lemma {:induction false} InvAlongRun(states: seq<Sys>, steps: seq<Step>, k: nat)
    requires IsRun(states, steps) && k <= |steps|
    ensures Inv(states[k])
  {
    if k > 0 {
      InvAlongRun(states, steps, k - 1);
      ApplyKeepsInv(states[k - 1], steps[k - 1]);
    }
  }

  ghost predicate OneVerdict(s: Sys) {
    forall m, n | m in s.sent && n in s.sent && m.id == n.id && IsControlRow(s.server, m.id) :: m.status == n.status
  }

  // No control command's ACK is ever in conflict, unless the server had closed the
  // row, and none is ever unknown.
  ghost predicate NoConflict(s: Sys) {
    forall m, d | (m, d) in s.answers && IsControlRow(s.server, m.id) ::
      d == T.Finalized || d == T.Duplicate || (d == T.Conflict && m.id in s.closed)
  }

  // A finished control command whose ACK is no longer owed is final at the server,
  // with the status the ledger holds unless the server had closed it.
  ghost predicate NothingLost(s: Sys, l: L.Ledger) {
    forall x | x in l.entries && IsControlRow(s.server, x) && l.entries[x].Terminal() && !l.entries[x].ackPending ::
      Final(s.server, x) && (x !in s.closed ==> s.server.commands[x].status == StatusName(l.entries[x].status))
  }

  // The step ends a kiosk visit with a control command waiting for some room.
  ghost predicate Strands(s: Sys, step: Step) {
    step.ServerTerminate? && exists r | r in s.server.rooms :: T.Strands(s.server, step.ids, r)
  }

  lemma ServerStaysOk(s: Sys, step: Step)
    requires Inv(s) && Enabled(s, step) && T.Ok(s.server) && !Strands(s, step)
    ensures T.Ok(Apply(s, step).server)
  {
    match step
    case ServerInsert(id, c) => T.InsertKeepsOk(s.server, id, c);
    case ServerClaim(id, eligible) => T.ClaimKeepsOk(s.server, id, eligible);
    case ServerExpire(ids, result, errorCode, now) => T.ExpireKeepsOk(s.server, ids, result, errorCode, now);
    case ServerTerminate(ids, now) => TerminatedStaysOk(s.server, ids, now);
    case ServerOther(id, c) => T.InertUpdateKeepsSound(s.server, id, c);
    case Deliver(m, result, now) =>
      assert MessageAgrees(s, m);
      T.AckKeepsOk(s.server, m.id, AckOf(m, result, now));
    case _ =>
  }

  lemma TerminatedStaysOk(t: T.Table, ids: set<Id>, now: string)
    requires T.Ok(t) && forall r | r in t.rooms :: !T.Strands(t, ids, r)
    ensures T.Ok(T.Terminate(t, ids, now))
  {
    T.ExactUnlessStale(t);
    T.TerminateKeepsSound(t, ids, now);
    T.ExactUnlessStale(T.Terminate(t, ids, now));
    forall r | r in t.rooms ensures !T.Stale(T.Terminate(t, ids, now), r) {
      T.TerminateStrandsExactlyWhen(t, ids, now, r);
    }
  }

  lemma {:induction false} ServerOkAlongRun(states: seq<Sys>, steps: seq<Step>, k: nat)
    requires IsRun(states, steps) && k <= |steps| && forall i | 0 <= i < k :: !Strands(states[i], steps[i])
    ensures T.Ok(states[k].server)
  {
    if k > 0 {
      ServerOkAlongRun(states, steps, k - 1);
      InvAlongRun(states, steps, k - 1);
      ServerStaysOk(states[k - 1], steps[k - 1]);
    }
  }

  /** Over every run with lost, late and repeated requests and answers, crashes,
      failing flag saves, ended kiosk visits and rows the server closes: all ACKs ever
      sent for one control command carry one status, the server answers CONFLICT only
      about a row it closed itself, and neither the ledger nor its file ever drops an
      ACK the server has not settled, the same way unless it closed the row. Rooms stay
      exclusive, and their index exact until an ended visit strands one. */
  lemma AcksAgree(states: seq<Sys>, steps: seq<Step>, k: nat)
    requires IsRun(states, steps) && k <= |steps|
    ensures OneVerdict(states[k]) && NoConflict(states[k])
    ensures NothingLost(states[k], states[k].mem) && NothingLost(states[k], states[k].file)
    ensures T.Sound(states[k].server)
    ensures (forall i | 0 <= i < k :: !Strands(states[i], steps[i])) ==> T.Ok(states[k].server)
  {
    InvAlongRun(states, steps, k);
    if forall i | 0 <= i < k :: !Strands(states[i], steps[i]) {
      ServerOkAlongRun(states, steps, k);
    }
    var s := states[k];
    assert forall m :: m in s.sent ==> MessageAgrees(s, m);
    AgreementLosesNothing(s, s.mem);
    AgreementLosesNothing(s, s.file);
  }

  lemma AgreementLosesNothing(s: Sys, l: L.Ledger)
    requires ServerAgrees(s) && LedgerAgrees(s, l)
    ensures NothingLost(s, l)
  {
  }

  lemma StepKeepsFinalRow(s: Sys, step: Step, x: Id)
    requires Inv(s) && Enabled(s, step) && IsControlRow(s.server, x) && Final(s.server, x)
    ensures x in Apply(s, step).server.commands && Apply(s, step).server.commands[x] == s.server.commands[x]
  {
    if step.Deliver? {
      var m, a := step.msg, AckOf(step.msg, step.result, step.now);
      assert MessageAgrees(s, m);
      if m.id in s.server.commands && s.server.commands[m.id].status == "claimed" {
        T.FirstAckWins(s.server, m.id, a);
      } else {
        T.LateAckChangesNothing(s.server, m.id, a);
      }
    }
  }

  /** The server finalises a control command at most once: from the moment its
      row is final the row never changes again. */
  lemma {:induction false} FinalisedOnce(states: seq<Sys>, steps: seq<Step>, i: nat, k: nat, x: Id)
    requires IsRun(states, steps) && i <= k <= |steps|
    requires IsControlRow(states[i].server, x) && Final(states[i].server, x)
    ensures x in states[k].server.commands && states[k].server.commands[x] == states[i].server.commands[x]
    decreases k
  {
    if k > i {
      FinalisedOnce(states, steps, i, k - 1, x);
      InvAlongRun(states, steps, k - 1);
      StepKeepsFinalRow(states[k - 1], steps[k - 1], x);
    }
  }

  // ----- Exchanges nobody disturbs -----

  // What one settled exchange leaves of a control command's ACK: nothing owed, and
  // the row final with the status sent unless the server had closed it.
  ghost predicate SettledAck(s: Sys, m: Message) {
    && Final(s.server, m.id)
    && (m.id !in s.closed ==> s.server.commands[m.id].status == StatusName(m.status))
    && !L.IsAckPending(s.mem, m.id)
  }

  function Answer(s: Sys, m: Message, result: string, now: string): T.Disposition {
    T.FinalizeAck(s.server, m.id, AckOf(m, result, now)).1
  }

  // The message reaches the server, and its answer the bridge's ledger.
  function Exchanged(s: Sys, m: Message, result: string, now: string): Sys {
    Settle(Apply(s, Deliver(m, result, now)), m.id, Some(Answer(s, m, result, now)), true)
  }

  // Nothing settled is unsettled, and nothing else is newly owed.
  ghost predicate KeepsSettled(s: Sys, s': Sys) {
    && Grows(s, s') && s'.closed == s.closed
    && (forall x | Final(s.server, x) && IsControlRow(s.server, x) :: s'.server.commands[x] == s.server.commands[x])
    && (forall x :: !L.IsAckPending(s.mem, x) ==> !L.IsAckPending(s'.mem, x))
  }

  lemma AnswerIsHeard(s: Sys, m: Message, result: string, now: string)
    ensures (m, Answer(s, m, result, now)) in Apply(s, Deliver(m, result, now)).answers
  {
  }

  lemma ExchangedSettles(s: Sys, m: Message, result: string, now: string)
    requires Inv(s) && m in s.sent && IsControlRow(s.server, m.id) && result != T.TIMEOUT_AMBIGUOUS
    ensures SettledAck(Exchanged(s, m, result, now), m)
  {
    var delivered := Apply(s, Deliver(m, result, now));
    ApplyKeepsInv(s, Deliver(m, result, now));
    AnswerIsHeard(s, m, result, now);
    assert IsControlRow(delivered.server, m.id);
    assert RowAgrees(delivered, m.id) && MessageAgrees(delivered, m);
  }

  lemma DeliverKeepsSettled(s: Sys, m: Message, result: string, now: string)
    requires Inv(s) && m in s.sent && result != T.TIMEOUT_AMBIGUOUS
    ensures KeepsSettled(s, Apply(s, Deliver(m, result, now)))
  {
    forall x | Final(s.server, x) && IsControlRow(s.server, x)
      ensures x in Apply(s, Deliver(m, result, now)).server.commands
              && Apply(s, Deliver(m, result, now)).server.commands[x] == s.server.commands[x]
    {
      StepKeepsFinalRow(s, Deliver(m, result, now), x);
    }
    DeliveredServer(s, m, AckOf(m, result, now));
  }

  lemma ExchangedKeepsSettled(s: Sys, m: Message, result: string, now: string)
    requires Inv(s) && m in s.sent && result != T.TIMEOUT_AMBIGUOUS && L.IsAckPending(s.mem, m.id)
    ensures KeepsSettled(s, Exchanged(s, m, result, now))
  {
    DeliverKeepsSettled(s, m, result, now);
  }

  lemma LaneExchangeIs(s: Sys, m: Message, result: string, now: string)
    requires s.lane == Waiting(m)
    ensures Apply(Apply(s, Deliver(m, result, now)), LaneReturn(Some(Answer(s, m, result, now)), true))
            == Exchanged(s, m, result, now).(lane := Idle)
  {
  }

  /** One undisturbed exchange of the lane is enough: whatever was lost before,
      sending a control command's ACK, having it delivered and reading the answer
      settles it. */
  lemma GoodExchangeSettles(s: Sys, m: Message, result: string, now: string)
    requires Inv(s) && s.lane == Sending(m) && IsControlRow(s.server, m.id) && m.id in s.mem.entries
    requires result != T.TIMEOUT_AMBIGUOUS
    ensures var sent := Apply(s, LaneSend);
            var delivered, d := Apply(sent, Deliver(m, result, now)), Answer(sent, m, result, now);
            var done := Apply(delivered, LaneReturn(Some(d), true));
            (m, d) in delivered.answers && SettledAck(done, m) && done.file == done.mem && done.lane == Idle
  {
    var sent := Apply(s, LaneSend);
    ApplyKeepsInv(s, LaneSend);
    AnswerIsHeard(sent, m, result, now);
    ExchangedSettles(sent, m, result, now);
    LaneExchangeIs(sent, m, result, now);
  }

  // The flusher's next message sent, delivered and answered; or passed over, if its
  // ACK was settled meanwhile.
  function FlushExchange(s: Sys, result: string, now: string): Sys
    requires s.flusher.Flushing? && s.flusher.queue != []
  {
    var m, sent := s.flusher.queue[0], Apply(s, FlushNext);
    if sent.flusher.Awaiting?
    then Apply(Apply(sent, Deliver(m, result, now)), FlushReturn(Some(Answer(sent, m, result, now)), true))
    else sent
  }

  lemma FlushExchangeIs(s: Sys, m: Message, queue: seq<Message>, result: string, now: string)
    requires s.flusher == Awaiting(m, queue)
    ensures Apply(Apply(s, Deliver(m, result, now)), FlushReturn(Some(Answer(s, m, result, now)), true))
            == Exchanged(s, m, result, now).(flusher := Flushing(queue))
  {
  }

  lemma FlushReturnKeepsInv(s: Sys, m: Message, queue: seq<Message>, result: string, now: string)
    requires Inv(s) && s.flusher == Awaiting(m, queue) && m in s.sent && result != T.TIMEOUT_AMBIGUOUS
    ensures Inv(Exchanged(s, m, result, now).(flusher := Flushing(queue)))
  {
    ApplyKeepsInv(s, Deliver(m, result, now));
    AnswerIsHeard(s, m, result, now);
    ApplyKeepsInv(Apply(s, Deliver(m, result, now)), FlushReturn(Some(Answer(s, m, result, now)), true));
    FlushExchangeIs(s, m, queue, result, now);
  }

  lemma FlushExchangeSettles(s: Sys, result: string, now: string)
    requires Inv(s) && s.flusher.Flushing? && s.flusher.queue != [] && result != T.TIMEOUT_AMBIGUOUS
    ensures var s', m := FlushExchange(s, result, now), s.flusher.queue[0];
            && Inv(s') && s'.flusher == Flushing(s.flusher.queue[1..]) && KeepsSettled(s, s')
            && (IsControlRow(s.server, m.id) && L.IsAckPending(s.mem, m.id) ==> SettledAck(s', m))
  {
    var m, queue, sent := s.flusher.queue[0], s.flusher.queue[1..], Apply(s, FlushNext);
    ApplyKeepsInv(s, FlushNext);
    if L.IsAckPending(s.mem, m.id) {
      FlushReturnKeepsInv(sent, m, queue, result, now);
      FlushExchangeIs(sent, m, queue, result, now);
      ExchangedKeepsSettled(sent, m, result, now);
      if IsControlRow(sent.server, m.id) {
        ExchangedSettles(sent, m, result, now);
      }
    }
  }

  // The exchange is about one command's flag.
  lemma FlushExchangeSparesOthers(s: Sys, result: string, now: string, x: Id)
    requires s.flusher.Flushing? && s.flusher.queue != [] && x != s.flusher.queue[0].id
    ensures L.IsAckPending(FlushExchange(s, result, now).mem, x) == L.IsAckPending(s.mem, x)
  {
    var m, sent := s.flusher.queue[0], Apply(s, FlushNext);
    if sent.flusher.Awaiting? {
      FlushExchangeIs(sent, m, s.flusher.queue[1..], result, now);
    }
  }

  // At most n undisturbed exchanges of the flusher.
  function FlushMany(s: Sys, n: nat, result: string, now: string): Sys
    decreases n
  {
    if n == 0 || !s.flusher.Flushing? || s.flusher.queue == [] then s
    else FlushMany(FlushExchange(s, result, now), n - 1, result, now)
  }

  // The messages are about different commands, and their ACKs are owed.
  ghost predicate Owed(s: Sys, queue: seq<Message>) {
    && (forall i, j :: 0 <= i < j < |queue| ==> queue[i].id != queue[j].id)
    && (forall i :: 0 <= i < |queue| ==> L.IsAckPending(s.mem, queue[i].id))
  }

  lemma SettledStays(s: Sys, s': Sys, m: Message)
    requires KeepsSettled(s, s') && SettledAck(s, m) && IsControlRow(s.server, m.id)
    ensures SettledAck(s', m)
  {
  }

  lemma KeepsSettledChain(s: Sys, mid: Sys, s': Sys)
    requires KeepsSettled(s, mid) && KeepsSettled(mid, s')
    ensures KeepsSettled(s, s')
  {
  }

  lemma {:induction false} FlushManySettles(s: Sys, n: nat, result: string, now: string)
    requires Inv(s) && s.flusher.Flushing? && n == |s.flusher.queue| && Owed(s, s.flusher.queue)
    requires result != T.TIMEOUT_AMBIGUOUS
    ensures var end := FlushMany(s, n, result, now);
            && Inv(end) && end.flusher == Flushing([]) && KeepsSettled(s, end)
            && forall i | 0 <= i < n && IsControlRow(s.server, s.flusher.queue[i].id) ::
                 SettledAck(end, s.flusher.queue[i])
    decreases n
  {
    if n > 0 {
      var queue, next := s.flusher.queue, FlushExchange(s, result, now);
      FlushExchangeSettles(s, result, now);
      forall i | 0 <= i < |queue| - 1 ensures L.IsAckPending(next.mem, next.flusher.queue[i].id) {
        FlushExchangeSparesOthers(s, result, now, queue[i + 1].id);
      }
      FlushManySettles(next, n - 1, result, now);
      var end := FlushMany(next, n - 1, result, now);
      KeepsSettledChain(s, next, end);
      forall i | 0 <= i < n && IsControlRow(s.server, queue[i].id) ensures SettledAck(end, queue[i]) {
        assert MessageAgrees(s, queue[i]);
        if i == 0 {
          SettledStays(next, end, queue[0]);
        } else {
          assert next.flusher.queue[i - 1] == queue[i];
        }
      }
    }
  }

  lemma BatchIsOwed(l: L.Ledger)
    requires L.Valid(l)
    ensures L.NoDup(Batch(l))
  {
    L.OutboxIsExact(l, l.order);
  }

  /** One undisturbed pass over the outbox settles every control command's ACK in
      its batch, whatever was lost before. */
  lemma UndisturbedPassSettles(s: Sys, result: string, now: string)
    requires Inv(s) && s.flusher.Resting? && result != T.TIMEOUT_AMBIGUOUS
    ensures var start := Apply(s, FlushStart);
            var end := FlushMany(start, |Batch(s.mem)|, result, now);
            && Inv(end) && end.flusher == Flushing([])
            && forall x | x in Batch(s.mem) && IsControlRow(s.server, x) ::
                 SettledAck(end, MessageOf(x, s.mem.entries[x]))
  {
    var start, ids := Apply(s, FlushStart), Batch(s.mem);
    ApplyKeepsInv(s, FlushStart);
    BatchIsOwed(s.mem);
    FlushManySettles(start, |ids|, result, now);
    forall x | x in ids && IsControlRow(s.server, x)
      ensures SettledAck(FlushMany(start, |ids|, result, now), MessageOf(x, s.mem.entries[x]))
    {
      var i :| 0 <= i < |ids| && ids[i] == x;
      assert start.flusher.queue[i] == MessageOf(x, s.mem.entries[x]);
    }
  }
}
