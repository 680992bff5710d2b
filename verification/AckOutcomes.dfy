// What the ACKs say: the outcome of a command's action, up to the server's row and
// its rooms, and what the server's answer leaves in the bridge's ledger.

module AckOutcomes {
  import opened Wrappers
  import L = CommandLedger
  import T = ControlTable
  import opened AckComposition

  /** What may happen at any time, whatever the threads are doing: a crash, an expiry, an
      ended kiosk visit, a late or repeated delivery of any message ever sent, and, for
      whoever waits for an answer, that it is lost or that its flag cannot be saved. */
  lemma AnytimeMayHappen(s: Sys, ids: set<Id>, result: string, errorCode: string, now: string, saved: bool)
    ensures Enabled(s, Crash) && Enabled(s, SaveAll) && Enabled(s, ServerTerminate(ids, now))
    ensures Enabled(s, ServerExpire(ids, result, errorCode, now))
    ensures forall m | m in s.sent && result != "CONTROL_ACK_TIMEOUT_AMBIGUOUS" :: Enabled(s, Deliver(m, result, now))
    ensures s.lane.Waiting? ==>
              && Enabled(s, LaneReturn(None, saved))
              && forall d | (s.lane.msg, d) in s.answers :: Enabled(s, LaneReturn(Some(d), saved))
    ensures s.flusher.Awaiting? ==>
              && Enabled(s, FlushReturn(None, saved))
              && forall d | (s.flusher.msg, d) in s.answers :: Enabled(s, FlushReturn(Some(d), saved))
    ensures (s.flusher.Resting? <==> Enabled(s, FlushStart)) && (s.flusher.Flushing? <==> Enabled(s, FlushNext))
    ensures s.lane.Sending? <==> Enabled(s, LaneSend)
    ensures forall id, blocked, roomId ::
              Enabled(s, Take(id, blocked, roomId)) <==>
              s.lane.Idle? && (id in s.offered || (id in s.mem.entries && IsControlRow(s.server, id)))
    ensures forall roomId, success, code, scope, state ::
              Enabled(s, Finish(roomId, success, code, scope, state)) <==> s.lane.Running?
    ensures forall id, e: L.Entry :: Enabled(s, OtherLane(id, e)) <==> !IsControlRow(s.server, id)
    ensures forall id, c: T.Command | c.status == "pending" ::
              Enabled(s, ServerInsert(id, c)) <==> id != "" && id !in s.recorded
    ensures forall id, eligible :: Enabled(s, ServerClaim(id, eligible)) <==> T.Claim(s.server, id, eligible).Some?
  {
  }

  /** A crash keeps the file and nothing else of the process; a save keeps all; and what
      another lane records is in memory and file, and touches no other entry that stays. */
  lemma ProcessStepsAre(s: Sys, id: Id, e: L.Entry)
    requires L.Valid(s.mem) && L.Valid(s.file)
    ensures Apply(s, Crash) == s.(mem := s.file, lane := Idle, flusher := Resting)
    ensures Apply(s, SaveAll) == s.(file := s.mem)
    ensures s.flusher == Flushing([]) ==> Apply(s, FlushNext) == s.(flusher := Resting)
    ensures var s' := Apply(s, OtherLane(id, e));
            && s' == s.(mem := s'.mem, file := s'.mem, recorded := s.recorded + {id})
            && id in s'.mem.entries && s'.mem.entries[id] == e
            && forall x | x in s'.mem.entries && x != id :: x in s.mem.entries && s'.mem.entries[x] == s.mem.entries[x]
  {
    L.LoadOfSaved(s.file);
    L.MarkIsValid(s.mem, id, e);
  }

  /** A claim hands the row out, to the control lane if it is a control row, and an expiry
      puts on record exactly the unfinished control rows it closes; either leaves the
      bridge and the network alone. */
  lemma ServerStepsAre(s: Sys, id: Id, eligible: bool, ids: set<Id>, result: string, errorCode: string, now: string)
    requires T.Sound(s.server)
    ensures Enabled(s, ServerClaim(id, eligible)) ==>
              var s' := Apply(s, ServerClaim(id, eligible));
              && s' == s.(server := s'.server, offered := s'.offered) && id in s.server.commands
              && s'.server == s.server.(commands :=
                   s.server.commands[id := s.server.commands[id].(status := "claimed")])
              && forall x :: x in s'.offered <==> x in s.offered || (x == id && IsControlRow(s.server, id))
    ensures var s' := Apply(s, ServerExpire(ids, result, errorCode, now));
            && s' == s.(server := s'.server, closed := s'.closed)
            && forall x :: x in s'.closed <==>
                 x in s.closed || (x in ids && x in s.server.commands && T.Unfinished(s.server.commands[x]))
  {
    T.ClaimKeepsOk(s.server, id, eligible);
  }

  // In this step the action of command `x` ends well.
  predicate EndsWell(s: Sys, step: Step, x: Id) {
    step.Finish? && step.success && s.lane == Running(x)
  }

  predicate IsDone(s: Sys, x: Id) {
    x in s.verdict && s.verdict[x] == L.Completed
  }

  lemma TakenVerdict(s: Sys, id: Id, blocked: bool, roomId: string, x: Id)
    requires Inv(s) && Enabled(s, Take(id, blocked, roomId))
    ensures IsDone(Apply(s, Take(id, blocked, roomId)), x) <==> IsDone(s, x)
  {
    assert id in s.mem.entries ==> EntryAgrees(s, id, s.mem.entries[id]);
  }

  lemma VerdictNext(s: Sys, step: Step, x: Id)
    requires Inv(s) && Enabled(s, step)
    ensures IsDone(Apply(s, step), x) <==> IsDone(s, x) || EndsWell(s, step, x)
  {
    if step.Take? {
      TakenVerdict(s, step.id, step.blocked, step.roomId, x);
    }
  }

  lemma {:induction false} DoneExactlyWhen(states: seq<Sys>, steps: seq<Step>, k: nat, x: Id)
    requires IsRun(states, steps) && k <= |steps|
    ensures IsDone(states[k], x) <==> exists j :: 0 <= j < k && EndsWell(states[j], steps[j], x)
    decreases k
  {
    if k > 0 {
      DoneExactlyWhen(states, steps, k - 1, x);
      InvAlongRun(states, steps, k - 1);
      VerdictNext(states[k - 1], steps[k - 1], x);
    }
  }

  // A row the server closed by itself is failed.
  predicate ClosedIsFailed(s: Sys, x: Id) {
    x in s.closed ==> x in s.server.commands && s.server.commands[x].status == "failed"
  }

  lemma ClosedNext(s: Sys, step: Step, x: Id)
    requires Inv(s) && Enabled(s, step) && ClosedIsFailed(s, x)
    ensures ClosedIsFailed(Apply(s, step), x)
  {
    if x in s.closed {
      StepKeepsFinalRow(s, step, x);
    }
  }

  lemma {:induction false} ClosedStaysFailed(states: seq<Sys>, steps: seq<Step>, k: nat, x: Id)
    requires IsRun(states, steps) && k <= |steps|
    ensures ClosedIsFailed(states[k], x)
    decreases k
  {
    if k > 0 {
      ClosedStaysFailed(states, steps, k - 1, x);
      InvAlongRun(states, steps, k - 1);
      ClosedNext(states[k - 1], steps[k - 1], x);
    }
  }

  /** The outcome reaches the server: in every run a control command's final row is
      completed if and only if the command's action ended well in some step and the
      server had not closed the row itself, and failed otherwise. Every ACK sent for it
      and every verdict the ledger holds on it say the same. */
  lemma OutcomeReachesServer(states: seq<Sys>, steps: seq<Step>, k: nat, x: Id)
    requires IsRun(states, steps) && k <= |steps| && IsControlRow(states[k].server, x)
    ensures var s := states[k];
            var done := exists j :: 0 <= j < k && EndsWell(states[j], steps[j], x);
            && (Final(s.server, x) ==>
                  s.server.commands[x].status == if done && x !in s.closed then "completed" else "failed")
            && (forall m | m in s.sent && m.id == x :: m.status == if done then L.Completed else L.Failed)
            && (x in s.mem.entries && s.mem.entries[x].status != L.Executing ==>
                  s.mem.entries[x].status == if done then L.Completed else L.Failed)
  {
    var s := states[k];
    InvAlongRun(states, steps, k);
    DoneExactlyWhen(states, steps, k, x);
    ClosedStaysFailed(states, steps, k, x);
    assert RowAgrees(s, x);
    forall m | m in s.sent && m.id == x ensures m.status == if IsDone(s, x) then L.Completed else L.Failed {
      assert MessageAgrees(s, m);
    }
    assert x in s.mem.entries ==> EntryAgrees(s, x, s.mem.entries[x]);
  }

  // ----- What an ACK carries -----

  // The ACK of a finished action, word for word.
  function FinishedAck(success: bool, errorCode: string, errorScope: string, roomState: string, result: string,
                       now: string): T.Ack
  {
    T.Ack(if success then "completed" else "failed", result, if success then "" else errorCode,
          if !success && errorScope == "room" then roomState else "", now)
  }

  lemma FinishSends(s: Sys, id: Id, roomId: string, success: bool, errorCode: string, errorScope: string,
                    roomState: string, result: string, now: string)
    requires s.lane == Running(id)
    ensures var sent := Apply(Apply(s, Finish(roomId, success, errorCode, errorScope, roomState)), LaneSend);
            && sent.lane.Waiting? && sent.lane.msg.id == id && sent.lane.msg in sent.sent && sent.server == s.server
            && AckOf(sent.lane.msg, result, now)
               == FinishedAck(success, errorCode, errorScope, roomState, result, now)
  {
  }

  // The row of `id` and its rooms after the first ACK `a` of it.
  ghost predicate ReleasedBy(t: T.Table, t': T.Table, id: Id, a: T.Ack)
    requires id in t.commands
  {
    var c := t.commands[id];
    && t'.commands == t.commands[id := c.(status := a.status, result := a.result, completedAt := a.now)]
    && t'.rooms.Keys == t.rooms.Keys
    && forall r | r in t.rooms ::
         if T.Covers(c.roomId, r) then T.Released(t.rooms[r], t'.rooms[r], c.action, a)
         else t'.rooms[r] == t.rooms[r]
  }

  lemma DeliveredReleases(s: Sys, m: Message, result: string, now: string, a: T.Ack)
    requires T.Sound(s.server) && IsControlRow(s.server, m.id) && s.server.commands[m.id].status == "claimed"
    requires a == AckOf(m, result, now) && T.ValidAck(a)
    ensures ReleasedBy(s.server, Apply(s, Deliver(m, result, now)).server, m.id, a)
  {
    T.FirstAckWins(s.server, m.id, a);
  }

  /** From the action to the rooms, undisturbed: the ACK of a claimed command makes its
      row completed if and only if the action ended well, and releases exactly the rooms
      it covers: READY after a success, and after a failure with the action, the error
      code and - for a failure of the room - the room state that the bridge reported. */
  lemma UndisturbedFinishReleases(s: Sys, id: Id, roomId: string, success: bool, errorCode: string,
                                  errorScope: string, roomState: string, result: string, now: string, sent: Sys)
    requires Inv(s) && s.lane == Running(id)
    requires id in s.server.commands && s.server.commands[id].status == "claimed"
    requires sent == Apply(Apply(s, Finish(roomId, success, errorCode, errorScope, roomState)), LaneSend)
    ensures sent.lane.Waiting? && sent.lane.msg in sent.sent
    ensures ReleasedBy(s.server, Apply(sent, Deliver(sent.lane.msg, result, now)).server, id,
                       FinishedAck(success, errorCode, errorScope, roomState, result, now))
  {
    FinishSends(s, id, roomId, success, errorCode, errorScope, roomState, result, now);
    DeliveredReleases(sent, sent.lane.msg, result, now,
                      FinishedAck(success, errorCode, errorScope, roomState, result, now));
  }

  // ----- What an answer leaves -----

  // The entry after an exchange: an ACK the server took or answered with a conflict is
  // no longer owed, a lost one and one about an unknown command is.
  ghost predicate Answered(e: L.Entry, e': L.Entry, answer: Option<T.Disposition>) {
    && (e'.status, e'.roomId, e'.errorCode, e'.errorScope, e'.roomControlState)
       == (e.status, e.roomId, e.errorCode, e.errorScope, e.roomControlState)
    && (e'.ackPending <==> answer == None || answer == Some(T.NotFound))
    && (e'.resolution.Acked? <==> answer == Some(T.Finalized) || answer == Some(T.Duplicate))
    && (e'.resolution.StateConflict? <==> answer == Some(T.Conflict))
    && (e'.resolution.Pending? <==> e'.ackPending)
  }

  // From `s` to `s'` the answer about `id` was read, and its flag saved or not.
  ghost predicate AnswerRead(s: Sys, s': Sys, id: Id, answer: Option<T.Disposition>, saved: bool) {
    && s'.mem.order == s.mem.order && s'.mem.entries.Keys == s.mem.entries.Keys
    && (forall x | x in s.mem.entries ::
          if x == id then Answered(s.mem.entries[x], s'.mem.entries[x], answer)
          else s'.mem.entries[x] == s.mem.entries[x])
    && s'.file == (if saved then s'.mem else s.file) && s'.server == s.server && s'.sent == s.sent
  }

  lemma SettleReads(s: Sys, id: Id, answer: Option<T.Disposition>, saved: bool)
    requires L.Valid(s.mem)
    ensures AnswerRead(s, Settle(s, id, answer, saved), id, answer, saved)
  {
    var pending := answer == None || answer == Some(T.NotFound);
    var resolution := if pending then L.Pending else if answer == Some(T.Conflict) then L.StateConflict else L.Acked;
    L.SetAckIsValid(s.mem, id, pending, resolution);
    assert Settle(s, id, answer, saved).mem == L.SetAck(s.mem, id, pending, resolution);
  }

  /** Whoever sent an ACK, reading the answer to it changes that command's entry alone,
      as the answer says, and the file with it if the flag could be saved. */
  lemma AnswersAreRead(s: Sys, answer: Option<T.Disposition>, saved: bool)
    requires L.Valid(s.mem)
    ensures s.lane.Waiting? ==>
              var s' := Apply(s, LaneReturn(answer, saved));
              AnswerRead(s, s', s.lane.msg.id, answer, saved) && s'.lane.Idle? && s'.flusher == s.flusher
    ensures s.flusher.Awaiting? ==>
              var s' := Apply(s, FlushReturn(answer, saved));
              && AnswerRead(s, s', s.flusher.msg.id, answer, saved) && s'.lane == s.lane
              && s'.flusher == Flushing(s.flusher.queue)
  {
    if s.lane.Waiting? {
      SettleReads(s, s.lane.msg.id, answer, saved);
    }
    if s.flusher.Awaiting? {
      SettleReads(s, s.flusher.msg.id, answer, saved);
    }
  }

  // ----- What a hand-out leads to -----

  // The command's ACK is what the lane sends next, with everything its entry holds.
  ghost predicate SendsEntry(s: Sys, id: Id) {
    && id in s.mem.entries && s.lane.Sending? && s.lane.msg.id == id
    && var e, m := s.mem.entries[id], s.lane.msg;
       m.status == e.status && m.errorCode == e.errorCode && m.roomState == e.roomControlState
  }

  /** A command that is handed out starts only if the ledger does not hold it and the
      batch is not blocked; one that is held is answered again, as failed if it was
      found executing, and one behind the block is failed with CONTROL_BATCH_BLOCKED. */
  lemma HandOutLeadsTo(s: Sys, id: Id, blocked: bool, roomId: string)
    requires L.Valid(s.mem)
    ensures var s' := Apply(s, Take(id, blocked, roomId));
            && id in s'.mem.entries && s'.offered == s.offered - {id} && s'.server == s.server
            && (s'.lane == Running(id) <==> id !in s.mem.entries && !blocked)
            && (s'.lane == Running(id) ==> s'.mem.entries[id].status == L.Executing && s'.file == s'.mem)
            && (s'.lane != Running(id) ==> SendsEntry(s', id) && s'.mem.entries[id].status != L.Executing)
            && (id in s.mem.entries && s.mem.entries[id].status != L.Executing ==> s'.mem == s.mem)
            && (id in s.mem.entries && s.mem.entries[id].status == L.Executing ==>
                  s'.mem.entries[id].status == L.Failed && s'.mem.entries[id].ackPending && s'.file == s'.mem)
            && (id !in s.mem.entries && blocked ==>
                  && s'.mem.entries[id].status == L.Failed && s'.mem.entries[id].ackPending && s'.file == s'.mem
                  && s'.mem.entries[id].errorCode == "CONTROL_BATCH_BLOCKED"
                  && s'.mem.entries[id].errorScope == "global" && s'.mem.entries[id].roomControlState == ""
                  && s'.mem.entries[id].roomId == roomId)
  {
    if id in s.mem.entries {
      L.MarkIsValid(s.mem, id, L.NewEntry(L.Failed, s.mem.entries[id].roomId, ackPending := true));
    } else if blocked {
      L.MarkIsValid(s.mem, id, L.NewEntry(L.Failed, roomId, "CONTROL_BATCH_BLOCKED", "global", "", true));
    } else {
      L.MarkIsValid(s.mem, id, L.NewEntry(L.Executing, roomId));
    }
  }

  /** The flusher takes on the oldest owed ACKs, at most 20, each with what its entry
      holds, and passes over one that was settled meanwhile. */
  lemma FlushTakesOn(s: Sys)
    requires L.Valid(s.mem)
    ensures var s' := Apply(s, FlushStart);
            && s'.flusher.Flushing? && s' == s.(flusher := s'.flusher)
            && var queue := s'.flusher.queue;
               && |queue| <= 20 && (|L.Outbox(s.mem, s.mem.order)| <= 20 ==> |queue| == |L.Outbox(s.mem, s.mem.order)|)
               && forall i | 0 <= i < |queue| ::
                    && queue[i].id == L.Outbox(s.mem, s.mem.order)[i] && queue[i].id in s.mem.entries
                    && var e := s.mem.entries[queue[i].id];
                       queue[i].status == e.status && queue[i].errorCode == e.errorCode
                       && queue[i].roomState == e.roomControlState
    ensures s.flusher.Flushing? && s.flusher.queue != [] ==>
              var s', m, rest := Apply(s, FlushNext), s.flusher.queue[0], s.flusher.queue[1..];
              if m.id in s.mem.entries && s.mem.entries[m.id].ackPending
              then s' == s.(flusher := Awaiting(m, rest), sent := s.sent + {m})
              else s' == s.(flusher := Flushing(rest))
  {
  }
}
