// The batch of commands a poll brings, turn by turn.

module BatchSpec {
  import opened CommandLedger
  import opened ControlStatuses

  // Each turn depends on the environment only through `Outcome` (how the action ends),
  // the answer to the ACK it sends, and which of its saves succeed. A save that fails
  // raises, and what the loop does not catch ends the batch.

  datatype Command = Command(id: CommandLedger.Id, payment: bool, roomId: string)

  datatype Outcome =
    | Done(roomId: string)
    | RoomError(errorCode: string, roomControlState: string)
    | GlobalError(errorCode: string)

  // The saves of a turn: of its first record, of the outcome, of the second try at
  // the outcome, and of the ACK flag; `error` is the name of what a failing save raises.
  datatype Saves = Saves(first: bool, outcome: bool, retry: bool, flag: bool, error: string)

  datatype Turn = Turn(command: Command, outcome: Outcome, answer: AckAnswer, saves: Saves)

  // `blocked` is the batch block, `executed` the turns whose action was performed,
  // `aborted` that an exception ended the batch.
  datatype World = World(ledger: Ledger, file: Ledger, readiness: Readiness, blocked: bool, executed: seq<nat>,
                         aborted: bool)

  const BATCH_BLOCKED := "CONTROL_BATCH_BLOCKED"

  function OutcomeEntry(c: Command, o: Outcome): Entry {
    match o
    case Done(roomId) => NewEntry(Completed, roomId, ackPending := true)
    case RoomError(code, state) => NewEntry(Failed, c.roomId, code, "room", state, true)
    case GlobalError(code) => NewEntry(Failed, c.roomId, code, "global", "", true)
  }

  // What is recorded when the record of a finished action could not be saved.
  function UnsavedEntry(c: Command, error: string): Entry {
    NewEntry(Failed, c.roomId, error, "global", "", true)
  }

  function BlockedEntry(c: Command): Entry {
    NewEntry(Failed, c.roomId, BATCH_BLOCKED, "global", "", true)
  }

  function InterruptedEntry(previous: Entry): Entry {
    NewEntry(Failed, previous.roomId, ackPending := true)
  }

  function ReadinessAfter(r: Readiness, o: Outcome): Readiness {
    var busy := WithState(r, BUSY);
    match o
    case Done(_) => WithState(busy, if NotReady(r.state) then DEGRADED else IDLE)
    case RoomError(_, _) => WithState(busy, DEGRADED)
    case GlobalError(_) => WithState(busy, ERROR)
  }

  // One record, saved or raising.
  function Recorded(w: World, id: CommandLedger.Id, e: Entry, saved: bool): World {
    var ledger := Mark(w.ledger, id, e);
    w.(ledger := ledger, file := if saved then ledger else w.file, aborted := !saved)
  }

  // The ACK of a command in the ledger. A failing save of its flag is ignored.
  function Acked(w: World, id: CommandLedger.Id, answer: AckAnswer, saved: bool): World {
    var ledger := Settle(w.ledger, id, answer);
    w.(ledger := ledger, file := if saved then ledger else w.file)
  }

  function AckedUnlessAborted(w: World, t: Turn): World {
    if w.aborted then w else Acked(w, t.command.id, t.answer, t.saves.flag)
  }

  // The record of the outcome: for a finished action an unsaved record is caught and
  // replaced by a failure.
  function Concluded(w: World, t: Turn): World {
    var c := t.command;
    var once := Recorded(w, c.id, OutcomeEntry(c, t.outcome), t.saves.outcome);
    if once.aborted && t.outcome.Done?
    then Recorded(once, c.id, UnsavedEntry(c, t.saves.error), t.saves.retry)
    else once
  }

  predicate TakenAsNew(w: World, t: Turn) {
    !w.aborted && t.command.id != "" && t.command.id !in w.ledger.entries
  }

  // A turn's action is performed once its start is recorded in the file.
  predicate Runs(w: World, t: Turn) {
    TakenAsNew(w, t) && (t.command.payment || !w.blocked) && t.saves.first
  }

  function Performed(w: World, i: nat, t: Turn): World {
    var manager := !t.command.payment;
    w.(readiness := if manager then ReadinessAfter(w.readiness, t.outcome) else w.readiness,
       blocked := w.blocked || (manager && t.outcome.GlobalError?),
       executed := w.executed + [i])
  }

  function TakeTurn(w: World, i: nat, t: Turn): World {
    var c := t.command;
    if w.aborted || c.id == "" then w
    else if c.id in w.ledger.entries then
      var previous := w.ledger.entries[c.id];
      AckedUnlessAborted(if previous.Terminal() then w
                         else Recorded(w, c.id, InterruptedEntry(previous), t.saves.first), t)
    else if !c.payment && w.blocked then
      AckedUnlessAborted(Recorded(w, c.id, BlockedEntry(c), t.saves.first), t)
    else
      var started := Recorded(w, c.id, NewEntry(Executing, c.roomId), t.saves.first);
      if started.aborted then started else AckedUnlessAborted(Concluded(Performed(started, i, t), t), t)
  }

  function TakeTurns(w: World, turns: seq<Turn>): World {
    if turns == [] then w
    else TakeTurn(TakeTurns(w, turns[..|turns| - 1]), |turns| - 1, turns[|turns| - 1])
  }

  // The world the batch loop starts from.
  function AtClaim(ledger: Ledger, file: Ledger, readiness: Readiness): World {
    World(ledger, file, readiness, readiness.state == ERROR, [], false)
  }

  // ----- What a turn does -----

  // The verdict on a command: how it ended, where, and with which error.
  ghost predicate HasVerdict(e: Entry, status: Status, roomId: string, errorCode: string, errorScope: string,
                             roomControlState: string)
  {
    && e.status == status && e.roomId == roomId && e.errorCode == errorCode && e.errorScope == errorScope
    && e.roomControlState == roomControlState
  }

  ghost predicate SameVerdict(e: Entry, f: Entry) {
    HasVerdict(e, f.status, f.roomId, f.errorCode, f.errorScope, f.roomControlState)
  }

  // A turn that ran is recorded as completed if and only if its action was done and
  // that could be saved; a failure is recorded with its own scope, code and room state.
  ghost predicate VerdictOfRun(t: Turn, e: Entry) {
    && (e.status == Completed <==> t.outcome.Done? && t.saves.outcome)
    && match t.outcome
       case Done(roomId) =>
         if t.saves.outcome then HasVerdict(e, Completed, roomId, "", "", "")
         else HasVerdict(e, Failed, t.command.roomId, t.saves.error, "global", "")
       case RoomError(code, state) => HasVerdict(e, Failed, t.command.roomId, code, "room", state)
       case GlobalError(code) => HasVerdict(e, Failed, t.command.roomId, code, "global", "")
  }

  // An ACK that was answered is no longer owed, and the answer is kept.
  ghost predicate AnsweredWith(e: Entry, answer: AckAnswer) {
    && (e.ackPending <==> answer.Unsettled?)
    && e.resolution == if answer.Accepted? then Resolution.Acked
                       else if answer.Conflicted? then StateConflict else Pending
  }

  lemma SettleIsValid(l: Ledger, id: CommandLedger.Id, answer: AckAnswer)
    requires Valid(l)
    ensures Valid(Settle(l, id, answer)) && Settle(l, id, answer).order == l.order
    ensures id in l.entries ==>
              var e := Settle(l, id, answer).entries[id];
              SameVerdict(e, l.entries[id]) && AnsweredWith(e, answer)
    ensures forall x :: x in l.entries && x != id ==> Settle(l, id, answer).entries[x] == l.entries[x]
  {
  }

  // Where recording `id` leaves the ledger's order.
  function NextOrder(order: seq<CommandLedger.Id>, id: CommandLedger.Id): seq<CommandLedger.Id> {
    if id == "" then order else LastN(Touch(order, id), MAX_PROCESSED_COMMANDS)
  }

  // From `w` to `w'` only the entry of `id` was written, in its place.
  ghost predicate Moves(w: World, w': World, id: CommandLedger.Id) {
    && Valid(w'.ledger) && w'.ledger.order == NextOrder(w.ledger.order, id)
    && id in w'.ledger.entries
    && (forall x :: x in w'.ledger.entries && x != id ==>
          x in w.ledger.entries && w'.ledger.entries[x] == w.ledger.entries[x])
  }

  lemma RecordedMoves(w: World, mid: World, id: CommandLedger.Id, e: Entry, saved: bool)
    requires Valid(w.ledger) && id != "" && (mid.ledger == w.ledger || Moves(w, mid, id))
    ensures Moves(w, Recorded(mid, id, e, saved), id) && Recorded(mid, id, e, saved).ledger.entries[id] == e
  {
    MarkIsValid(mid.ledger, id, e);
    if mid.ledger != w.ledger {
      assert id in mid.ledger.order;
    }
  }

  lemma AckedMoves(w: World, mid: World, t: Turn)
    requires Moves(w, mid, t.command.id)
    ensures Moves(w, AckedUnlessAborted(mid, t), t.command.id)
    ensures AckedUnlessAborted(mid, t).aborted == mid.aborted
    ensures var e := AckedUnlessAborted(mid, t).ledger.entries[t.command.id];
            SameVerdict(e, mid.ledger.entries[t.command.id]) && (!mid.aborted ==> AnsweredWith(e, t.answer))
  {
    SettleIsValid(mid.ledger, t.command.id, t.answer);
  }

  lemma ConcludedMoves(w: World, mid: World, t: Turn)
    requires Valid(w.ledger) && t.command.id != "" && Moves(w, mid, t.command.id)
    ensures Moves(w, Concluded(mid, t), t.command.id)
    ensures VerdictOfRun(t, Concluded(mid, t).ledger.entries[t.command.id])
  {
    var c := t.command;
    RecordedMoves(w, mid, c.id, OutcomeEntry(c, t.outcome), t.saves.outcome);
    var once := Recorded(mid, c.id, OutcomeEntry(c, t.outcome), t.saves.outcome);
    RecordedMoves(w, once, c.id, UnsavedEntry(c, t.saves.error), t.saves.retry);
  }

  // The entry of a turn's command after the turn: terminal, its ACK as it was answered,
  // and with the verdict of the run; a known command keeps the verdict it has, or fails
  // as interrupted if it has none; a command the block stops is failed for it.
  ghost predicate EntryAfter(w: World, w': World, t: Turn)
    requires t.command.id in w'.ledger.entries
  {
    var c, e := t.command, w'.ledger.entries[t.command.id];
    && (!w'.aborted ==> e.Terminal() && AnsweredWith(e, t.answer))
    && (Runs(w, t) ==> VerdictOfRun(t, e))
    && (c.id in w.ledger.entries ==>
          var previous := w.ledger.entries[c.id];
          if previous.status == Executing then HasVerdict(e, Failed, previous.roomId, "", "", "")
          else SameVerdict(e, previous))
    && (c.id !in w.ledger.entries && !c.payment && w.blocked ==>
          HasVerdict(e, Failed, c.roomId, "CONTROL_BATCH_BLOCKED", "global", ""))
  }

  lemma KnownTurn(w: World, i: nat, t: Turn)
    requires Valid(w.ledger) && !w.aborted && t.command.id != "" && t.command.id in w.ledger.entries
    ensures Moves(w, TakeTurn(w, i, t), t.command.id) && EntryAfter(w, TakeTurn(w, i, t), t)
  {
    var id := t.command.id;
    var previous := w.ledger.entries[id];
    assert Moves(w, w, id);
    RecordedMoves(w, w, id, InterruptedEntry(previous), t.saves.first);
    AckedMoves(w, if previous.Terminal() then w else Recorded(w, id, InterruptedEntry(previous), t.saves.first), t);
  }

  lemma StoppedTurn(w: World, i: nat, t: Turn)
    requires Valid(w.ledger) && TakenAsNew(w, t) && !t.command.payment && w.blocked
    ensures Moves(w, TakeTurn(w, i, t), t.command.id) && EntryAfter(w, TakeTurn(w, i, t), t)
  {
    RecordedMoves(w, w, t.command.id, BlockedEntry(t.command), t.saves.first);
    AckedMoves(w, Recorded(w, t.command.id, BlockedEntry(t.command), t.saves.first), t);
  }

  lemma RunningTurn(w: World, i: nat, t: Turn)
    requires Valid(w.ledger) && TakenAsNew(w, t) && (t.command.payment || !w.blocked)
    ensures Moves(w, TakeTurn(w, i, t), t.command.id) && EntryAfter(w, TakeTurn(w, i, t), t)
  {
    var c := t.command;
    RecordedMoves(w, w, c.id, NewEntry(Executing, c.roomId), t.saves.first);
    var started := Recorded(w, c.id, NewEntry(Executing, c.roomId), t.saves.first);
    if !started.aborted {
      var performed := Performed(started, i, t);
      assert Moves(w, performed, c.id);
      ConcludedMoves(w, performed, t);
      AckedMoves(w, Concluded(performed, t), t);
    }
  }

  // The ACK is owed and not answered yet.
  ghost predicate Owed(e: Entry) {
    e.ackPending && e.resolution == Pending
  }

  lemma RecordedOwed(w: World, c: Command, e: Entry, t: Turn)
    requires Valid(w.ledger) && Owed(e) && t.command == c
    ensures var w' := AckedUnlessAborted(Recorded(w, c.id, e, true), t);
            && c.id in w'.file.entries && c.id in w'.ledger.entries
            && SameVerdict(w'.file.entries[c.id], w'.ledger.entries[c.id])
            && (if t.saves.flag then w'.file == w'.ledger else Owed(w'.file.entries[c.id]))
  {
    MarkIsValid(w.ledger, c.id, e);
    SettleIsValid(Mark(w.ledger, c.id, e), c.id, t.answer);
  }

  lemma ConcludedOwed(w: World, t: Turn)
    requires Valid(w.ledger) && !Concluded(w, t).aborted
    ensures var w', id := AckedUnlessAborted(Concluded(w, t), t), t.command.id;
            && id in w'.file.entries && id in w'.ledger.entries
            && SameVerdict(w'.file.entries[id], w'.ledger.entries[id])
            && (if t.saves.flag then w'.file == w'.ledger else Owed(w'.file.entries[id]))
  {
    var c := t.command;
    if t.saves.outcome {
      RecordedOwed(w, c, OutcomeEntry(c, t.outcome), t);
    } else {
      var once := Recorded(w, c.id, OutcomeEntry(c, t.outcome), false);
      MarkIsValid(w.ledger, c.id, OutcomeEntry(c, t.outcome));
      RecordedOwed(once, c, UnsavedEntry(c, t.saves.error), t);
    }
  }

  /** No ACK is lost to a crash: after a turn that decided its command - by running it,
      stopping it or finding it interrupted - the file holds the same verdict, and until
      the answer to the ACK is saved there the file says that the ACK is owed. */
  lemma FileOwesAck(w: World, i: nat, t: Turn)
    requires Valid(w.ledger) && !w.aborted && t.command.id != "" && !TakeTurn(w, i, t).aborted
    requires t.command.id in w.ledger.entries ==> !w.ledger.entries[t.command.id].Terminal()
    ensures var w', id := TakeTurn(w, i, t), t.command.id;
            && id in w'.file.entries && id in w'.ledger.entries
            && SameVerdict(w'.file.entries[id], w'.ledger.entries[id])
            && (if t.saves.flag then w'.file == w'.ledger else Owed(w'.file.entries[id]))
  {
    var c := t.command;
    if c.id in w.ledger.entries {
      RecordedOwed(w, c, InterruptedEntry(w.ledger.entries[c.id]), t);
    } else if !c.payment && w.blocked {
      RecordedOwed(w, c, BlockedEntry(c), t);
    } else {
      MarkIsValid(w.ledger, c.id, NewEntry(Executing, c.roomId));
      ConcludedOwed(Performed(Recorded(w, c.id, NewEntry(Executing, c.roomId), true), i, t), t);
    }
  }

  /** A turn writes only its own command's entry, which keeps its place in the
      ledger or goes to the end of it, and leaves it terminal unless a save raised. */
  lemma TakeTurnIsValid(w: World, i: nat, t: Turn)
    requires Valid(w.ledger)
    ensures var w', id := TakeTurn(w, i, t), t.command.id;
            if w.aborted || id == "" then w' == w else Moves(w, w', id) && EntryAfter(w, w', t)
  {
    if !w.aborted && t.command.id != "" {
      if t.command.id in w.ledger.entries {
        KnownTurn(w, i, t);
      } else if !t.command.payment && w.blocked {
        StoppedTurn(w, i, t);
      } else {
        RunningTurn(w, i, t);
      }
    }
  }

  // ----- The worlds of a batch -----

  // The world when turn `i` begins.
  function At(w: World, turns: seq<Turn>, i: nat): World
    requires i <= |turns|
  {
    TakeTurns(w, turns[..i])
  }

  lemma AtStart(w: World, turns: seq<Turn>)
    ensures At(w, turns, 0) == w
  {
    assert turns[..0] == [];
  }

  lemma AtNext(w: World, turns: seq<Turn>, i: nat)
    requires i < |turns|
    ensures At(w, turns, i + 1) == TakeTurn(At(w, turns, i), i, turns[i])
  {
    assert turns[..i + 1][..i] == turns[..i];
  }

  lemma {:induction false} AtIsValid(w: World, turns: seq<Turn>, n: nat)
    requires Valid(w.ledger) && n <= |turns|
    ensures Valid(At(w, turns, n).ledger)
    decreases n
  {
    if n == 0 {
      AtStart(w, turns);
    } else {
      AtNext(w, turns, n - 1);
      AtIsValid(w, turns, n - 1);
      TakeTurnIsValid(At(w, turns, n - 1), n - 1, turns[n - 1]);
    }
  }

  // An aborted batch takes no further turn.
  lemma {:induction false} AbortedStays(w: World, turns: seq<Turn>, i: nat, n: nat)
    requires i <= n <= |turns|
    ensures At(w, turns, i).aborted ==> At(w, turns, n) == At(w, turns, i)
    decreases n
  {
    if i < n {
      AbortedStays(w, turns, i, n - 1);
      AtNext(w, turns, n - 1);
    }
  }

  lemma TurnExecutes(w: World, i: nat, t: Turn)
    ensures TakeTurn(w, i, t).executed == w.executed + if Runs(w, t) then [i] else []
    ensures TakeTurn(w, i, t).blocked <==> w.blocked || (Runs(w, t) && FailsGlobally(t))
  {
  }

  predicate FailsGlobally(t: Turn) {
    !t.command.payment && t.outcome.GlobalError?
  }

  lemma {:induction false} PerformedInOrder(w: World, turns: seq<Turn>, n: nat)
    requires w.executed == [] && n <= |turns|
    ensures var done := At(w, turns, n).executed;
            && (forall k :: k in done ==> k < n)
            && (forall j, k :: 0 <= j < k < |done| ==> done[j] < done[k])
    decreases n
  {
    if n == 0 {
      AtStart(w, turns);
    } else {
      AtNext(w, turns, n - 1);
      TurnExecutes(At(w, turns, n - 1), n - 1, turns[n - 1]);
      PerformedInOrder(w, turns, n - 1);
      var done := At(w, turns, n - 1).executed;
      forall j | 0 <= j < |done| ensures done[j] < n - 1 {
        assert done[j] in done;
      }
    }
  }

  /** The actions performed are exactly those of the turns that ran: a turn is
      never performed twice and never performed later. */
  lemma {:induction false} PerformedExactly(w: World, turns: seq<Turn>, n: nat, i: nat)
    requires w.executed == [] && i < n <= |turns|
    ensures i in At(w, turns, n).executed <==> Runs(At(w, turns, i), turns[i])
    ensures forall j, k :: 0 <= j < k < |At(w, turns, n).executed| ==>
              At(w, turns, n).executed[j] < At(w, turns, n).executed[k]
    decreases n
  {
    AtNext(w, turns, n - 1);
    TurnExecutes(At(w, turns, n - 1), n - 1, turns[n - 1]);
    PerformedInOrder(w, turns, n - 1);
    PerformedInOrder(w, turns, n);
    if i < n - 1 {
      PerformedExactly(w, turns, n - 1, i);
    }
  }

  // Turn `j` ran and failed globally.
  predicate Blocks(w: World, turns: seq<Turn>, j: nat)
    requires j < |turns|
  {
    FailsGlobally(turns[j]) && Runs(At(w, turns, j), turns[j])
  }

  lemma BlockedNext(w: World, turns: seq<Turn>, n: nat)
    requires n < |turns|
    ensures At(w, turns, n + 1).blocked <==> At(w, turns, n).blocked || Blocks(w, turns, n)
  {
    AtNext(w, turns, n);
    TurnExecutes(At(w, turns, n), n, turns[n]);
  }

  // A flag that is only ever set is set if it was at first or something has set it.
  lemma {:induction false} SetExactly(flag: seq<bool>, sets: seq<bool>, n: nat)
    requires |flag| == |sets| + 1 && n <= |sets|
    requires forall j :: 0 <= j < n ==> (flag[j + 1] <==> flag[j] || sets[j])
    ensures flag[n] <==> flag[0] || exists j :: 0 <= j < n && sets[j]
    decreases n
  {
    if n > 0 {
      SetExactly(flag, sets, n - 1);
    }
  }

  lemma BlockedExactly(w: World, turns: seq<Turn>, n: nat)
    requires n <= |turns|
    ensures At(w, turns, n).blocked <==> w.blocked || exists j :: 0 <= j < n && Blocks(w, turns, j)
  {
    var flag := seq(|turns| + 1, j requires 0 <= j <= |turns| => At(w, turns, j).blocked);
    var sets := seq(|turns|, j requires 0 <= j < |turns| => Blocks(w, turns, j));
    forall j | 0 <= j < n ensures flag[j + 1] <==> flag[j] || sets[j] {
      BlockedNext(w, turns, j);
    }
    SetExactly(flag, sets, n);
    AtStart(w, turns);
    assert forall j :: 0 <= j < n ==> sets[j] == Blocks(w, turns, j);
  }

  // ----- Which ids the ledger holds, full or not -----

  // Every recording of an id as new, one after the other: an id that the youngest 200
  // recordings do not hold any more is recorded again.
  function Recordings(order: seq<CommandLedger.Id>, turns: seq<Turn>, n: nat): seq<CommandLedger.Id>
    requires n <= |turns|
  {
    if n == 0 then order
    else
      var before, id := Recordings(order, turns, n - 1), turns[n - 1].command.id;
      if id == "" || id in LastN(before, MAX_PROCESSED_COMMANDS) then before else before + [id]
  }

  lemma HeldNext(before: seq<CommandLedger.Id>, id: CommandLedger.Id)
    ensures var held := LastN(before, MAX_PROCESSED_COMMANDS);
            NextOrder(held, id)
            == LastN(if id == "" || id in held then before else before + [id], MAX_PROCESSED_COMMANDS)
  {
    LastNAppend(before, id, MAX_PROCESSED_COMMANDS);
  }

  /** In every batch, the ledger holds exactly the youngest 200 recordings. */
  lemma {:induction false} HeldExactly(w: World, turns: seq<Turn>, n: nat)
    requires Valid(w.ledger) && n <= |turns| && !At(w, turns, n).aborted
    ensures At(w, turns, n).ledger.order == LastN(Recordings(w.ledger.order, turns, n), MAX_PROCESSED_COMMANDS)
    decreases n
  {
    if n == 0 {
      AtStart(w, turns);
    } else {
      AbortedStays(w, turns, n - 1, n);
      HeldExactly(w, turns, n - 1);
      AtNext(w, turns, n - 1);
      AtIsValid(w, turns, n - 1);
      TakeTurnIsValid(At(w, turns, n - 1), n - 1, turns[n - 1]);
      HeldNext(Recordings(w.ledger.order, turns, n - 1), turns[n - 1].command.id);
    }
  }

  /** A turn finds its id new if and only if the youngest 200 recordings before it do
      not hold it. */
  lemma NewExactly(w: World, turns: seq<Turn>, i: nat)
    requires Valid(w.ledger) && i < |turns| && !At(w, turns, i).aborted
    ensures var id := turns[i].command.id;
            id !in At(w, turns, i).ledger.entries <==>
            id !in LastN(Recordings(w.ledger.order, turns, i), MAX_PROCESSED_COMMANDS)
  {
    HeldExactly(w, turns, i);
    AtIsValid(w, turns, i);
  }

  // All ids ever recorded, each where it was recorded first: the ledger's and those
  // of the turns, as if nothing were evicted.
  function Known(order: seq<CommandLedger.Id>, turns: seq<Turn>, n: nat): seq<CommandLedger.Id>
    requires n <= |turns|
  {
    if n == 0 then order
    else
      var before, id := Known(order, turns, n - 1), turns[n - 1].command.id;
      if id == "" then before else Touch(before, id)
  }

  // Turn `j` takes an id that was recorded and since evicted: it is known, but not
  // among the youngest.
  predicate Retakes(order: seq<CommandLedger.Id>, turns: seq<Turn>, j: nat)
    requires j < |turns|
  {
    var known, id := Known(order, turns, j), turns[j].command.id;
    id != "" && id in known && id !in LastN(known, MAX_PROCESSED_COMMANDS)
  }

  ghost predicate NoRetake(order: seq<CommandLedger.Id>, turns: seq<Turn>, n: nat)
    requires n <= |turns|
  {
    forall j :: 0 <= j < n ==> !Retakes(order, turns, j)
  }

  lemma {:induction false} KnownIsNoDup(order: seq<CommandLedger.Id>, turns: seq<Turn>, n: nat)
    requires n <= |turns| && NoDup(order)
    ensures NoDup(Known(order, turns, n)) && |order| <= |Known(order, turns, n)| <= |order| + n
    decreases n
  {
    if n > 0 {
      KnownIsNoDup(order, turns, n - 1);
      TouchKeepsNoDup(Known(order, turns, n - 1), turns[n - 1].command.id);
    }
  }

  /** What is known at turn n is what the ledger held at claim and the ids of the
      turns before. */
  lemma {:induction false} KnownAre(order: seq<CommandLedger.Id>, turns: seq<Turn>, n: nat, x: CommandLedger.Id)
    requires n <= |turns| && x != ""
    ensures x in Known(order, turns, n) <==> x in order || exists j :: 0 <= j < n && turns[j].command.id == x
    decreases n
  {
    if n > 0 {
      KnownAre(order, turns, n - 1, x);
    }
  }

  // Without a retake nothing is recorded twice.
  lemma {:induction false} RecordingsAreKnown(order: seq<CommandLedger.Id>, turns: seq<Turn>, n: nat)
    requires n <= |turns| && NoRetake(order, turns, n)
    ensures Recordings(order, turns, n) == Known(order, turns, n)
    decreases n
  {
    if n > 0 {
      RecordingsAreKnown(order, turns, n - 1);
      assert !Retakes(order, turns, n - 1);
    }
  }

  /** While no turn took an evicted id again, the ledger holds exactly the youngest
      200 of the ids known: an id at position p of them is held if and only if at
      most 200 lie from p to the end. */
  lemma {:induction false} KnownExactly(w: World, turns: seq<Turn>, n: nat)
    requires Valid(w.ledger) && n <= |turns| && !At(w, turns, n).aborted && NoRetake(w.ledger.order, turns, n)
    ensures At(w, turns, n).ledger.order == LastN(Known(w.ledger.order, turns, n), MAX_PROCESSED_COMMANDS)
    ensures forall p :: 0 <= p < |Known(w.ledger.order, turns, n)| ==>
              (Known(w.ledger.order, turns, n)[p] in At(w, turns, n).ledger.entries <==>
               p + MAX_PROCESSED_COMMANDS >= |Known(w.ledger.order, turns, n)|)
    decreases n
  {
    HeldExactly(w, turns, n);
    RecordingsAreKnown(w.ledger.order, turns, n);
    AtIsValid(w, turns, n);
    KnownIsNoDup(w.ledger.order, turns, n);
    HeldByPosition(Known(w.ledger.order, turns, n));
  }

  lemma HeldByPosition(known: seq<CommandLedger.Id>)
    requires NoDup(known)
    ensures forall p :: 0 <= p < |known| ==>
              (known[p] in LastN(known, MAX_PROCESSED_COMMANDS) <==> p + MAX_PROCESSED_COMMANDS >= |known|)
  {
    var held := LastN(known, MAX_PROCESSED_COMMANDS);
    forall p | 0 <= p < |known| ensures known[p] in held <==> p + MAX_PROCESSED_COMMANDS >= |known| {
      if |known| > MAX_PROCESSED_COMMANDS {
        var cut := |known| - MAX_PROCESSED_COMMANDS;
        assert forall q :: 0 <= q < |held| ==> held[q] == known[cut + q];
        if p >= cut {
          assert held[p - cut] == known[p];
        }
      }
    }
  }

  // ----- The contract -----

  // Turn `j` is a manager command whose global failure blocked the rest.
  predicate BlockedBy(w: World, turns: seq<Turn>, j: nat)
    requires j < |turns|
  {
    FailsGlobally(turns[j]) && j in TakeTurns(w, turns).executed
  }

  lemma BlockedByRuns(w: World, turns: seq<Turn>, j: nat)
    requires w.executed == [] && j < |turns|
    ensures BlockedBy(w, turns, j) <==> Blocks(w, turns, j)
  {
    assert turns[..|turns|] == turns;
    PerformedExactly(w, turns, |turns|, j);
  }

  /** The batch contract, for every ledger and every batch: turn `i` is performed if
      and only if no save ended the batch before it, its start is saved, its id is
      non-empty and not among the youngest 200 recordings, and it is a payment or no
      manager block stands: the bridge was not in ERROR at claim and no earlier
      performed manager command failed globally. Room failures block nothing. */
  lemma {:induction false} BatchContract(ledger: Ledger, file: Ledger, readiness: Readiness, turns: seq<Turn>, i: nat)
    requires Valid(ledger) && i < |turns|
    ensures var w := AtClaim(ledger, file, readiness);
            var c := turns[i].command;
            i in TakeTurns(w, turns).executed <==>
              && !At(w, turns, i).aborted && turns[i].saves.first && c.id != ""
              && c.id !in LastN(Recordings(ledger.order, turns, i), MAX_PROCESSED_COMMANDS)
              && (c.payment || (readiness.state != ERROR && forall j :: 0 <= j < i ==> !BlockedBy(w, turns, j)))
  {
    var w := AtClaim(ledger, file, readiness);
    assert turns[..|turns|] == turns;
    PerformedExactly(w, turns, |turns|, i);
    BlockedExactly(w, turns, i);
    forall j | 0 <= j < i
      ensures BlockedBy(w, turns, j) <==> Blocks(w, turns, j)
    {
      BlockedByRuns(w, turns, j);
    }
    if !At(w, turns, i).aborted {
      NewExactly(w, turns, i);
    }
  }

  // Which ids are new as long as no earlier turn took an evicted id again.
  lemma NewUntilRetake(order: seq<CommandLedger.Id>, turns: seq<Turn>, i: nat)
    requires i < |turns| && NoRetake(order, turns, i) && turns[i].command.id != ""
    ensures var id := turns[i].command.id;
            id !in LastN(Recordings(order, turns, i), MAX_PROCESSED_COMMANDS) <==>
            || (id !in order && forall j :: 0 <= j < i ==> turns[j].command.id != id)
            || Retakes(order, turns, i)
  {
    RecordingsAreKnown(order, turns, i);
    KnownAre(order, turns, i, turns[i].command.id);
  }

  /** Up to the first turn that takes an evicted id again, the contract reads: the id
      is new to the ledger and to the batch, or was evicted since. */
  lemma BatchContractUntilRetake(ledger: Ledger, file: Ledger, readiness: Readiness, turns: seq<Turn>, i: nat)
    requires Valid(ledger) && i < |turns| && NoRetake(ledger.order, turns, i)
    ensures var w := AtClaim(ledger, file, readiness);
            var c := turns[i].command;
            i in TakeTurns(w, turns).executed <==>
              && !At(w, turns, i).aborted && turns[i].saves.first && c.id != ""
              && ((c.id !in ledger.entries && forall j :: 0 <= j < i ==> turns[j].command.id != c.id)
                  || Retakes(ledger.order, turns, i))
              && (c.payment || (readiness.state != ERROR && forall j :: 0 <= j < i ==> !BlockedBy(w, turns, j)))
  {
    BatchContract(ledger, file, readiness, turns, i);
    if turns[i].command.id != "" {
      NewUntilRetake(ledger.order, turns, i);
    }
  }

  // Turn `i` takes as new a command that is already known.
  predicate TakenTwice(w: World, turns: seq<Turn>, i: nat)
    requires i < |turns|
  {
    TakenAsNew(At(w, turns, i), turns[i]) && turns[i].command.id in Known(w.ledger.order, turns, i)
  }

  lemma TakenTwiceIsRetaken(w: World, turns: seq<Turn>, i: nat)
    requires Valid(w.ledger) && i < |turns| && !At(w, turns, i).aborted && NoRetake(w.ledger.order, turns, i)
    ensures TakenTwice(w, turns, i) <==> Retakes(w.ledger.order, turns, i)
  {
    NewExactly(w, turns, i);
    RecordingsAreKnown(w.ledger.order, turns, i);
  }

  ghost predicate NothingTakenTwice(w: World, turns: seq<Turn>, n: nat)
    requires n <= |turns|
  {
    forall i :: 0 <= i < n ==> !TakenTwice(w, turns, i)
  }

  lemma OneTurnMore(w: World, order: seq<CommandLedger.Id>, turns: seq<Turn>, n: nat)
    requires n < |turns|
    ensures NothingTakenTwice(w, turns, n + 1) <==> NothingTakenTwice(w, turns, n) && !TakenTwice(w, turns, n)
    ensures NoRetake(order, turns, n + 1) <==> NoRetake(order, turns, n) && !Retakes(order, turns, n)
  {
  }

  /** Exactly when a batch takes a command it already knows as new: if and only if
      some turn takes an id that was evicted. */
  lemma {:induction false} NothingTakenTwiceExactlyWhen(w: World, turns: seq<Turn>, n: nat)
    requires Valid(w.ledger) && n <= |turns| && !At(w, turns, n).aborted
    ensures NothingTakenTwice(w, turns, n) <==> NoRetake(w.ledger.order, turns, n)
    decreases n
  {
    if n > 0 {
      AbortedStays(w, turns, n - 1, n);
      NothingTakenTwiceExactlyWhen(w, turns, n - 1);
      OneTurnMore(w, w.ledger.order, turns, n - 1);
      if NoRetake(w.ledger.order, turns, n - 1) {
        TakenTwiceIsRetaken(w, turns, n - 1);
      }
    }
  }

  lemma {:induction false} KnownGrows(order: seq<CommandLedger.Id>, turns: seq<Turn>, i: nat, n: nat)
    requires i <= n <= |turns|
    ensures Known(order, turns, i) <= Known(order, turns, n)
    ensures |Known(order, turns, n)| <= |Known(order, turns, i)| + n - i
    decreases n
  {
    if i < n {
      KnownGrows(order, turns, i, n - 1);
    }
  }

  /** Something to check before a batch: if every id of it that the ledger holds is
      young enough to outlast the batch, no turn takes an evicted id. */
  lemma RetainedBatchRetakesNothing(order: seq<CommandLedger.Id>, turns: seq<Turn>)
    requires NoDup(order) && |turns| <= MAX_PROCESSED_COMMANDS
    requires forall p, i :: 0 <= p < |order| && 0 <= i < |turns| && order[p] == turns[i].command.id ==>
               p + MAX_PROCESSED_COMMANDS >= |order| + |turns|
    ensures NoRetake(order, turns, |turns|)
  {
    forall j | 0 <= j < |turns| ensures !Retakes(order, turns, j) {
      var known, id := Known(order, turns, j), turns[j].command.id;
      KnownIsNoDup(order, turns, j);
      KnownGrows(order, turns, 0, j);
      assert order <= known;
      if id in known {
        var p :| 0 <= p < |known| && known[p] == id;
        assert p < |order| ==> order[p] == turns[j].command.id;
        HeldByPosition(known);
      }
    }
  }

  // ----- How a batch ends -----

  // Once its turn is over a held id is terminal.
  lemma {:induction false} HeldIsTerminal(w: World, turns: seq<Turn>, n: nat, i: nat)
    requires Valid(w.ledger) && i < n <= |turns| && !At(w, turns, n).aborted
    ensures var id, end := turns[i].command.id, At(w, turns, n).ledger;
            id != "" && id in end.entries ==> end.entries[id].Terminal()
    decreases n
  {
    AtNext(w, turns, n - 1);
    AtIsValid(w, turns, n - 1);
    AbortedStays(w, turns, n - 1, n);
    TakeTurnIsValid(At(w, turns, n - 1), n - 1, turns[n - 1]);
    if i < n - 1 {
      HeldIsTerminal(w, turns, n - 1, i);
    }
  }

  // No later turn takes the id of turn `i` as new.
  ghost predicate NotTakenAgain(w: World, turns: seq<Turn>, i: nat, n: nat)
    requires i < n <= |turns|
  {
    forall k :: i < k < n && turns[k].command.id == turns[i].command.id ==> !TakenAsNew(At(w, turns, k), turns[k])
  }

  lemma NoRetakeTakesOnce(w: World, turns: seq<Turn>, i: nat, n: nat)
    requires Valid(w.ledger) && i < n <= |turns| && !At(w, turns, n).aborted && NoRetake(w.ledger.order, turns, n)
    requires turns[i].command.id != ""
    ensures NotTakenAgain(w, turns, i, n)
  {
    forall k | i < k < n && turns[k].command.id == turns[i].command.id
      ensures !TakenAsNew(At(w, turns, k), turns[k])
    {
      AbortedStays(w, turns, k, n);
      TakenTwiceIsRetaken(w, turns, k);
      KnownAre(w.ledger.order, turns, k, turns[i].command.id);
    }
  }

  // A turn that does not take `id` as new keeps the verdict on it if there is one.
  lemma VerdictNext(w: World, i: nat, t: Turn, id: CommandLedger.Id)
    requires Valid(w.ledger) && (t.command.id == id ==> !TakenAsNew(w, t))
    requires id in w.ledger.entries ==> w.ledger.entries[id].Terminal()
    ensures var end := TakeTurn(w, i, t).ledger;
            id in end.entries ==> id in w.ledger.entries && SameVerdict(end.entries[id], w.ledger.entries[id])
  {
    TakeTurnIsValid(w, i, t);
  }

  // When turn `k` begins, the verdict on the command of turn `i` is as after its turn.
  ghost predicate VerdictKept(w: World, turns: seq<Turn>, i: nat, k: nat)
    requires i < k <= |turns|
  {
    var id, first, end := turns[i].command.id, At(w, turns, i + 1).ledger, At(w, turns, k).ledger;
    id in end.entries ==> id in first.entries && SameVerdict(end.entries[id], first.entries[id])
  }

  lemma VerdictKeptNext(w: World, turns: seq<Turn>, i: nat, k: nat)
    requires Valid(w.ledger) && i < k < |turns| && !At(w, turns, k).aborted && VerdictKept(w, turns, i, k)
    requires turns[i].command.id != "" && NotTakenAgain(w, turns, i, k + 1)
    ensures VerdictKept(w, turns, i, k + 1)
  {
    HeldIsTerminal(w, turns, k, i);
    AtNext(w, turns, k);
    AtIsValid(w, turns, k);
    VerdictNext(At(w, turns, k), k, turns[k], turns[i].command.id);
  }

  lemma {:induction false} KeptUntil(w: World, turns: seq<Turn>, i: nat, n: nat)
    requires i < n <= |turns|
    requires forall k :: i < k < n && VerdictKept(w, turns, i, k) ==> VerdictKept(w, turns, i, k + 1)
    ensures VerdictKept(w, turns, i, n)
    decreases n
  {
    if i + 1 < n {
      KeptUntil(w, turns, i, n - 1);
    }
  }

  /** The verdict of a turn is final: as long as the ledger holds the command and no
      later turn takes it as new, it has the verdict it had after its turn. */
  lemma VerdictStays(w: World, turns: seq<Turn>, n: nat, i: nat)
    requires Valid(w.ledger) && i < n <= |turns| && !At(w, turns, n).aborted && NotTakenAgain(w, turns, i, n)
    requires turns[i].command.id != ""
    ensures VerdictKept(w, turns, i, n)
  {
    forall k | i < k < n && VerdictKept(w, turns, i, k) ensures VerdictKept(w, turns, i, k + 1) {
      AbortedStays(w, turns, k, n);
      VerdictKeptNext(w, turns, i, k);
    }
    KeptUntil(w, turns, i, n);
  }

  /** A turn's own verdict, at the end of the batch: of its run if it ran, of the block
      if it was stopped. */
  lemma VerdictAtEnd(w: World, turns: seq<Turn>, n: nat, i: nat)
    requires Valid(w.ledger) && i < n <= |turns| && !At(w, turns, n).aborted && NotTakenAgain(w, turns, i, n)
    requires TakenAsNew(At(w, turns, i), turns[i]) && turns[i].command.id in At(w, turns, n).ledger.entries
    ensures var t := turns[i];
            var e := At(w, turns, n).ledger.entries[t.command.id];
            if t.command.payment || !At(w, turns, i).blocked then VerdictOfRun(t, e)
            else HasVerdict(e, Failed, t.command.roomId, "CONTROL_BATCH_BLOCKED", "global", "")
  {
    VerdictStays(w, turns, n, i);
    AtNext(w, turns, i);
    AtIsValid(w, turns, i);
    AbortedStays(w, turns, i + 1, n);
    TakeTurnIsValid(At(w, turns, i), i, turns[i]);
  }

  lemma KnownPosition(order: seq<CommandLedger.Id>, turns: seq<Turn>, n: nat, i: nat)
    requires i < n <= |turns| && turns[i].command.id != "" && turns[i].command.id !in Known(order, turns, i)
    ensures var p, known := |Known(order, turns, i)|, Known(order, turns, n);
            p < |known| <= p + n - i && known[p] == turns[i].command.id
  {
    KnownGrows(order, turns, i + 1, n);
    KnownGrows(order, turns, i, n);
    assert Known(order, turns, i + 1)[|Known(order, turns, i)|] == turns[i].command.id;
  }

  lemma TakenIsHeld(w: World, turns: seq<Turn>, n: nat, i: nat)
    requires Valid(w.ledger) && i < n <= |turns| && !At(w, turns, n).aborted && NoRetake(w.ledger.order, turns, n)
    requires TakenAsNew(At(w, turns, i), turns[i]) && n - i <= MAX_PROCESSED_COMMANDS
    ensures turns[i].command.id in At(w, turns, n).ledger.entries
  {
    TakenTwiceIsRetaken(w, turns, i);
    KnownPosition(w.ledger.order, turns, n, i);
    KnownExactly(w, turns, n);
    assert Known(w.ledger.order, turns, n)[|Known(w.ledger.order, turns, i)|] == turns[i].command.id;
  }

  /** After a batch that no save ended, for a full ledger as for any other: every
      non-empty id of it that the ledger holds is terminal; and as long as no turn
      took an evicted id again, a batch within the ledger's bound still holds every
      id it took as new, a command that ran is on record with the verdict of its run,
      completed if and only if its action was done and saved, and a manager command
      the block stopped is failed with CONTROL_BATCH_BLOCKED. */
  lemma {:induction false} BatchEndsTerminal(ledger: Ledger, file: Ledger, readiness: Readiness, turns: seq<Turn>,
                                             n: nat, i: nat)
    requires Valid(ledger) && i < n <= |turns| && !At(AtClaim(ledger, file, readiness), turns, n).aborted
    ensures var w := AtClaim(ledger, file, readiness);
            var t, end := turns[i], At(w, turns, n).ledger;
            var id := t.command.id;
            && (id != "" && id in end.entries ==> end.entries[id].Terminal())
            && (NoRetake(ledger.order, turns, n) && TakenAsNew(At(w, turns, i), t) ==>
                  && (n <= MAX_PROCESSED_COMMANDS ==> id in end.entries)
                  && (id in end.entries && (t.command.payment || !At(w, turns, i).blocked) ==>
                        VerdictOfRun(t, end.entries[id]))
                  && (id in end.entries && !t.command.payment && At(w, turns, i).blocked ==>
                        HasVerdict(end.entries[id], Failed, t.command.roomId, "CONTROL_BATCH_BLOCKED", "global", "")))
  {
    var w := AtClaim(ledger, file, readiness);
    HeldIsTerminal(w, turns, n, i);
    if NoRetake(ledger.order, turns, n) && TakenAsNew(At(w, turns, i), turns[i]) {
      NoRetakeTakesOnce(w, turns, i, n);
      if n <= MAX_PROCESSED_COMMANDS {
        TakenIsHeld(w, turns, n, i);
      }
      if turns[i].command.id in At(w, turns, n).ledger.entries {
        VerdictAtEnd(w, turns, n, i);
      }
    }
  }

  // ----- The failing side -----

  // A new command on a full ledger, then the ledger's ids from the oldest on.
  ghost predicate Cascade(order: seq<CommandLedger.Id>, turns: seq<Turn>) {
    && |order| == MAX_PROCESSED_COMMANDS && NoDup(order) && 0 < |turns| <= |order| + 1
    && turns[0].command.id !in order && turns[0].command.id != ""
    && forall j :: 1 <= j < |turns| ==> turns[j].command.id == order[j - 1] != ""
  }

  // With `n` ids pushed out one after the other, the next one is out as well.
  lemma OldestIsOut(order: seq<CommandLedger.Id>, x: CommandLedger.Id, n: nat)
    requires |order| == MAX_PROCESSED_COMMANDS && NoDup(order) && x !in order && n < |order|
    ensures order[n] !in LastN(order + [x] + order[..n], MAX_PROCESSED_COMMANDS)
  {
    var held := LastN(order + [x] + order[..n], MAX_PROCESSED_COMMANDS);
    assert held == order[n + 1..] + [x] + order[..n];
  }

  lemma {:induction false} CascadeRecordings(order: seq<CommandLedger.Id>, turns: seq<Turn>, n: nat)
    requires Cascade(order, turns) && 0 < n <= |turns|
    ensures Recordings(order, turns, n) == order + [turns[0].command.id] + order[..n - 1]
    decreases n
  {
    if n > 1 {
      CascadeRecordings(order, turns, n - 1);
      OldestIsOut(order, turns[0].command.id, n - 2);
      assert order[..n - 1] == order[..n - 2] + [order[n - 2]];
    }
  }

  lemma CascadeIsNew(order: seq<CommandLedger.Id>, turns: seq<Turn>, i: nat)
    requires Cascade(order, turns) && i < |turns|
    ensures turns[i].command.id !in LastN(Recordings(order, turns, i), MAX_PROCESSED_COMMANDS)
  {
    if i > 0 {
      CascadeRecordings(order, turns, i);
      OldestIsOut(order, turns[0].command.id, i - 1);
    }
  }

  // The turn ends well and both its records are saved.
  predicate EndsWell(t: Turn) {
    t.saves.first && t.saves.outcome && t.outcome.Done?
  }

  lemma {:induction false} WellEndedIsNotAborted(w: World, turns: seq<Turn>, n: nat)
    requires n <= |turns| && !w.aborted && forall j :: 0 <= j < n ==> EndsWell(turns[j])
    ensures !At(w, turns, n).aborted
    decreases n
  {
    if n == 0 {
      AtStart(w, turns);
    } else {
      WellEndedIsNotAborted(w, turns, n - 1);
      AtNext(w, turns, n - 1);
    }
  }

  /** On a full ledger one new command is enough: it evicts the oldest id, whose second
      run evicts the next oldest, and so on. A batch that goes through the ledger's ids
      in that order performs every one of them again. */
  lemma FullLedgerRunsAgain(ledger: Ledger, file: Ledger, readiness: Readiness, turns: seq<Turn>, i: nat)
    requires Valid(ledger) && readiness.state != ERROR && Cascade(ledger.order, turns) && i < |turns|
    requires (forall j :: 0 <= j < i ==> EndsWell(turns[j])) && turns[i].saves.first
    ensures i > 0 ==> turns[i].command.id in ledger.entries
    ensures i in TakeTurns(AtClaim(ledger, file, readiness), turns).executed
  {
    var w := AtClaim(ledger, file, readiness);
    WellEndedIsNotAborted(w, turns, i);
    CascadeIsNew(ledger.order, turns, i);
    BatchContract(ledger, file, readiness, turns, i);
  }
}
