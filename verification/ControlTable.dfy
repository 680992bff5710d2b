// The server's command table and per-room runtime index: the four triggers on
// `commands`, and the statements that insert, claim, finalise and close rows.

module ControlTable {
  import opened Wrappers

  type Id = string
  type RoomId = string

  const ALL_ROOMS: RoomId := "ALL"
  const TIMEOUT_AMBIGUOUS := "CONTROL_ACK_TIMEOUT_AMBIGUOUS"

  datatype Command = Command(roomId: RoomId, action: string, status: string, result: string, completedAt: string)

  datatype Room = Room(state: string, action: string, commandId: Id, errorCode: string, error: string,
                       successAt: string, errorAt: string)

  datatype Table = Table(commands: map<Id, Command>, rooms: map<RoomId, Room>)

  datatype Ack = Ack(status: string, result: string, errorCode: string, roomState: string, now: string)

  datatype Disposition = Finalized | Duplicate | Conflict | NotFound

  predicate IsControl(action: string) {
    action == "set_info" || action == "start" || action == "stop" || action == "all_stop"
  }

  predicate Active(c: Command) {
    IsControl(c.action) && (c.status == "pending" || c.status == "claimed")
  }

  predicate Covers(roomId: RoomId, r: RoomId) {
    roomId == ALL_ROOMS || roomId == r
  }

  // The condition both guard triggers test against every other row.
  predicate Clash(roomId: RoomId, other: Command) {
    Active(other) && (roomId == ALL_ROOMS || other.roomId == ALL_ROOMS || other.roomId == roomId)
  }

  // ----- Triggers -----

  function MarkPending(rooms: map<RoomId, Room>, id: Id, c: Command): map<RoomId, Room> {
    map r | r in rooms ::
      if Covers(c.roomId, r) then rooms[r].(state := "CONTROL_PENDING", action := c.action, commandId := id)
      else rooms[r]
  }

  predicate Blocked(commands: map<Id, Command>, id: Id, roomId: RoomId) {
    exists x | x in commands :: x != id && Clash(roomId, commands[x])
  }

  // INSERT with its BEFORE guard and AFTER trigger. None is an aborted statement.
  function Insert(t: Table, id: Id, c: Command): Option<Table> {
    if id in t.commands || (Active(c) && Blocked(t.commands, id, c.roomId)) then None
    else Some(Table(t.commands[id := c], if Active(c) then MarkPending(t.rooms, id, c) else t.rooms))
  }

  predicate TriggersFire(before: Command, after: Command) {
    Active(after) && (!Active(before) || before.roomId != after.roomId)
  }

  // UPDATE of one row with its BEFORE guard and AFTER trigger.
  function Update(t: Table, id: Id, c: Command): Option<Table>
    requires id in t.commands
  {
    if TriggersFire(t.commands[id], c) && Blocked(t.commands, id, c.roomId) then None
    else Some(Table(t.commands[id := c],
                    if TriggersFire(t.commands[id], c) then MarkPending(t.rooms, id, c) else t.rooms))
  }

  predicate ClaimedControl(c: Command) {
    IsControl(c.action) && c.status == "claimed"
  }

  // What the claiming UPDATE asks of a row. `eligible`: it has not expired, is for
  // this agent and lane, and no earlier row goes first.
  predicate Claimable(t: Table, id: Id, eligible: bool) {
    && id in t.commands && t.commands[id].status == "pending" && eligible
    && (IsControl(t.commands[id].action) ==> !exists x | x in t.commands :: ClaimedControl(t.commands[x]))
  }

  function Claim(t: Table, id: Id, eligible: bool): Option<Table> {
    if Claimable(t, id, eligible)
    then Update(t, id, t.commands[id].(status := "claimed"))
    else None
  }

  // ----- Finalisation -----

  function ExplicitState(roomState: string): string {
    if roomState == "SET_INFO_FAILED" || roomState == "CONTROL_FAILED" then roomState else ""
  }

  function FinalRoomControlState(action: string, succeeded: bool, roomState: string): string {
    if succeeded then "READY"
    else if ExplicitState(roomState) != "" then roomState
    else if action == "set_info" then "SET_INFO_FAILED" else "CONTROL_FAILED"
  }

  // What roomControlFinalStatements keeps of a result.
  function Short(result: string): string {
    if |result| <= 300 then result else result[..300]
  }

  // The row roomControlFinalStatements writes.
  function FinalRoom(room: Room, action: string, succeeded: bool, roomState: string, errorCode: string,
                     result: string, now: string): Room
  {
    var state := FinalRoomControlState(action, succeeded, roomState);
    Room(state,
         if succeeded then "" else if state == "SET_INFO_FAILED" then "set_info" else action,
         "",
         if succeeded then "" else if errorCode != "" then errorCode else state,
         if succeeded then "" else Short(result),
         if succeeded then now else room.successAt,
         if succeeded then "" else now)
  }

  // The row the CASE expressions of the finalisation batch write.
  function FinalRoomBySql(room: Room, action: string, a: Ack): Room {
    var explicit := ExplicitState(a.roomState);
    var setInfo := explicit == "" && action == "set_info";
    Room(if a.status == "completed" then "READY"
         else if explicit != "" then explicit
         else if action == "set_info" then "SET_INFO_FAILED" else "CONTROL_FAILED",
         if a.status == "completed" then ""
         else if explicit == "SET_INFO_FAILED" then "set_info"
         else if setInfo then "set_info" else action,
         "",
         if a.status == "completed" then ""
         else if a.errorCode != "" then a.errorCode
         else if explicit == "SET_INFO_FAILED" then "SET_INFO_FAILED"
         else if setInfo then "SET_INFO_FAILED" else "CONTROL_FAILED",
         if a.status == "completed" then "" else a.result,
         if a.status == "completed" then a.now else room.successAt,
         if a.status == "completed" then "" else a.now)
  }

  predicate ClearsRoom(commands: map<Id, Command>, id: Id, a: Ack, r: RoomId, room: Room) {
    && room.commandId == id
    && id in commands
    && commands[id].status == a.status
    && commands[id].completedAt == a.now
    && IsControl(commands[id].action)
    && Covers(commands[id].roomId, r)
  }

  // The two statements of the finalisation batch, executed atomically.
  function FinalizeBatch(t: Table, id: Id, a: Ack): Table {
    var commands :=
      if id in t.commands && t.commands[id].status == "claimed"
      then t.commands[id := t.commands[id].(status := a.status, result := a.result, completedAt := a.now)]
      else t.commands;
    Table(commands,
          map r | r in t.rooms ::
            if ClearsRoom(commands, id, a, r, t.rooms[r])
            then FinalRoomBySql(t.rooms[r], commands[id].action, a)
            else t.rooms[r])
  }

  predicate ResultApplies(commands: map<Id, Command>, id: Id, succeeded: bool, room: Room) {
    && room.commandId == id
    && id in commands
    && commands[id].status == (if succeeded then "completed" else "failed")
  }

  function ResultRoom(commands: map<Id, Command>, id: Id, action: string, a: Ack, result: string, room: Room): Room {
    var succeeded := a.status == "completed";
    if ResultApplies(commands, id, succeeded, room)
    then FinalRoom(room, action, succeeded, a.roomState, a.errorCode, result, a.now)
    else room
  }

  // markRoomControlResult: one UPDATE for each target room.
  function MarkResult(t: Table, id: Id, roomId: RoomId, action: string, a: Ack, result: string): Table {
    Table(t.commands,
          map r | r in t.rooms ::
            if Covers(roomId, r) then ResultRoom(t.commands, id, action, a, result, t.rooms[r]) else t.rooms[r])
  }

  function FinalizeAck(t: Table, id: Id, a: Ack): (Table, Disposition) {
    var newly := id in t.commands && t.commands[id].status == "claimed";
    var done := FinalizeBatch(t, id, a);
    if newly then (done, Finalized)
    else if id !in done.commands then (done, NotFound)
    else
      var existing := done.commands[id];
      if existing.result == TIMEOUT_AMBIGUOUS then (done, Conflict)
      else
        var repaired :=
          if existing.status == a.status && IsControl(existing.action)
          then MarkResult(done, id, existing.roomId, existing.action, a,
                          if existing.result != "" then existing.result else a.result)
          else done;
        (repaired, if existing.status == a.status then Duplicate else Conflict)
  }

  predicate Expires(t: Table, ids: set<Id>, x: Id) {
    x in ids && x in t.commands && (t.commands[x].status == "pending" || t.commands[x].status == "claimed")
  }

  // The expiry and ACK-timeout batches of the sync route: the chosen unfinished
  // commands fail, and every room index that points to a command failed at this
  // instant is cleared.
  function Expire(t: Table, ids: set<Id>, result: string, errorCode: string, now: string): Table {
    var commands := map x | x in t.commands ::
      if Expires(t, ids, x) then t.commands[x].(status := "failed", result := result, completedAt := now)
      else t.commands[x];
    Table(commands,
          map r | r in t.rooms ::
            var room := t.rooms[r];
            if room.commandId in commands && commands[room.commandId].status == "failed"
               && commands[room.commandId].completedAt == now && IsControl(commands[room.commandId].action)
            then Room(if room.action == "set_info" then "SET_INFO_FAILED" else "CONTROL_FAILED", room.action, "",
                      errorCode, result, room.successAt, now)
            else room)
  }

  const TERMINATED := "KIOSK_VISIT_TERMINATED"

  predicate Terminates(t: Table, ids: set<Id>, x: Id) {
    x in ids && x in t.commands && t.commands[x].status == "pending"
  }

  // Ending a kiosk visit: its pending commands expire. No trigger fires, and no
  // statement of that batch touches the rooms.
  function Terminate(t: Table, ids: set<Id>, now: string): Table {
    t.(commands := map x | x in t.commands ::
         if Terminates(t, ids, x)
         then t.commands[x].(status := "expired", result := TERMINATED, completedAt := now)
         else t.commands[x])
  }

  // ----- Invariants -----

  ghost predicate Exclusive(t: Table) {
    forall x, y | x in t.commands && y in t.commands && x != y && Active(t.commands[x]) && Active(t.commands[y]) ::
      !Clash(t.commands[x].roomId, t.commands[y])
  }

  ghost predicate PointsToActive(t: Table, r: RoomId)
    requires r in t.rooms
  {
    var id := t.rooms[r].commandId;
    id != "" ==> id in t.commands && Active(t.commands[id]) && Covers(t.commands[id].roomId, r)
  }

  // Each room an active command covers names that command.
  ghost predicate Named(t: Table) {
    forall x, r | x in t.commands && r in t.rooms && Active(t.commands[x]) && Covers(t.commands[x].roomId, r) ::
      t.rooms[r].commandId == x
  }

  // A room's index is non-empty exactly when an active command covers the room,
  // and then it names that command.
  ghost predicate Indexed(t: Table) {
    (forall r | r in t.rooms :: PointsToActive(t, r)) && Named(t)
  }

  ghost predicate Ok(t: Table) {
    "" !in t.commands && Exclusive(t) && Indexed(t)
  }

  // What holds even after a kiosk visit was ended: a room may also name a control
  // command that covers it and expired unclaimed.
  ghost predicate PointsToOpen(t: Table, r: RoomId)
    requires r in t.rooms
  {
    var id := t.rooms[r].commandId;
    id != "" ==>
      && id in t.commands && IsControl(t.commands[id].action) && Covers(t.commands[id].roomId, r)
      && (Active(t.commands[id]) || t.commands[id].status == "expired")
  }

  ghost predicate Sound(t: Table) {
    "" !in t.commands && Exclusive(t) && Named(t) && forall r | r in t.rooms :: PointsToOpen(t, r)
  }

  // The room still names a command that is over.
  predicate Stale(t: Table, r: RoomId) {
    && r in t.rooms && t.rooms[r].commandId != ""
    && !(t.rooms[r].commandId in t.commands && Active(t.commands[t.rooms[r].commandId]))
  }

  /** The index of a sound table is exact if and only if no room is stale. */
  lemma ExactUnlessStale(t: Table)
    ensures Ok(t) ==> Sound(t)
    ensures Sound(t) ==> (Indexed(t) <==> forall r | r in t.rooms :: !Stale(t, r))
  {
    if Ok(t) {
      forall r | r in t.rooms ensures PointsToOpen(t, r) {
        assert PointsToActive(t, r);
      }
    }
    if Sound(t) {
      forall r | r in t.rooms ensures PointsToActive(t, r) <==> !Stale(t, r) {
        assert PointsToOpen(t, r);
      }
    }
  }

  predicate ValidAck(a: Ack) {
    a.status == "completed" || a.status == "failed"
  }

  // By the columns alone: an unfinished room control, and two of them that share a room.
  ghost predicate Unfinished(c: Command) {
    && (c.action == "set_info" || c.action == "start" || c.action == "stop" || c.action == "all_stop")
    && (c.status == "pending" || c.status == "claimed")
  }

  ghost predicate Contend(c: Command, d: Command) {
    Unfinished(c) && Unfinished(d) && (c.roomId == "ALL" || d.roomId == "ALL" || c.roomId == d.roomId)
  }

  // ----- Theorems about single steps -----

  /** An active control command is accepted exactly when its id is new and no
      other active control command shares a room with it; accepting marks exactly its
      rooms as pending for it, and keeps rooms exclusive, and exact what was exact. */
  lemma InsertKeepsOk(t: Table, id: Id, c: Command)
    requires Sound(t) && id != ""
    ensures Insert(t, id, c).Some? <==>
            id !in t.commands && (Unfinished(c) ==> forall x | x in t.commands :: !Contend(c, t.commands[x]))
    ensures Insert(t, id, c).Some? ==> Sound(Insert(t, id, c).value) && (Ok(t) ==> Ok(Insert(t, id, c).value))
    ensures Insert(t, id, c).Some? ==>
              var t' := Insert(t, id, c).value;
              && t'.commands == t.commands[id := c] && t'.rooms.Keys == t.rooms.Keys
              && forall r | r in t.rooms ::
                   t'.rooms[r] == if Active(c) && Covers(c.roomId, r)
                                  then t.rooms[r].(state := "CONTROL_PENDING", action := c.action, commandId := id)
                                  else t.rooms[r]
  {
    if Insert(t, id, c).Some? {
      var t' := Insert(t, id, c).value;
      forall r | r in t'.rooms ensures PointsToOpen(t', r) && (Ok(t) ==> PointsToActive(t', r)) {
        assert PointsToOpen(t, r) && (Ok(t) ==> PointsToActive(t, r));
      }
      forall x, r | x in t'.commands && r in t'.rooms && Active(t'.commands[x]) && Covers(t'.commands[x].roomId, r)
        ensures t'.rooms[r].commandId == x
      {
        if x != id {
          assert t.rooms[r].commandId == x;
          assert Covers(c.roomId, r) ==> Clash(c.roomId, t.commands[x]);
        }
      }
    }
  }

  /** An update is refused exactly when it makes the row an unfinished room control, or
      moves one to another room, and some other row contends with it; what it lets
      through keeps rooms exclusive. */
  lemma UpdateKeepsExclusive(t: Table, id: Id, c: Command)
    requires Exclusive(t) && id in t.commands
    ensures Update(t, id, c).None? <==>
            && (!Unfinished(t.commands[id]) || t.commands[id].roomId != c.roomId)
            && exists x | x in t.commands :: x != id && Contend(c, t.commands[x])
    ensures Update(t, id, c).Some? ==> Exclusive(Update(t, id, c).value)
  {
    assert TriggersFire(t.commands[id], c) && Blocked(t.commands, id, c.roomId) <==>
           && (!Unfinished(t.commands[id]) || t.commands[id].roomId != c.roomId)
           && exists x | x in t.commands :: x != id && Contend(c, t.commands[x]) by {
      assert forall x | x in t.commands :: Contend(c, t.commands[x]) <==> Active(c) && Clash(c.roomId, t.commands[x]);
    }
    if Update(t, id, c).None? {
      return;
    }
    var t' := Update(t, id, c).value;
    forall x, y | x in t'.commands && y in t'.commands && x != y && Active(t'.commands[x]) && Active(t'.commands[y])
      ensures !Clash(t'.commands[x].roomId, t'.commands[y])
    {
      var other := if x == id then y else x;
      if x == id || y == id {
        assert Active(t.commands[id]) ==> !Clash(t.commands[id].roomId, t.commands[other]);
        assert TriggersFire(t.commands[id], c) ==> !Clash(c.roomId, t.commands[other]);
      }
    }
  }

  // Every indexed room the row covered before the update is covered by an
  // active row after it.
  ghost predicate KeepsCover(t: Table, id: Id, c: Command)
    requires id in t.commands
  {
    Active(t.commands[id]) ==>
      forall r | r in t.rooms && Covers(t.commands[id].roomId, r) :: Active(c) && Covers(c.roomId, r)
  }

  /** The update triggers always keep rooms exclusive, but they keep the index
      exact if and only if an active row stays active on every room it covered:
      they never clear the index of a room the row leaves. */
  lemma UpdateKeepsIndexExactlyWhen(t: Table, id: Id, c: Command)
    requires Ok(t) && id in t.commands && Update(t, id, c).Some?
    ensures Exclusive(Update(t, id, c).value)
    ensures Indexed(Update(t, id, c).value) <==> KeepsCover(t, id, c)
  {
    UpdateKeepsExclusive(t, id, c);
    var t' := Update(t, id, c).value;
    if KeepsCover(t, id, c) {
      forall r | r in t'.rooms ensures PointsToActive(t', r) {
        assert PointsToActive(t, r);
      }
      forall x, r | x in t'.commands && r in t'.rooms && Active(t'.commands[x]) && Covers(t'.commands[x].roomId, r)
        ensures t'.rooms[r].commandId == x
      {
        if x != id {
          assert t.rooms[r].commandId == x;
          if TriggersFire(t.commands[id], c) && Covers(c.roomId, r) {
            assert Clash(c.roomId, t.commands[x]);
          }
        }
      }
    } else {
      var r :| r in t.rooms && Covers(t.commands[id].roomId, r) && !(Active(c) && Covers(c.roomId, r));
      assert t.rooms[r].commandId == id;
      assert t'.rooms[r].commandId == id;
      assert !PointsToActive(t', r);
    }
  }

  /** The failing side, as ending a kiosk visit does it: a pending control row that
      expires leaves every room it covers, and the index still names it there. */
  lemma ExpiredRowStaysIndexed(t: Table, id: Id, result: string, now: string, r: RoomId)
    requires Ok(t) && id in t.commands && IsControl(t.commands[id].action) && t.commands[id].status == "pending"
    requires r in t.rooms && Covers(t.commands[id].roomId, r)
    ensures var c := t.commands[id].(status := "expired", result := result, completedAt := now);
            && Update(t, id, c).Some? && !Indexed(Update(t, id, c).value)
            && Update(t, id, c).value.rooms == t.rooms && t.rooms[r].commandId == id
  {
    var c := t.commands[id].(status := "expired", result := result, completedAt := now);
    UpdateKeepsIndexExactlyWhen(t, id, c);
    assert !KeepsCover(t, id, c);
  }

  // A row that is no control command, before and after.
  lemma InertUpdateKeepsSound(t: Table, id: Id, c: Command)
    requires Sound(t) && id in t.commands && !IsControl(t.commands[id].action) && !IsControl(c.action)
    ensures Update(t, id, c) == Some(t.(commands := t.commands[id := c]))
    ensures Sound(Update(t, id, c).value) && (Ok(t) ==> Ok(Update(t, id, c).value))
  {
    var t' := Update(t, id, c).value;
    forall r | r in t'.rooms ensures PointsToOpen(t', r) && (Ok(t) ==> PointsToActive(t', r)) {
      assert PointsToOpen(t, r) && (Ok(t) ==> PointsToActive(t, r));
    }
  }

  // At most one control command is with the bridge.
  ghost predicate OneClaimed(t: Table) {
    forall x, y | x in t.commands && y in t.commands ::
      ClaimedControl(t.commands[x]) && ClaimedControl(t.commands[y]) ==> x == y
  }

  /** A claim succeeds exactly on an eligible pending row, for a control command only
      while no other one is claimed, and changes no room. */
  lemma ClaimKeepsOk(t: Table, id: Id, eligible: bool)
    requires Sound(t)
    ensures Claim(t, id, eligible).Some? <==>
            && id in t.commands && t.commands[id].status == "pending" && eligible
            && (IsControl(t.commands[id].action) ==> forall x | x in t.commands :: !ClaimedControl(t.commands[x]))
    ensures Claim(t, id, eligible).Some? ==>
              && Claim(t, id, eligible).value == t.(commands := t.commands[id := t.commands[id].(status := "claimed")])
              && Sound(Claim(t, id, eligible).value) && (Ok(t) ==> Ok(Claim(t, id, eligible).value))
              && (OneClaimed(t) ==> OneClaimed(Claim(t, id, eligible).value))
  {
    if Claimable(t, id, eligible) {
      var t' := Claim(t, id, eligible).value;
      UpdateKeepsExclusive(t, id, t.commands[id].(status := "claimed"));
      forall r | r in t'.rooms ensures PointsToOpen(t', r) && (Ok(t) ==> PointsToActive(t', r)) {
        assert PointsToOpen(t, r) && (Ok(t) ==> PointsToActive(t, r));
      }
    }
  }

  /** The CASE expressions of the batch and the helper that repairs a duplicate write
      the same room row, except that the helper cuts the error text: they agree on it
      if and only if the command succeeded or its result has at most 300 characters. */
  lemma SqlAgreesWithHelper(room: Room, action: string, a: Ack)
    requires ValidAck(a)
    ensures var helper := FinalRoom(room, action, a.status == "completed", a.roomState, a.errorCode, a.result, a.now);
            && FinalRoomBySql(room, action, a).(error := "") == helper.(error := "")
            && (FinalRoomBySql(room, action, a) == helper <==> a.status == "completed" || |a.result| <= 300)
  {
  }

  // The row of a room that the first ACK releases: READY if and only if the command was
  // completed; after a failure SET_INFO_FAILED if and only if the ACK names it, or names
  // neither failure and the action was set_info; CONTROL_FAILED otherwise.
  ghost predicate Released(was: Room, room: Room, action: string, a: Ack) {
    var infoFailed := a.roomState == "SET_INFO_FAILED" || (a.roomState != "CONTROL_FAILED" && action == "set_info");
    && (room.state == "READY" <==> a.status == "completed")
    && (room.state == "SET_INFO_FAILED" <==> a.status == "failed" && infoFailed)
    && (room.state == "CONTROL_FAILED" <==> a.status == "failed" && !infoFailed)
    && room.commandId == ""
    && (a.status == "completed" ==>
          room.action == "" && room.errorCode == "" && room.error == "" && room.successAt == a.now
          && room.errorAt == "")
    && (a.status == "failed" ==>
          && room.action == (if infoFailed then "set_info" else action)
          && room.errorCode == (if a.errorCode == "" then room.state else a.errorCode)
          && room.error == a.result && room.successAt == was.successAt && room.errorAt == a.now)
  }

  lemma BatchReleases(room: Room, action: string, a: Ack)
    requires ValidAck(a)
    ensures Released(room, FinalRoomBySql(room, action, a), action, a)
  {
  }

  lemma FirstAckRooms(t: Table, id: Id, a: Ack)
    requires Sound(t) && ValidAck(a) && id in t.commands && t.commands[id].status == "claimed"
    ensures var (t', d), c := FinalizeAck(t, id, a), t.commands[id];
            && d == Finalized && t'.rooms.Keys == t.rooms.Keys
            && t'.commands == t.commands[id := c.(status := a.status, result := a.result, completedAt := a.now)]
            && forall r | r in t.rooms ::
                 if IsControl(c.action) && Covers(c.roomId, r) then Released(t.rooms[r], t'.rooms[r], c.action, a)
                 else t'.rooms[r] == t.rooms[r]
  {
    var t', c := FinalizeAck(t, id, a).0, t.commands[id];
    forall r | r in t.rooms
      ensures if IsControl(c.action) && Covers(c.roomId, r) then Released(t.rooms[r], t'.rooms[r], c.action, a)
              else t'.rooms[r] == t.rooms[r]
    {
      assert PointsToOpen(t, r);
      BatchReleases(t.rooms[r], c.action, a);
    }
  }

  // A row that leaves Active and the rooms it covers together.
  lemma ReleaseKeepsSound(t: Table, t': Table, id: Id)
    requires Sound(t) && id in t.commands && id in t'.commands && !Active(t'.commands[id])
    requires t'.commands == t.commands[id := t'.commands[id]] && t'.rooms.Keys == t.rooms.Keys
    requires forall r | r in t.rooms ::
               t'.rooms[r].commandId == if t.rooms[r].commandId == id then "" else t.rooms[r].commandId
    ensures Sound(t') && (Ok(t) ==> Ok(t'))
  {
    forall r | r in t'.rooms ensures PointsToOpen(t', r) && (Ok(t) ==> PointsToActive(t', r)) {
      assert PointsToOpen(t, r) && (Ok(t) ==> PointsToActive(t, r));
    }
  }

  /** The repair of a duplicate writes, to a room that still names the command, the row
      an ACK with the stored result releases it to, the error text cut to 300
      characters; and to any other room nothing. */
  lemma RepairReleases(commands: map<Id, Command>, id: Id, action: string, a: Ack, result: string, room: Room)
    requires ValidAck(a)
    ensures var room' := ResultRoom(commands, id, action, a, result, room);
            if room.commandId == id && id in commands && commands[id].status == a.status
            then Released(room, room', action, a.(result := if |result| <= 300 then result else result[..300]))
            else room' == room
  {
  }

  /** The first ACK of a claimed command wins: the row becomes final with the
      ACK's status, exactly the rooms the command covered are released, each with the
      state, the action and the error the ACK calls for, and nothing else changes. The
      index stays exact, for the same batch clears it. */
  lemma FirstAckWins(t: Table, id: Id, a: Ack)
    requires Sound(t) && ValidAck(a) && id in t.commands && t.commands[id].status == "claimed"
    ensures var (t', d), c := FinalizeAck(t, id, a), t.commands[id];
            && d == Finalized && Sound(t') && (Ok(t) ==> Ok(t'))
            && t'.commands == t.commands[id := c.(status := a.status, result := a.result, completedAt := a.now)]
            && t'.rooms.Keys == t.rooms.Keys
            && forall r | r in t.rooms ::
                 if IsControl(c.action) && Covers(c.roomId, r) then Released(t.rooms[r], t'.rooms[r], c.action, a)
                 else t'.rooms[r] == t.rooms[r]
  {
    FirstAckRooms(t, id, a);
    ReleaseKeepsSound(t, FinalizeAck(t, id, a).0, id);
  }

  /** Any ACK of a command that is not claimed, be it a late duplicate or a
      conflicting one, leaves the whole table as it was; the answer tells a
      duplicate from a conflict. */
  lemma LateAckChangesNothing(t: Table, id: Id, a: Ack)
    requires Sound(t) && ValidAck(a) && !(id in t.commands && t.commands[id].status == "claimed")
    ensures FinalizeAck(t, id, a).0 == t
    ensures FinalizeAck(t, id, a).1 ==
            if id !in t.commands then NotFound
            else if t.commands[id].status == a.status && t.commands[id].result != "CONTROL_ACK_TIMEOUT_AMBIGUOUS"
            then Duplicate
            else Conflict
  {
    forall r | r in t.rooms && id in t.commands && t.commands[id].status == a.status
      ensures t.rooms[r].commandId != id
    {
      assert PointsToOpen(t, r);
    }
    assert FinalizeBatch(t, id, a).rooms == t.rooms;
    assert FinalizeBatch(t, id, a) == t;
    if id in t.commands && t.commands[id].status == a.status {
      var e := t.commands[id];
      var m := MarkResult(t, id, e.roomId, e.action, a, if e.result != "" then e.result else a.result);
      assert m.rooms == t.rooms;
    }
  }

  /** Closing commands fails exactly the unfinished ones among them, and clears in the
      same batch exactly the rooms that waited for one of these, each with the state its
      action calls for. */
  lemma ExpireClears(t: Table, ids: set<Id>, result: string, errorCode: string, now: string)
    requires Sound(t)
    ensures var t' := Expire(t, ids, result, errorCode, now);
            && t'.commands.Keys == t.commands.Keys && t'.rooms.Keys == t.rooms.Keys
            && (forall x | x in t.commands ::
                  var c := t.commands[x];
                  t'.commands[x] == if x in ids && (c.status == "pending" || c.status == "claimed")
                                    then c.(status := "failed", result := result, completedAt := now) else c)
            && (forall r | r in t.rooms ::
                  var room := t.rooms[r];
                  t'.rooms[r] == if room.commandId in ids && !Stale(t, r) && room.commandId != ""
                                 then room.(state := if room.action == "set_info" then "SET_INFO_FAILED"
                                                     else "CONTROL_FAILED",
                                            commandId := "", errorCode := errorCode, error := result, errorAt := now)
                                 else room)
  {
    forall r | r in t.rooms ensures PointsToOpen(t, r) {
    }
  }

  lemma ExpireKeepsOk(t: Table, ids: set<Id>, result: string, errorCode: string, now: string)
    requires Sound(t)
    ensures var t' := Expire(t, ids, result, errorCode, now); Sound(t') && (Ok(t) ==> Ok(t'))
  {
    var t' := Expire(t, ids, result, errorCode, now);
    forall r | r in t'.rooms ensures PointsToOpen(t', r) && (Ok(t) ==> PointsToActive(t', r)) {
      assert PointsToOpen(t, r) && (Ok(t) ==> PointsToActive(t, r));
    }
    forall x, r | x in t'.commands && r in t'.rooms && Active(t'.commands[x]) && Covers(t'.commands[x].roomId, r)
      ensures t'.rooms[r].commandId == x
    {
      assert t.rooms[r].commandId == x;
    }
  }

  // A control command among `ids` that waits for room `r`.
  predicate Strands(t: Table, ids: set<Id>, r: RoomId) {
    exists x | x in ids :: Terminates(t, ids, x) && IsControl(t.commands[x].action) && Covers(t.commands[x].roomId, r)
  }

  lemma TerminateKeepsSound(t: Table, ids: set<Id>, now: string)
    requires Sound(t)
    ensures Sound(Terminate(t, ids, now))
  {
    var t' := Terminate(t, ids, now);
    forall r | r in t'.rooms ensures PointsToOpen(t', r) {
      assert PointsToOpen(t, r);
    }
  }

  lemma TerminateExpires(t: Table, ids: set<Id>, now: string)
    ensures Terminate(t, ids, now).rooms == t.rooms && Terminate(t, ids, now).commands.Keys == t.commands.Keys
    ensures forall x | x in t.commands ::
              Terminate(t, ids, now).commands[x]
              == if x in ids && t.commands[x].status == "pending"
                 then t.commands[x].(status := "expired", result := "KIOSK_VISIT_TERMINATED", completedAt := now)
                 else t.commands[x]
  {
  }

  /** Ending a kiosk visit leaves a room stale if and only if it was stale before or
      a control command of the visit was waiting for it. */
  lemma {:induction false} TerminateStrandsExactlyWhen(t: Table, ids: set<Id>, now: string, r: RoomId)
    requires Sound(t) && r in t.rooms
    ensures Stale(Terminate(t, ids, now), r) <==> Stale(t, r) || Strands(t, ids, r)
  {
    assert PointsToOpen(t, r);
    var id := t.rooms[r].commandId;
    forall x | x in ids && Terminates(t, ids, x) && IsControl(t.commands[x].action) && Covers(t.commands[x].roomId, r)
      ensures id == x
    {
      assert Active(t.commands[x]);
    }
  }

  // ----- Runs -----

  datatype Step =
    | InsertStep(id: Id, command: Command)
    | ClaimStep(id: Id, eligible: bool)
    | AckStep(id: Id, ack: Ack)
    | ExpireStep(ids: set<Id>, result: string, errorCode: string, now: string)
    | TerminateStep(ids: set<Id>, now: string)

  function OrSame(t: Table, next: Option<Table>): Table {
    if next.Some? then next.value else t
  }

  function Apply(t: Table, step: Step): Table {
    match step
    case InsertStep(id, c) => OrSame(t, Insert(t, id, c))
    case ClaimStep(id, eligible) => OrSame(t, Claim(t, id, eligible))
    case AckStep(id, a) => FinalizeAck(t, id, a).0
    case ExpireStep(ids, result, errorCode, now) => Expire(t, ids, result, errorCode, now)
    case TerminateStep(ids, now) => Terminate(t, ids, now)
  }

  predicate Legal(step: Step) {
    (step.InsertStep? ==> step.id != "") && (step.AckStep? ==> ValidAck(step.ack))
  }

  lemma AckKeepsOk(t: Table, id: Id, a: Ack)
    requires Sound(t) && ValidAck(a)
    ensures var t' := FinalizeAck(t, id, a).0; Sound(t') && (Ok(t) ==> Ok(t'))
  {
    if id in t.commands && t.commands[id].status == "claimed" {
      FirstAckWins(t, id, a);
    } else {
      LateAckChangesNothing(t, id, a);
    }
  }

  // Only the first ACK of a claimed command releases rooms.
  lemma AckAnswer(t: Table, id: Id, a: Ack)
    requires Sound(t) && ValidAck(a)
    ensures var (t', d) := FinalizeAck(t, id, a);
            if id in t.commands && t.commands[id].status == "claimed" then
              var c := t.commands[id];
              && d == Finalized
              && forall r | r in t.rooms ::
                   r in t'.rooms &&
                   if IsControl(c.action) && Covers(c.roomId, r) then Released(t.rooms[r], t'.rooms[r], c.action, a)
                   else t'.rooms[r] == t.rooms[r]
            else t' == t && d != Finalized
  {
    if id in t.commands && t.commands[id].status == "claimed" {
      FirstAckRooms(t, id, a);
    } else {
      LateAckChangesNothing(t, id, a);
    }
  }

  lemma ApplyKeepsSound(t: Table, step: Step)
    requires Sound(t) && Legal(step)
    ensures Sound(Apply(t, step)) && (Ok(t) && !step.TerminateStep? ==> Ok(Apply(t, step)))
  {
    match step
    case InsertStep(id, c) => InsertKeepsOk(t, id, c);
    case ClaimStep(id, eligible) => ClaimKeepsOk(t, id, eligible);
    case AckStep(id, a) => AckKeepsOk(t, id, a);
    case ExpireStep(ids, result, errorCode, now) => ExpireKeepsOk(t, ids, result, errorCode, now);
    case TerminateStep(ids, now) => TerminateKeepsSound(t, ids, now);
  }

  // The tables before and after each step.
  ghost predicate IsRun(tables: seq<Table>, steps: seq<Step>) {
    && |tables| == |steps| + 1 && Ok(tables[0])
    && forall i | 0 <= i < |steps| :: Legal(steps[i]) && tables[i + 1] == Apply(tables[i], steps[i])
  }

  ghost predicate ControlsRoom(c: Command, r: RoomId) {
    Unfinished(c) && (c.roomId == "ALL" || c.roomId == r)
  }

  // No room has two unfinished controls, and a room with one names it.
  ghost predicate RoomsHaveOneControl(t: Table) {
    && (forall x, y, r | x in t.commands && y in t.commands && r in t.rooms ::
          ControlsRoom(t.commands[x], r) && ControlsRoom(t.commands[y], r) ==> x == y)
    && (forall x, r | x in t.commands && r in t.rooms && ControlsRoom(t.commands[x], r) ::
          t.rooms[r].commandId == x && t.rooms[r].commandId != "")
  }

  /** Over every run of inserts, claims, ACKs, expiries and ended kiosk visits: two
      active control commands never share a room, ALL is never active beside another,
      every room an active command covers names it, and a room that names any other
      command names one that covers it and expired unclaimed. */
  lemma {:induction false} RoomsStayExclusive(tables: seq<Table>, steps: seq<Step>, k: nat)
    requires IsRun(tables, steps) && k <= |steps|
    ensures Sound(tables[k]) && RoomsHaveOneControl(tables[k])
    decreases k
  {
    if k == 0 {
      ExactUnlessStale(tables[0]);
    } else {
      RoomsStayExclusive(tables, steps, k - 1);
      ApplyKeepsSound(tables[k - 1], steps[k - 1]);
    }
  }

  // The step ends a kiosk visit with a control command waiting for room `r`.
  predicate StepStrands(t: Table, step: Step, r: RoomId) {
    step.TerminateStep? && r in t.rooms && Strands(t, step.ids, r)
  }

  // The step puts a new active command on room `r`.
  predicate Renames(t: Table, step: Step, r: RoomId) {
    step.InsertStep? && Insert(t, step.id, step.command).Some? && Active(step.command) && Covers(step.command.roomId, r)
  }

  lemma InsertStale(t: Table, id: Id, c: Command, r: RoomId)
    requires Sound(t) && Insert(t, id, c).Some? && r in t.rooms
    ensures Stale(Insert(t, id, c).value, r) <==> Stale(t, r) && !(Active(c) && Covers(c.roomId, r))
  {
    assert PointsToOpen(t, r);
  }

  lemma ClaimStale(t: Table, id: Id, eligible: bool, r: RoomId)
    requires Sound(t) && r in t.rooms
    ensures Stale(OrSame(t, Claim(t, id, eligible)), r) <==> Stale(t, r)
  {
    ClaimKeepsOk(t, id, eligible);
    assert PointsToOpen(t, r);
  }

  lemma AckStale(t: Table, id: Id, a: Ack, r: RoomId)
    requires Sound(t) && ValidAck(a) && r in t.rooms
    ensures Stale(FinalizeAck(t, id, a).0, r) <==> Stale(t, r)
  {
    assert PointsToOpen(t, r);
    if id in t.commands && t.commands[id].status == "claimed" {
      FirstAckWins(t, id, a);
    } else {
      LateAckChangesNothing(t, id, a);
    }
  }

  lemma ExpireStale(t: Table, ids: set<Id>, result: string, errorCode: string, now: string, r: RoomId)
    requires Sound(t) && r in t.rooms
    ensures Stale(Expire(t, ids, result, errorCode, now), r) <==> Stale(t, r)
  {
    assert PointsToOpen(t, r);
  }

  lemma {:induction false} StaleNext(t: Table, step: Step, r: RoomId)
    requires Sound(t) && Legal(step) && r in t.rooms
    ensures Stale(Apply(t, step), r) <==> (Stale(t, r) && !Renames(t, step, r)) || StepStrands(t, step, r)
  {
    match step
    case InsertStep(id, c) =>
      if Insert(t, id, c).Some? {
        InsertStale(t, id, c, r);
      }
    case ClaimStep(id, eligible) =>
      ClaimKeepsOk(t, id, eligible);
      ClaimStale(t, id, eligible, r);
    case AckStep(id, a) => AckStale(t, id, a, r);
    case ExpireStep(ids, result, errorCode, now) => ExpireStale(t, ids, result, errorCode, now, r);
    case TerminateStep(ids, now) => TerminateStrandsExactlyWhen(t, ids, now, r);
  }

  lemma SameRooms(t: Table, step: Step)
    requires Sound(t) && Legal(step)
    ensures Apply(t, step).rooms.Keys == t.rooms.Keys
  {
    match step
    case InsertStep(id, c) =>
    case ClaimStep(id, eligible) => ClaimKeepsOk(t, id, eligible);
    case AckStep(id, a) =>
    case ExpireStep(ids, result, errorCode, now) =>
    case TerminateStep(ids, now) =>
  }

  lemma {:induction false} RoomsStay(tables: seq<Table>, steps: seq<Step>, k: nat, r: RoomId)
    requires IsRun(tables, steps) && k <= |steps| && r in tables[0].rooms
    ensures r in tables[k].rooms
    decreases k
  {
    if k > 0 {
      RoomsStay(tables, steps, k - 1, r);
      RoomsStayExclusive(tables, steps, k - 1);
      SameRooms(tables[k - 1], steps[k - 1]);
    }
  }

  lemma StaleAfter(tables: seq<Table>, steps: seq<Step>, n: nat, k: nat, r: RoomId)
    requires IsRun(tables, steps) && n + 1 == k <= |steps| && r in tables[0].rooms
    ensures Stale(tables[k], r) <==>
            (Stale(tables[n], r) && !Renames(tables[n], steps[n], r)) || StepStrands(tables[n], steps[n], r)
  {
    RoomsStay(tables, steps, n, r);
    RoomsStayExclusive(tables, steps, n);
    StaleNext(tables[n], steps[n], r);
  }

  // Step `i` stranded room `r`, and no new command was put on it up to step `k`.
  ghost predicate StrandedAt(tables: seq<Table>, steps: seq<Step>, i: nat, k: nat, r: RoomId)
    requires |tables| == |steps| + 1 && i < k <= |steps|
  {
    StepStrands(tables[i], steps[i], r) && forall j | i < j < k :: !Renames(tables[j], steps[j], r)
  }

  /** Exactly when a room is stale: if and only if a kiosk visit was ended while a
      control command of it waited for the room, and no new one was accepted there
      since. No claim, ACK, expiry or other ended visit ever clears it. */
  lemma {:induction false} StaleExactlyWhen(tables: seq<Table>, steps: seq<Step>, k: nat, r: RoomId)
    requires IsRun(tables, steps) && k <= |steps| && r in tables[0].rooms
    ensures Stale(tables[k], r) <==> exists i :: 0 <= i < k && StrandedAt(tables, steps, i, k, r)
    decreases k
  {
    if k == 0 {
      ExactUnlessStale(tables[0]);
    } else {
      StaleExactlyWhen(tables, steps, k - 1, r);
      StaleAfter(tables, steps, k - 1, k, r);
      StrandedNext(tables, steps, k - 1, k, r);
    }
  }

  lemma StrandedNext(tables: seq<Table>, steps: seq<Step>, n: nat, k: nat, r: RoomId)
    requires |tables| == |steps| + 1 && n + 1 == k <= |steps|
    ensures (exists i :: 0 <= i < k && StrandedAt(tables, steps, i, k, r)) <==>
            || StepStrands(tables[n], steps[n], r)
            || (!Renames(tables[n], steps[n], r) && exists i :: 0 <= i < n && StrandedAt(tables, steps, i, n, r))
  {
    if StepStrands(tables[n], steps[n], r) {
      assert StrandedAt(tables, steps, n, k, r);
    }
    if !Renames(tables[n], steps[n], r) {
      if i :| 0 <= i < n && StrandedAt(tables, steps, i, n, r) {
        assert StrandedAt(tables, steps, i, k, r);
      }
    }
    if i :| 0 <= i < k && StrandedAt(tables, steps, i, k, r) {
      assert i < n ==> StrandedAt(tables, steps, i, n, r);
    }
  }

  /** Over every run, the index is exact all along if and only if no ended kiosk visit
      had a control command waiting for a room. */
  lemma {:induction false} IndexIsExactExactlyWhen(tables: seq<Table>, steps: seq<Step>)
    requires IsRun(tables, steps)
    ensures (forall k | 0 <= k <= |steps| :: Indexed(tables[k]))
            <==> (forall i, r | 0 <= i < |steps| && r in tables[i].rooms :: !StepStrands(tables[i], steps[i], r))
  {
    if forall i, r | 0 <= i < |steps| && r in tables[i].rooms :: !StepStrands(tables[i], steps[i], r) {
      forall k | 0 <= k <= |steps| ensures Indexed(tables[k]) {
        ExactUntil(tables, steps, k);
      }
    }
    forall i, r | 0 <= i < |steps| && r in tables[i].rooms && StepStrands(tables[i], steps[i], r)
      ensures !Indexed(tables[i + 1])
    {
      RoomsStayExclusive(tables, steps, i);
      RoomsStayExclusive(tables, steps, i + 1);
      StaleNext(tables[i], steps[i], r);
      ExactUnlessStale(tables[i + 1]);
    }
  }

  lemma ExactNext(t: Table, step: Step)
    requires Sound(t) && Legal(step) && Indexed(t) && forall r | r in t.rooms :: !StepStrands(t, step, r)
    ensures Indexed(Apply(t, step))
  {
    ApplyKeepsSound(t, step);
    SameRooms(t, step);
    ExactUnlessStale(t);
    forall r | r in t.rooms ensures !Stale(Apply(t, step), r) {
      StaleNext(t, step, r);
    }
    ExactUnlessStale(Apply(t, step));
  }

  lemma {:induction false} ExactUntil(tables: seq<Table>, steps: seq<Step>, k: nat)
    requires IsRun(tables, steps) && k <= |steps|
    requires forall i, r | 0 <= i < k && r in tables[i].rooms :: !StepStrands(tables[i], steps[i], r)
    ensures Indexed(tables[k])
    decreases k
  {
    if k > 0 {
      ExactUntil(tables, steps, k - 1);
      RoomsStayExclusive(tables, steps, k - 1);
      ExactNext(tables[k - 1], steps[k - 1]);
    }
  }

  // ----- What a stale room means -----

  // The readiness check before a command for one room. A command for ALL rooms is
  // not checked against any of them.
  predicate Refuses(room: Room) {
    room.state == "CONTROL_PENDING" || room.commandId != ""
  }

  // The callers' check was made.
  predicate Checked(t: Table, step: Step) {
    step.InsertStep? && Active(step.command) && step.command.roomId != ALL_ROOMS && step.command.roomId in t.rooms ==>
      !Refuses(t.rooms[step.command.roomId])
  }

  lemma StrandedOneMore(tables: seq<Table>, steps: seq<Step>, n: nat, r: RoomId)
    requires IsRun(tables, steps) && n < |steps| && r in tables[0].rooms && Checked(tables[n], steps[n])
    requires steps[n].InsertStep? ==> steps[n].command.roomId != ALL_ROOMS
    ensures Stale(tables[n], r) ==> Stale(tables[n + 1], r)
  {
    StaleAfter(tables, steps, n, n + 1, r);
  }

  lemma {:induction false} StaleUntil(tables: seq<Table>, i: nat, k: nat, r: RoomId)
    requires i <= k < |tables| && Stale(tables[i], r)
    requires forall j | i <= j < k :: Stale(tables[j], r) ==> Stale(tables[j + 1], r)
    ensures Stale(tables[k], r)
    decreases k
  {
    if k > i {
      StaleUntil(tables, i, k - 1, r);
    }
  }

  /** A stranded room refuses every command of its own for good: as long as the
      readiness check is made and no command for ALL rooms comes, it stays stale. */
  lemma {:induction false} StrandedStays(tables: seq<Table>, steps: seq<Step>, i: nat, k: nat, r: RoomId)
    requires IsRun(tables, steps) && i <= k <= |steps| && r in tables[0].rooms && Stale(tables[i], r)
    requires forall j | i <= j < k ::
               Checked(tables[j], steps[j]) && (steps[j].InsertStep? ==> steps[j].command.roomId != ALL_ROOMS)
    ensures Stale(tables[k], r) && Refuses(tables[k].rooms[r])
  {
    forall j | i <= j < k ensures Stale(tables[j], r) ==> Stale(tables[j + 1], r) {
      StrandedOneMore(tables, steps, j, r);
    }
    StaleUntil(tables, i, k, r);
  }

  // ----- Claims and final rows -----

  lemma ApplyKeepsOneClaimed(t: Table, step: Step)
    requires Sound(t) && OneClaimed(t) && Legal(step) && (step.InsertStep? ==> step.command.status != "claimed")
    ensures OneClaimed(Apply(t, step))
  {
    match step
    case InsertStep(id, c) =>
    case ClaimStep(id, eligible) => ClaimKeepsOk(t, id, eligible);
    case AckStep(id, a) =>
      if id in t.commands && t.commands[id].status == "claimed" {
        FirstAckWins(t, id, a);
      } else {
        LateAckChangesNothing(t, id, a);
      }
    case ExpireStep(ids, result, errorCode, now) =>
    case TerminateStep(ids, now) =>
  }

  /** Rows are inserted unclaimed, so in every run at most one control command is
      with the bridge at a time. */
  lemma {:induction false} OneClaimAtATime(tables: seq<Table>, steps: seq<Step>, k: nat)
    requires IsRun(tables, steps) && k <= |steps| && OneClaimed(tables[0])
    requires forall i :: 0 <= i < |steps| && steps[i].InsertStep? ==> steps[i].command.status != "claimed"
    ensures OneClaimed(tables[k])
    decreases k
  {
    if k > 0 {
      OneClaimAtATime(tables, steps, k - 1);
      RoomsStayExclusive(tables, steps, k - 1);
      ApplyKeepsOneClaimed(tables[k - 1], steps[k - 1]);
    }
  }

  predicate IsOver(c: Command) {
    c.status == "completed" || c.status == "failed" || c.status == "expired"
  }

  lemma ApplyKeepsFinal(t: Table, step: Step, id: Id)
    requires Sound(t) && Legal(step) && id in t.commands && IsOver(t.commands[id])
    ensures id in Apply(t, step).commands && Apply(t, step).commands[id] == t.commands[id]
  {
    if step.AckStep? {
      if step.id in t.commands && t.commands[step.id].status == "claimed" {
        FirstAckWins(t, step.id, step.ack);
      } else {
        LateAckChangesNothing(t, step.id, step.ack);
      }
    }
  }

  /** A command that is over keeps its status and result for ever: the server
      finalises it at most once. */
  lemma {:induction false} FinalForEver(tables: seq<Table>, steps: seq<Step>, i: nat, k: nat, id: Id)
    requires IsRun(tables, steps) && i <= k <= |steps|
    requires id in tables[i].commands && IsOver(tables[i].commands[id])
    ensures id in tables[k].commands && tables[k].commands[id] == tables[i].commands[id]
    decreases k
  {
    if k > i {
      FinalForEver(tables, steps, i, k - 1, id);
      RoomsStayExclusive(tables, steps, k - 1);
      ApplyKeepsFinal(tables[k - 1], steps[k - 1], id);
    }
  }
}
