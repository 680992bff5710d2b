// The database as the server code changes it: one object, statements that
// update rows in place, and the ACK route's batch followed by its repair.

module ControlDbs {
  import opened Wrappers
  import opened ControlTable

  const INITIAL_ROOMS: seq<RoomId> := ["0", "1", "2", "3"]

  function ControlRoomTargets(roomId: RoomId): seq<RoomId> {
    if roomId == ALL_ROOMS then INITIAL_ROOMS else [roomId]
  }

  // Among the rooms of the schema, the targets are exactly the covered ones.
  lemma TargetsAreCovered(roomId: RoomId, rooms: set<RoomId>)
    requires rooms == {"0", "1", "2", "3"}
    ensures forall r :: r in rooms ==> (r in ControlRoomTargets(roomId) <==> Covers(roomId, r))
    ensures forall i, j :: 0 <= i < j < |ControlRoomTargets(roomId)| ==>
              ControlRoomTargets(roomId)[i] != ControlRoomTargets(roomId)[j]
  {
  }

  class ControlDb {
    var commands: map<Id, Command>
    var rooms: map<RoomId, Room>

    ghost function View(): Table
      reads this
    {
      Table(commands, rooms)
    }

    ghost predicate HasSchema()
      reads this
    {
      rooms.Keys == {"0", "1", "2", "3"}
    }

    constructor ()
      ensures HasSchema() && Ok(View()) && commands == map[]
      ensures forall r :: r in rooms ==> rooms[r] == Room("READY", "", "", "", "", "", "")
    {
      commands := map[];
      var ready := Room("READY", "", "", "", "", "", "");
      rooms := map["0" := ready, "1" := ready, "2" := ready, "3" := ready];
    }

    method InsertCommand(id: Id, c: Command) returns (inserted: bool)
      requires HasSchema() && Sound(View()) && id != ""
      modifies this
      ensures HasSchema() && Sound(View()) && (old(Ok(View())) ==> Ok(View()))
      ensures inserted == Insert(old(View()), id, c).Some?
      ensures View() == OrSame(old(View()), Insert(old(View()), id, c))
    {
      InsertKeepsOk(View(), id, c);
      if id in commands {
        return false;
      }
      if Active(c) {
        if exists x | x in commands :: x != id && Clash(c.roomId, commands[x]) {
          return false;
        }
        commands := commands[id := c];
        rooms := MarkPending(rooms, id, c);
      } else {
        commands := commands[id := c];
      }
      inserted := true;
    }

    method ClaimCommand(id: Id, eligible: bool) returns (claimed: bool)
      requires HasSchema() && Sound(View())
      modifies this`commands
      ensures HasSchema() && Sound(View()) && (old(Ok(View())) ==> Ok(View()))
      ensures old(OneClaimed(View())) ==> OneClaimed(View())
      ensures claimed == Claim(old(View()), id, eligible).Some?
      ensures View() == OrSame(old(View()), Claim(old(View()), id, eligible))
    {
      ClaimKeepsOk(View(), id, eligible);
      claimed := id in commands && commands[id].status == "pending" && eligible;
      if claimed && IsControl(commands[id].action) {
        claimed := !exists x | x in commands :: ClaimedControl(commands[x]);
      }
      if claimed {
        commands := commands[id := commands[id].(status := "claimed")];
      }
    }

    // The one statement of terminateKioskVisit that touches commands; none touches
    // a room.
    method TerminateKioskVisit(ids: set<Id>, now: string)
      requires HasSchema() && Sound(View())
      modifies this`commands
      ensures HasSchema() && Sound(View()) && View() == Terminate(old(View()), ids, now)
      ensures forall r :: r in rooms ==> (Stale(View(), r) <==> old(Stale(View(), r)) || Strands(old(View()), ids, r))
    {
      TerminateKeepsSound(View(), ids, now);
      forall r | r in rooms
        ensures Stale(Terminate(View(), ids, now), r) <==> Stale(View(), r) || Strands(View(), ids, r)
      {
        TerminateStrandsExactlyWhen(View(), ids, now, r);
      }
      commands := map x | x in commands ::
        if x in ids && commands[x].status == "pending"
        then commands[x].(status := "expired", result := TERMINATED, completedAt := now)
        else commands[x];
    }

    // One UPDATE per target room.
    method MarkRoomControlResult(id: Id, roomId: RoomId, action: string, a: Ack, result: string)
      requires HasSchema()
      modifies this`rooms
      ensures HasSchema()
      ensures View() == MarkResult(old(View()), id, roomId, action, a, result)
      ensures ValidAck(a) ==> forall r :: r in rooms ==>
        if Covers(roomId, r) && old(rooms)[r].commandId == id && id in commands && commands[id].status == a.status
        then Released(old(rooms)[r], rooms[r], action, a.(result := if |result| <= 300 then result else result[..300]))
        else rooms[r] == old(rooms)[r]
    {
      if ValidAck(a) {
        forall r | r in rooms {
          RepairReleases(commands, id, action, a, result, rooms[r]);
        }
      }
      var targets := ControlRoomTargets(roomId);
      TargetsAreCovered(roomId, rooms.Keys);
      UpdateRooms(targets, id, action, a, result);
    }

    method UpdateRooms(targets: seq<RoomId>, id: Id, action: string, a: Ack, result: string)
      requires forall i, j :: 0 <= i < j < |targets| ==> targets[i] != targets[j]
      modifies this`rooms
      ensures rooms.Keys == old(rooms).Keys
      ensures forall r :: r in rooms ==>
        rooms[r] == if r in targets then ResultRoom(commands, id, action, a, result, old(rooms)[r])
                    else old(rooms)[r]
    {
      var i := 0;
      while i < |targets|
        invariant 0 <= i <= |targets| && rooms.Keys == old(rooms).Keys
        invariant forall r :: r in rooms ==>
          rooms[r] == if r in targets[..i] then ResultRoom(commands, id, action, a, result, old(rooms)[r])
                      else old(rooms)[r]
      {
        var r := targets[i];
        assert targets[..i + 1] == targets[..i] + [r];
        if r in rooms {
          assert rooms[r] == old(rooms)[r];
          rooms := rooms[r := ResultRoom(commands, id, action, a, result, rooms[r])];
        }
        i := i + 1;
      }
      assert targets[..i] == targets;
    }

    method FinalizeCommandAck(id: Id, a: Ack) returns (d: Disposition)
      requires HasSchema() && Sound(View()) && ValidAck(a)
      modifies this
      ensures HasSchema() && Sound(View()) && (old(Ok(View())) ==> Ok(View()))
      ensures (View(), d) == FinalizeAck(old(View()), id, a)
      ensures old(id in commands && commands[id].status == "claimed") ==>
        var c := old(commands)[id];
        && d == Finalized
        && forall r :: r in rooms ==>
             if IsControl(c.action) && Covers(c.roomId, r) then Released(old(rooms)[r], rooms[r], c.action, a)
             else rooms[r] == old(rooms)[r]
      ensures old(!(id in commands && commands[id].status == "claimed")) ==> View() == old(View()) && d != Finalized
    {
      AckKeepsOk(View(), id, a);
      AckAnswer(View(), id, a);
      var newly := id in commands && commands[id].status == "claimed";
      if newly {
        commands := commands[id := commands[id].(status := a.status, result := a.result, completedAt := a.now)];
      }
      rooms := map r | r in rooms ::
        if ClearsRoom(commands, id, a, r, rooms[r]) then FinalRoomBySql(rooms[r], commands[id].action, a)
        else rooms[r];
      assert View() == FinalizeBatch(old(View()), id, a);
      if newly {
        return Finalized;
      }
      if id !in commands {
        return NotFound;
      }
      var existing := commands[id];
      if existing.result == TIMEOUT_AMBIGUOUS {
        return Conflict;
      }
      if existing.status == a.status && IsControl(existing.action) {
        MarkRoomControlResult(id, existing.roomId, existing.action, a,
                              if existing.result != "" then existing.result else a.result);
      }
      d := if existing.status == a.status then Duplicate else Conflict;
    }
  }
}
