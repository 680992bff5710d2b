// Why a claim may hand a control command out only once. A second hand-out, which
// the server does not make, could come when the ledger has evicted the command.

module HandOut {
  import opened Wrappers
  import opened AckComposition
  import B = BoundedExecution
  import L = CommandLedger
  import T = ControlTable

  ghost predicate Reaches(s: Sys) {
    exists states: seq<Sys>, steps: seq<Step> :: IsRun(states, steps) && states[|steps|] == s
  }

  lemma Reach(s: Sys, step: Step)
    requires Reaches(s) && Enabled(s, step)
    ensures Reaches(Apply(s, step))
  {
    var states: seq<Sys>, steps: seq<Step> :| IsRun(states, steps) && states[|steps|] == s;
    var states', steps' := states + [Apply(s, step)], steps + [step];
    forall i | 0 <= i < |steps'|
      ensures Enabled(states'[i], steps'[i]) && states'[i + 1] == Apply(states'[i], steps'[i])
    {
      if i < |steps| {
        assert states'[i] == states[i] && states'[i + 1] == states[i + 1];
      }
    }
    assert IsRun(states', steps') && states'[|steps'|] == Apply(s, step);
  }

  // ----- A second hand-out -----

  // The command is taken as if it were offered again and fails this time; then both
  // ACKs arrive, the new one first.
  function TakeAgain(s: Sys, m: Message, roomId: string): Sys {
    var sent := Apply(Apply(TakeCommand(s, m.id, false, roomId), Finish(roomId, false, "", "", "")), LaneSend);
    Apply(Apply(sent, Deliver(Message(m.id, L.Failed, "", ""), "", "")), Deliver(m, "", ""))
  }

  // A completed command whose ACK is on its way, evicted from the ledger meanwhile.
  ghost predicate Evicted(s: Sys, m: Message) {
    && s.lane == Idle && m in s.sent && m.status == L.Completed
    && IsControlRow(s.server, m.id) && s.server.commands[m.id].status == "claimed"
    && m.id !in s.mem.entries
  }

  // A failure, then a completion.
  lemma SecondAckConflicts(t: T.Table, id: Id, failed: T.Ack, completed: T.Ack)
    requires T.Sound(t) && id in t.commands && t.commands[id].status == "claimed"
    requires failed.status == "failed" && completed.status == "completed"
    ensures T.FinalizeAck(T.FinalizeAck(t, id, failed).0, id, completed).1 == T.Conflict
  {
    T.FirstAckWins(t, id, failed);
    T.LateAckChangesNothing(T.FinalizeAck(t, id, failed).0, id, completed);
  }

  lemma AnsweredLast(s: Sys, m: Message, roomId: string)
    requires Evicted(s, m)
    ensures var first := T.FinalizeAck(s.server, m.id, AckOf(Message(m.id, L.Failed, "", ""), "", "")).0;
            (m, T.FinalizeAck(first, m.id, AckOf(m, "", "")).1) in TakeAgain(s, m, roomId).answers
  {
  }

  lemma SecondHandOutConflicts(s: Sys, m: Message, roomId: string)
    requires T.Sound(s.server) && Evicted(s, m)
    ensures (m, T.Conflict) in TakeAgain(s, m, roomId).answers
  {
    AnsweredLast(s, m, roomId);
    SecondAckConflicts(s.server, m.id, AckOf(Message(m.id, L.Failed, "", ""), "", ""), AckOf(m, "", ""));
  }

  // ----- The state is reached -----

  const X: Id := "x"

  const START := T.Command("0", "start", "pending", "", "")

  const CLAIMED := T.Table(map[X := START.(status := "claimed")], map[])

  const FIRST := Sys(T.Table(map[], map[]), L.EMPTY_LEDGER, L.EMPTY_LEDGER, Idle, Resting, {}, {}, {}, {}, map[], {})

  function Done(): L.Entry { L.NewEntry(L.Completed, "0", ackPending := true) }

  const SENT := Message(X, L.Completed, "", "")

  // Claimed and taken; only the bridge moved since.
  ghost predicate WithBridge(s: Sys, lane: Lane, sent: set<Message>) {
    && Reaches(s) && s.lane == lane && s.sent == sent && s.server == CLAIMED
    && L.Valid(s.mem) && s.mem.order == [X]
  }

  lemma ClaimedIsReached()
    ensures Reaches(FIRST.(server := CLAIMED, offered := {X}))
  {
    var none: seq<Step> := [];
    assert IsRun([FIRST], none) && [FIRST][|none|] == FIRST;
    Reach(FIRST, ServerInsert(X, START));
    var inserted := T.Table(map[X := START], map[]);
    assert T.Insert(FIRST.server, X, START) == Some(inserted);
    assert inserted.commands[X := START.(status := "claimed")] == CLAIMED.commands;
    assert T.Claim(inserted, X, true) == Some(CLAIMED);
    Reach(FIRST.(server := inserted), ServerClaim(X, true));
  }

  lemma RunningIsReached() returns (s: Sys)
    ensures WithBridge(s, Running(X), {})
  {
    var claimed := FIRST.(server := CLAIMED, offered := {X});
    ClaimedIsReached();
    Reach(claimed, Take(X, false, "0"));
    L.MarkIsValid(L.EMPTY_LEDGER, X, L.NewEntry(L.Executing, "0"));
    s := Apply(claimed, Take(X, false, "0"));
  }

  lemma FinishedIsReached() returns (s: Sys)
    ensures WithBridge(s, Sending(SENT), {})
  {
    var running := RunningIsReached();
    Reach(running, Finish("0", true, "", "", ""));
    L.MarkIsValid(running.mem, X, Done());
    s := Apply(running, Finish("0", true, "", "", ""));
    assert X in running.mem.order;
  }

  // The ACK is sent and its answer lost.
  lemma SentOnceIsReached() returns (s: Sys)
    ensures WithBridge(s, Idle, {SENT})
  {
    var finished := FinishedIsReached();
    Reach(finished, LaneSend);
    var waiting := Apply(finished, LaneSend);
    Reach(waiting, LaneReturn(None, true));
    L.SetAckIsValid(waiting.mem, X, true, L.Pending);
    s := Apply(waiting, LaneReturn(None, true));
  }

  // Names that are not X, all different.
  function Name(n: nat): (r: Id)
    ensures |r| == n + 2
  {
    if n == 0 then "aa" else "a" + Name(n - 1)
  }

  function Names(n: nat): (r: seq<Id>)
    ensures |r| == n && L.NoDup(r) && X !in r && forall i | 0 <= i < n :: r[i] == Name(i)
  {
    seq(n, i requires 0 <= i => Name(i))
  }

  lemma OtherIsReached(s: Sys, id: Id, e: L.Entry)
    requires Reaches(s) && s.server == CLAIMED && id != X
    ensures var mem := L.Mark(s.mem, id, e);
            Reaches(s.(mem := mem, file := mem, recorded := s.recorded + {id}))
  {
    Reach(s, OtherLane(id, e));
  }

  lemma NamesNext(l: L.Ledger, e: L.Entry, n: nat)
    requires n > 0
    ensures Name(n - 1) != X && B.RecordAll(l, Names(n), e) == L.Mark(B.RecordAll(l, Names(n - 1), e), Name(n - 1), e)
  {
    assert Names(n)[..n - 1] == Names(n - 1) && Name(n - 1) == Names(n)[n - 1];
  }

  // Another lane records n commands of its own.
  lemma {:induction false} OthersAreReached(s: Sys, n: nat) returns (s': Sys)
    requires Reaches(s) && s.server == CLAIMED
    ensures Reaches(s') && s'.lane == s.lane && s'.sent == s.sent && s'.server == s.server
    ensures s'.mem == B.RecordAll(s.mem, Names(n), Done())
    decreases n
  {
    if n == 0 {
      s' := s;
    } else {
      var before := OthersAreReached(s, n - 1);
      NamesNext(s.mem, Done(), n);
      OtherIsReached(before, Name(n - 1), Done());
      var mem := L.Mark(before.mem, Name(n - 1), Done());
      s' := before.(mem := mem, file := mem, recorded := before.recorded + {Name(n - 1)});
    }
  }

  /** One hand-out is needed: a state is reached in which a second one would make the
      server answer CONFLICT to the first ACK. */
  lemma SecondHandOutWouldConflict()
    ensures exists s, m :: Reaches(s) && Evicted(s, m) && (m, T.Conflict) in TakeAgain(s, m, "0").answers
  {
    var sentOnce := SentOnceIsReached();
    var s := OthersAreReached(sentOnce, L.MAX_PROCESSED_COMMANDS);
    B.NewRecordsAppend(sentOnce.mem, Names(L.MAX_PROCESSED_COMMANDS), Done());
    B.LastIsLostExactlyWhen([X], X, Names(L.MAX_PROCESSED_COMMANDS));
    var states, steps :| IsRun(states, steps) && states[|steps|] == s;
    InvAlongRun(states, steps, |steps|);
    assert Evicted(s, SENT);
    SecondHandOutConflicts(s, SENT, "0");
  }
}
