// Readiness under interleaving.

module RecoveryRuns {
  import opened ControlStatuses

  // The command lane and the state loop's recovery run as two threads; each locked
  // section of either is one step, and a failed gate, probe or command may happen at
  // any time.

  // Where the recovery attempt stands: it holds the manager lock in Gated and
  // Probing, has a probe result to record in Probed, and has decided to go
  // IDLE in Deciding.
  datatype Recovery = Resting | Gated | Probing | Probed(ok: bool) | Deciding

  // Where the command lane stands. A claimed batch is blocked when it was claimed
  // in ERROR or one of its commands failed globally; `before` is the state a
  // command read before it set BUSY.
  datatype Lane = Free | Claimed(blocked: bool) | Active(before: ControlState) | Started(before: ControlState)

  datatype Outcome = Success | RoomFailure | GlobalFailure

  datatype Sys = Sys(readiness: Readiness, recovery: Recovery, lane: Lane)

  datatype Event =
    | RefreshProbe(ok: bool)
    | GateFailed
    | GatePassed
    | InnerAbort
    | InnerPassed
    | ProbeReturned(ok: bool)
    | RecordProbe
    | Flip
    | Claim
    | Activate
    | Start
    | Finish(outcome: Outcome)
    | Release

  predicate Enabled(s: Sys, ev: Event) {
    match ev
    case RefreshProbe(_) => s.recovery.Resting?
    case GateFailed => s.recovery.Resting? && NotReady(s.readiness.state)
    case GatePassed => s.recovery.Resting? && NotReady(s.readiness.state) && s.lane == Free
    case InnerAbort => s.recovery.Gated?
    case InnerPassed => s.recovery.Gated? && s.lane == Free
    case ProbeReturned(_) => s.recovery.Probing?
    case RecordProbe => s.recovery.Probed?
    case Flip => s.recovery.Deciding?
    case Claim => s.lane.Free?
    case Activate => s.lane == Claimed(false)
    case Start => s.lane.Active?
    case Finish(_) => s.lane.Started? && !s.recovery.Gated? && !s.recovery.Probing?
    case Release => s.lane.Claimed?
  }

  function StateAfter(before: ControlState, outcome: Outcome): ControlState {
    match outcome
    case Success => if NotReady(before) then DEGRADED else IDLE
    case RoomFailure => DEGRADED
    case GlobalFailure => ERROR
  }

  function Apply(s: Sys, ev: Event): Sys {
    var r := s.readiness;
    match ev
    case RefreshProbe(ok) => s.(readiness := WithProbe(r, ok, false))
    case GateFailed => s.(readiness := r.(successes := 0))
    case GatePassed => s.(recovery := Gated)
    case InnerAbort => s.(recovery := Resting)
    case InnerPassed => s.(recovery := Probing)
    case ProbeReturned(ok) => s.(recovery := Probed(ok))
    case RecordProbe =>
      if s.recovery.Probed? then
        var next := WithProbe(r, s.recovery.ok, true);
        Sys(next,
            if s.recovery.ok && next.successes >= CONTROL_RECOVERY_REQUIRED_PROBES then Deciding else Resting,
            s.lane)
      else s
    case Flip => s.(readiness := WithState(r, IDLE), recovery := Resting)
    case Claim => s.(lane := Claimed(r.state == ERROR))
    case Activate => s.(lane := Active(r.state))
    case Start =>
      if s.lane.Active? then s.(readiness := WithState(r, BUSY), lane := Started(s.lane.before)) else s
    case Finish(outcome) =>
      if s.lane.Started? then
        s.(readiness := WithState(r, StateAfter(s.lane.before, outcome)),
           lane := Claimed(outcome == GlobalFailure))
      else s
    case Release => s.(lane := Free)
  }

  const INITIAL := Sys(Readiness(IDLE, 0), Resting, Free)

  ghost predicate IsRun(states: seq<Sys>, evs: seq<Event>) {
    && |states| == |evs| + 1
    && states[0] == INITIAL
    && forall i :: 0 <= i < |evs| ==> Enabled(states[i], evs[i]) && states[i + 1] == Apply(states[i], evs[i])
  }

  // ----- The reachable states -----

  predicate LaneMatches(lane: Lane, state: ControlState) {
    match lane
    case Free => state != BUSY
    case Claimed(_) => state != BUSY
    case Active(before) => before != BUSY && (state == before || (state == IDLE && NotReady(before)))
    case Started(before) => before != BUSY && (state == BUSY || (state == IDLE && NotReady(before)))
  }

  // A recovery attempt is under way only while the bridge is not ready, or
  // while it runs a command it started when not ready.
  predicate Recovering(s: Sys) {
    NotReady(s.readiness.state) || (s.lane.Started? && NotReady(s.lane.before) && s.readiness.state == BUSY)
  }

  predicate Inv(s: Sys) {
    var state, n := s.readiness.state, s.readiness.successes;
    && n <= CONTROL_RECOVERY_REQUIRED_PROBES
    && LaneMatches(s.lane, state)
    && (!s.recovery.Resting? ==> Recovering(s))
    && (state == BUSY ==> n <= 1 && (!s.recovery.Resting? ==> n == 0))
    && (NotReady(state) && !s.recovery.Deciding? ==> n <= 1)
    && (s.recovery.Deciding? ==> n != 1)
  }

  lemma ApplyKeepsInv(s: Sys, ev: Event)
    requires Inv(s) && Enabled(s, ev)
    ensures Inv(Apply(s, ev))
  {
  }

  /** At rest the counter is at most 1 while the bridge is degraded or in error,
      and while it is busy. */
  lemma {:induction false} ReachableIsInv(states: seq<Sys>, evs: seq<Event>, k: nat)
    requires IsRun(states, evs) && k <= |evs|
    ensures Inv(states[k])
    ensures states[k].recovery.Resting? && states[k].readiness.state != IDLE ==> states[k].readiness.successes <= 1
  {
    if k > 0 {
      ReachableIsInv(states, evs, k - 1);
      ApplyKeepsInv(states[k - 1], evs[k - 1]);
    }
  }

  // ----- What either thread does undisturbed -----

  /** What may happen at any time: a refresh probe and a failed gate while no attempt is
      under way, an abort inside, any result of a probe, and any outcome of a command
      once the manager is free. */
  lemma AnytimeMayHappen(s: Sys, ok: bool, outcome: Outcome)
    ensures s.recovery.Resting? <==> Enabled(s, RefreshProbe(ok))
    ensures s.recovery.Resting? && NotReady(s.readiness.state) <==> Enabled(s, GateFailed)
    ensures s.recovery.Gated? <==> Enabled(s, InnerAbort)
    ensures s.recovery.Probing? <==> Enabled(s, ProbeReturned(ok))
    ensures s.lane.Started? && (s.recovery.Resting? || s.recovery.Probed? || s.recovery.Deciding?) <==>
            Enabled(s, Finish(outcome))
    ensures s.lane.Claimed? <==> Enabled(s, Release)
    ensures s.recovery.Gated? && s.lane.Free? <==> Enabled(s, InnerPassed)
  {
  }

  /** Outside an attempt a bad probe and a failed gate set the counter back; a good probe
      counts only while the bridge is IDLE, up to 2. */
  lemma ProbesOutside(s: Sys, ok: bool)
    ensures Apply(s, GateFailed) == s.(readiness := Readiness(s.readiness.state, 0))
    ensures var s' := Apply(s, RefreshProbe(ok));
            && s' == s.(readiness := Readiness(s.readiness.state, s'.readiness.successes))
            && (!ok ==> s'.readiness.successes == 0)
            && (ok && s.readiness.state != IDLE ==> s' == s)
            && (ok && s.readiness.state == IDLE ==>
                  s'.readiness.successes == if s.readiness.successes == 0 then 1 else 2)
  {
  }

  /** A recovery attempt that nothing disturbs does in its steps what
      `ConsiderControlRecovery` does at once: it passes the gate exactly when no command
      is claimed, goes IDLE exactly on a good probe that is not the first, and otherwise
      keeps the state and counts the probe. An abort inside leaves all as it was. */
  lemma UndisturbedAttempt(s: Sys, ok: bool)
    requires s.recovery.Resting? && NotReady(s.readiness.state)
    ensures Enabled(s, GatePassed) <==> s.lane.Free?
    ensures s.lane.Free? ==>
              var gated := Apply(s, GatePassed);
              Enabled(gated, InnerAbort) && Apply(gated, InnerAbort) == s && Enabled(gated, InnerPassed) &&
              var probing := Apply(gated, InnerPassed);
              Enabled(probing, ProbeReturned(ok)) &&
              var probed := Apply(probing, ProbeReturned(ok));
              Enabled(probed, RecordProbe) &&
              var recorded := Apply(probed, RecordProbe);
              if ok && s.readiness.successes >= 1 then
                && Enabled(recorded, Flip) && recorded.lane.Free? && recorded.readiness.state == s.readiness.state
                && Apply(recorded, Flip) == Sys(Readiness(IDLE, CONTROL_RECOVERY_REQUIRED_PROBES), Resting, Free)
              else recorded == s.(readiness := Readiness(s.readiness.state, if ok then 1 else 0))
  {
  }

  /** A batch of one command that nothing disturbs is blocked exactly when it is claimed
      in ERROR. The command runs in BUSY with the counter at 0, and leaves IDLE only if it
      succeeded and the bridge was ready before it, ERROR and a blocked batch exactly
      when it failed globally, and DEGRADED otherwise. */
  lemma UndisturbedCommand(s: Sys, outcome: Outcome)
    requires s.recovery.Resting? && s.lane.Free?
    ensures Enabled(s, Claim) &&
            var claimed := Apply(s, Claim);
            && (Enabled(claimed, Activate) <==> s.readiness.state != ERROR)
            && claimed.readiness == s.readiness && Enabled(claimed, Release) && Apply(claimed, Release) == s
    ensures s.readiness.state != ERROR ==>
              var active := Apply(Apply(s, Claim), Activate);
              Enabled(active, Start) &&
              var started := Apply(active, Start);
              started.readiness == Readiness(BUSY, 0) && Enabled(started, Finish(outcome)) &&
              var finished := Apply(started, Finish(outcome));
              && (finished.readiness.state == IDLE <==> outcome.Success? && !NotReady(s.readiness.state))
              && (finished.readiness.state == ERROR <==> outcome.GlobalFailure?)
              && (finished.readiness.state == DEGRADED <==>
                    outcome.RoomFailure? || (outcome.Success? && NotReady(s.readiness.state)))
              && finished.readiness.successes == 0 && finished.recovery.Resting?
              && finished.lane == Claimed(outcome.GlobalFailure?)
  {
  }

  // ----- The only way back to IDLE -----

  ghost predicate Unready(s: Sys) {
    Recovering(s) && (s.lane.Active? ==> NotReady(s.lane.before))
  }

  lemma {:induction false} UnreadyUntilFlip(states: seq<Sys>, evs: seq<Event>, a: nat, k: nat)
    requires IsRun(states, evs) && a <= k <= |evs| && NotReady(states[a].readiness.state)
    requires forall i :: a <= i < k ==> !evs[i].Flip?
    ensures Unready(states[k])
    decreases k
  {
    ReachableIsInv(states, evs, k);
    if k > a {
      UnreadyUntilFlip(states, evs, a, k - 1);
      ReachableIsInv(states, evs, k - 1);
    }
  }

  /** After DEGRADED or ERROR the bridge is IDLE again only if recovery flipped
      it in between: no command outcome, however successful, does that. */
  lemma OnlyRecoveryReturnsToIdle(states: seq<Sys>, evs: seq<Event>, a: nat, b: nat)
    requires IsRun(states, evs) && a <= b <= |evs|
    requires NotReady(states[a].readiness.state) && states[b].readiness.state == IDLE
    ensures exists k :: a <= k < b && evs[k].Flip?
  {
    if forall i :: a <= i < b ==> !evs[i].Flip? {
      UnreadyUntilFlip(states, evs, a, b);
    }
  }

  // ----- Two probes -----

  predicate GoodRecord(s: Sys, ev: Event) {
    ev.RecordProbe? && s.recovery == Probed(true)
  }

  predicate Resets(s: Sys, ev: Event) {
    || ev.GateFailed?
    || ev == RefreshProbe(false)
    || (ev.RecordProbe? && s.recovery == Probed(false))
    || ev.Start?
    || (ev.Finish? && s.lane.Started? && StateAfter(s.lane.before, ev.outcome) != IDLE)
  }

  ghost predicate Undisturbed(states: seq<Sys>, evs: seq<Event>, lo: nat, hi: nat)
    requires |states| == |evs| + 1
  {
    forall l :: lo <= l < hi && l < |evs| ==> !Resets(states[l], evs[l])
  }

  ghost predicate OneProbeBehind(states: seq<Sys>, evs: seq<Event>, k: nat)
    requires |states| == |evs| + 1
  {
    exists i :: 0 <= i < k && i < |evs| && GoodRecord(states[i], evs[i]) && Undisturbed(states, evs, i + 1, k)
  }

  ghost predicate TwoProbes(states: seq<Sys>, evs: seq<Event>, i: nat, j: nat)
    requires |states| == |evs| + 1
  {
    && i < j < |evs|
    && GoodRecord(states[i], evs[i]) && GoodRecord(states[j], evs[j])
    && Undisturbed(states, evs, i + 1, j)
  }

  ghost predicate TwoProbesBehind(states: seq<Sys>, evs: seq<Event>, k: nat)
    requires |states| == |evs| + 1
  {
    exists i: nat, j: nat :: TwoProbes(states, evs, i, j) && j < k &&
      forall l :: j < l < k && l < |evs| ==> !evs[l].RecordProbe?
  }

  lemma {:induction false} CounterMeansProbes(states: seq<Sys>, evs: seq<Event>, k: nat)
    requires IsRun(states, evs) && k <= |evs|
    ensures states[k].readiness.state != IDLE && states[k].readiness.successes == 1 ==> OneProbeBehind(states, evs, k)
    ensures states[k].recovery.Deciding? ==> TwoProbesBehind(states, evs, k)
  {
    if k > 0 {
      CounterMeansProbes(states, evs, k - 1);
      ReachableIsInv(states, evs, k - 1);
      ReachableIsInv(states, evs, k);
      var s, s', ev := states[k - 1], states[k], evs[k - 1];
      if s'.readiness.state != IDLE && s'.readiness.successes == 1 {
        OneProbeStep(states, evs, k);
      }
      if s'.recovery.Deciding? {
        TwoProbesStep(states, evs, k);
      }
    }
  }

  lemma OneProbeStep(states: seq<Sys>, evs: seq<Event>, k: nat)
    requires IsRun(states, evs) && 0 < k <= |evs| && Inv(states[k - 1]) && Inv(states[k])
    requires states[k - 1].readiness.state != IDLE && states[k - 1].readiness.successes == 1 ==>
               OneProbeBehind(states, evs, k - 1)
    requires states[k].readiness.state != IDLE && states[k].readiness.successes == 1
    ensures OneProbeBehind(states, evs, k)
  {
  }

  lemma TwoProbesStep(states: seq<Sys>, evs: seq<Event>, k: nat)
    requires IsRun(states, evs) && 0 < k <= |evs| && Inv(states[k - 1])
    requires states[k - 1].readiness.state != IDLE && states[k - 1].readiness.successes == 1 ==>
               OneProbeBehind(states, evs, k - 1)
    requires states[k - 1].recovery.Deciding? ==> TwoProbesBehind(states, evs, k - 1)
    requires states[k].recovery.Deciding?
    ensures TwoProbesBehind(states, evs, k)
  {
    var s, ev := states[k - 1], evs[k - 1];
    if ev.RecordProbe? {
      assert GoodRecord(s, ev) && s.readiness.successes == 1;
      var i :| 0 <= i < k - 1 && GoodRecord(states[i], evs[i]) && Undisturbed(states, evs, i + 1, k - 1);
      assert TwoProbes(states, evs, i, k - 1);
    } else {
      var i: nat, j: nat :| TwoProbes(states, evs, i, j) && j < k - 1 &&
        forall l :: j < l < k - 1 && l < |evs| ==> !evs[l].RecordProbe?;
      assert forall l :: j < l < k && l < |evs| ==> !evs[l].RecordProbe?;
    }
  }

  /** Recovery flips to IDLE only after two successful recovery probes with no
      failed gate, failed probe, failed refresh, command start or command
      failure between them; the second is the last probe recorded. */
  lemma FlipNeedsTwoProbes(states: seq<Sys>, evs: seq<Event>, k: nat)
    requires IsRun(states, evs) && k < |evs| && evs[k].Flip?
    ensures TwoProbesBehind(states, evs, k)
  {
    CounterMeansProbes(states, evs, k);
  }

  // ----- The gap between the decision and the flip -----

  lemma {:induction false} DecidedAndNotStarted(states: seq<Sys>, evs: seq<Event>, j: nat, k: nat)
    requires IsRun(states, evs) && j < k <= |evs| && evs[j].RecordProbe? && states[j + 1].recovery.Deciding?
    requires forall l :: j < l < k ==> !evs[l].Start? && !evs[l].Flip?
    ensures NotReady(states[k].readiness.state) && states[k].recovery.Deciding?
    ensures states[k].readiness.successes == CONTROL_RECOVERY_REQUIRED_PROBES
            || exists l :: j < l < k && Resets(states[l], evs[l])
    decreases k
  {
    ReachableIsInv(states, evs, j);
    ReachableIsInv(states, evs, k);
    if k > j + 1 {
      DecidedAndNotStarted(states, evs, j, k - 1);
      ReachableIsInv(states, evs, k - 1);
    }
  }

  /** Exactly when the flip is safe: it replaces DEGRADED or ERROR if and only if no
      command is running when it is made; otherwise it hides the running one. */
  lemma {:induction false} FlipIsSafeExactlyWhen(states: seq<Sys>, evs: seq<Event>, k: nat)
    requires IsRun(states, evs) && k < |evs| && evs[k].Flip?
    ensures NotReady(states[k].readiness.state) <==> !states[k].lane.Started?
    ensures states[k].lane.Started? <==> states[k + 1].readiness.state == IDLE && states[k + 1].lane.Started?
  {
    ReachableIsInv(states, evs, k);
  }

  /** The flip never overtakes a command, provided none started after the probe
      that decided it: the state it replaces is DEGRADED or ERROR. */
  lemma FlipReplacesUnready(states: seq<Sys>, evs: seq<Event>, j: nat, k: nat)
    requires IsRun(states, evs) && j < k < |evs| && evs[j].RecordProbe? && states[j + 1].recovery.Deciding?
    requires evs[k].Flip? && forall l :: j < l < k ==> !evs[l].Start? && !evs[l].Flip?
    ensures NotReady(states[k].readiness.state) && !states[k + 1].lane.Started?
  {
    DecidedAndNotStarted(states, evs, j, k);
    FlipIsSafeExactlyWhen(states, evs, k);
  }

  ghost predicate Reaches(s: Sys) {
    exists states: seq<Sys>, evs: seq<Event> :: IsRun(states, evs) && states[|evs|] == s
  }

  lemma Reach(s: Sys, ev: Event)
    requires Reaches(s) && Enabled(s, ev)
    ensures Reaches(Apply(s, ev))
  {
    var states: seq<Sys>, evs: seq<Event> :| IsRun(states, evs) && states[|evs|] == s;
    var states', evs' := states + [Apply(s, ev)], evs + [ev];
    forall i | 0 <= i < |evs'| ensures Enabled(states'[i], evs'[i]) && states'[i + 1] == Apply(states'[i], evs'[i]) {
      if i < |evs| {
        assert states'[i] == states[i] && states'[i + 1] == states[i + 1];
      }
    }
    assert IsRun(states', evs') && states'[|evs'|] == Apply(s, ev);
  }

  lemma ReachAfterProbe(n: nat)
    requires n < CONTROL_RECOVERY_REQUIRED_PROBES && Reaches(Sys(Readiness(DEGRADED, n), Resting, Free))
    ensures Reaches(Sys(Readiness(DEGRADED, n + 1), if n == 1 then Deciding else Resting, Free))
  {
    var r := Readiness(DEGRADED, n);
    Reach(Sys(r, Resting, Free), GatePassed);
    Reach(Sys(r, Gated, Free), InnerPassed);
    Reach(Sys(r, Probing, Free), ProbeReturned(true));
    Reach(Sys(r, Probed(true), Free), RecordProbe);
  }

  lemma ReachInitial()
    ensures Reaches(INITIAL)
  {
    var none: seq<Event> := [];
    assert IsRun([INITIAL], none) && [INITIAL][|none|] == INITIAL;
  }

  // A whole turn of the lane, started in state `before`.
  lemma ReachStarted(r: Readiness, p: Recovery)
    requires r.state != ERROR && Reaches(Sys(r, p, Free))
    ensures Reaches(Sys(Readiness(BUSY, 0), p, Started(r.state)))
  {
    Reach(Sys(r, p, Free), Claim);
    Reach(Sys(r, p, Claimed(false)), Activate);
    Reach(Sys(r, p, Active(r.state)), Start);
  }

  lemma ReachDegraded()
    ensures Reaches(Sys(Readiness(DEGRADED, 0), Resting, Free))
  {
    ReachInitial();
    ReachStarted(Readiness(IDLE, 0), Resting);
    Reach(Sys(Readiness(BUSY, 0), Resting, Started(IDLE)), Finish(RoomFailure));
    Reach(Sys(Readiness(DEGRADED, 0), Resting, Claimed(false)), Release);
  }

  /** The proviso is needed: a command that starts between the deciding probe and
      the flip runs while the bridge reports IDLE. */
  lemma FlipCanHideARunningCommand()
    ensures Reaches(Sys(Readiness(IDLE, 0), Resting, Started(DEGRADED)))
  {
    ReachDegraded();
    ReachAfterProbe(0);
    ReachAfterProbe(1);
    ReachStarted(Readiness(DEGRADED, 2), Deciding);
    Reach(Sys(Readiness(BUSY, 0), Deciding, Started(DEGRADED)), Flip);
  }
}
