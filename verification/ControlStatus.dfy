// The bridge's control readiness: the global state, the probe counter behind
// its recovery, and the commands claimed or running.

module ControlStatuses {
  import opened Numbers

  type Id = string

  const CONTROL_RECOVERY_REQUIRED_PROBES: nat := 2

  datatype ControlState = IDLE | BUSY | DEGRADED | ERROR

  predicate NotReady(s: ControlState) {
    s == DEGRADED || s == ERROR
  }

  datatype Readiness = Readiness(state: ControlState, successes: nat)

  // _set_control_status
  function WithState(r: Readiness, state: ControlState): Readiness {
    Readiness(state, if state == IDLE then r.successes else 0)
  }

  // _record_manager_probe_result
  function WithProbe(r: Readiness, success: bool, countForRecovery: bool): Readiness {
    if !success then r.(successes := 0)
    else if countForRecovery || r.state == IDLE
    then r.(successes := if r.successes + 1 < CONTROL_RECOVERY_REQUIRED_PROBES then r.successes + 1
                         else CONTROL_RECOVERY_REQUIRED_PROBES)
    else r
  }

  // One probe: its result, and whether it is a recovery probe.
  datatype Probe = Probe(success: bool, recovery: bool)

  function AfterProbes(r: Readiness, probes: seq<Probe>): Readiness {
    if probes == [] then r
    else
      var n := |probes| - 1;
      WithProbe(AfterProbes(r, probes[..n]), probes[n].success, probes[n].recovery)
  }

  predicate AllGood(probes: seq<Probe>) {
    forall i | 0 <= i < |probes| :: probes[i].success
  }

  // The good probes that count, back to the last bad one: those of a recovery, or
  // all of them while the state is IDLE.
  function CountedSinceBad(probes: seq<Probe>, idle: bool): nat {
    if probes == [] || !probes[|probes| - 1].success then 0
    else
      var n := |probes| - 1;
      CountedSinceBad(probes[..n], idle) + if idle || probes[n].recovery then 1 else 0
  }

  /** The counter is, up to the number recovery asks for, how many good probes
      counted since the last bad one; probes alone never change the state. */
  lemma {:induction false} CounterCountsProbes(r: Readiness, probes: seq<Probe>)
    requires r.successes <= CONTROL_RECOVERY_REQUIRED_PROBES
    ensures var counted := CountedSinceBad(probes, r.state == IDLE) + if AllGood(probes) then r.successes else 0;
            AfterProbes(r, probes) == Readiness(r.state, Min(counted, CONTROL_RECOVERY_REQUIRED_PROBES))
  {
    if probes != [] {
      var n := |probes| - 1;
      CounterCountsProbes(r, probes[..n]);
      assert AllGood(probes) <==> AllGood(probes[..n]) && probes[n].success;
    }
  }

  class ControlStatus {
    var state: ControlState
    var successes: nat
    var lastError: string
    var activeCommandId: Id
    var claimed: set<Id>

    ghost function View(): Readiness
      reads this
    {
      Readiness(state, successes)
    }

    constructor ()
      ensures View() == Readiness(IDLE, 0) && activeCommandId == "" && claimed == {} && lastError == ""
    {
      state, successes := IDLE, 0;
      lastError, activeCommandId, claimed := "", "", {};
    }

    method SetControlStatus(newState: ControlState, error: string)
      modifies this`state, this`successes, this`lastError
      ensures View() == WithState(old(View()), newState)
      ensures lastError == if newState == IDLE then "" else if NotReady(newState) then error else old(lastError)
    {
      state := newState;
      if newState == IDLE {
        lastError := "";
      } else if newState == ERROR || newState == DEGRADED {
        lastError := error;
        successes := 0;
      } else if newState == BUSY {
        successes := 0;
      }
    }

    method RecordManagerProbeResult(success: bool, countForRecovery: bool) returns (count: nat)
      modifies this`successes
      ensures View() == WithProbe(old(View()), success, countForRecovery) && count == successes
    {
      if success {
        if countForRecovery || state == IDLE {
          successes := if successes + 1 < CONTROL_RECOVERY_REQUIRED_PROBES then successes + 1
                       else CONTROL_RECOVERY_REQUIRED_PROBES;
        }
      } else {
        successes := 0;
      }
      count := successes;
    }

    // `environmentFresh`: heartbeat, control loop, room states and the manager
    // window are all fresh. `unresolved`/`unresolvedInside`: the ledger's answer
    // at the outer gate and again under the manager lock.
    method ConsiderControlRecovery(environmentFresh: bool, unresolved: bool, lockFree: bool,
                                   unresolvedInside: bool, probeOk: bool) returns (recovered: bool)
      modifies this`state, this`successes, this`lastError
      ensures var quiet := activeCommandId == "" && claimed == {};
              var gateOpen := environmentFresh && quiet && !unresolved && lockFree;
              && recovered == (NotReady(old(state)) && gateOpen && !unresolvedInside && probeOk && old(successes) >= 1)
              && state == (if recovered then IDLE else old(state))
              && successes == (if !NotReady(old(state)) then old(successes)
                               else if !gateOpen then 0
                               else if unresolvedInside then old(successes)
                               else if !probeOk then 0
                               else if old(successes) == 0 then 1 else CONTROL_RECOVERY_REQUIRED_PROBES)
      ensures lastError == if recovered then "" else old(lastError)
    {
      if state != DEGRADED && state != ERROR {
        return false;
      }
      if !environmentFresh || activeCommandId != "" || claimed != {} || unresolved {
        successes := 0;
        return false;
      }
      if !lockFree {
        successes := 0;
        return false;
      }
      if activeCommandId != "" || claimed != {} || unresolvedInside {
        return false;
      }
      var count := RecordManagerProbeResult(probeOk, true);
      if probeOk && count >= CONTROL_RECOVERY_REQUIRED_PROBES {
        SetControlStatus(IDLE, "");
        return true;
      }
      recovered := false;
    }
  }
}
