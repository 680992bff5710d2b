// The registration protocol itself, against a remote whose every answer is
// chosen by the environment.

module ParkingServices {
  import opened Wrappers
  import opened Parking

  // The errors the remote itself can cause.
  predicate RemoteError(code: ErrorCode) {
    code != Disabled && code != AmbiguousResult && code != InvalidDiscount
  }

  // What the environment keeps to, if anything: the policy stays on, reads do not
  // fail, and saves are honest (an answered save did what it says, and a lost one
  // is reported as uncertain).
  datatype Remote = Remote(policyOn: bool, readsWork: bool, savesHonest: bool)
  {
    predicate Cooperates() { policyOn && readsWork && savesHonest }
  }

  // One parked car at the remote site. `saves` counts save requests, `effects`
  // those that took effect, `approvals` the policy checks that said yes; `approved`
  // is the last check's yes until a save spends it.
  class Entry {
    const remote: Remote
    var history: seq<Visit>
    var saves: nat
    var effects: nat
    var approvals: nat
    var approved: bool

    constructor (history: seq<Visit>, remote: Remote)
      ensures this.history == history && this.remote == remote && saves == 0 && effects == 0 && approvals == 0
      ensures !approved
    {
      this.history := history;
      this.remote := remote;
      saves, effects, approvals, approved := 0, 0, 0, false;
    }

    method PolicyCheck() returns (allowed: bool)
      modifies this`approvals, this`approved
      ensures approvals == old(approvals) + if allowed then 1 else 0
      ensures approved == allowed
      ensures remote.policyOn ==> allowed
    {
      allowed := *;
      allowed := allowed || remote.policyOn;
      approved := allowed;
      if allowed {
        approvals := approvals + 1;
      }
    }

    // A save is sent only on a policy approval of its own, which it spends. It takes
    // effect or it does not, whatever is answered.
    method Save(minutes: nat) returns (reply: Reply<bool>)
      requires approved
      modifies this`history, this`saves, this`effects, this`approved
      ensures saves == old(saves) + 1 && !approved
      ensures (history == old(history) && effects == old(effects))
              || (history == old(history) + [Visit(Some(minutes))] && effects == old(effects) + 1)
      ensures reply.Raised? ==> RemoteError(reply.code)
      ensures remote.savesHonest && reply.Answer? ==> (reply.value <==> effects == old(effects) + 1)
      ensures remote.savesHonest && reply.Raised? ==> reply.code == NetworkUncertain
    {
      saves, approved := saves + 1, false;
      reply := *;
      if reply.Raised? && (remote.savesHonest || !RemoteError(reply.code)) {
        reply := Raised(NetworkUncertain);
      }
      var applied := *;
      if remote.savesHonest && reply.Answer? {
        applied := reply.value;
      }
      if applied {
        history := history + [Visit(Some(minutes))];
        effects := effects + 1;
      }
    }

    // A read fails, or shows the history as it is.
    method Detail() returns (reply: Reply<seq<Visit>>)
      ensures reply.Answer? ==> reply.value == history
      ensures reply.Raised? ==> RemoteError(reply.code)
      ensures remote.readsWork ==> reply.Answer?
    {
      var code: ErrorCode := *;
      var fails := *;
      fails := fails && !remote.readsWork;
      reply := if fails then Raised(if RemoteError(code) then code else HttpError) else Answer(history);
    }

    method ReadMinutes() returns (reply: Reply<nat>)
      ensures reply.Answer? ==> CurrentMinutes(history) == Some(reply.value)
      ensures reply.Raised? ==> reply.code != Disabled
      ensures remote.readsWork && CurrentMinutes(history).Some? ==> reply.Answer?
    {
      var detail := Detail();
      match detail {
        case Raised(code) => reply := Raised(code);
        case Answer(h) => reply := CountMinutes(h);
      }
    }
  }

  // What the two-try protocol may leave behind, whatever was lost on the way.
  twostate predicate AtMostOneEffect(e: Entry, added: nat)
    reads e
  {
    && old(e.saves) <= e.saves <= old(e.saves) + 2
    && ((e.history == old(e.history) && e.effects == old(e.effects))
        || (e.history == old(e.history) + [Visit(Some(added))] && e.effects == old(e.effects) + 1))
    && e.saves - old(e.saves) <= e.approvals - old(e.approvals)
  }

  twostate predicate Untouched(e: Entry)
    reads e
  {
    e.history == old(e.history) && e.saves == old(e.saves) && e.effects == old(e.effects)
  }

  // Under a remote that cooperates, giving up takes two saves.
  twostate predicate TriedTwice(e: Entry)
    reads e
  {
    e.remote.Cooperates() ==> e.saves == old(e.saves) + 2
  }

  // The status and the minutes read back.
  type Verified = (Status, nat)

  method SaveWithVerification(e: Entry, before: nat, added: nat) returns (r: Reply<Verified>)
    requires CurrentMinutes(e.history) == Some(before) && added > 0
    modifies e
    ensures AtMostOneEffect(e, added)
    ensures r.Answer? ==> r.value.0 == SUCCESS || r.value.0 == NEEDS_REVIEW
    ensures r.Answer? && r.value.0 == SUCCESS ==> e.effects == old(e.effects) + 1 && r.value.1 == before + added
    ensures r == Raised(Disabled) ==> e.history == old(e.history) && e.effects == old(e.effects)
    ensures r.Raised? ==> !e.remote.Cooperates() && r.code != NetworkUncertain && r.code != SessionExpired
    ensures e.saves == old(e.saves) ==> r == Raised(Disabled)
    ensures r.Answer? && r.value.0 == NEEDS_REVIEW ==> TriedTwice(e)
    ensures e.remote.Cooperates() && e.saves == old(e.saves) + 1 ==> e.effects == old(e.effects) + 1
  {
    CurrentMinutesAppend(e.history, added);
    var allowed := e.PolicyCheck();
    if !allowed {
      return Raised(Disabled);
    }
    var settled;
    settled, r := FirstTry(e, before, added);
    if settled {
      return;
    }
    var recheck := e.ReadMinutes();
    if recheck.Raised? {
      return Answer((NEEDS_REVIEW, before));
    }
    if recheck.value >= before + added {
      return Answer((SUCCESS, recheck.value));
    }
    if recheck.value != before {
      return Answer((NEEDS_REVIEW, recheck.value));
    }
    allowed := e.PolicyCheck();
    if !allowed {
      return Raised(Disabled);
    }
    var again := e.Save(added);
    if again.Raised? || !again.value {
      return Answer((NEEDS_REVIEW, before));
    }
    var final := e.ReadMinutes();
    if final.Raised? {
      return Answer((NEEDS_REVIEW, before));
    }
    if final.value >= before + added {
      return Answer((SUCCESS, final.value));
    }
    r := Answer((NEEDS_REVIEW, final.value));
  }

  // The first save and its confirmation. Not settled means that only another
  // read can tell what happened.
  method FirstTry(e: Entry, before: nat, added: nat) returns (settled: bool, r: Reply<Verified>)
    requires CurrentMinutes(e.history) == Some(before) && e.approved
    requires CurrentMinutes(e.history + [Visit(Some(added))]) == Some(before + added) && added > 0
    modifies e`history, e`saves, e`effects, e`approved
    ensures e.saves == old(e.saves) + 1
    ensures (e.history == old(e.history) && e.effects == old(e.effects))
            || (e.history == old(e.history) + [Visit(Some(added))] && e.effects == old(e.effects) + 1)
    ensures settled && r.Answer? ==> r.value.0 == SUCCESS || r.value.0 == NEEDS_REVIEW
    ensures settled && r.Answer? && r.value.0 == SUCCESS ==>
              e.effects == old(e.effects) + 1 && r.value.1 == before + added
    ensures !settled ==> r == Raised(NetworkUncertain) || r == Raised(SessionExpired)
    ensures settled && r.Raised? ==> r.code != NetworkUncertain && r.code != SessionExpired && r.code != Disabled
    ensures e.remote.Cooperates() && settled ==> r.Answer? && r.value.0 == SUCCESS
  {
    var error;
    var saved := e.Save(added);
    match saved {
      case Answer(true) =>
        var confirmed := e.ReadMinutes();
        if confirmed.Answer? {
          return true, Answer(if confirmed.value >= before + added then (SUCCESS, confirmed.value)
                              else (NEEDS_REVIEW, before));
        }
        error := confirmed.code;
      case Answer(false) =>
        return false, Raised(NetworkUncertain);
      case Raised(code) =>
        error := code;
    }
    settled := error != NetworkUncertain && error != SessionExpired;
    r := Raised(error);
  }

  // What the detail page says about an entry beside its history.
  datatype Facts = Facts(preRegistered: bool, departed: bool, plateKnown: bool, options: seq<DiscountType>)

  // Everything decided before a save: stop with a reply, or add minutes.
  datatype Decision = Stop(reply: Reply<Status>) | Add(before: nat, minutes: nat)

  // Everything a registration needs besides a working connection.
  predicate Eligible(history: seq<Visit>, facts: Facts, dryRun: bool) {
    && !dryRun && !facts.preRegistered && !facts.departed && facts.plateKnown
    && CurrentMinutes(history).Some?
    && CurrentMinutes(history).value + MinutesToAdd(history) <= MAX_DISCOUNT_MINUTES
    && ChooseDiscountType(facts.options, MinutesToAdd(history)).Answer?
  }

  // When an entry that is not eligible gets each of the answers it can get.
  ghost predicate Refused(history: seq<Visit>, facts: Facts, dryRun: bool, reply: Reply<Status>) {
    var open := facts.plateKnown && !facts.preRegistered && !facts.departed;
    var readable := CurrentMinutes(history).Some?;
    var fits := readable && CurrentMinutes(history).value + (if history == [] then 120 else 60) <= 270;
    var chosen := ChooseDiscountType(facts.options, if history == [] then 120 else 60).Answer?;
    && (reply == Raised(InvalidResponse) <==> !facts.plateKnown)
    && (reply == Raised(InvalidDiscount) <==> open && !readable)
    && (reply == Answer(LIMIT_EXCEEDED) <==> open && readable && !fits)
    && (reply == Raised(AmbiguousResult) <==> open && fits && !chosen)
    && (reply == Answer(SKIPPED) <==> facts.plateKnown && (!open || (fits && chosen && dryRun)))
  }

  // The same for the status recorded for the entry.
  ghost predicate RefusedWith(history: seq<Visit>, facts: Facts, dryRun: bool, s: Status) {
    exists reply :: Refused(history, facts, dryRun, reply)
                    && s == if reply.Answer? then reply.value else StatusOfError(reply.code)
  }

  method Assess(e: Entry, facts: Facts, dryRun: bool) returns (d: Decision)
    ensures d.Stop? ==> d.reply != Answer(SUCCESS)
    ensures e.remote.readsWork && d.Stop? ==> Refused(e.history, facts, dryRun, d.reply)
    ensures d == Stop(Answer(LIMIT_EXCEEDED)) ==>
              && CurrentMinutes(e.history).Some?
              && CurrentMinutes(e.history).value + MinutesToAdd(e.history) > MAX_DISCOUNT_MINUTES
    ensures d.Add? ==>
              && CurrentMinutes(e.history) == Some(d.before) && d.minutes == MinutesToAdd(e.history)
              && Eligible(e.history, facts, dryRun)
    ensures e.remote.readsWork ==> (d.Add? <==> Eligible(e.history, facts, dryRun))
  {
    var detail := e.Detail();
    if detail.Raised? {
      return Stop(Raised(detail.code));
    }
    if !facts.plateKnown {
      return Stop(Raised(InvalidResponse));
    }
    if facts.preRegistered || facts.departed {
      return Stop(Answer(SKIPPED));
    }
    var counted := CountMinutes(detail.value);
    if counted.Raised? {
      return Stop(Raised(counted.code));
    }
    if counted.value >= MAX_DISCOUNT_MINUTES {
      return Stop(Answer(LIMIT_EXCEEDED));
    }
    var added := if detail.value == [] then 120 else 60;
    if counted.value + added > MAX_DISCOUNT_MINUTES {
      return Stop(Answer(LIMIT_EXCEEDED));
    }
    var code := ChooseDiscountType(facts.options, added);
    if code.Raised? {
      return Stop(Raised(code.code));
    }
    if dryRun {
      return Stop(Answer(SKIPPED));
    }
    d := Add(counted.value, added);
  }

  method ProcessEntry(e: Entry, facts: Facts, dryRun: bool) returns (r: Reply<Status>)
    modifies e
    ensures Registers(old(e.history), e.history) && AtMostOneEffect(e, MinutesToAdd(old(e.history)))
    ensures r == Answer(SUCCESS) ==>
              && e.effects == old(e.effects) + 1 && CurrentMinutes(old(e.history)).Some?
              && CurrentMinutes(e.history) == Some(CurrentMinutes(old(e.history)).value + MinutesToAdd(old(e.history)))
    ensures r == Answer(LIMIT_EXCEEDED) ==>
              && e.saves == old(e.saves) && CurrentMinutes(e.history).Some?
              && CurrentMinutes(e.history).value + MinutesToAdd(e.history) > MAX_DISCOUNT_MINUTES
    ensures e.remote.Cooperates() && Eligible(old(e.history), facts, dryRun) ==>
              r == Answer(SUCCESS) || (r == Answer(NEEDS_REVIEW) && e.saves == old(e.saves) + 2)
    ensures !Eligible(old(e.history), facts, dryRun) ==>
              Untouched(e) && (e.remote.readsWork ==> Refused(e.history, facts, dryRun, r))
  {
    ChosenCodeIsSafe(facts.options, MinutesToAdd(e.history));
    var d := Assess(e, facts, dryRun);
    match d {
      case Stop(reply) => r := reply;
      case Add(before, minutes) =>
        CurrentMinutesAppend(e.history, minutes);
        var verified := SaveWithVerification(e, before, minutes);
        r := if verified.Answer? then Answer(verified.value.0) else Raised(verified.code);
    }
  }

  // What one day's search finds; None is an item without an entry id.
  type Search = Reply<seq<Option<Entry>>>

  ghost function Found(search: Search): set<Entry> {
    if search.Answer? then set o | o in search.value && o.Some? :: o.value else {}
  }

  predicate Distinct(entries: seq<Entry>) {
    forall i, j | 0 <= i < j < |entries| :: entries[i] != entries[j]
  }

  // Each entry once, in the order it was first found.
  method Merge(matches: seq<Entry>, day: seq<Option<Entry>>) returns (merged: seq<Entry>)
    requires Distinct(matches)
    ensures Distinct(merged) && matches <= merged
    ensures forall e: Entry :: e in merged <==> e in matches || Some(e) in day
  {
    merged := matches;
    var i := 0;
    while i < |day|
      invariant 0 <= i <= |day| && Distinct(merged) && matches <= merged
      invariant forall e: Entry :: e in merged <==> e in matches || Some(e) in day[..i]
    {
      if day[i].Some? && day[i].value !in merged {
        merged := merged + [day[i].value];
      }
      i := i + 1;
    }
    assert day[..i] == day;
  }

  // Yesterday's and today's searches; an error in one ends the request.
  method Matches(yesterday: Search, today: Search) returns (r: Reply<seq<Entry>>)
    ensures r.Raised? <==> yesterday.Raised? || today.Raised?
    ensures r.Raised? ==> r.code == if yesterday.Raised? then yesterday.code else today.code
    ensures r.Answer? ==> Distinct(r.value) && forall e: Entry :: e in r.value <==> e in Found(yesterday) + Found(today)
  {
    if yesterday.Raised? {
      return Raised(yesterday.code);
    }
    var first := Merge([], yesterday.value);
    if today.Raised? {
      return Raised(today.code);
    }
    var both := Merge(first, today.value);
    r := Answer(both);
  }

  // Each entry in turn; an error of one is recorded and the next goes on.
  method ProcessAll(entries: seq<Entry>, facts: Entry -> Facts, dryRun: bool) returns (statuses: seq<Status>)
    requires Distinct(entries)
    modifies entries
    ensures |statuses| == |entries|
    ensures forall i :: 0 <= i < |entries| ==>
      && Registers(old(entries[i].history), entries[i].history)
      && entries[i].effects <= old(entries[i].effects) + 1
      && (statuses[i] == SUCCESS ==> entries[i].effects == old(entries[i].effects) + 1)
      && (!Eligible(old(entries[i].history), facts(entries[i]), dryRun) ==>
            && Untouched(entries[i])
            && (entries[i].remote.readsWork ==>
                  RefusedWith(entries[i].history, facts(entries[i]), dryRun, statuses[i])))
  {
    statuses := [];
    var i := 0;
    while i < |entries|
      invariant 0 <= i <= |entries| && |statuses| == i
      invariant forall k :: i <= k < |entries| ==> Untouched(entries[k])
      invariant forall k :: 0 <= k < i ==>
        && Registers(old(entries[k].history), entries[k].history)
        && entries[k].effects <= old(entries[k].effects) + 1
        && (statuses[k] == SUCCESS ==> entries[k].effects == old(entries[k].effects) + 1)
        && (!Eligible(old(entries[k].history), facts(entries[k]), dryRun) ==>
              && Untouched(entries[k])
              && (entries[k].remote.readsWork ==>
                    RefusedWith(entries[k].history, facts(entries[k]), dryRun, statuses[k])))
    {
      var result := ProcessEntry(entries[i], facts(entries[i]), dryRun);
      statuses := statuses + [if result.Answer? then result.value else StatusOfError(result.code)];
      i := i + 1;
    }
  }

  // `facts` is what each detail page says, `validQuery` whether four digits were asked for.
  method Register(validQuery: bool, policyAllows: bool, yesterday: Search, today: Search, facts: Entry -> Facts,
                  dryRun: bool) returns (overall: Status, entries: seq<Entry>, statuses: seq<Status>)
    modifies Found(yesterday) + Found(today)
    ensures Distinct(entries) && |statuses| == |entries|
    ensures forall i :: 0 <= i < |entries| ==> entries[i] in Found(yesterday) + Found(today)
    ensures !validQuery ==> overall == FAILED
    ensures validQuery && !policyAllows ==> overall == DISABLED
    ensures validQuery && policyAllows && yesterday.Raised? ==> overall == StatusOfError(yesterday.code)
    ensures validQuery && policyAllows && yesterday.Answer? && today.Raised? ==> overall == StatusOfError(today.code)
    ensures validQuery && policyAllows && yesterday.Answer? && today.Answer? ==>
      && (forall e: Entry :: e in entries <==> e in Found(yesterday) + Found(today))
      && overall == if entries == [] then NOT_FOUND else OverallStatus(statuses)
    ensures !(validQuery && policyAllows && yesterday.Answer? && today.Answer?) ==> entries == []
    ensures forall e: Entry :: e in Found(yesterday) + Found(today) && e !in entries ==> Untouched(e)
    ensures forall i :: 0 <= i < |entries| ==>
      && Registers(old(entries[i].history), entries[i].history)
      && entries[i].effects <= old(entries[i].effects) + 1
      && (statuses[i] == SUCCESS ==> entries[i].effects == old(entries[i].effects) + 1)
      && (!Eligible(old(entries[i].history), facts(entries[i]), dryRun) ==>
            && Untouched(entries[i])
            && (entries[i].remote.readsWork ==>
                  RefusedWith(entries[i].history, facts(entries[i]), dryRun, statuses[i])))
  {
    if !validQuery {
      return FAILED, [], [];
    }
    if !policyAllows {
      return DISABLED, [], [];
    }
    var matches := Matches(yesterday, today);
    if matches.Raised? {
      return StatusOfError(matches.code), [], [];
    }
    if matches.value == [] {
      return NOT_FOUND, [], [];
    }
    entries := matches.value;
    forall i | 0 <= i < |entries| ensures entries[i] in Found(yesterday) + Found(today) {
      assert entries[i] in entries;
    }
    statuses := ProcessAll(entries, facts, dryRun);
    overall := OverallStatus(statuses);
  }
}
