// Registering parking discounts with a remote site that may lose requests and
// answers: save, read back, save once more at most.
//
// The service is the only writer between its reads, and a save takes effect
// once or not at all before it returns or fails. Names and raw fields of the
// site's answers are abstracted to what the service reads out of them.

module Parking {
  import opened Wrappers

  const MAX_DISCOUNT_MINUTES: nat := 270

  // One discount in an entry's history; `minutes` is None when it cannot be read.
  datatype Visit = Visit(minutes: Option<nat>)

  datatype DiscountType = DiscountType(code: string, minutes: Option<nat>, paid: bool, addOnHour: bool,
                                       freeTwoHours: bool)

  datatype ErrorCode = NetworkUncertain | SessionExpired | InvalidDiscount | AmbiguousResult | Disabled
                     | InvalidResponse | SaveRejected | HttpError

  datatype Status = SUCCESS | SKIPPED | LIMIT_EXCEEDED | NEEDS_REVIEW | DISABLED | SESSION_EXPIRED
                  | AMBIGUOUS_RESULT | INVALID_DISCOUNT | FAILED | NOT_FOUND

  datatype Reply<T> = Answer(value: T) | Raised(code: ErrorCode)

  // ----- Reading a history -----

  // None when some discount cannot be read.
  function CurrentMinutes(history: seq<Visit>): Option<nat> {
    if history == [] then Some(0)
    else
      var before := CurrentMinutes(history[..|history| - 1]);
      var last := history[|history| - 1].minutes;
      if before.None? || last.None? then None else Some(before.value + last.value)
  }

  lemma CurrentMinutesAppend(history: seq<Visit>, minutes: nat)
    requires CurrentMinutes(history).Some?
    ensures CurrentMinutes(history + [Visit(Some(minutes))]) == Some(CurrentMinutes(history).value + minutes)
  {
    assert (history + [Visit(Some(minutes))])[..|history|] == history;
  }

  lemma {:induction false} CurrentMinutesPrefix(history: seq<Visit>, i: nat)
    requires i <= |history| && CurrentMinutes(history).Some?
    ensures CurrentMinutes(history[..i]).Some?
  {
    if i < |history| {
      CurrentMinutesPrefix(history[..|history| - 1], i);
      assert history[..|history| - 1][..i] == history[..i];
    } else {
      assert history[..i] == history;
    }
  }

  method CountMinutes(history: seq<Visit>) returns (r: Reply<nat>)
    ensures r == if CurrentMinutes(history).Some? then Answer(CurrentMinutes(history).value)
                 else Raised(InvalidDiscount)
  {
    var total := 0;
    var i := 0;
    while i < |history|
      invariant 0 <= i <= |history| && CurrentMinutes(history[..i]) == Some(total)
    {
      assert history[..i + 1][..i] == history[..i];
      if history[i].minutes.None? {
        if CurrentMinutes(history).Some? {
          CurrentMinutesPrefix(history, i + 1);
        }
        return Raised(InvalidDiscount);
      }
      total := total + history[i].minutes.value;
      i := i + 1;
    }
    assert history[..i] == history;
    r := Answer(total);
  }

  // ----- Choosing a discount code -----

  predicate Candidate(o: DiscountType, minutes: nat) {
    o.minutes == Some(minutes) && o.code != "" && !o.paid
  }

  predicate Preferred(o: DiscountType, minutes: nat) {
    Candidate(o, minutes) && ((minutes == 60 && o.addOnHour) || (minutes == 120 && o.freeTwoHours))
  }

  function SelectedCodes(options: seq<DiscountType>, minutes: nat): set<string> {
    var preferred := set o | o in options && Preferred(o, minutes) :: o.code;
    if preferred != {} then preferred else set o | o in options && Candidate(o, minutes) :: o.code
  }

  function ChooseDiscountType(options: seq<DiscountType>, minutes: nat): Reply<string> {
    var codes := SelectedCodes(options, minutes);
    if |codes| == 1 then Answer(TheOnly(codes)) else Raised(AmbiguousResult)
  }

  function TheOnly(codes: set<string>): (code: string)
    requires |codes| == 1
    ensures codes == {code}
  {
    SingletonMember(codes);
    var code :| code in codes;
    code
  }

  lemma SingletonMember(codes: set<string>)
    requires |codes| == 1
    ensures exists code :: code in codes
    ensures forall a, b :: a in codes && b in codes ==> a == b && codes == {a}
  {
    assert codes != {};
    forall a, b | a in codes && b in codes ensures a == b && codes == {a} {
      assert |codes - {a}| == 0;
      assert codes == {a};
    }
  }

  // The choice is not empty and all of it carries one code.
  ghost predicate OnlyCode(choice: set<DiscountType>, code: string) {
    choice != {} && forall o :: o in choice ==> o.code == code
  }

  // What may be chosen from: the free discounts of the asked length that have a code, or
  // those of them that carry the preferred name for it if there are any.
  ghost function Choice(options: seq<DiscountType>, minutes: nat): (choice: set<DiscountType>)
    ensures forall o :: o in choice ==> o in options && o.minutes == Some(minutes) && o.code != "" && !o.paid
  {
    var free := set o | o in options && o.minutes == Some(minutes) && o.code != "" && !o.paid;
    var named := set o | o in free && (if minutes == 60 then o.addOnHour else minutes == 120 && o.freeTwoHours);
    if named != {} then named else free
  }

  /** A code is chosen exactly when the choice leaves only one: it is never empty, of the
      asked length, and never costs money, and a preferred name wins over all others. */
  lemma ChosenCodeIsSafe(options: seq<DiscountType>, minutes: nat)
    ensures var r := ChooseDiscountType(options, minutes);
            && (r.Answer? <==> exists code :: OnlyCode(Choice(options, minutes), code))
            && (r.Answer? ==> OnlyCode(Choice(options, minutes), r.value) && r.value != "")
            && (r.Raised? ==> r.code == AmbiguousResult)
  {
    var codes, choice := SelectedCodes(options, minutes), Choice(options, minutes);
    SelectedAreChoice(options, minutes);
    if |codes| == 1 {
      var code := TheOnly(codes);
      assert code in codes;
      forall o | o in choice ensures o.code == code {
        assert o.code in codes;
      }
      assert OnlyCode(choice, code);
    }
    forall code | OnlyCode(choice, code) ensures codes == {code} {
      var o :| o in choice;
      assert o.code in codes;
    }
  }

  lemma SelectedAreChoice(options: seq<DiscountType>, minutes: nat)
    ensures SelectedCodes(options, minutes) == set o | o in Choice(options, minutes) :: o.code
  {
    var free := set o | o in options && o.minutes == Some(minutes) && o.code != "" && !o.paid;
    var named := set o | o in free && (if minutes == 60 then o.addOnHour else minutes == 120 && o.freeTwoHours);
    var preferred := set o | o in options && Preferred(o, minutes) :: o.code;
    assert preferred == set o | o in named :: o.code;
    assert (set o | o in options && Candidate(o, minutes) :: o.code) == set o | o in free :: o.code;
    if named != {} {
      var o :| o in named;
      assert o.code in preferred;
    }
  }

  // ----- One registration, seen from outside -----

  function MinutesToAdd(history: seq<Visit>): nat {
    if history == [] then 120 else 60
  }

  // What one registration may do to an entry's history: nothing, or one readable
  // discount that keeps the total within the limit.
  predicate Registers(before: seq<Visit>, after: seq<Visit>) {
    || after == before
    || (&& CurrentMinutes(before).Some?
        && CurrentMinutes(before).value + MinutesToAdd(before) <= MAX_DISCOUNT_MINUTES
        && after == before + [Visit(Some(MinutesToAdd(before)))])
  }

  lemma RegistrationKeepsLimit(before: seq<Visit>, after: seq<Visit>)
    requires Registers(before, after) && CurrentMinutes(before).Some?
    ensures CurrentMinutes(after).Some?
    ensures CurrentMinutes(before).value <= MAX_DISCOUNT_MINUTES ==> CurrentMinutes(after).value <= MAX_DISCOUNT_MINUTES
    ensures CurrentMinutes(before).value > MAX_DISCOUNT_MINUTES ==> after == before
  {
  }

  ghost predicate IsRun(histories: seq<seq<Visit>>) {
    forall i :: 0 <= i < |histories| - 1 ==> Registers(histories[i], histories[i + 1])
  }

  /** From any readable history the total never passes 270 minutes because of us,
      over any sequence of registrations. */
  lemma {:induction false} RunsKeepLimit(histories: seq<seq<Visit>>, k: nat)
    requires IsRun(histories) && k < |histories| && CurrentMinutes(histories[0]).Some?
    ensures CurrentMinutes(histories[k]).Some?
    ensures CurrentMinutes(histories[0]).value <= 270 ==> CurrentMinutes(histories[k]).value <= 270
    ensures CurrentMinutes(histories[0]).value > 270 ==> histories[k] == histories[0]
  {
    if k > 0 {
      RunsKeepLimit(histories, k - 1);
      RegistrationKeepsLimit(histories[k - 1], histories[k]);
    }
  }

  /** Starting without discounts, an entry only ever holds 0, 120, 180 or 240
      minutes, in that order. */
  lemma {:induction false} FreshEntryTotals(histories: seq<seq<Visit>>, k: nat)
    requires IsRun(histories) && k < |histories| && histories[0] == []
    ensures |histories[k]| <= 3
    ensures CurrentMinutes(histories[k]) == Some(if histories[k] == [] then 0 else 60 + 60 * |histories[k]|)
  {
    if k > 0 {
      FreshEntryTotals(histories, k - 1);
      var before, after := histories[k - 1], histories[k];
      assert Registers(before, after);
      if after != before {
        CurrentMinutesAppend(before, MinutesToAdd(before));
      }
    }
  }

  // ----- The summary of a request -----

  predicate IsError(s: Status) {
    || s == NEEDS_REVIEW || s == DISABLED || s == SESSION_EXPIRED
    || s == AMBIGUOUS_RESULT || s == INVALID_DISCOUNT || s == FAILED
  }

  // The first error status, in this order, that some entry has.
  const ERROR_PRIORITY: seq<Status> :=
    [NEEDS_REVIEW, DISABLED, SESSION_EXPIRED, AMBIGUOUS_RESULT, INVALID_DISCOUNT, FAILED]

  function FirstIn(order: seq<Status>, statuses: seq<Status>): Option<Status> {
    if order == [] then None
    else if order[0] in statuses then Some(order[0])
    else FirstIn(order[1..], statuses)
  }

  function OverallStatus(statuses: seq<Status>): Status {
    var error := FirstIn(ERROR_PRIORITY, statuses);
    if error.Some? then error.value
    else if SUCCESS in statuses then SUCCESS
    else if LIMIT_EXCEEDED in statuses then LIMIT_EXCEEDED
    else SKIPPED
  }

  lemma {:induction false} FirstInFinds(order: seq<Status>, statuses: seq<Status>)
    ensures FirstIn(order, statuses).None? <==> forall s :: s in order ==> s !in statuses
    ensures FirstIn(order, statuses).Some? ==>
              FirstIn(order, statuses).value in order && FirstIn(order, statuses).value in statuses
  {
    if order != [] {
      FirstInFinds(order[1..], statuses);
      assert order == [order[0]] + order[1..];
    }
  }

  lemma {:induction false} FirstInIsFirst(order: seq<Status>, statuses: seq<Status>)
    ensures forall k | 0 <= k < |order| && order[k] in statuses ::
              (forall j | 0 <= j < k :: order[j] !in statuses) ==> FirstIn(order, statuses) == Some(order[k])
  {
    if order != [] && order[0] !in statuses {
      FirstInIsFirst(order[1..], statuses);
      forall k | 0 <= k < |order| && order[k] in statuses && (forall j | 0 <= j < k :: order[j] !in statuses)
        ensures FirstIn(order, statuses) == Some(order[k])
      {
        assert order[1..][k - 1] == order[k];
        forall j | 0 <= j < k - 1 ensures order[1..][j] !in statuses {
          assert order[1..][j] == order[j + 1];
        }
      }
    }
  }

  /** A request succeeds exactly when some entry succeeded and none ended in an
      error; an error is never hidden by a success. */
  lemma SuccessHidesNoError(statuses: seq<Status>)
    ensures OverallStatus(statuses) == SUCCESS <==> SUCCESS in statuses && forall s :: s in statuses ==> !IsError(s)
    ensures IsError(OverallStatus(statuses)) <==> exists s :: s in statuses && IsError(s)
    ensures IsError(OverallStatus(statuses)) ==> OverallStatus(statuses) in statuses
    ensures forall k | 0 <= k < |ERROR_PRIORITY| && ERROR_PRIORITY[k] in statuses ::
              (forall j | 0 <= j < k :: ERROR_PRIORITY[j] !in statuses) ==> OverallStatus(statuses) == ERROR_PRIORITY[k]
    ensures OverallStatus(statuses) == LIMIT_EXCEEDED <==>
              LIMIT_EXCEEDED in statuses && forall s :: s in statuses ==> !IsError(s) && s != SUCCESS
  {
    FirstInFinds(ERROR_PRIORITY, statuses);
    FirstInIsFirst(ERROR_PRIORITY, statuses);
    assert forall s :: IsError(s) <==> s in ERROR_PRIORITY;
  }

  function StatusOfError(code: ErrorCode): (s: Status)
    ensures s.SESSION_EXPIRED? <==> code.SessionExpired?
    ensures s.INVALID_DISCOUNT? <==> code.InvalidDiscount?
    ensures s.AMBIGUOUS_RESULT? <==> code.AmbiguousResult?
    ensures s.DISABLED? <==> code.Disabled?
    ensures s.SESSION_EXPIRED? || s.INVALID_DISCOUNT? || s.AMBIGUOUS_RESULT? || s.DISABLED? || s.FAILED?
  {
    match code
    case SessionExpired => SESSION_EXPIRED
    case InvalidDiscount => INVALID_DISCOUNT
    case AmbiguousResult => AMBIGUOUS_RESULT
    case Disabled => DISABLED
    case NetworkUncertain => FAILED
    case InvalidResponse => FAILED
    case SaveRejected => FAILED
    case HttpError => FAILED
  }
}
