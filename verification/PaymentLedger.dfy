// Split plans and the ledger that derives a payment's whole status from its
// attempts.

module PaymentLedger {
  import opened Numbers

  datatype Method = Card | Cash | Account | Coupon

  datatype Status = PENDING | PROCESSING | APPROVED | COMPLETED | DECLINED | USER_CANCELLED
                  | CANCELLED | UNKNOWN | BUSY | ERROR | UNLINKED

  datatype Kind = PAY | CANCEL

  // Absent optional text is "".
  datatype Attempt = Attempt(id: string, kind: Kind, paidBy: Method, amount: int, status: Status,
                             reconciliationRequired: bool, original: string, commandId: string, activeKey: string)

  datatype WholeStatus = PENDING_WHOLE | PARTIALLY_PAID | PAID | PARTIALLY_CANCELLED | CANCELLED_WHOLE
                       | UNKNOWN_WHOLE | ERROR_WHOLE

  datatype Ledger = Ledger(finalAmount: nat, deposit: nat, payable: nat, approved: nat, completed: nat,
                           remaining: nat, card: nat, cash: nat, account: nat, coupon: nat,
                           hasUnknown: bool, hasBusy: bool, amountLocked: bool, status: WholeStatus)

  // ----- The ledger -----

  predicate Successful(a: Attempt) {
    a.kind == PAY && (a.status == APPROVED || a.status == COMPLETED)
  }

  predicate Cancels(a: Attempt) {
    a.kind == CANCEL && a.status == CANCELLED && a.original != ""
  }

  function CancelledOriginals(attempts: seq<Attempt>): set<string> {
    set i | 0 <= i < |attempts| && Cancels(attempts[i]) :: attempts[i].original
  }

  predicate Live(a: Attempt, cancelled: set<string>) {
    Successful(a) && a.id !in cancelled
  }

  // Whose amounts a sum takes: all live payments, those of a method, or those
  // with an id.
  datatype Filter = Any | By(m: Method) | WithId(id: string)

  predicate Takes(f: Filter, a: Attempt) {
    match f
    case Any => true
    case By(m) => a.paidBy == m
    case WithId(id) => a.id == id
  }

  function Amount(a: Attempt, cancelled: set<string>, f: Filter): nat {
    if Live(a, cancelled) && Takes(f, a) then Clamp(a.amount) else 0
  }

  function Sum(attempts: seq<Attempt>, cancelled: set<string>, f: Filter): nat {
    if attempts == [] then 0
    else Sum(attempts[..|attempts| - 1], cancelled, f) + Amount(attempts[|attempts| - 1], cancelled, f)
  }

  function Completed(attempts: seq<Attempt>, f: Filter): nat {
    Sum(attempts, CancelledOriginals(attempts), f)
  }

  predicate IsUnknown(a: Attempt) { a.status == UNKNOWN || a.reconciliationRequired }

  predicate IsBusy(a: Attempt) {
    || a.status == PROCESSING
    || (a.status == BUSY && a.activeKey != "")
    || (a.status == PENDING && (a.commandId != "" || a.activeKey != ""))
  }

  function WholeStatusOf(attempts: seq<Attempt>, completed: nat, remaining: nat): WholeStatus {
    var cancellation := CancelledOriginals(attempts) != {};
    if exists i | 0 <= i < |attempts| :: IsUnknown(attempts[i]) then UNKNOWN_WHOLE
    else if remaining == 0 then PAID
    else if completed > 0 && cancellation then PARTIALLY_CANCELLED
    else if completed > 0 then PARTIALLY_PAID
    else if (exists i | 0 <= i < |attempts| :: Successful(attempts[i])) && cancellation then CANCELLED_WHOLE
    else if exists i | 0 <= i < |attempts| :: attempts[i].status == ERROR then ERROR_WHOLE
    else PENDING_WHOLE
  }

  function CalculatePaymentLedger(finalAmount: int, depositAmount: int, attempts: seq<Attempt>): Ledger {
    var final := Clamp(finalAmount);
    var deposit := Min(final, Clamp(depositAmount));
    var payable := Max(0, final - deposit);
    var completed := Completed(attempts, Any);
    var remaining := Max(0, payable - completed);
    var unknown := exists i | 0 <= i < |attempts| :: IsUnknown(attempts[i]);
    var busy := exists i | 0 <= i < |attempts| :: IsBusy(attempts[i]);
    var live := exists i | 0 <= i < |attempts| :: Live(attempts[i], CancelledOriginals(attempts));
    Ledger(final, deposit, payable, Min(final, deposit + completed), completed, remaining,
           Completed(attempts, By(Card)), Completed(attempts, By(Cash)),
           Completed(attempts, By(Account)), Completed(attempts, By(Coupon)),
           unknown, busy, live || unknown || busy, WholeStatusOf(attempts, completed, remaining))
  }

  // ----- Ledger laws -----

  lemma {:induction false} MethodsAddUp(attempts: seq<Attempt>, cancelled: set<string>)
    ensures Sum(attempts, cancelled, By(Card)) + Sum(attempts, cancelled, By(Cash))
            + Sum(attempts, cancelled, By(Account)) + Sum(attempts, cancelled, By(Coupon))
            == Sum(attempts, cancelled, Any)
  {
    if attempts != [] {
      MethodsAddUp(attempts[..|attempts| - 1], cancelled);
    }
  }

  /** What is approved and what remains always make up the final amount, and the
      methods make up what is completed. */
  lemma {:induction false} LedgerBalances(finalAmount: int, depositAmount: int, attempts: seq<Attempt>)
    ensures var l := CalculatePaymentLedger(finalAmount, depositAmount, attempts);
            && l.finalAmount == (if finalAmount > 0 then finalAmount else 0)
            && l.deposit == (if depositAmount <= 0 then 0 else if depositAmount <= l.finalAmount then depositAmount
                             else l.finalAmount)
            && l.deposit + l.payable == l.finalAmount && l.approved + l.remaining == l.finalAmount
            && (l.remaining == 0 || l.remaining + l.completed == l.payable)
            && l.card + l.cash + l.account + l.coupon == l.completed
            && (l.status == UNKNOWN_WHOLE <==> l.hasUnknown)
            && (l.status == PAID <==> l.remaining == 0 && !l.hasUnknown)
            && (l.status == PARTIALLY_PAID || l.status == PARTIALLY_CANCELLED <==>
                  !l.hasUnknown && 0 < l.completed < l.payable)
  {
    MethodsAddUp(attempts, CancelledOriginals(attempts));
  }

  lemma {:induction false} SumNeedsALivePayment(attempts: seq<Attempt>, cancelled: set<string>)
    requires forall i | 0 <= i < |attempts| :: !Live(attempts[i], cancelled)
    ensures Sum(attempts, cancelled, Any) == 0
  {
    if attempts != [] {
      SumNeedsALivePayment(attempts[..|attempts| - 1], cancelled);
    }
  }

  // By the columns of an attempt: a payment that succeeded, and a cancellation that did.
  ghost predicate TookMoney(a: Attempt) {
    a.kind.PAY? && (a.status.APPROVED? || a.status.COMPLETED?)
  }

  ghost predicate GaveBack(a: Attempt, id: string) {
    a.kind.CANCEL? && a.status.CANCELLED? && a.original == id != ""
  }

  // Attempt `i` took money that no attempt gave back.
  ghost predicate Standing(attempts: seq<Attempt>, i: nat)
    requires i < |attempts|
  {
    TookMoney(attempts[i]) && forall j | 0 <= j < |attempts| :: !GaveBack(attempts[j], attempts[i].id)
  }

  lemma AttemptCounts(attempts: seq<Attempt>, a: Attempt)
    ensures Live(a, CancelledOriginals(attempts)) <==>
            TookMoney(a) && forall j | 0 <= j < |attempts| :: !GaveBack(attempts[j], a.id)
  {
    if a.id in CancelledOriginals(attempts) {
      var j :| 0 <= j < |attempts| && Cancels(attempts[j]) && attempts[j].original == a.id;
      assert GaveBack(attempts[j], a.id);
    }
    forall j | 0 <= j < |attempts| && GaveBack(attempts[j], a.id) ensures a.id in CancelledOriginals(attempts) {
      assert Cancels(attempts[j]);
    }
  }

  /** Exactly when the amount is locked: a payment stands, one is on its way - in
      progress, busy under an active key, or pending with a command or an active key -
      or the outcome of one is unknown or asks for reconciliation. */
  lemma LockedExactlyWhen(finalAmount: int, depositAmount: int, attempts: seq<Attempt>)
    ensures var l := CalculatePaymentLedger(finalAmount, depositAmount, attempts);
            && (l.hasBusy <==> exists i | 0 <= i < |attempts| ::
                  || attempts[i].status.PROCESSING?
                  || (attempts[i].status.BUSY? && attempts[i].activeKey != "")
                  || (attempts[i].status.PENDING? && !(attempts[i].commandId == attempts[i].activeKey == "")))
            && (l.hasUnknown <==> exists i | 0 <= i < |attempts| ::
                  attempts[i].status.UNKNOWN? || attempts[i].reconciliationRequired)
            && (l.amountLocked <==>
                  l.hasBusy || l.hasUnknown || exists i | 0 <= i < |attempts| :: Standing(attempts, i))
  {
    forall i | 0 <= i < |attempts|
      ensures Live(attempts[i], CancelledOriginals(attempts)) <==> Standing(attempts, i)
    {
      StandsWhenLive(attempts, i);
    }
  }

  lemma StandsWhenLive(attempts: seq<Attempt>, i: nat)
    requires i < |attempts|
    ensures Live(attempts[i], CancelledOriginals(attempts)) <==> Standing(attempts, i)
  {
    AttemptCounts(attempts, attempts[i]);
  }

  /** The amount may be edited only while no money was taken and none may be on
      its way. */
  lemma {:induction false} UnlockedMeansNothingTaken(finalAmount: int, depositAmount: int, attempts: seq<Attempt>)
    ensures var l := CalculatePaymentLedger(finalAmount, depositAmount, attempts);
            !l.amountLocked ==>
              && l.completed == 0 && l.remaining == l.payable && l.approved == l.deposit
              && l.card == l.cash == l.account == l.coupon == 0
              && forall i | 0 <= i < |attempts| ::
                   !Standing(attempts, i) && !attempts[i].status.UNKNOWN? && !attempts[i].status.PROCESSING?
  {
    LockedExactlyWhen(finalAmount, depositAmount, attempts);
    var l := CalculatePaymentLedger(finalAmount, depositAmount, attempts);
    if !l.amountLocked {
      SumNeedsALivePayment(attempts, CancelledOriginals(attempts));
      MethodsAddUp(attempts, CancelledOriginals(attempts));
    }
  }

  // Some attempt gave money back.
  ghost predicate SomeGivenBack(attempts: seq<Attempt>) {
    exists i | 0 <= i < |attempts| :: GaveBack(attempts[i], attempts[i].original)
  }

  lemma CancelledWhenGivenBack(attempts: seq<Attempt>)
    ensures CancelledOriginals(attempts) != {} <==> SomeGivenBack(attempts)
  {
    forall i | 0 <= i < |attempts| && GaveBack(attempts[i], attempts[i].original)
      ensures CancelledOriginals(attempts) != {}
    {
      assert attempts[i].original in CancelledOriginals(attempts);
    }
    if CancelledOriginals(attempts) != {} {
      var id :| id in CancelledOriginals(attempts);
      var i :| 0 <= i < |attempts| && Cancels(attempts[i]) && attempts[i].original == id;
      assert GaveBack(attempts[i], attempts[i].original);
    }
  }

  /** The status of a payment of which something remains and nothing is unknown: part of
      it paid, or paid and partly cancelled; and with nothing completed, a cancelled
      payment and a failed one are told apart from one not begun. */
  lemma {:induction false} StatusExactlyWhen(finalAmount: int, depositAmount: int, attempts: seq<Attempt>)
    ensures var l := CalculatePaymentLedger(finalAmount, depositAmount, attempts);
            var cancelled := SomeGivenBack(attempts);
            var undone := cancelled && exists i | 0 <= i < |attempts| :: TookMoney(attempts[i]);
            var failed := exists i | 0 <= i < |attempts| :: attempts[i].status.ERROR?;
            if l.hasUnknown then l.status.UNKNOWN_WHOLE?
            else if l.remaining == 0 then l.status.PAID?
            else
              && (l.status.PARTIALLY_CANCELLED? <==> l.completed > 0 && cancelled)
              && (l.status.PARTIALLY_PAID? <==> l.completed > 0 && !cancelled)
              && (l.status.CANCELLED_WHOLE? <==> l.completed == 0 && undone)
              && (l.status.ERROR_WHOLE? <==> l.completed == 0 && !undone && failed)
              && (l.status.PENDING_WHOLE? <==> l.completed == 0 && !undone && !failed)
  {
    CancelledWhenGivenBack(attempts);
    assert forall i | 0 <= i < |attempts| :: Successful(attempts[i]) <==> TookMoney(attempts[i]);
  }

  lemma CompletedAppend(attempts: seq<Attempt>, a: Attempt, f: Filter)
    requires !GaveBack(a, a.original)
    ensures Completed(attempts + [a], f) == Completed(attempts, f) + Amount(a, CancelledOriginals(attempts), f)
  {
    assert Cancels(a) ==> GaveBack(a, a.original);
    CancelledOriginalsAppend(attempts, a);
    assert CancelledOriginals(attempts + [a]) == CancelledOriginals(attempts);
    SumAppend(attempts, a, CancelledOriginals(attempts), f);
  }

  /** One more attempt adds exactly the amount of a payment that took money and was not
      given back, to its own method and to the whole; any other adds nothing. Without
      attempts nothing is completed. */
  lemma {:induction false} AttemptAddsItsAmount(finalAmount: int, depositAmount: int, attempts: seq<Attempt>,
                                                a: Attempt)
    requires !GaveBack(a, a.original)
    ensures CalculatePaymentLedger(finalAmount, depositAmount, []).completed == 0
    ensures var l := CalculatePaymentLedger(finalAmount, depositAmount, attempts);
            var l' := CalculatePaymentLedger(finalAmount, depositAmount, attempts + [a]);
            var counts := TookMoney(a) && forall j | 0 <= j < |attempts| :: !GaveBack(attempts[j], a.id);
            var more := if counts && a.amount > 0 then a.amount else 0;
            && l'.completed == l.completed + more
            && l'.card == l.card + (if a.paidBy.Card? then more else 0)
            && l'.cash == l.cash + (if a.paidBy.Cash? then more else 0)
            && l'.account == l.account + (if a.paidBy.Account? then more else 0)
            && l'.coupon == l.coupon + (if a.paidBy.Coupon? then more else 0)
  {
    AttemptCounts(attempts, a);
    CompletedAppend(attempts, a, Any);
    CompletedAppend(attempts, a, By(Card));
    CompletedAppend(attempts, a, By(Cash));
    CompletedAppend(attempts, a, By(Account));
    CompletedAppend(attempts, a, By(Coupon));
  }

  lemma SumAppend(attempts: seq<Attempt>, a: Attempt, cancelled: set<string>, f: Filter)
    ensures Sum(attempts + [a], cancelled, f) == Sum(attempts, cancelled, f) + Amount(a, cancelled, f)
  {
  }

  lemma {:induction false} SameMembers(a: seq<Attempt>, b: seq<Attempt>)
    requires multiset(a) == multiset(b)
    ensures forall x :: x in a <==> x in b
  {
    forall x ensures x in a <==> x in b {
      assert x in a <==> x in multiset(a);
      assert x in b <==> x in multiset(b);
    }
  }

  lemma {:induction false} SumWithout(s: seq<Attempt>, i: nat, cancelled: set<string>, f: Filter)
    requires i < |s|
    ensures Sum(s, cancelled, f) == Sum(s[..i] + s[i + 1..], cancelled, f) + Amount(s[i], cancelled, f)
  {
    var n := |s| - 1;
    if i == n {
      assert s[..i] + s[i + 1..] == s[..n];
    } else {
      SumWithout(s[..n], i, cancelled, f);
      assert (s[..i] + s[i + 1..])[..n - 1] == s[..n][..i] + s[..n][i + 1..];
    }
  }

  lemma WithoutOne(a: seq<Attempt>, i: nat)
    requires i < |a|
    ensures multiset(a[..i] + a[i + 1..]) == multiset(a) - multiset{a[i]}
  {
    assert a == a[..i] + [a[i]] + a[i + 1..];
  }

  lemma {:induction false} RemoveBoth(a: seq<Attempt>, b: seq<Attempt>, i: nat)
    requires a != [] && multiset(a) == multiset(b) && i < |b| && b[i] == a[|a| - 1]
    ensures multiset(a[..|a| - 1]) == multiset(b[..i] + b[i + 1..])
  {
    WithoutOne(a, |a| - 1);
    WithoutOne(b, i);
    assert a[..|a| - 1] + a[|a|..] == a[..|a| - 1];
  }

  lemma {:induction false} SumPermutes(a: seq<Attempt>, b: seq<Attempt>, cancelled: set<string>, f: Filter)
    requires multiset(a) == multiset(b)
    ensures Sum(a, cancelled, f) == Sum(b, cancelled, f)
  {
    SameMembers(a, b);
    if a == [] {
      assert |multiset(b)| == 0;
    } else {
      var n := |a| - 1;
      assert a[n] in b;
      var i :| 0 <= i < |b| && b[i] == a[n];
      RemoveBoth(a, b, i);
      SumPermutes(a[..n], b[..i] + b[i + 1..], cancelled, f);
      SumWithout(b, i, cancelled, f);
    }
  }

  lemma {:induction false} CancelledOriginalsPermute(a: seq<Attempt>, b: seq<Attempt>)
    requires forall x :: x in a <==> x in b
    ensures CancelledOriginals(a) == CancelledOriginals(b)
  {
    forall id ensures id in CancelledOriginals(a) <==> id in CancelledOriginals(b) {
      if id in CancelledOriginals(a) {
        var i :| 0 <= i < |a| && Cancels(a[i]) && a[i].original == id;
        assert a[i] in b;
      }
      if id in CancelledOriginals(b) {
        var i :| 0 <= i < |b| && Cancels(b[i]) && b[i].original == id;
        assert b[i] in a;
      }
    }
  }

  lemma {:induction false} FlagsPermute(a: seq<Attempt>, b: seq<Attempt>, cancelled: set<string>)
    requires forall x :: x in a ==> x in b
    ensures (exists i | 0 <= i < |a| :: IsUnknown(a[i])) ==> exists i | 0 <= i < |b| :: IsUnknown(b[i])
    ensures (exists i | 0 <= i < |a| :: IsBusy(a[i])) ==> exists i | 0 <= i < |b| :: IsBusy(b[i])
    ensures (exists i | 0 <= i < |a| :: Successful(a[i])) ==> exists i | 0 <= i < |b| :: Successful(b[i])
    ensures (exists i | 0 <= i < |a| :: a[i].status == ERROR) ==> exists i | 0 <= i < |b| :: b[i].status == ERROR
    ensures (exists i | 0 <= i < |a| :: Live(a[i], cancelled)) ==> exists i | 0 <= i < |b| :: Live(b[i], cancelled)
  {
    forall i | 0 <= i < |a| ensures exists j | 0 <= j < |b| :: b[j] == a[i] {
      assert a[i] in b;
    }
  }

  lemma {:induction false} CompletedPermutes(a: seq<Attempt>, b: seq<Attempt>)
    requires multiset(a) == multiset(b)
    ensures CancelledOriginals(a) == CancelledOriginals(b)
    ensures forall w: Filter :: Completed(a, w) == Completed(b, w)
  {
    SameMembers(a, b);
    CancelledOriginalsPermute(a, b);
    forall w: Filter ensures Completed(a, w) == Completed(b, w) {
      SumPermutes(a, b, CancelledOriginals(a), w);
    }
  }

  /** The ledger does not depend on the order in which attempts are listed. */
  lemma {:induction false} LedgerPermutes(finalAmount: int, depositAmount: int, a: seq<Attempt>, b: seq<Attempt>)
    requires multiset(a) == multiset(b)
    ensures CalculatePaymentLedger(finalAmount, depositAmount, a)
            == CalculatePaymentLedger(finalAmount, depositAmount, b)
  {
    CompletedPermutes(a, b);
    SameMembers(a, b);
    FlagsPermute(a, b, CancelledOriginals(a));
    FlagsPermute(b, a, CancelledOriginals(a));
  }

  lemma {:induction false} CancelledOriginalsAppend(attempts: seq<Attempt>, a: Attempt)
    ensures CancelledOriginals(attempts + [a]) == CancelledOriginals(attempts) + if Cancels(a) then {a.original} else {}
  {
    var all := attempts + [a];
    forall id ensures id in CancelledOriginals(all) <==>
                      id in CancelledOriginals(attempts) || (Cancels(a) && id == a.original) {
      if id in CancelledOriginals(attempts) {
        var i :| 0 <= i < |attempts| && Cancels(attempts[i]) && attempts[i].original == id;
        assert Cancels(all[i]) && all[i].original == id;
      }
      if Cancels(a) && id == a.original {
        assert Cancels(all[|attempts|]);
      }
    }
  }

  lemma {:induction false} SumAfterCancel(attempts: seq<Attempt>, cancelled: set<string>, id: string)
    ensures Sum(attempts, cancelled + {id}, Any) + Sum(attempts, cancelled, WithId(id)) == Sum(attempts, cancelled, Any)
  {
    if attempts != [] {
      SumAfterCancel(attempts[..|attempts| - 1], cancelled, id);
    }
  }

  lemma {:induction false} NoSuchId(attempts: seq<Attempt>, cancelled: set<string>, id: string)
    requires forall j | 0 <= j < |attempts| :: attempts[j].id != id
    ensures Sum(attempts, cancelled, WithId(id)) == 0
  {
    if attempts != [] {
      NoSuchId(attempts[..|attempts| - 1], cancelled, id);
    }
  }

  lemma {:induction false} UniqueId(attempts: seq<Attempt>, cancelled: set<string>, i: nat)
    requires i < |attempts| && Live(attempts[i], cancelled)
    requires forall j | 0 <= j < |attempts| && j != i :: attempts[j].id != attempts[i].id
    ensures Sum(attempts, cancelled, WithId(attempts[i].id)) == Clamp(attempts[i].amount)
  {
    var n := |attempts| - 1;
    if i == n {
      NoSuchId(attempts[..n], cancelled, attempts[i].id);
    } else {
      UniqueId(attempts[..n], cancelled, i);
    }
  }

  /** A successful cancellation takes out exactly the live payments with that id;
      when the id is unique, exactly that payment's amount. */
  lemma {:induction false} CancelTakesItsPayment(attempts: seq<Attempt>, cancel: Attempt)
    requires Cancels(cancel)
    ensures Completed(attempts + [cancel], Any)
            == Completed(attempts, Any) - Completed(attempts, WithId(cancel.original))
    ensures forall i | 0 <= i < |attempts| && attempts[i].id == cancel.original
                       && Live(attempts[i], CancelledOriginals(attempts))
                       && (forall j | 0 <= j < |attempts| && j != i :: attempts[j].id != attempts[i].id) ::
              Completed(attempts + [cancel], Any) == Completed(attempts, Any) - Clamp(attempts[i].amount)
  {
    var cancelled := CancelledOriginals(attempts);
    CancelledOriginalsAppend(attempts, cancel);
    assert (attempts + [cancel])[..|attempts|] == attempts;
    SumAfterCancel(attempts, cancelled, cancel.original);
    forall i | 0 <= i < |attempts| && attempts[i].id == cancel.original && Live(attempts[i], cancelled)
               && (forall j | 0 <= j < |attempts| && j != i :: attempts[j].id != attempts[i].id)
      ensures Completed(attempts + [cancel], Any) == Completed(attempts, Any) - Clamp(attempts[i].amount)
    {
      UniqueId(attempts, cancelled, i);
    }
  }

  lemma {:induction false} OthersKeepTheirAmounts(attempts: seq<Attempt>, cancelled: set<string>, id: string, f: Filter)
    requires forall j | 0 <= j < |attempts| :: attempts[j].id != id
    ensures Sum(attempts, cancelled + {id}, f) == Sum(attempts, cancelled, f)
  {
    if attempts != [] {
      OthersKeepTheirAmounts(attempts[..|attempts| - 1], cancelled, id, f);
    }
  }

  lemma {:induction false} CancelTakesOnce(attempts: seq<Attempt>, cancelled: set<string>, i: nat, f: Filter)
    requires i < |attempts| && Live(attempts[i], cancelled)
    requires forall j | 0 <= j < |attempts| && j != i :: attempts[j].id != attempts[i].id
    ensures Sum(attempts, cancelled + {attempts[i].id}, f)
            == Sum(attempts, cancelled, f) - if Takes(f, attempts[i]) then Clamp(attempts[i].amount) else 0
  {
    var n := |attempts| - 1;
    if i == n {
      OthersKeepTheirAmounts(attempts[..n], cancelled, attempts[i].id, f);
    } else {
      CancelTakesOnce(attempts[..n], cancelled, i, f);
    }
  }

  /** Giving back a standing payment with a unique id takes its amount from its own
      method and from no other. */
  lemma {:induction false} CancelTakesFromItsMethod(finalAmount: int, depositAmount: int, attempts: seq<Attempt>,
                                                    cancel: Attempt, i: nat)
    requires i < |attempts| && Standing(attempts, i) && GaveBack(cancel, attempts[i].id)
    requires forall j | 0 <= j < |attempts| && j != i :: attempts[j].id != attempts[i].id
    ensures var l := CalculatePaymentLedger(finalAmount, depositAmount, attempts);
            var l' := CalculatePaymentLedger(finalAmount, depositAmount, attempts + [cancel]);
            var less := if attempts[i].amount > 0 then attempts[i].amount else 0;
            && l'.card == l.card - (if attempts[i].paidBy.Card? then less else 0)
            && l'.cash == l.cash - (if attempts[i].paidBy.Cash? then less else 0)
            && l'.account == l.account - (if attempts[i].paidBy.Account? then less else 0)
            && l'.coupon == l.coupon - (if attempts[i].paidBy.Coupon? then less else 0)
  {
    var cancelled := CancelledOriginals(attempts);
    StandsWhenLive(attempts, i);
    CancelledOriginalsAppend(attempts, cancel);
    assert (attempts + [cancel])[..|attempts|] == attempts;
    forall m: Method
      ensures Completed(attempts + [cancel], By(m)) == Sum(attempts, cancelled + {attempts[i].id}, By(m))
    {
      SumAppend(attempts, cancel, cancelled + {attempts[i].id}, By(m));
    }
    CancelTakesOnce(attempts, cancelled, i, By(Card));
    CancelTakesOnce(attempts, cancelled, i, By(Cash));
    CancelTakesOnce(attempts, cancelled, i, By(Account));
    CancelTakesOnce(attempts, cancelled, i, By(Coupon));
  }

  // ----- Plans -----

  datatype Item = Item(splitIndex: nat, amount: int, paidBy: Method)

  datatype Mode = Single(paidBy: Method) | Equal(count: int, methods: seq<Method>, otherwise: Method)
                | Custom(items: seq<(int, Method)>)

  datatype PlanError = SplitCountInvalid | SplitAmountTooSmall | SplitItemsInvalid | SplitTotalUnder | SplitTotalOver

  datatype Result<T> = Success(value: T) | Failure(error: PlanError)

  function SplitEqualAmount(amount: int, count: int): Result<seq<nat>> {
    var a := Clamp(amount);
    if count < 1 || count > 20 then Failure(SplitCountInvalid)
    else if a < count then Failure(SplitAmountTooSmall)
    else Success(seq(count, i requires 0 <= i < count => a / count + if i < a % count then 1 else 0))
  }

  function Total(items: seq<Item>): int {
    if items == [] then 0 else Total(items[..|items| - 1]) + items[|items| - 1].amount
  }

  function CustomItems(raw: seq<(int, Method)>): (items: seq<Item>)
    ensures |items| == |raw|
    ensures forall i | 0 <= i < |raw| :: items[i] == Item(i + 1, raw[i].0, raw[i].1)
  {
    seq(|raw|, i requires 0 <= i < |raw| => Item(i + 1, raw[i].0, raw[i].1))
  }

  function BuildPaymentPlan(payableAmount: int, mode: Mode): Result<seq<Item>> {
    var payable := Clamp(payableAmount);
    if payable == 0 then Success([])
    else match mode
      case Single(m) => Success([Item(1, payable, m)])
      case Equal(count, methods, otherwise) =>
        var parts := SplitEqualAmount(payable, count);
        if parts.Failure? then Failure(parts.error)
        else Success(seq(|parts.value|, i requires 0 <= i < |parts.value| =>
               Item(i + 1, parts.value[i], if i < |methods| then methods[i] else otherwise)))
      case Custom(raw) =>
        var items := CustomItems(raw);
        if items == [] || |items| > 20 || exists i | 0 <= i < |items| :: items[i].amount < 1
        then Failure(SplitItemsInvalid)
        else if Total(items) < payable then Failure(SplitTotalUnder)
        else if Total(items) > payable then Failure(SplitTotalOver)
        else Success(items)
  }

  // Indices 1..n, positive amounts, and the whole payable amount.
  predicate Sound(plan: seq<Item>, payable: nat) {
    && (forall i | 0 <= i < |plan| :: plan[i].splitIndex == i + 1 && plan[i].amount >= 1)
    && Total(plan) == payable
  }

  lemma {:induction false} EqualPartsTotal(plan: seq<Item>, q: nat, r: nat)
    requires forall i | 0 <= i < |plan| :: plan[i].amount == q + if i < r then 1 else 0
    ensures Total(plan) == |plan| * q + Min(|plan|, r)
  {
    if plan != [] {
      EqualPartsTotal(plan[..|plan| - 1], q, r);
      assert |plan| * q == (|plan| - 1) * q + q;
    }
  }

  lemma EqualQuotient(a: nat, count: nat)
    requires 1 <= count <= a
    ensures a / count >= 1 && a % count < count && count * (a / count) + a % count == a
  {
  }

  /** An equal split exists exactly for 1 to 20 parts of at least 1; its parts add
      up to the amount and differ by at most 1, larger ones first. */
  lemma {:induction false} EqualPlanIsSound(payable: int, count: int, methods: seq<Method>, otherwise: Method)
    requires payable > 0
    ensures var plan := BuildPaymentPlan(payable, Equal(count, methods, otherwise));
            && (plan.Success? <==> 1 <= count <= 20 && count <= payable)
            && (plan == Failure(SplitCountInvalid) <==> !(1 <= count <= 20))
            && (plan == Failure(SplitAmountTooSmall) <==> 1 <= count <= 20 && payable < count)
            && (plan.Success? ==>
                  && |plan.value| == count && Sound(plan.value, payable)
                  && (forall i | 0 <= i < count ::
                        plan.value[i].paidBy == if i < |methods| then methods[i] else otherwise)
                  && forall i, j | 0 <= i < j < count ::
                       plan.value[j].amount <= plan.value[i].amount <= plan.value[j].amount + 1)
  {
    if 1 <= count <= 20 && count <= payable {
      var plan := BuildPaymentPlan(payable, Equal(count, methods, otherwise)).value;
      EqualQuotient(payable, count);
      EqualPartsTotal(plan, payable / count, payable % count);
    }
  }

  /** A custom plan is accepted exactly when it has 1 to 20 items of at least 1
      that add up to the payable amount. */
  lemma {:induction false} CustomPlanIsSound(payable: int, raw: seq<(int, Method)>)
    requires payable > 0
    ensures var items := CustomItems(raw);
            var plan := BuildPaymentPlan(payable, Custom(raw));
            && (plan.Success? <==>
                  1 <= |raw| <= 20 && (forall i | 0 <= i < |raw| :: raw[i].0 >= 1) && Total(items) == payable)
            && (plan.Success? ==> plan.value == items)
            && (plan == Failure(SplitItemsInvalid) <==>
                  |raw| == 0 || |raw| > 20 || exists i | 0 <= i < |raw| :: raw[i].0 < 1)
            && (plan.Failure? && plan.error != SplitItemsInvalid ==>
                  plan.error == if Total(items) < payable then SplitTotalUnder else SplitTotalOver)
  {
    var items := CustomItems(raw);
    assert (exists i | 0 <= i < |items| :: items[i].amount < 1) <==> !forall i | 0 <= i < |raw| :: raw[i].0 >= 1 by {
      forall i | 0 <= i < |raw| ensures items[i].amount == raw[i].0 {
      }
    }
  }

  /** Every plan for a positive amount is sound, whatever the mode; for nothing to
      pay the plan is empty. */
  lemma {:induction false} EveryPlanIsSound(payable: int, mode: Mode)
    ensures var plan := BuildPaymentPlan(payable, mode);
            && (payable <= 0 ==> plan == Success([]))
            && (payable > 0 && plan.Success? ==> Sound(plan.value, payable) && |plan.value| >= 1)
            && (payable > 0 && mode.Single? ==> plan == Success([Item(1, payable, mode.paidBy)]))
  {
    if payable > 0 {
      match mode
      case Single(m) =>
        var plan := BuildPaymentPlan(payable, mode).value;
        assert plan[..0] == [];
      case Equal(count, methods, otherwise) => EqualPlanIsSound(payable, count, methods, otherwise);
      case Custom(raw) => CustomPlanIsSound(payable, raw);
    }
  }

  predicate PaymentPlanMatchesLedger(finalAmount: int, depositAmount: int, storedFinal: int, storedDeposit: int,
                                     storedPayable: int, plan: seq<Item>)
  {
    var final := Clamp(finalAmount);
    var deposit := Min(final, Clamp(depositAmount));
    var payable := Max(0, final - deposit);
    && Clamp(storedFinal) == final
    && Clamp(storedDeposit) == deposit
    && Clamp(storedPayable) == payable
    && PlannedAmount(plan) == payable
  }

  function PlannedAmount(plan: seq<Item>): nat {
    if plan == [] then 0 else PlannedAmount(plan[..|plan| - 1]) + Clamp(plan[|plan| - 1].amount)
  }

  lemma {:induction false} PlannedCoversTotal(plan: seq<Item>)
    ensures PlannedAmount(plan) >= Total(plan)
    ensures (forall i | 0 <= i < |plan| :: plan[i].amount >= 0) ==> PlannedAmount(plan) == Total(plan)
  {
    if plan != [] {
      PlannedCoversTotal(plan[..|plan| - 1]);
    }
  }

  /** Whatever plan is stored, it matches a ledger if and only if the stored amounts
      are the ledger's own and its items add up to the payable amount. */
  lemma {:induction false} StoredPlanMatchesExactlyWhen(finalAmount: int, depositAmount: int, storedFinal: int,
                                                        storedDeposit: int, storedPayable: int, plan: seq<Item>)
    requires forall i | 0 <= i < |plan| :: plan[i].amount >= 0
    ensures var l := CalculatePaymentLedger(finalAmount, depositAmount, []);
            PaymentPlanMatchesLedger(finalAmount, depositAmount, storedFinal, storedDeposit, storedPayable, plan) <==>
              && (storedFinal == l.finalAmount || (storedFinal < 0 && l.finalAmount == 0))
              && (storedDeposit == l.deposit || (storedDeposit < 0 && l.deposit == 0))
              && (storedPayable == l.payable || (storedPayable < 0 && l.payable == 0))
              && Total(plan) == l.payable
  {
    PlannedCoversTotal(plan);
  }

  /** A plan built for the ledger's payable amount matches it exactly when the
      stored amounts are the ledger's own. */
  lemma {:induction false} BuiltPlanMatches(finalAmount: int, depositAmount: int, mode: Mode, storedFinal: int,
                                            storedDeposit: int, storedPayable: int)
    ensures var l := CalculatePaymentLedger(finalAmount, depositAmount, []);
            var plan := BuildPaymentPlan(l.payable, mode);
            plan.Success? ==>
              (PaymentPlanMatchesLedger(finalAmount, depositAmount, storedFinal, storedDeposit, storedPayable,
                                        plan.value)
               <==>
               && Clamp(storedFinal) == l.finalAmount && Clamp(storedDeposit) == l.deposit
               && Clamp(storedPayable) == l.payable)
  {
    var l := CalculatePaymentLedger(finalAmount, depositAmount, []);
    EveryPlanIsSound(l.payable, mode);
    var plan := BuildPaymentPlan(l.payable, mode);
    if plan.Success? {
      PlannedCoversTotal(plan.value);
    }
  }

  // ----- Plans and the ledger together -----

  function ApprovalOf(item: Item, id: string): (a: Attempt)
    ensures Successful(a) && a.id == id && a.amount == item.amount && !IsUnknown(a) && !Cancels(a)
  {
    Attempt(id, PAY, item.paidBy, item.amount, APPROVED, false, "", "", "")
  }

  function CancellationOf(original: string): (a: Attempt)
    ensures a.kind == CANCEL && a.status == CANCELLED && a.original == original && !IsUnknown(a)
  {
    Attempt("cancel:" + original, CANCEL, Card, 0, CANCELLED, false, original, "", "")
  }

  // Attempts that approve plan items 0, ..., k - 1, under the given ids.
  function Approvals(plan: seq<Item>, ids: seq<string>, k: nat): seq<Attempt>
    requires k <= |plan| == |ids|
  {
    if k == 0 then []
    else Approvals(plan, ids, k - 1) + [ApprovalOf(plan[k - 1], ids[k - 1])]
  }

  // Successful cancellations of the approvals with the given ids.
  function Cancellations(originals: seq<string>): seq<Attempt> {
    if originals == [] then []
    else
      var n := |originals| - 1;
      Cancellations(originals[..n]) + [CancellationOf(originals[n])]
  }

  predicate DistinctIds(ids: seq<string>) {
    && (forall i | 0 <= i < |ids| :: ids[i] != "")
    && (forall i, j | 0 <= i < j < |ids| :: ids[i] != ids[j])
  }

  // What the approvals amount to once the given ids are cancelled.
  function Uncancelled(plan: seq<Item>, ids: seq<string>, k: nat, cancelled: set<string>): nat
    requires k <= |plan| == |ids|
  {
    if k == 0 then 0
    else Uncancelled(plan, ids, k - 1, cancelled) + if ids[k - 1] in cancelled then 0 else Clamp(plan[k - 1].amount)
  }

  lemma {:induction false} ApprovalsAre(plan: seq<Item>, ids: seq<string>, k: nat)
    requires k <= |plan| == |ids|
    ensures |Approvals(plan, ids, k)| == k
    ensures forall i | 0 <= i < k ::
              var a := Approvals(plan, ids, k)[i]; Successful(a) && a.id == ids[i] && !IsUnknown(a)
  {
    if k > 0 {
      ApprovalsAre(plan, ids, k - 1);
    }
  }

  lemma {:induction false} CancellationsAre(originals: seq<string>)
    ensures |Cancellations(originals)| == |originals|
    ensures forall i | 0 <= i < |originals| ::
              var a := Cancellations(originals)[i];
              a.kind == CANCEL && a.original == originals[i] && !IsUnknown(a) && a.status == CANCELLED
  {
    if originals != [] {
      CancellationsAre(originals[..|originals| - 1]);
    }
  }

  lemma {:induction false} SumOfApprovals(plan: seq<Item>, ids: seq<string>, k: nat, cancelled: set<string>)
    requires k <= |plan| == |ids|
    ensures Sum(Approvals(plan, ids, k), cancelled, Any) == Uncancelled(plan, ids, k, cancelled)
  {
    if k > 0 {
      SumOfApprovals(plan, ids, k - 1, cancelled);
      SumAppend(Approvals(plan, ids, k - 1), ApprovalOf(plan[k - 1], ids[k - 1]), cancelled, Any);
    }
  }

  lemma {:induction false} CancellationsAddNothing(attempts: seq<Attempt>, originals: seq<string>,
                                                   cancelled: set<string>)
    ensures Sum(attempts + Cancellations(originals), cancelled, Any) == Sum(attempts, cancelled, Any)
  {
    if originals == [] {
      assert attempts + Cancellations(originals) == attempts;
    } else {
      var n := |originals| - 1;
      CancellationsAddNothing(attempts, originals[..n], cancelled);
      var all := attempts + Cancellations(originals);
      assert all[..|all| - 1] == attempts + Cancellations(originals[..n]);
    }
  }

  lemma {:induction false} UncancelledIsTotal(plan: seq<Item>, ids: seq<string>, k: nat, cancelled: set<string>,
                                              payable: nat)
    requires Sound(plan, payable) && k <= |plan| == |ids|
    ensures Uncancelled(plan, ids, k, cancelled) <= Total(plan[..k])
    ensures Uncancelled(plan, ids, k, cancelled) == Total(plan[..k]) <==> forall i | 0 <= i < k :: ids[i] !in cancelled
    ensures Uncancelled(plan, ids, k, cancelled) == 0 <==> forall i | 0 <= i < k :: ids[i] in cancelled
  {
    if k > 0 {
      UncancelledIsTotal(plan, ids, k - 1, cancelled, payable);
      assert plan[..k][..k - 1] == plan[..k - 1];
    }
  }

  lemma {:induction false} TotalsAscend(plan: seq<Item>, payable: nat, k: nat)
    requires Sound(plan, payable) && k <= |plan|
    ensures k <= Total(plan[..k]) && Total(plan[..k]) + (|plan| - k) <= payable
    decreases |plan| - k
  {
    TotalAtLeastLength(plan[..k]);
    if k < |plan| {
      TotalsAscend(plan, payable, k + 1);
      assert plan[..k + 1][..k] == plan[..k];
    } else {
      assert plan[..k] == plan;
    }
  }

  lemma {:induction false} TotalAtLeastLength(items: seq<Item>)
    requires forall i | 0 <= i < |items| :: items[i].amount >= 1
    ensures Total(items) >= |items|
  {
    if items != [] {
      TotalAtLeastLength(items[..|items| - 1]);
    }
  }

  lemma {:induction false} ApprovalsCancelNothing(plan: seq<Item>, ids: seq<string>, k: nat)
    requires k <= |plan| == |ids|
    ensures CancelledOriginals(Approvals(plan, ids, k)) == {}
  {
    ApprovalsAre(plan, ids, k);
  }

  // The ledger's inputs after the first k items were approved.
  lemma {:induction false} ApprovedPlanAmounts(plan: seq<Item>, ids: seq<string>, k: nat, payable: nat)
    requires Sound(plan, payable) && k <= |plan| == |ids|
    ensures var a := Approvals(plan, ids, k);
            && |a| == k && CancelledOriginals(a) == {} && Completed(a, Any) == Total(plan[..k])
            && (forall i | 0 <= i < k :: Successful(a[i]) && !IsUnknown(a[i]))
  {
    ApprovalsAre(plan, ids, k);
    ApprovalsCancelNothing(plan, ids, k);
    SumOfApprovals(plan, ids, k, {});
    UncancelledIsTotal(plan, ids, k, {}, payable);
  }

  lemma {:induction false} ApprovedStatus(a: seq<Attempt>, completed: nat, remaining: nat)
    requires CancelledOriginals(a) == {} && forall i | 0 <= i < |a| :: Successful(a[i]) && !IsUnknown(a[i])
    requires remaining > 0 ==> (completed > 0 <==> |a| > 0)
    ensures WholeStatusOf(a, completed, remaining)
            == if remaining == 0 then PAID else if |a| > 0 then PARTIALLY_PAID else PENDING_WHOLE
  {
  }

  /** Approving a plan item by item: nothing approved is PENDING, every proper
      part is PARTIALLY_PAID, and the whole plan, and only it, is PAID. */
  lemma {:induction false} ApprovingThePlan(finalAmount: int, depositAmount: int, plan: seq<Item>, ids: seq<string>,
                                            k: nat)
    requires var l := CalculatePaymentLedger(finalAmount, depositAmount, []); l.payable > 0 && Sound(plan, l.payable)
    requires k <= |plan| == |ids| && DistinctIds(ids)
    ensures CalculatePaymentLedger(finalAmount, depositAmount, Approvals(plan, ids, k)).status
            == if k == 0 then PENDING_WHOLE else if k < |plan| then PARTIALLY_PAID else PAID
  {
    var payable := CalculatePaymentLedger(finalAmount, depositAmount, []).payable;
    var approved := Total(plan[..k]);
    ApprovedPlanAmounts(plan, ids, k, payable);
    TotalsAscend(plan, payable, k);
    assert plan[..|plan|] == plan && plan[..0] == [];
    ApprovedStatus(Approvals(plan, ids, k), approved, payable - approved);
  }

  lemma {:induction false} CancelledIn(approvals: seq<Attempt>, cancellations: seq<Attempt>, originals: seq<string>,
                                       id: string)
    requires forall i | 0 <= i < |approvals| :: !Cancels(approvals[i])
    requires |cancellations| == |originals|
    requires forall i | 0 <= i < |originals| :: Cancels(cancellations[i]) && cancellations[i].original == originals[i]
    ensures id in CancelledOriginals(approvals + cancellations) <==> id in originals
  {
    var all := approvals + cancellations;
    if id in CancelledOriginals(all) {
      var i :| 0 <= i < |all| && Cancels(all[i]) && all[i].original == id;
      assert i >= |approvals| && all[i] == cancellations[i - |approvals|];
    }
    if id in originals {
      var i :| 0 <= i < |originals| && originals[i] == id;
      assert all[|approvals| + i] == cancellations[i];
    }
  }

  lemma {:induction false} CancelledSet(plan: seq<Item>, ids: seq<string>, originals: seq<string>)
    requires |plan| == |ids| && DistinctIds(ids) && forall x | x in originals :: x in ids
    ensures CancelledOriginals(Approvals(plan, ids, |plan|) + Cancellations(originals)) == set x | x in originals
  {
    var approvals, cancellations := Approvals(plan, ids, |plan|), Cancellations(originals);
    ApprovalsAre(plan, ids, |plan|);
    CancellationsAre(originals);
    forall i | 0 <= i < |originals| ensures Cancels(cancellations[i]) && cancellations[i].original == originals[i] {
      assert originals[i] in ids;
    }
    forall id ensures id in CancelledOriginals(approvals + cancellations) <==> id in originals {
      CancelledIn(approvals, cancellations, originals, id);
    }
  }

  // The ledger's inputs after some items of a paid plan were cancelled.
  lemma {:induction false} CancelledPlanAmounts(plan: seq<Item>, ids: seq<string>, originals: seq<string>)
    requires |plan| == |ids| > 0 && DistinctIds(ids) && forall x | x in originals :: x in ids
    ensures var all := Approvals(plan, ids, |plan|) + Cancellations(originals);
            && CancelledOriginals(all) == (set x | x in originals)
            && Completed(all, Any) == Uncancelled(plan, ids, |plan|, set x | x in originals)
            && (forall i | 0 <= i < |all| :: !IsUnknown(all[i]))
            && |all| > 0 && Successful(all[0])
  {
    var approvals := Approvals(plan, ids, |plan|);
    var cancelled := set x | x in originals;
    ApprovalsAre(plan, ids, |plan|);
    CancellationsAre(originals);
    CancelledSet(plan, ids, originals);
    CancellationsAddNothing(approvals, originals, cancelled);
    SumOfApprovals(plan, ids, |plan|, cancelled);
  }

  /** Cancelling a paid plan: as long as something is left it is
      PARTIALLY_CANCELLED, and once every item is cancelled it is CANCELLED. */
  lemma {:induction false} CancellingThePlan(finalAmount: int, depositAmount: int, plan: seq<Item>, ids: seq<string>,
                                             originals: seq<string>)
    requires var l := CalculatePaymentLedger(finalAmount, depositAmount, []); l.payable > 0 && Sound(plan, l.payable)
    requires |plan| == |ids| && DistinctIds(ids) && forall x | x in originals :: x in ids
    ensures var attempts := Approvals(plan, ids, |plan|) + Cancellations(originals);
            CalculatePaymentLedger(finalAmount, depositAmount, attempts).status
            == if originals == [] then PAID
               else if forall x | x in ids :: x in originals then CANCELLED_WHOLE
               else PARTIALLY_CANCELLED
  {
    var payable := CalculatePaymentLedger(finalAmount, depositAmount, []).payable;
    var cancelled := set x | x in originals;
    CancelledPlanAmounts(plan, ids, originals);
    UncancelledIsTotal(plan, ids, |plan|, cancelled, payable);
    assert plan[..|plan|] == plan;
    assert originals != [] ==> originals[0] in cancelled;
    var all := Approvals(plan, ids, |plan|) + Cancellations(originals);
    CancelledStatus(all, Completed(all, Any), payable - Completed(all, Any));
  }

  lemma {:induction false} CancelledStatus(all: seq<Attempt>, completed: nat, remaining: nat)
    requires forall i | 0 <= i < |all| :: !IsUnknown(all[i])
    requires |all| > 0 && Successful(all[0]) && completed + remaining > 0
    requires remaining > 0 ==> CancelledOriginals(all) != {}
    ensures WholeStatusOf(all, completed, remaining)
            == if remaining == 0 then PAID else if completed == 0 then CANCELLED_WHOLE else PARTIALLY_CANCELLED
  {
  }
}
