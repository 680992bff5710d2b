// Pouring a group's completed payments over its reservations, in order.
//
// The specification lays both lists end to end on one line: reservation j
// occupies the interval its payable amount gives it, payment k the interval its
// amount gives it, and a reservation receives from a payment exactly the length
// on which the two overlap.

module PaymentGroup {
  import opened Numbers

  datatype Method = Card | Cash | Account | Coupon

  datatype Flow = Flow(paidBy: Method, amount: int)

  datatype Allocation = Allocation(reservationId: string, finalAmount: int, payableAmount: int)

  datatype WholeStatus = PENDING | PARTIALLY_PAID | PAID | PARTIALLY_CANCELLED | CANCELLED | UNKNOWN | ERROR

  datatype ByMethod = ByMethod(card: nat, cash: nat, account: nat, coupon: nat)
  {
    function Total(): nat { card + cash + account + coupon }

    function Of(m: Method): nat {
      match m
      case Card => card
      case Cash => cash
      case Account => account
      case Coupon => coupon
    }
  }

  datatype MethodLabel = NoMethod | Only(paidBy: Method) | Mixed

  datatype ShareStatus = Cancelled | Unknown | Paid | PartiallyPaid | Unpaid

  datatype Summary = Summary(reservationId: string, finalAmount: nat, card: nat, cash: nat, account: nat,
                             paymentMethod: MethodLabel, paymentStatus: ShareStatus)

  // ----- The line -----

  // Where payment k begins.
  function FlowStart(flows: seq<Flow>, k: nat): nat
    requires k <= |flows|
  {
    if k == 0 then 0 else FlowStart(flows, k - 1) + Clamp(flows[k - 1].amount)
  }

  // Where reservation j begins.
  function PayableStart(allocations: seq<Allocation>, j: nat): nat
    requires j <= |allocations|
  {
    if j == 0 then 0 else PayableStart(allocations, j - 1) + Clamp(allocations[j - 1].payableAmount)
  }

  function Overlap(a: int, b: int, c: int, d: int): nat {
    Max(0, Min(b, d) - Max(a, c))
  }

  // What [lo, hi) receives from payments 0, ..., n - 1 made with method m.
  function Received(flows: seq<Flow>, n: nat, lo: int, hi: int, m: Method): nat
    requires n <= |flows|
  {
    if n == 0 then 0
    else
      Received(flows, n - 1, lo, hi, m)
      + (if flows[n - 1].paidBy == m
         then Overlap(lo, hi, FlowStart(flows, n - 1), FlowStart(flows, n)) else 0)
  }

  function Share(flows: seq<Flow>, lo: int, hi: int): ByMethod {
    ByMethod(Received(flows, |flows|, lo, hi, Card), Received(flows, |flows|, lo, hi, Cash),
             Received(flows, |flows|, lo, hi, Account), Received(flows, |flows|, lo, hi, Coupon))
  }

  function StatusOf(whole: WholeStatus, payable: nat, received: nat): ShareStatus {
    if whole == CANCELLED then Cancelled
    else if whole == UNKNOWN then Unknown
    else if received >= payable then Paid
    else if received > 0 then PartiallyPaid
    else Unpaid
  }

  function LabelOf(b: ByMethod): MethodLabel {
    var used := (if b.card > 0 then 1 else 0) + (if b.cash > 0 then 1 else 0)
                + (if b.account > 0 then 1 else 0) + (if b.coupon > 0 then 1 else 0);
    if used > 1 then Mixed
    else if b.card > 0 then Only(Card)
    else if b.cash > 0 then Only(Cash)
    else if b.account > 0 then Only(Account)
    else if b.coupon > 0 then Only(Coupon)
    else NoMethod
  }

  /** A share is labelled by the one method it received from, as mixed from two on, and
      not at all when it received nothing. */
  lemma LabelTellsMethods(b: ByMethod)
    ensures LabelOf(b).NoMethod? <==> forall m :: b.Of(m) == 0
    ensures forall m :: LabelOf(b) == Only(m) <==> b.Of(m) > 0 && forall other :: other != m ==> b.Of(other) == 0
    ensures LabelOf(b).Mixed? <==> exists m, other :: m != other && b.Of(m) > 0 && b.Of(other) > 0
    ensures b.Of(Card) + b.Of(Cash) + b.Of(Account) + b.Of(Coupon) == b.Total()
  {
    assert b.Of(Card) == b.card && b.Of(Cash) == b.cash && b.Of(Account) == b.account && b.Of(Coupon) == b.coupon;
  }

  function SummaryOf(allocations: seq<Allocation>, flows: seq<Flow>, whole: WholeStatus, j: nat): Summary
    requires j < |allocations|
  {
    var a := allocations[j];
    var share := Share(flows, PayableStart(allocations, j), PayableStart(allocations, j + 1));
    Summary(a.reservationId, Clamp(a.finalAmount), share.card, share.cash, share.account, LabelOf(share),
            StatusOf(whole, Clamp(a.payableAmount), share.Total()))
  }

  // ----- Laws of the line -----

  function ReceivedAny(flows: seq<Flow>, n: nat, lo: int, hi: int): nat
    requires n <= |flows|
  {
    Received(flows, n, lo, hi, Card) + Received(flows, n, lo, hi, Cash)
    + Received(flows, n, lo, hi, Account) + Received(flows, n, lo, hi, Coupon)
  }

  /** What an interval receives in all is how much of it the payments reach. */
  lemma {:induction false} ReceivedIsReach(flows: seq<Flow>, n: nat, lo: nat, hi: nat)
    requires n <= |flows| && lo <= hi
    ensures ReceivedAny(flows, n, lo, hi) == Overlap(lo, hi, 0, FlowStart(flows, n))
  {
    if n > 0 {
      ReceivedIsReach(flows, n - 1, lo, hi);
    }
  }

  /** Splitting an interval splits what it receives, method by method. */
  lemma {:induction false} ReceivedSplits(flows: seq<Flow>, n: nat, lo: nat, mid: nat, hi: nat, m: Method)
    requires n <= |flows| && lo <= mid <= hi
    ensures Received(flows, n, lo, hi, m) == Received(flows, n, lo, mid, m) + Received(flows, n, mid, hi, m)
  {
    if n > 0 {
      ReceivedSplits(flows, n - 1, lo, mid, hi, m);
    }
  }

  lemma {:induction false} PayableStartsAscend(allocations: seq<Allocation>, i: nat, j: nat)
    requires i <= j <= |allocations|
    ensures PayableStart(allocations, i) <= PayableStart(allocations, j)
  {
    if i < j {
      PayableStartsAscend(allocations, i, j - 1);
    }
  }

  lemma {:induction false} FlowStartsAscend(flows: seq<Flow>, i: nat, k: nat)
    requires i <= k <= |flows|
    ensures FlowStart(flows, i) <= FlowStart(flows, k)
  {
    if i < k {
      FlowStartsAscend(flows, i, k - 1);
    }
  }

  function HandedOut(allocations: seq<Allocation>, flows: seq<Flow>, j: nat, m: Method): nat
    requires j <= |allocations|
  {
    if j == 0 then 0
    else HandedOut(allocations, flows, j - 1, m)
         + Share(flows, PayableStart(allocations, j - 1), PayableStart(allocations, j)).Of(m)
  }

  lemma {:induction false} HandedOutIsReceived(allocations: seq<Allocation>, flows: seq<Flow>, j: nat, m: Method)
    requires j <= |allocations|
    ensures HandedOut(allocations, flows, j, m) == Received(flows, |flows|, 0, PayableStart(allocations, j), m)
  {
    if j > 0 {
      HandedOutIsReceived(allocations, flows, j - 1, m);
      PayableStartsAscend(allocations, j - 1, j);
      ReceivedSplits(flows, |flows|, 0, PayableStart(allocations, j - 1), PayableStart(allocations, j), m);
    } else {
      NothingReceived(flows, |flows|, 0, m);
    }
  }

  lemma {:induction false} NothingReceived(flows: seq<Flow>, n: nat, at: nat, m: Method)
    requires n <= |flows|
    ensures Received(flows, n, at, at, m) == 0
  {
    if n > 0 {
      NothingReceived(flows, n - 1, at, m);
    }
  }

  /** Conservation: over all reservations the payments hand out the smaller of
      what is payable and what was paid. */
  lemma AllHandedOut(allocations: seq<Allocation>, flows: seq<Flow>)
    ensures var n := |allocations|;
            HandedOut(allocations, flows, n, Card) + HandedOut(allocations, flows, n, Cash)
            + HandedOut(allocations, flows, n, Account) + HandedOut(allocations, flows, n, Coupon)
            == Min(PayableStart(allocations, n), FlowStart(flows, |flows|))
  {
    var n := |allocations|;
    HandedOutIsReceived(allocations, flows, n, Card);
    HandedOutIsReceived(allocations, flows, n, Cash);
    HandedOutIsReceived(allocations, flows, n, Account);
    HandedOutIsReceived(allocations, flows, n, Coupon);
    ReceivedIsReach(flows, |flows|, 0, PayableStart(allocations, n));
  }

  function MethodTotal(flows: seq<Flow>, n: nat, m: Method): nat
    requires n <= |flows|
  {
    if n == 0 then 0
    else MethodTotal(flows, n - 1, m) + if flows[n - 1].paidBy == m then Clamp(flows[n - 1].amount) else 0
  }

  /** No method hands out more than was paid with it, and when the payables cover
      all payments each method hands out exactly what was paid with it. */
  lemma MethodsAreConserved(allocations: seq<Allocation>, flows: seq<Flow>, m: Method)
    ensures var out := HandedOut(allocations, flows, |allocations|, m);
            && out <= MethodTotal(flows, |flows|, m)
            && (FlowStart(flows, |flows|) <= PayableStart(allocations, |allocations|) ==>
                  out == MethodTotal(flows, |flows|, m))
  {
    HandedOutIsReceived(allocations, flows, |allocations|, m);
    ReceivedWithinTotal(flows, |flows|, PayableStart(allocations, |allocations|), m);
  }

  lemma {:induction false} ReceivedWithinTotal(flows: seq<Flow>, n: nat, hi: nat, m: Method)
    requires n <= |flows|
    ensures Received(flows, n, 0, hi, m) <= MethodTotal(flows, n, m)
    ensures FlowStart(flows, n) <= hi ==> Received(flows, n, 0, hi, m) == MethodTotal(flows, n, m)
  {
    if n > 0 {
      ReceivedWithinTotal(flows, n - 1, hi, m);
    }
  }

  function ReceivedBy(allocations: seq<Allocation>, flows: seq<Flow>, j: nat): nat
    requires j < |allocations|
  {
    Share(flows, PayableStart(allocations, j), PayableStart(allocations, j + 1)).Total()
  }

  lemma ReceivedByIs(allocations: seq<Allocation>, flows: seq<Flow>, j: nat)
    requires j < |allocations|
    ensures ReceivedBy(allocations, flows, j)
            == Min(Clamp(allocations[j].payableAmount),
                   Max(0, FlowStart(flows, |flows|) - PayableStart(allocations, j)))
  {
    ReceivedIsReach(flows, |flows|, PayableStart(allocations, j), PayableStart(allocations, j + 1));
  }

  /** First come, first served: each reservation receives the smaller of its
      payable amount and what the earlier ones left, so after one left short
      every later one receives nothing. */
  lemma {:induction false} ServedInOrder(allocations: seq<Allocation>, flows: seq<Flow>, i: nat, j: nat)
    requires i < j < |allocations|
    ensures ReceivedBy(allocations, flows, j)
            == Min(Clamp(allocations[j].payableAmount),
                   Max(0, FlowStart(flows, |flows|) - PayableStart(allocations, j)))
    ensures ReceivedBy(allocations, flows, i) < Clamp(allocations[i].payableAmount) ==>
              ReceivedBy(allocations, flows, j) == 0
  {
    ReceivedByIs(allocations, flows, i);
    ReceivedByIs(allocations, flows, j);
    PayableStartsAscend(allocations, i + 1, j);
  }

  // ----- The loop -----

  predicate Positive(flows: seq<Flow>) {
    forall k | 0 <= k < |flows| :: flows[k].amount > 0
  }

  // The payments that count, in order.
  function Kept(flows: seq<Flow>): seq<Flow> {
    if flows == [] then []
    else
      var n := |flows| - 1;
      if flows[n].amount > 0 then Kept(flows[..n]) + [flows[n]] else Kept(flows[..n])
  }

  lemma {:induction false} FlowStartPrefix(flows: seq<Flow>, more: seq<Flow>, k: nat)
    requires k <= |flows|
    ensures FlowStart(flows + more, k) == FlowStart(flows, k)
  {
    if k > 0 {
      FlowStartPrefix(flows, more, k - 1);
    }
  }

  lemma {:induction false} ReceivedPrefix(flows: seq<Flow>, more: seq<Flow>, n: nat, lo: int, hi: int, m: Method)
    requires n <= |flows|
    ensures Received(flows + more, n, lo, hi, m) == Received(flows, n, lo, hi, m)
  {
    if n > 0 {
      ReceivedPrefix(flows, more, n - 1, lo, hi, m);
      FlowStartPrefix(flows, more, n - 1);
      FlowStartPrefix(flows, more, n);
    }
  }

  /** Dropping the payments without an amount changes nobody's share. */
  lemma {:induction false} KeptReceivesTheSame(flows: seq<Flow>, lo: int, hi: int, m: Method)
    ensures Positive(Kept(flows))
    ensures FlowStart(Kept(flows), |Kept(flows)|) == FlowStart(flows, |flows|)
    ensures Received(Kept(flows), |Kept(flows)|, lo, hi, m) == Received(flows, |flows|, lo, hi, m)
  {
    if flows != [] {
      var n := |flows| - 1;
      KeptReceivesTheSame(flows[..n], lo, hi, m);
      assert flows == flows[..n] + [flows[n]];
      FlowStartPrefix(flows[..n], [flows[n]], n);
      ReceivedPrefix(flows[..n], [flows[n]], n, lo, hi, m);
      var before := Kept(flows[..n]);
      FlowStartPrefix(before, [flows[n]], |before|);
      ReceivedPrefix(before, [flows[n]], |before|, lo, hi, m);
    }
  }

  // A stretch inside one payment receives its length, by that payment's method.
  lemma {:induction false} WithinOneFlow(flows: seq<Flow>, n: nat, c: nat, x: nat, y: nat, m: Method)
    requires c < |flows| && n <= |flows|
    requires FlowStart(flows, c) <= x <= y <= FlowStart(flows, c + 1)
    ensures Received(flows, n, x, y, m) == if c < n && flows[c].paidBy == m then y - x else 0
  {
    if n > 0 {
      WithinOneFlow(flows, n - 1, c, x, y, m);
      if n - 1 < c {
        FlowStartsAscend(flows, n, c);
      } else if c < n - 1 {
        FlowStartsAscend(flows, c + 1, n - 1);
      }
    }
  }

  lemma {:induction false} BeyondAllFlows(flows: seq<Flow>, n: nat, x: nat, y: nat, m: Method)
    requires n <= |flows| && FlowStart(flows, n) <= x <= y
    ensures Received(flows, n, x, y, m) == 0
  {
    if n > 0 {
      BeyondAllFlows(flows, n - 1, x, y, m);
    }
  }

  function Add(b: ByMethod, m: Method, amount: nat): ByMethod {
    match m
    case Card => b.(card := b.card + amount)
    case Cash => b.(cash := b.cash + amount)
    case Account => b.(account := b.account + amount)
    case Coupon => b.(coupon := b.coupon + amount)
  }

  // The pouring position: `at` of the line is behind it, payment `cursor` has
  // left[cursor] left, and later payments are untouched.
  predicate Poured(flows: seq<Flow>, left: seq<nat>, cursor: nat, at: nat) {
    && |left| == |flows| && cursor <= |flows|
    && (if cursor < |flows|
        then 0 < left[cursor] <= flows[cursor].amount && at + left[cursor] == FlowStart(flows, cursor + 1)
        else FlowStart(flows, |flows|) <= at)
    && (forall k | cursor < k < |flows| :: left[k] == flows[k].amount)
  }

  lemma NothingPoured(flows: seq<Flow>, left: seq<nat>)
    requires Positive(flows) && |left| == |flows| && forall k | 0 <= k < |flows| :: left[k] == flows[k].amount
    ensures Poured(flows, left, 0, 0)
  {
  }

  lemma PourStep(flows: seq<Flow>, left: seq<nat>, cursor: nat, at: nat, applied: nat)
    requires Positive(flows) && Poured(flows, left, cursor, at) && cursor < |flows| && applied <= left[cursor]
    ensures FlowStart(flows, cursor) <= at && at + applied <= FlowStart(flows, cursor + 1)
    ensures Poured(flows, left[cursor := left[cursor] - applied],
                   if left[cursor] == applied then cursor + 1 else cursor, at + applied)
  {
  }

  lemma ShareGrows(flows: seq<Flow>, lo: nat, at: nat, c: nat, applied: nat)
    requires c < |flows| && lo <= at && FlowStart(flows, c) <= at && at + applied <= FlowStart(flows, c + 1)
    ensures Share(flows, lo, at + applied) == Add(Share(flows, lo, at), flows[c].paidBy, applied)
  {
    forall m: Method ensures Received(flows, |flows|, lo, at + applied, m)
                             == Received(flows, |flows|, lo, at, m) + if flows[c].paidBy == m then applied else 0 {
      ReceivedSplits(flows, |flows|, lo, at, at + applied, m);
      WithinOneFlow(flows, |flows|, c, at, at + applied, m);
    }
  }

  // One turn of the loop.
  lemma DrawStep(flows: seq<Flow>, left: seq<nat>, cursor: nat, lo: nat, at: nat, applied: nat)
    requires Positive(flows) && Poured(flows, left, cursor, at) && cursor < |flows| && applied <= left[cursor]
       && lo <= at
    ensures Poured(flows, left[cursor := left[cursor] - applied],
                   if left[cursor] == applied then cursor + 1 else cursor, at + applied)
    ensures Share(flows, lo, at + applied) == Add(Share(flows, lo, at), flows[cursor].paidBy, applied)
    ensures at + applied <= FlowStart(flows, |flows|)
  {
    PourStep(flows, left, cursor, at, applied);
    ShareGrows(flows, lo, at, cursor, applied);
    FlowStartsAscend(flows, cursor + 1, |flows|);
  }

  lemma ReachedIsAll(lo: nat, at: nat, end: nat)
    requires lo <= at && (at == lo || at <= end)
    ensures Overlap(lo, at, 0, end) == at - lo
  {
  }

  // What was poured is all of the stretch.
  lemma {:induction false} SharePoured(flows: seq<Flow>, lo: nat, at: nat)
    requires lo <= at && (at == lo || at <= FlowStart(flows, |flows|))
    ensures Share(flows, lo, at).Total() == at - lo
  {
    ReceivedIsReach(flows, |flows|, lo, at);
    ReachedIsAll(lo, at, FlowStart(flows, |flows|));
    assert Share(flows, lo, at).Total() == ReceivedAny(flows, |flows|, lo, at);
  }

  lemma ShareEnds(flows: seq<Flow>, lo: nat, at: nat, hi: nat)
    requires lo <= at <= hi && FlowStart(flows, |flows|) <= at
    ensures Share(flows, lo, hi) == Share(flows, lo, at)
  {
    forall m: Method ensures Received(flows, |flows|, lo, hi, m) == Received(flows, |flows|, lo, at, m) {
      ReceivedSplits(flows, |flows|, lo, at, hi, m);
      BeyondAllFlows(flows, |flows|, at, hi, m);
    }
  }

  lemma ShareStarts(flows: seq<Flow>, lo: nat)
    ensures Share(flows, lo, lo) == ByMethod(0, 0, 0, 0)
  {
    forall m: Method ensures Received(flows, |flows|, lo, lo, m) == 0 {
      NothingReceived(flows, |flows|, lo, m);
    }
  }

  // The loop ends where the stretch ends, or behind all payments.
  lemma DrawEnds(flows: seq<Flow>, lo: nat, at: nat, hi: nat)
    requires lo <= at <= hi && (at == lo || at <= FlowStart(flows, |flows|))
    requires at < hi ==> FlowStart(flows, |flows|) <= at
    ensures Share(flows, lo, at) == Share(flows, lo, hi) && Share(flows, lo, hi).Total() == at - lo
  {
    SharePoured(flows, lo, at);
    if at < hi {
      ShareEnds(flows, lo, at, hi);
    }
  }

  // One payment gives up part of what it has left, for the stretch from `lo` to `at`.
  method Use(flows: seq<Flow>, left: array<nat>, k: nat, applied: nat, ghost lo: nat, ghost at: nat)
      returns (cursor: nat)
    requires Positive(flows) && Poured(flows, left[..], k, at) && k < |flows| && applied <= left[k] && lo <= at
    modifies left
    ensures k <= cursor && (cursor == k ==> left[k] == old(left[k]) - applied > 0)
    ensures Poured(flows, left[..], cursor, at + applied)
    ensures Share(flows, lo, at + applied) == Add(Share(flows, lo, at), flows[k].paidBy, applied)
    ensures at + applied <= FlowStart(flows, |flows|)
  {
    DrawStep(flows, left[..], k, lo, at, applied);
    ghost var was := left[..];
    left[k] := left[k] - applied;
    assert left[..] == was[k := was[k] - applied];
    cursor := if left[k] == 0 then k + 1 else k;
  }

  // The inner loop: one reservation draws from the payments, which are consumed
  // in place.
  method Draw(flows: seq<Flow>, left: array<nat>, start: nat, lo: nat, payable: nat)
      returns (byMethod: ByMethod, needed: nat, cursor: nat)
    requires Positive(flows) && Poured(flows, left[..], start, lo)
    modifies left
    ensures start <= cursor && Poured(flows, left[..], cursor, lo + payable)
    ensures byMethod == Share(flows, lo, lo + payable)
    ensures needed + byMethod.Total() == payable
  {
    byMethod := ByMethod(0, 0, 0, 0);
    needed, cursor := payable, start;
    ghost var at := lo;
    ShareStarts(flows, lo);
    while needed > 0 && cursor < |flows|
      invariant start <= cursor && lo <= at && at == lo + payable - needed && needed >= 0
      invariant Poured(flows, left[..], cursor, at)
      invariant byMethod == Share(flows, lo, at)
      invariant at == lo || at <= FlowStart(flows, |flows|)
      decreases |flows| - cursor, needed
    {
      var applied := if needed <= left[cursor] then needed else left[cursor];
      byMethod := Add(byMethod, flows[cursor].paidBy, applied);
      cursor := Use(flows, left, cursor, applied, lo, at);
      needed, at := needed - applied, at + applied;
    }
    DrawEnds(flows, lo, at, lo + payable);
  }

  method KeepPositive(flows: seq<Flow>) returns (kept: seq<Flow>)
    ensures kept == Kept(flows)
  {
    kept := [];
    var i := 0;
    while i < |flows|
      invariant 0 <= i <= |flows| && kept == Kept(flows[..i])
    {
      assert flows[..i + 1][..i] == flows[..i];
      if flows[i].amount > 0 {
        kept := kept + [flows[i]];
      }
      i := i + 1;
    }
    assert flows[..i] == flows;
  }

  lemma SharesOfKept(flows: seq<Flow>, lo: int, hi: int)
    ensures Share(Kept(flows), lo, hi) == Share(flows, lo, hi)
  {
    KeptReceivesTheSame(flows, lo, hi, Card);
    KeptReceivesTheSame(flows, lo, hi, Cash);
    KeptReceivesTheSame(flows, lo, hi, Account);
    KeptReceivesTheSame(flows, lo, hi, Coupon);
  }

  method Summarise(a: Allocation, byMethod: ByMethod, needed: nat, whole: WholeStatus) returns (summary: Summary)
    requires needed + byMethod.Total() == Clamp(a.payableAmount)
    ensures summary == Summary(a.reservationId, Clamp(a.finalAmount), byMethod.card, byMethod.cash, byMethod.account,
                               LabelOf(byMethod), StatusOf(whole, Clamp(a.payableAmount), byMethod.Total()))
  {
    var received := Clamp(a.payableAmount) - needed;
    var status := if whole == CANCELLED then Cancelled
                  else if whole == UNKNOWN then Unknown
                  else if needed == 0 then Paid
                  else if received > 0 then PartiallyPaid
                  else Unpaid;
    summary := Summary(a.reservationId, Clamp(a.finalAmount), byMethod.card, byMethod.cash, byMethod.account,
                       LabelOf(byMethod), status);
  }

  method AllocateOne(allocations: seq<Allocation>, j: nat, completed: seq<Flow>, whole: WholeStatus,
                     flows: seq<Flow>, left: array<nat>, start: nat)
      returns (summary: Summary, cursor: nat)
    requires j < |allocations| && flows == Kept(completed) && Positive(flows)
    requires Poured(flows, left[..], start, PayableStart(allocations, j))
    modifies left
    ensures Poured(flows, left[..], cursor, PayableStart(allocations, j + 1))
    ensures summary == SummaryOf(allocations, completed, whole, j)
  {
    var byMethod, needed;
    byMethod, needed, cursor :=
      Draw(flows, left, start, PayableStart(allocations, j), Clamp(allocations[j].payableAmount));
    SharesOfKept(completed, PayableStart(allocations, j), PayableStart(allocations, j + 1));
    summary := Summarise(allocations[j], byMethod, needed, whole);
  }

  /** The loop that consumes payments in place computes, for every reservation,
      exactly its share of the line. */
  method AllocateGroupPaymentMethods(allocations: seq<Allocation>, completed: seq<Flow>, whole: WholeStatus)
      returns (summaries: seq<Summary>)
    ensures |summaries| == |allocations|
    ensures forall j | 0 <= j < |allocations| :: summaries[j] == SummaryOf(allocations, completed, whole, j)
  {
    var flows := KeepPositive(completed);
    KeptReceivesTheSame(completed, 0, 0, Card);
    var left := new nat[|flows|](k requires 0 <= k < |flows| => Clamp(flows[k].amount));
    NothingPoured(flows, left[..]);
    var cursor := 0;
    summaries := [];
    var j := 0;
    while j < |allocations|
      invariant 0 <= j <= |allocations| && |summaries| == j
      invariant Poured(flows, left[..], cursor, PayableStart(allocations, j))
      invariant forall i | 0 <= i < j :: summaries[i] == SummaryOf(allocations, completed, whole, i)
    {
      var summary;
      summary, cursor := AllocateOne(allocations, j, completed, whole, flows, left, cursor);
      summaries := summaries + [summary];
      j := j + 1;
    }
  }
}
