// Multi-use passes: a balance on each pass and a discount on each reservation,
// both kept beside an append-only ledger. Every operation is one atomic batch.
//
// A ledger row's id is its index: no operation here deletes or moves a row.

module MemberBenefits {
  import opened Numbers
  import opened Wrappers

  type OrderId = string
  type MemberId = string
  type ReservationId = string

  // A purchased pass is named after its order.
  datatype PassId = MemberPass(order: OrderId)

  datatype PassStatus = ACTIVE | USED_UP | CANCELLED

  datatype Pass = Pass(memberId: MemberId, purchased: nat, remaining: int, status: PassStatus, unitPrice: int)

  datatype Kind = PURCHASE | USE | RESTORE | CANCEL

  // reference_key, unique over the whole ledger.
  datatype Key =
    | PurchaseKey(order: OrderId)
    | CreditUseKey(order: OrderId, reservation: ReservationId)
    | ReservationUseKey(reservation: ReservationId, number: nat)
    | ManualUseKey(nonce: nat)
    | RestoreKey(use: nat)
    | CancelKey(order: OrderId)

  datatype Row = Row(passId: PassId, memberId: MemberId, kind: Kind, uses: int,
                     reservation: Option<ReservationId>, reference: Option<nat>, key: Key, regularAmount: int)

  datatype Credit = Credit(reservation: ReservationId, uses: int, amount: int)

  datatype OrderStatus = PENDING | PAID | CANCELLED_ORDER | REFUND_REVIEW

  datatype Order = Order(memberId: MemberId, purchased: nat, unitPrice: int, credits: seq<Credit>,
                         status: OrderStatus, passId: Option<PassId>)

  datatype Reservation = Reservation(memberId: MemberId, cancelled: bool, totalCount: int,
                                     base: int, addOn: int, discount: int, payment: int, paid: bool)

  datatype Store = Store(passes: map<PassId, Pass>, ledger: seq<Row>,
                         orders: map<OrderId, Order>, reservations: map<ReservationId, Reservation>)

  function Abs(a: int): nat { if a >= 0 then a else -a }

  // ----- Sums over the ledger -----

  function Balance(ledger: seq<Row>, p: PassId): int {
    if ledger == [] then 0
    else Balance(ledger[..|ledger| - 1], p)
         + (var r := ledger[|ledger| - 1]; if r.passId == p then r.uses else 0)
  }

  function Restored(ledger: seq<Row>): set<nat> {
    set i | 0 <= i < |ledger| && ledger[i].kind == RESTORE && ledger[i].reference.Some? :: ledger[i].reference.value
  }

  // What a sum over USE rows is about: the uses of a pass, the uses of a
  // reservation, or the discount its redemptions recorded. A purchase credit's use
  // raised no discount.
  datatype Measure = PassUses(pass: PassId) | ReservationUses(reservation: ReservationId)
                   | ReservationMoney(of: ReservationId)

  function Weight(r: Row, m: Measure): int {
    if r.kind != USE then 0
    else match m
      case PassUses(p) => if r.passId == p then Abs(r.uses) else 0
      case ReservationUses(x) => if r.reservation == Some(x) then Abs(r.uses) else 0
      case ReservationMoney(x) => if r.reservation == Some(x) && !r.key.CreditUseKey? then r.regularAmount else 0
  }

  // The sum over rows not in `restored`.
  function ActiveSum(rows: seq<Row>, restored: set<nat>, m: Measure): int {
    if rows == [] then 0
    else
      var k := |rows| - 1;
      ActiveSum(rows[..k], restored, m) + (if k in restored then 0 else Weight(rows[k], m))
  }

  function Active(ledger: seq<Row>, m: Measure): int {
    ActiveSum(ledger, Restored(ledger), m)
  }

  // USE rows of a member on a reservation, restored or not.
  function UseCount(ledger: seq<Row>, member: MemberId, x: ReservationId): nat {
    if ledger == [] then 0
    else
      var r := ledger[|ledger| - 1];
      UseCount(ledger[..|ledger| - 1], member, x)
      + (if r.kind == USE && r.memberId == member && r.reservation == Some(x) then 1 else 0)
  }

  predicate HasKey(ledger: seq<Row>, key: Key) {
    exists i | 0 <= i < |ledger| :: ledger[i].key == key
  }

  // INSERT ... ON CONFLICT(reference_key) DO NOTHING
  function AppendOnce(ledger: seq<Row>, r: Row): seq<Row> {
    if HasKey(ledger, r.key) then ledger else ledger + [r]
  }

  // ----- Purchase -----

  function CreditTotal(credits: seq<Credit>): nat {
    if credits == [] then 0
    else CreditTotal(credits[..|credits| - 1]) + Max(0, credits[|credits| - 1].uses)
  }

  function PurchaseRow(id: OrderId, o: Order): Row {
    Row(MemberPass(id), o.memberId, PURCHASE, o.purchased, None, None, PurchaseKey(id), 0)
  }

  function CreditRow(id: OrderId, o: Order, c: Credit): Row {
    Row(MemberPass(id), o.memberId, USE, -c.uses, Some(c.reservation), None, CreditUseKey(id, c.reservation), c.amount)
  }

  function AppendCredits(ledger: seq<Row>, id: OrderId, o: Order, credits: seq<Credit>): seq<Row> {
    if credits == [] then ledger
    else
      var n := |credits| - 1;
      var before := AppendCredits(ledger, id, o, credits[..n]);
      if credits[n].uses < 1 then before else AppendOnce(before, CreditRow(id, o, credits[n]))
  }

  function NewPass(o: Order): Pass {
    var used := Min(o.purchased, CreditTotal(o.credits));
    var remaining := Max(0, o.purchased - used);
    Pass(o.memberId, o.purchased, remaining, if remaining == 0 then USED_UP else ACTIVE, o.unitPrice)
  }

  function SyncPaid(s: Store, id: OrderId): Store {
    if id !in s.orders then s
    else
      var o := s.orders[id];
      var p := MemberPass(id);
      s.(passes := if p in s.passes then s.passes else s.passes[p := NewPass(o)],
         ledger := AppendCredits(AppendOnce(s.ledger, PurchaseRow(id, o)), id, o, o.credits),
         orders := s.orders[id := o.(status := PAID, passId := Some(p))])
  }

  function CancelRow(id: OrderId, p: PassId, pass: Pass): Row {
    Row(p, pass.memberId, CANCEL, -pass.remaining, None, None, CancelKey(id), 0)
  }

  function PassClosed(s: Store, id: OrderId, p: PassId): Store
    requires p in s.passes
  {
    s.(passes := s.passes[p := s.passes[p].(remaining := 0, status := CANCELLED)],
       ledger := AppendOnce(s.ledger, CancelRow(id, p, s.passes[p])))
  }

  function SyncCancelled(s: Store, id: OrderId): Store {
    if id !in s.orders then s
    else
      var o := s.orders[id];
      if o.passId.Some? && o.passId.value in s.passes then
        var p := o.passId.value;
        if s.passes[p].remaining != s.passes[p].purchased
        then s.(orders := s.orders[id := o.(status := REFUND_REVIEW)])
        else PassClosed(s, id, p).(orders := s.orders[id := o.(status := CANCELLED_ORDER)])
      else s.(orders := s.orders[id := o.(status := CANCELLED_ORDER)])
  }

  // ----- Use -----

  datatype Quote = Quote(uses: nat, appliedDiscount: nat, nextDiscount: nat, payment: nat)

  function QuotePassUse(base: int, addOn: int, discount: int, unitPrice: int, requestedUses: int): Quote {
    var b, a := Clamp(base), Clamp(addOn);
    var current := Min(b, Clamp(discount));
    var uses := Max(1, if requestedUses == 0 then 1 else requestedUses);
    var requested := Clamp(unitPrice) * uses;
    var applied := Min(Max(0, b - current), requested);
    Quote(uses, applied, current + applied, Max(0, b + a - (current + applied)))
  }

  datatype Outcome = Ok | PassNotFound | NotActive | Expired | UsesInvalid | MemberMismatch | ReservationCancelled
                   | PaymentPlanExists | UsesExceedPeople | UseNotFound | AlreadyRestored | KeyTaken

  function DiscountRaised(r: Reservation, applied: int): Reservation {
    var discount := Min(r.base, r.discount + applied);
    var payment := Max(0, r.base + r.addOn - discount);
    r.(discount := discount, payment := payment, paid := payment == 0)
  }

  function DiscountLowered(r: Reservation, amount: int): Reservation {
    var discount := Max(0, r.discount - amount);
    var payment := Max(0, r.base + r.addOn - discount);
    r.(discount := discount, payment := payment, paid := if payment > 0 then false else r.paid)
  }

  function CheckPass(s: Store, p: PassId, uses: int, expired: bool): Outcome {
    if p !in s.passes then PassNotFound
    else if s.passes[p].status != ACTIVE || s.passes[p].remaining <= 0 then NotActive
    else if expired then Expired
    else if uses < 1 || uses > s.passes[p].remaining then UsesInvalid
    else Ok
  }

  function CheckReservation(s: Store, member: MemberId, x: ReservationId, uses: int, planExists: bool): Outcome {
    if x !in s.reservations || s.reservations[x].memberId != member then MemberMismatch
    else if s.reservations[x].cancelled then ReservationCancelled
    else if planExists then PaymentPlanExists
    else if Active(s.ledger, ReservationUses(x)) + uses > s.reservations[x].totalCount then UsesExceedPeople
    else Ok
  }

  function UseRow(s: Store, p: PassId, x: Option<ReservationId>, uses: int): Row
    requires p in s.passes && (x.Some? ==> x.value in s.reservations)
  {
    var pass := s.passes[p];
    match x
    case None =>
      Row(p, pass.memberId, USE, -uses, None, None, ManualUseKey(|s.ledger|), pass.unitPrice * uses)
    case Some(r) =>
      var res := s.reservations[r];
      Row(p, pass.memberId, USE, -uses, x, None,
          ReservationUseKey(r, UseCount(s.ledger, pass.memberId, r) + 1),
          QuotePassUse(res.base, res.addOn, res.discount, pass.unitPrice, uses).appliedDiscount)
  }

  function Redeemed(s: Store, p: PassId, x: Option<ReservationId>, uses: int): Store
    requires p in s.passes && (x.Some? ==> x.value in s.reservations)
  {
    var pass := s.passes[p];
    var remaining := pass.remaining - uses;
    var row := UseRow(s, p, x, uses);
    s.(passes := s.passes[p := pass.(remaining := remaining, status := if remaining == 0 then USED_UP else ACTIVE)],
       ledger := s.ledger + [row],
       reservations := if x.None? then s.reservations
                       else s.reservations[x.value := DiscountRaised(s.reservations[x.value], row.regularAmount)])
  }

  function Redeem(s: Store, p: PassId, x: Option<ReservationId>, uses: int, expired: bool, planExists: bool)
    : (Store, Outcome)
  {
    var passCheck := CheckPass(s, p, uses, expired);
    if passCheck != Ok then (s, passCheck)
    else
      var reservationCheck :=
        if x.None? then Ok else CheckReservation(s, s.passes[p].memberId, x.value, uses, planExists);
      if reservationCheck != Ok then (s, reservationCheck)
      else if HasKey(s.ledger, UseRow(s, p, x, uses).key) then (s, KeyTaken)
      else (Redeemed(s, p, x, uses), Ok)
  }

  function RestoreRow(use: Row, k: nat): Row {
    Row(use.passId, use.memberId, RESTORE, Max(1, Abs(use.uses)), use.reservation, Some(k), RestoreKey(k),
        use.regularAmount)
  }

  function RestoredStore(s: Store, k: nat): Store
    requires k < |s.ledger| && s.ledger[k].passId in s.passes
  {
    var use := s.ledger[k];
    var pass := s.passes[use.passId];
    s.(passes := s.passes[use.passId := pass.(
         remaining := Min(pass.purchased, pass.remaining + Max(1, Abs(use.uses))),
         status := if pass.status == CANCELLED then CANCELLED else ACTIVE)],
       ledger := s.ledger + [RestoreRow(use, k)],
       reservations := if use.reservation.Some? && use.reservation.value in s.reservations
                       then s.reservations[use.reservation.value :=
                              DiscountLowered(s.reservations[use.reservation.value], use.regularAmount)]
                       else s.reservations)
  }

  function Restore(s: Store, k: nat, planExists: bool): (Store, Outcome) {
    if k >= |s.ledger| || s.ledger[k].kind != USE then (s, UseNotFound)
    else if HasKey(s.ledger, RestoreKey(k)) then (s, AlreadyRestored)
    else if s.ledger[k].passId !in s.passes then (s, PassNotFound)
    else if s.ledger[k].reservation.Some? && planExists then (s, PaymentPlanExists)
    else (RestoredStore(s, k), Ok)
  }
}
