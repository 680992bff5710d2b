// The benefit tables as the code changes them: rows read, then one batch of
// statements executed in order.

module BenefitStores {
  import opened Numbers
  import opened Wrappers
  import opened MemberBenefits
  import opened BenefitLaws
  import opened BenefitRuns

  ghost predicate Sound(s: Store) {
    StoreOk(s) && KeysCounted(s)
  }

  lemma KeepsValid(s: Store, op: Op)
    ensures Sound(s) ==> Sound(Apply(s, op))
  {
    if Sound(s) {
      ApplyKeepsSound(s, op);
    }
  }

  class BenefitStore {
    var passes: map<PassId, Pass>
    var ledger: seq<Row>
    var orders: map<OrderId, Order>
    var reservations: map<ReservationId, Reservation>

    ghost function View(): Store
      reads this
    {
      Store(passes, ledger, orders, reservations)
    }

    ghost predicate Valid()
      reads this
    {
      Sound(View())
    }

    constructor (orders: map<OrderId, Order>, reservations: map<ReservationId, Reservation>)
      requires forall id | id in orders :: OrderOk(id, orders[id])
      ensures Valid() && View() == Store(map[], [], orders, reservations)
    {
      passes, ledger := map[], [];
      this.orders, this.reservations := orders, reservations;
    }

    // The key is there afterwards, rows before stay where they are, and unique keys
    // stay unique.
    method InsertOnce(r: Row)
      modifies this`ledger
      ensures ledger == AppendOnce(old(ledger), r)
      ensures HasKey(ledger, r.key) && old(ledger) <= ledger && |ledger| <= |old(ledger)| + 1
      ensures old(UniqueKeys(ledger)) ==> UniqueKeys(ledger)
    {
      HasKeyAppend(ledger, r, r.key);
      if !(exists i | 0 <= i < |ledger| :: ledger[i].key == r.key) {
        ledger := ledger + [r];
      }
    }

    method SyncPassPurchasePaid(id: OrderId)
      modifies this
      ensures View() == SyncPaid(old(View()), id)
      ensures old(Valid()) ==> Valid()
    {
      KeepsValid(View(), PaidOp(id));
      if id !in orders {
        return;
      }
      var o := orders[id];
      InsertPass(MemberPass(id), o);
      InsertOnce(PurchaseRow(id, o));
      orders := orders[id := o.(status := PAID, passId := Some(MemberPass(id)))];
      InsertCredits(id, o);
    }

    // A new pass holds what the credits leave of the purchase; one that exists stays.
    method InsertPass(p: PassId, o: Order)
      modifies this`passes
      ensures passes == if p in old(passes) then old(passes) else old(passes)[p := NewPass(o)]
    {
      var credited := TotalCredit(o.credits);
      var used := if o.purchased <= credited then o.purchased else credited;
      var remaining := if o.purchased - used > 0 then o.purchased - used else 0;
      if p !in passes {
        passes := passes[p := Pass(o.memberId, o.purchased, remaining,
                                   if remaining == 0 then USED_UP else ACTIVE, o.unitPrice)];
      }
    }

    method TotalCredit(credits: seq<Credit>) returns (total: nat)
      ensures total == CreditTotal(credits)
    {
      total := 0;
      var i := 0;
      while i < |credits|
        invariant 0 <= i <= |credits| && total == CreditTotal(credits[..i])
      {
        assert credits[..i + 1][..i] == credits[..i];
        total := total + if credits[i].uses > 0 then credits[i].uses else 0;
        i := i + 1;
      }
      assert credits[..i] == credits;
    }

    method InsertCredits(id: OrderId, o: Order)
      modifies this`ledger
      ensures ledger == AppendCredits(old(ledger), id, o, o.credits)
    {
      var i := 0;
      while i < |o.credits|
        invariant 0 <= i <= |o.credits| && ledger == AppendCredits(old(ledger), id, o, o.credits[..i])
      {
        assert o.credits[..i + 1][..i] == o.credits[..i];
        if o.credits[i].uses >= 1 {
          InsertOnce(CreditRow(id, o, o.credits[i]));
        }
        i := i + 1;
      }
      assert o.credits[..i] == o.credits;
    }

    method SyncPassPurchaseCancelled(id: OrderId)
      modifies this
      ensures View() == SyncCancelled(old(View()), id)
      ensures old(Valid()) ==> Valid()
    {
      KeepsValid(View(), CancelledOp(id));
      if id !in orders {
        return;
      }
      var o := orders[id];
      if o.passId.Some? && o.passId.value in passes {
        var p := o.passId.value;
        var pass := passes[p];
        if pass.remaining != pass.purchased {
          orders := orders[id := o.(status := REFUND_REVIEW)];
          return;
        }
        passes := passes[p := pass.(remaining := 0, status := CANCELLED)];
        InsertOnce(CancelRow(id, p, pass));
      }
      orders := orders[id := o.(status := CANCELLED_ORDER)];
    }

    method AssertReservationFits(member: MemberId, x: ReservationId, uses: int,
                                 planExists: bool) returns (outcome: Outcome)
      ensures outcome == CheckReservation(View(), member, x, uses, planExists)
    {
      if x !in reservations || reservations[x].memberId != member {
        return MemberMismatch;
      }
      if reservations[x].cancelled {
        return ReservationCancelled;
      }
      if planExists {
        return PaymentPlanExists;
      }
      if Active(ledger, ReservationUses(x)) + uses > reservations[x].totalCount {
        return UsesExceedPeople;
      }
      outcome := Ok;
    }

    method AssertPassUsable(p: PassId, uses: int, expired: bool) returns (outcome: Outcome)
      ensures outcome == CheckPass(View(), p, uses, expired)
    {
      if p !in passes {
        return PassNotFound;
      }
      if passes[p].status != ACTIVE || passes[p].remaining <= 0 {
        return NotActive;
      }
      if expired {
        return Expired;
      }
      if uses < 1 || uses > passes[p].remaining {
        return UsesInvalid;
      }
      outcome := Ok;
    }

    method RedeemMemberPass(p: PassId, x: Option<ReservationId>, uses: int, expired: bool, planExists: bool)
        returns (outcome: Outcome)
      modifies this
      ensures (View(), outcome) == Redeem(old(View()), p, x, uses, expired, planExists)
      ensures outcome == Ok && x.Some? && x.value in old(reservations) && p in old(passes)
              && 0 <= old(reservations)[x.value].discount <= old(reservations)[x.value].base ==>
        var left := old(reservations)[x.value].base - old(reservations)[x.value].discount;
        var worth := if old(passes)[p].unitPrice > 0 then old(passes)[p].unitPrice * uses else 0;
        Discounts(old(View()), View(), p, x.value, uses, if left <= worth then left else worth)
      ensures old(Valid()) ==> Valid()
    {
      ghost var before := View();
      outcome := AssertPassUsable(p, uses, expired);
      if outcome == Ok && x.Some? {
        outcome := AssertReservationFits(passes[p].memberId, x.value, uses, planExists);
      }
      if outcome != Ok {
        return;
      }
      var row := UseRow(Store(passes, ledger, orders, reservations), p, x, uses);
      if HasKey(ledger, row.key) {
        return KeyTaken;
      }
      ApplyRedemption(p, x, uses, row);
      assert View() == Apply(before, RedeemOp(p, x, uses, expired, planExists));
      KeepsValid(before, RedeemOp(p, x, uses, expired, planExists));
    }

    method ApplyRedemption(p: PassId, x: Option<ReservationId>, uses: int, row: Row)
      requires p in passes && (x.Some? ==> x.value in reservations)
      requires row == UseRow(View(), p, x, uses)
      modifies this
      ensures View() == Redeemed(old(View()), p, x, uses)
    {
      var remaining := passes[p].remaining - uses;
      passes := passes[p := passes[p].(remaining := remaining, status := if remaining == 0 then USED_UP else ACTIVE)];
      ledger := ledger + [row];
      if x.Some? {
        reservations := reservations[x.value := DiscountRaised(reservations[x.value], row.regularAmount)];
      }
    }

    method ApplyRestore(k: nat)
      requires k < |ledger| && ledger[k].passId in passes
      modifies this
      ensures View() == RestoredStore(old(View()), k)
    {
      var use := ledger[k];
      var pass := passes[use.passId];
      var restored := Max(1, Abs(use.uses));
      passes := passes[use.passId := pass.(
        remaining := if pass.purchased <= pass.remaining + restored then pass.purchased else pass.remaining + restored,
        status := if pass.status == CANCELLED then CANCELLED else ACTIVE)];
      ledger := ledger + [RestoreRow(use, k)];
      if use.reservation.Some? && use.reservation.value in reservations {
        reservations := reservations[use.reservation.value :=
          DiscountLowered(reservations[use.reservation.value], use.regularAmount)];
      }
    }

    method RestorePassUse(k: nat, planExists: bool) returns (outcome: Outcome)
      modifies this
      ensures (View(), outcome) == Restore(old(View()), k, planExists)
      ensures old(Valid()) ==> Valid()
    {
      ghost var before := View();
      if k >= |ledger| || ledger[k].kind != USE {
        return UseNotFound;
      }
      var use := ledger[k];
      if HasKey(ledger, RestoreKey(k)) {
        return AlreadyRestored;
      }
      if use.passId !in passes {
        return PassNotFound;
      }
      if use.reservation.Some? && planExists {
        return PaymentPlanExists;
      }
      ApplyRestore(k);
      outcome := Ok;
      assert View() == Apply(before, RestoreOp(k, planExists));
      KeepsValid(before, RestoreOp(k, planExists));
    }
  }
}
