// The discount of a reservation, and whole runs of purchases, uses, restores
// and cancellations.

module BenefitRuns {
  import opened Numbers
  import opened Wrappers
  import opened MemberBenefits
  import opened BenefitLaws

  // ----- Discounts -----

  predicate AmountsOk(ledger: seq<Row>, x: ReservationId) {
    forall i | 0 <= i < |ledger| ::
      ledger[i].kind == USE && ledger[i].reservation == Some(x) ==> ledger[i].regularAmount >= 0
  }

  /** A reservation's discount is what it started with plus the recorded amounts of
      the redemptions not restored, and never more than the base amount. */
  predicate DiscountOk(s: Store, x: ReservationId, start: int) {
    && x in s.reservations && 0 <= start
    && s.reservations[x].discount == start + Active(s.ledger, ReservationMoney(x))
    && s.reservations[x].discount <= s.reservations[x].base
    && AmountsOk(s.ledger, x)
  }

  predicate NoCreditOn(s: Store, x: ReservationId) {
    forall id | id in s.orders ::
      forall i | 0 <= i < |s.orders[id].credits| :: s.orders[id].credits[i].reservation != x
  }

  predicate NoCreditRows(ledger: seq<Row>, x: ReservationId) {
    forall i | 0 <= i < |ledger| :: ledger[i].key.CreditUseKey? ==> ledger[i].reservation != Some(x)
  }

  /** No purchase takes credit from the reservation, and the uses not restored never
      exceed its people. */
  predicate PeopleOk(s: Store, x: ReservationId) {
    && x in s.reservations && NoCreditOn(s, x) && NoCreditRows(s.ledger, x)
    && Active(s.ledger, ReservationUses(x)) <= s.reservations[x].totalCount
  }

  lemma {:induction false} ActiveMoneyCovers(rows: seq<Row>, restored: set<nat>, x: ReservationId, k: nat)
    requires AmountsOk(rows, x)
    ensures ActiveSum(rows, restored, ReservationMoney(x)) >= 0
    ensures k < |rows| && k !in restored ==>
              ActiveSum(rows, restored, ReservationMoney(x)) >= Weight(rows[k], ReservationMoney(x))
  {
    if rows != [] {
      ActiveMoneyCovers(rows[..|rows| - 1], restored, x, k);
    }
  }

  /** A quote counts at least one use, never takes a discount past the base amount and
      never takes more than the uses are worth: it takes exactly the smaller of what is
      left and that. Discount and payment make up the whole amount. */
  lemma QuoteIsWithinBase(base: int, addOn: int, discount: int, unitPrice: int, uses: int)
    ensures var q := QuotePassUse(base, addOn, discount, unitPrice, uses);
            && q.uses == (if uses >= 1 then uses else 1)
            && q.appliedDiscount <= Clamp(unitPrice) * q.uses && q.nextDiscount <= Clamp(base)
            && (q.appliedDiscount == Clamp(unitPrice) * q.uses || q.nextDiscount == Clamp(base))
            && q.nextDiscount - q.appliedDiscount == Min(Clamp(base), Clamp(discount))
            && q.nextDiscount + q.payment == Clamp(base) + Clamp(addOn)
  {
  }

  // ----- Redeeming -----

  lemma DiscountIsWithinBase(s: Store, x: ReservationId, start: int)
    requires DiscountOk(s, x, start)
    ensures 0 <= s.reservations[x].discount <= s.reservations[x].base
  {
    ActiveMoneyCovers(s.ledger, Restored(s.ledger), x, 0);
  }

  // What a redemption on a reservation records is within its base amount.
  lemma UseAmountFits(s: Store, p: PassId, x: ReservationId, uses: int, start: int)
    requires DiscountOk(s, x, start) && CanRedeem(s, p, Some(x), uses)
    ensures 0 <= s.reservations[x].discount && 0 <= UseRow(s, p, Some(x), uses).regularAmount
    ensures s.reservations[x].discount + UseRow(s, p, Some(x), uses).regularAmount <= s.reservations[x].base
  {
    var res := s.reservations[x];
    DiscountIsWithinBase(s, x, start);
    QuoteIsWithinBase(res.base, res.addOn, res.discount, s.passes[p].unitPrice, uses);
  }

  // A redemption on `x` discounts `raise` more: the row records it, and the payment
  // and the paid flag follow from it.
  ghost predicate Discounts(s: Store, s': Store, p: PassId, x: ReservationId, uses: int, raise: int)
    requires p in s.passes && x in s.reservations
  {
    var r, pass := s.reservations[x], s.passes[p];
    var due := r.base + r.addOn - (r.discount + raise);
    && s'.reservations == s.reservations[x := r.(discount := r.discount + raise,
                                                 payment := if due > 0 then due else 0, paid := due <= 0)]
    && s'.passes == s.passes[p := pass.(remaining := pass.remaining - uses,
                                        status := if pass.remaining == uses then USED_UP else ACTIVE)]
    && s'.orders == s.orders && |s'.ledger| == |s.ledger| + 1 && s'.ledger[..|s.ledger|] == s.ledger
    && var row := s'.ledger[|s.ledger|];
       && row.passId == p && row.memberId == pass.memberId && row.kind == USE && row.uses == -uses
       && row.reservation == Some(x) && row.reference == None && row.regularAmount == raise
       && row.key.ReservationUseKey? && row.key.reservation == x
  }

  /** What a redemption costs: on a reservation whose discount is within its base amount
      the discount rises by exactly the smaller of what is left of the base amount and
      the pass's price for the uses. The ledger row records exactly that rise, and the
      payment is what then remains, paid if and only if nothing does. */
  lemma RedeemDiscountsItsWorth(s: Store, p: PassId, x: ReservationId, uses: int, expired: bool, planExists: bool,
                                s': Store)
    requires Redeem(s, p, Some(x), uses, expired, planExists) == (s', Ok)
    requires 0 <= s.reservations[x].discount <= s.reservations[x].base
    ensures var left := s.reservations[x].base - s.reservations[x].discount;
            var worth := if s.passes[p].unitPrice > 0 then s.passes[p].unitPrice * uses else 0;
            Discounts(s, s', p, x, uses, if left <= worth then left else worth)
  {
    var res := s.reservations[x];
    QuoteIsWithinBase(res.base, res.addOn, res.discount, s.passes[p].unitPrice, uses);
  }

  /** A use without a reservation records the price of its uses and no discount. */
  lemma ManualUseRecordsItsPrice(s: Store, p: PassId, uses: int, expired: bool, planExists: bool, s': Store)
    requires Redeem(s, p, None, uses, expired, planExists) == (s', Ok)
    ensures s'.reservations == s.reservations && s'.orders == s.orders
    ensures |s'.ledger| == |s.ledger| + 1 && s'.ledger[..|s.ledger|] == s.ledger
    ensures var row := s'.ledger[|s.ledger|];
            && row.passId == p && row.memberId == s.passes[p].memberId && row.kind == USE && row.uses == -uses
            && row.reservation == None && row.reference == None && row.key.ManualUseKey?
            && row.regularAmount == s.passes[p].unitPrice * uses
    ensures s'.passes == s.passes[p := s.passes[p].(
                           remaining := s.passes[p].remaining - uses,
                           status := if s.passes[p].remaining == uses then USED_UP else ACTIVE)]
  {
  }

  // A row moves the discount of `x` by its weight.
  lemma WeighedRowKeepsDiscount(s: Store, s': Store, r: Row, x: ReservationId, start: int)
    requires RowsOk(s.ledger, s.passes.Keys) && DiscountOk(s, x, start)
    requires s'.ledger == s.ledger + [r] && r.kind != RESTORE
    requires r.kind == USE && r.reservation == Some(x) ==> r.regularAmount >= 0
    requires x in s'.reservations && s'.reservations[x].base == s.reservations[x].base
    requires s'.reservations[x].discount == s.reservations[x].discount + Weight(r, ReservationMoney(x))
    requires s'.reservations[x].discount <= s'.reservations[x].base
    ensures DiscountOk(s', x, start)
  {
    ActiveAppend(s.ledger, s.passes.Keys, r, ReservationMoney(x));
  }

  lemma RaisedKeepsDiscount(s: Store, s': Store, r: Row, x: ReservationId, start: int)
    requires RowsOk(s.ledger, s.passes.Keys) && DiscountOk(s, x, start) && s'.ledger == s.ledger + [r]
    requires r.kind == USE && r.reservation == Some(x) && !r.key.CreditUseKey? && r.regularAmount >= 0
    requires s.reservations[x].discount + r.regularAmount <= s.reservations[x].base
    requires x in s'.reservations && s'.reservations[x] == DiscountRaised(s.reservations[x], r.regularAmount)
    ensures DiscountOk(s', x, start)
  {
    WeighedRowKeepsDiscount(s, s', r, x, start);
  }

  lemma RedeemOnKeepsDiscount(s: Store, s': Store, p: PassId, x: ReservationId, uses: int, start: int)
    requires RowsOk(s.ledger, s.passes.Keys) && DiscountOk(s, x, start) && CanRedeem(s, p, Some(x), uses)
    requires s' == Redeemed(s, p, Some(x), uses)
    ensures DiscountOk(s', x, start)
  {
    UseAmountFits(s, p, x, uses, start);
    RaisedKeepsDiscount(s, s', UseRow(s, p, Some(x), uses), x, start);
  }

  lemma RedeemElsewhereKeepsDiscount(s: Store, s': Store, p: PassId, y: Option<ReservationId>, uses: int,
                                     x: ReservationId, start: int)
    requires RowsOk(s.ledger, s.passes.Keys) && DiscountOk(s, x, start) && CanRedeem(s, p, y, uses) && y != Some(x)
    requires s' == Redeemed(s, p, y, uses)
    ensures DiscountOk(s', x, start)
  {
    WeighedRowKeepsDiscount(s, s', UseRow(s, p, y, uses), x, start);
  }

  lemma {:induction false} RedeemKeepsDiscount(s: Store, p: PassId, y: Option<ReservationId>, uses: int,
                                               expired: bool, planExists: bool, x: ReservationId, start: int)
    requires RowsOk(s.ledger, s.passes.Keys) && DiscountOk(s, x, start)
    ensures DiscountOk(Redeem(s, p, y, uses, expired, planExists).0, x, start)
  {
    var (s', outcome) := Redeem(s, p, y, uses, expired, planExists);
    if outcome == Ok {
      RedeemMoves(s, p, y, uses, expired, planExists);
      if y == Some(x) {
        RedeemOnKeepsDiscount(s, s', p, x, uses, start);
      } else {
        RedeemElsewhereKeepsDiscount(s, s', p, y, uses, x, start);
      }
    } else {
      RefusedMovesNothing(s, p, y, uses, expired, planExists);
    }
  }

  /** A redemption adds exactly its uses to those of its reservation, a restore takes
      exactly the restored ones away, and no other reservation's uses move. */
  lemma {:induction false} ReservationUsesAreCounted(s: Store, y: ReservationId)
    requires RowsOk(s.ledger, s.passes.Keys)
    ensures s.ledger == [] ==> Active(s.ledger, ReservationUses(y)) == 0
    ensures forall p, x: Option<ReservationId>, uses | CanRedeem(s, p, x, uses) ::
              Active(Redeemed(s, p, x, uses).ledger, ReservationUses(y))
              == Active(s.ledger, ReservationUses(y)) + if x == Some(y) then uses else 0
    ensures forall k: nat | CanRestore(s, k) ::
              Active(RestoredStore(s, k).ledger, ReservationUses(y))
              == Active(s.ledger, ReservationUses(y))
                 - if s.ledger[k].reservation != Some(y) then 0
                   else if s.ledger[k].uses < 0 then -s.ledger[k].uses else s.ledger[k].uses
  {
    forall p, x: Option<ReservationId>, uses | CanRedeem(s, p, x, uses)
      ensures Active(Redeemed(s, p, x, uses).ledger, ReservationUses(y))
              == Active(s.ledger, ReservationUses(y)) + if x == Some(y) then uses else 0
    {
      ActiveAppend(s.ledger, s.passes.Keys, UseRow(s, p, x, uses), ReservationUses(y));
    }
    forall k: nat | CanRestore(s, k)
      ensures Active(RestoredStore(s, k).ledger, ReservationUses(y))
              == Active(s.ledger, ReservationUses(y))
                 - if s.ledger[k].reservation != Some(y) then 0
                   else if s.ledger[k].uses < 0 then -s.ledger[k].uses else s.ledger[k].uses
    {
      ActiveRestore(s.ledger, s.passes.Keys, k, ReservationUses(y));
    }
  }

  lemma RowKeepsPeople(s: Store, s': Store, r: Row, x: ReservationId)
    requires RowsOk(s.ledger, s.passes.Keys) && PeopleOk(s, x) && s'.ledger == s.ledger + [r] && s'.orders == s.orders
    requires r.kind != RESTORE && !r.key.CreditUseKey?
    requires x in s'.reservations && s'.reservations[x].totalCount == s.reservations[x].totalCount
    requires Active(s.ledger, ReservationUses(x)) + Weight(r, ReservationUses(x)) <= s.reservations[x].totalCount
    ensures PeopleOk(s', x)
  {
    ActiveAppend(s.ledger, s.passes.Keys, r, ReservationUses(x));
  }

  lemma RedeemKeepsPeople(s: Store, p: PassId, y: Option<ReservationId>, uses: int, expired: bool,
                          planExists: bool, x: ReservationId)
    requires RowsOk(s.ledger, s.passes.Keys) && PeopleOk(s, x)
    ensures PeopleOk(Redeem(s, p, y, uses, expired, planExists).0, x)
  {
    var (s', outcome) := Redeem(s, p, y, uses, expired, planExists);
    if outcome == Ok {
      RedeemMoves(s, p, y, uses, expired, planExists);
      RowKeepsPeople(s, s', UseRow(s, p, y, uses), x);
    } else {
      RefusedMovesNothing(s, p, y, uses, expired, planExists);
    }
  }

  // ----- Restoring -----

  lemma RestoredAmountsOk(s: Store, k: nat, x: ReservationId)
    requires CanRestore(s, k) && AmountsOk(s.ledger, x)
    ensures AmountsOk(RestoredStore(s, k).ledger, x)
  {
  }

  lemma RestoreOnKeepsDiscount(s: Store, k: nat, x: ReservationId, start: int)
    requires RowsOk(s.ledger, s.passes.Keys) && DiscountOk(s, x, start)
    requires CanRestore(s, k) && s.ledger[k].reservation == Some(x)
    requires !s.ledger[k].key.CreditUseKey?
    ensures DiscountOk(RestoredStore(s, k), x, start)
    ensures RestoredStore(s, k).reservations[x].discount == s.reservations[x].discount - s.ledger[k].regularAmount
  {
    RestoredMeansKey(s.ledger, s.passes.Keys, k);
    ActiveMoneyCovers(s.ledger, Restored(s.ledger), x, k);
    ActiveRestore(s.ledger, s.passes.Keys, k, ReservationMoney(x));
    RestoredAmountsOk(s, k, x);
  }

  lemma RestoreElsewhereKeepsDiscount(s: Store, k: nat, x: ReservationId, start: int)
    requires RowsOk(s.ledger, s.passes.Keys) && DiscountOk(s, x, start)
    requires CanRestore(s, k) && s.ledger[k].reservation != Some(x)
    ensures DiscountOk(RestoredStore(s, k), x, start)
  {
    ActiveRestore(s.ledger, s.passes.Keys, k, ReservationMoney(x));
    RestoredAmountsOk(s, k, x);
  }

  /** Restoring a purchase credit's use keeps the discount if and only if there was
      none left or the credit was worth nothing: the purchase never raised it. */
  lemma {:induction false} RestoringCreditKeepsDiscountExactlyWhen(s: Store, k: nat, x: ReservationId, start: int)
    requires RowsOk(s.ledger, s.passes.Keys) && DiscountOk(s, x, start)
    requires CanRestore(s, k) && s.ledger[k].reservation == Some(x)
    requires s.ledger[k].key.CreditUseKey?
    ensures DiscountOk(RestoredStore(s, k), x, start)
            <==> s.reservations[x].discount == 0 || s.ledger[k].regularAmount == 0
    ensures RestoredStore(s, k).reservations[x].discount < s.reservations[x].discount
            <==> s.reservations[x].discount > 0 && s.ledger[k].regularAmount > 0
  {
    ActiveMoneyCovers(s.ledger, Restored(s.ledger), x, k);
    ActiveRestore(s.ledger, s.passes.Keys, k, ReservationMoney(x));
    RestoredAmountsOk(s, k, x);
  }

  // The restore is of a credit's use worth something, on a reservation that has a discount.
  predicate TakesDiscount(s: Store, k: nat, planExists: bool, x: ReservationId)
    requires x in s.reservations
  {
    && Restore(s, k, planExists).1 == Ok
    && s.ledger[k].key.CreditUseKey? && s.ledger[k].reservation == Some(x)
    && s.reservations[x].discount != 0 && s.ledger[k].regularAmount != 0
  }

  lemma {:induction false} RestoreKeepsDiscountExactlyWhen(s: Store, k: nat, planExists: bool, x: ReservationId,
                                                           start: int)
    requires RowsOk(s.ledger, s.passes.Keys) && DiscountOk(s, x, start)
    ensures DiscountOk(Restore(s, k, planExists).0, x, start) <==> !TakesDiscount(s, k, planExists, x)
  {
    if Restore(s, k, planExists).1 == Ok {
      if s.ledger[k].reservation != Some(x) {
        RestoreElsewhereKeepsDiscount(s, k, x, start);
      } else if s.ledger[k].key.CreditUseKey? {
        RestoringCreditKeepsDiscountExactlyWhen(s, k, x, start);
      } else {
        RestoreOnKeepsDiscount(s, k, x, start);
      }
    }
  }

  /** What a restore gives back: the pass gets the uses, up to what was purchased, and is
      active again unless it was cancelled; the reservation loses the recorded amount
      from its discount, down to none, and is no longer paid if then something is due. */
  lemma RestoreGivesBack(s: Store, k: nat, planExists: bool, s': Store)
    requires Restore(s, k, planExists) == (s', Ok)
    ensures var use := s.ledger[k];
            var pass := s.passes[use.passId];
            var back := if use.uses == 0 then 1 else if use.uses < 0 then -use.uses else use.uses;
            && s'.passes == s.passes[use.passId := pass.(
                 remaining := if pass.remaining + back <= pass.purchased then pass.remaining + back else pass.purchased,
                 status := if pass.status == CANCELLED then CANCELLED else ACTIVE)]
            && s'.orders == s.orders && |s'.ledger| == |s.ledger| + 1 && s'.ledger[..|s.ledger|] == s.ledger
            && s'.ledger[|s.ledger|] == Row(use.passId, use.memberId, RESTORE, back, use.reservation, Some(k),
                                            RestoreKey(k), use.regularAmount)
    ensures s'.reservations.Keys == s.reservations.Keys
    ensures forall x | x in s.reservations && s.ledger[k].reservation != Some(x) ::
              s'.reservations[x] == s.reservations[x]
    ensures forall x | x in s.reservations && s.ledger[k].reservation == Some(x) ::
              var r, lower := s.reservations[x], s.reservations[x].discount - s.ledger[k].regularAmount;
              var discount := if lower > 0 then lower else 0;
              var due := r.base + r.addOn - discount;
              s'.reservations[x] == r.(discount := discount, payment := if due > 0 then due else 0,
                                       paid := due <= 0 && r.paid)
  {
  }

  lemma RestoredKeepsPeople(s: Store, s': Store, k: nat, x: ReservationId)
    requires RowsOk(s.ledger, s.passes.Keys) && PeopleOk(s, x) && CanRestore(s, k) && s' == RestoredStore(s, k)
    ensures PeopleOk(s', x)
  {
    ActiveRestore(s.ledger, s.passes.Keys, k, ReservationUses(x));
    assert s'.ledger == s.ledger + [RestoreRow(s.ledger[k], k)];
  }

  lemma RestoreKeepsPeople(s: Store, k: nat, planExists: bool, x: ReservationId)
    requires RowsOk(s.ledger, s.passes.Keys) && PeopleOk(s, x)
    ensures PeopleOk(Restore(s, k, planExists).0, x)
  {
    if Restore(s, k, planExists).1 == Ok {
      RestoredKeepsPeople(s, RestoredStore(s, k), k, x);
    }
  }

  // The store right after a redemption can restore it.
  lemma RedeemedCanRestore(s: Store, p: PassId, x: ReservationId, uses: int)
    requires StoreOk(s) && KeysCounted(s) && CanRedeem(s, p, Some(x), uses)
    ensures var after := Redeemed(s, p, Some(x), uses);
            StoreOk(after) && KeysCounted(after) && CanRestore(after, |s.ledger|)
            && after.ledger[|s.ledger|] == UseRow(s, p, Some(x), uses)
  {
    RedeemedRowsOk(s, p, Some(x), uses);
    RedeemedStoreOk(s, p, Some(x), uses);
    RestoredMeansKey(s.ledger, s.passes.Keys, |s.ledger|);
    HasKeyAppend(s.ledger, UseRow(s, p, Some(x), uses), RestoreKey(|s.ledger|));
  }

  // The payment and the paid flag are what base, add-ons and discount make them.
  predicate Priced(r: Reservation) {
    r.payment == Max(0, r.base + r.addOn - r.discount) && (r.paid <==> r.payment == 0)
  }

  // The pass and the discount after `back` are as before, and the payment is
  // priced from them.
  predicate AsBefore(s: Store, back: Store, p: PassId, x: ReservationId) {
    && p in s.passes && p in back.passes && back.passes[p] == s.passes[p]
    && x in s.reservations && x in back.reservations
    && back.reservations[x].discount == s.reservations[x].discount && Priced(back.reservations[x])
    && (back.reservations[x] == s.reservations[x] <==> Priced(s.reservations[x]))
  }

  // Raising a discount within the base amount and lowering it by the same amount.
  lemma LoweredRaised(r: Reservation, amount: int)
    requires 0 <= r.discount && 0 <= amount && r.discount + amount <= r.base
    ensures var back := DiscountLowered(DiscountRaised(r, amount), amount);
            back.discount == r.discount && Priced(back) && (back == r <==> Priced(r))
  {
  }

  lemma RestoredReservation(s: Store, after: Store, p: PassId, x: ReservationId, uses: int)
    requires CanRedeem(s, p, Some(x), uses) && after == Redeemed(s, p, Some(x), uses)
    ensures x in RestoredStore(after, |s.ledger|).reservations
    ensures var amount := UseRow(s, p, Some(x), uses).regularAmount;
            RestoredStore(after, |s.ledger|).reservations[x]
            == DiscountLowered(DiscountRaised(s.reservations[x], amount), amount)
  {
  }

  lemma RestoredPass(s: Store, after: Store, p: PassId, x: ReservationId, uses: int)
    requires RowsOk(after.ledger, after.passes.Keys) && p in after.passes && PassOk(after, p)
    requires CanRedeem(s, p, Some(x), uses) && after == Redeemed(s, p, Some(x), uses)
    requires CanRestore(after, |s.ledger|)
    ensures p in RestoredStore(after, |s.ledger|).passes
    ensures RestoredStore(after, |s.ledger|).passes[p] == s.passes[p]
  {
    assert after.ledger[|s.ledger|].passId == p && after.ledger[|s.ledger|].uses == -uses;
    RestoredPassOk(after, |s.ledger|);
  }

  lemma RestoredRedeemed(s: Store, after: Store, p: PassId, x: ReservationId, uses: int, start: int)
    requires StoreOk(s) && KeysCounted(s) && DiscountOk(s, x, start) && CanRedeem(s, p, Some(x), uses)
    requires after == Redeemed(s, p, Some(x), uses) && StoreOk(after) && CanRestore(after, |s.ledger|)
    ensures AsBefore(s, RestoredStore(after, |s.ledger|), p, x)
  {
    UseAmountFits(s, p, x, uses, start);
    LoweredRaised(s.reservations[x], UseRow(s, p, Some(x), uses).regularAmount);
    RestoredReservation(s, after, p, x, uses);
    RestoredPass(s, after, p, x, uses);
  }

  /** Restoring undoes redeeming: the pass has its uses and its status back, the
      reservation its discount, however the redemption was quoted. The payment is
      priced from that discount, so the reservation comes back whole if and only if
      it was priced so before. */
  lemma {:induction false} RestoreUndoesRedeem(s: Store, p: PassId, x: ReservationId, uses: int, start: int,
                                               after: Store)
    requires StoreOk(s) && KeysCounted(s) && DiscountOk(s, x, start)
    requires Redeem(s, p, Some(x), uses, false, false) == (after, Ok)
    ensures Restore(after, |s.ledger|, false).1 == Ok && AsBefore(s, Restore(after, |s.ledger|, false).0, p, x)
  {
    RedeemMoves(s, p, Some(x), uses, false, false);
    RedeemedCanRestore(s, p, x, uses);
    RestoredRedeemed(s, after, p, x, uses, start);
  }

  // ----- Syncs -----

  lemma {:induction false} PaidStagesCounted(s: Store, id: OrderId, n: nat)
    requires RowsOk(s.ledger, s.passes.Keys) && id in s.orders && OrderOk(id, s.orders[id])
    requires KeysCounted(s) && MemberPass(id) !in s.passes
    requires n <= |s.orders[id].credits|
    ensures KeysCounted(s.(ledger := PaidLedger(s, id, n)))
    decreases n
  {
    CreditStages(s, id, n);
    if n == 0 {
      PurchaseStage(s, id);
      KeysStayCounted(s, s.(ledger := PaidLedger(s, id, 0)), PurchaseRow(id, s.orders[id]));
    } else {
      PaidStagesCounted(s, id, n - 1);
      CreditStages(s, id, n - 1);
      PaidStage(s, id, n - 1);
      KeysStayCounted(s.(ledger := PaidLedger(s, id, n - 1)), s.(ledger := PaidLedger(s, id, n)),
                      CreditRow(id, s.orders[id], s.orders[id].credits[n - 1]));
    }
  }

  // Credit rows that weigh nothing in a sum leave it alone.
  lemma {:induction false} PaidStagesKeepSum(s: Store, id: OrderId, n: nat, m: Measure)
    requires RowsOk(s.ledger, s.passes.Keys) && id in s.orders && OrderOk(id, s.orders[id])
    requires MemberPass(id) !in s.passes && n <= |s.orders[id].credits|
    requires forall i | 0 <= i < n :: Weight(CreditRow(id, s.orders[id], s.orders[id].credits[i]), m) == 0
    ensures Active(PaidLedger(s, id, n), m) == Active(s.ledger, m)
    decreases n
  {
    if n == 0 {
      PurchaseStage(s, id);
      ActiveAppend(s.ledger, s.passes.Keys, PurchaseRow(id, s.orders[id]), m);
    } else {
      PaidStagesKeepSum(s, id, n - 1, m);
      CreditStages(s, id, n - 1);
      PaidStage(s, id, n - 1);
      ActiveAppend(PaidLedger(s, id, n - 1), s.passes.Keys + {MemberPass(id)},
                   CreditRow(id, s.orders[id], s.orders[id].credits[n - 1]), m);
    }
  }

  lemma {:induction false} PaidStagesKeepRows(s: Store, id: OrderId, n: nat, x: ReservationId)
    requires RowsOk(s.ledger, s.passes.Keys) && id in s.orders && OrderOk(id, s.orders[id])
    requires MemberPass(id) !in s.passes && n <= |s.orders[id].credits|
    ensures AmountsOk(s.ledger, x) ==> AmountsOk(PaidLedger(s, id, n), x)
    ensures NoCreditOn(s, x) && NoCreditRows(s.ledger, x) ==> NoCreditRows(PaidLedger(s, id, n), x)
    decreases n
  {
    if n == 0 {
      PurchaseStage(s, id);
    } else {
      PaidStagesKeepRows(s, id, n - 1, x);
      CreditStages(s, id, n - 1);
      PaidStage(s, id, n - 1);
    }
  }

  lemma OpenedKeepsRest(s: Store, id: OrderId, x: ReservationId, start: int)
    requires RowsOk(s.ledger, s.passes.Keys) && id in s.orders && OrderOk(id, s.orders[id])
    requires KeysCounted(s) && MemberPass(id) !in s.passes
    ensures KeysCounted(SyncPaid(s, id))
    ensures DiscountOk(s, x, start) ==> DiscountOk(SyncPaid(s, id), x, start)
    ensures PeopleOk(s, x) ==> PeopleOk(SyncPaid(s, id), x)
  {
    var o := s.orders[id];
    assert o.credits[..|o.credits|] == o.credits;
    PaidStagesCounted(s, id, |o.credits|);
    PaidStagesKeepRows(s, id, |o.credits|, x);
    PaidStagesKeepSum(s, id, |o.credits|, ReservationMoney(x));
    if PeopleOk(s, x) {
      PaidStagesKeepSum(s, id, |o.credits|, ReservationUses(x));
    }
  }

  lemma SyncPaidKeepsRest(s: Store, id: OrderId, x: ReservationId, start: int)
    requires StoreOk(s) && KeysCounted(s)
    ensures KeysCounted(SyncPaid(s, id))
    ensures DiscountOk(s, x, start) ==> DiscountOk(SyncPaid(s, id), x, start)
    ensures PeopleOk(s, x) ==> PeopleOk(SyncPaid(s, id), x)
  {
    if id in s.orders {
      if MemberPass(id) in s.passes {
        RepeatedPaidAddsNothing(s, id);
      } else {
        OpenedKeepsRest(s, id, x, start);
      }
    }
  }

  lemma ClosedKeepsRest(s: Store, id: OrderId, p: PassId, x: ReservationId, start: int)
    requires RowsOk(s.ledger, s.passes.Keys)
    requires KeysCounted(s) && p in s.passes
    ensures KeysCounted(PassClosed(s, id, p))
    ensures DiscountOk(s, x, start) ==> DiscountOk(PassClosed(s, id, p), x, start)
    ensures PeopleOk(s, x) ==> PeopleOk(PassClosed(s, id, p), x)
  {
    var s', r := PassClosed(s, id, p), CancelRow(id, p, s.passes[p]);
    if !HasKey(s.ledger, r.key) {
      KeysStayCounted(s, s', r);
      ActiveAppend(s.ledger, s.passes.Keys, r, ReservationUses(x));
      if DiscountOk(s, x, start) {
        WeighedRowKeepsDiscount(s, s', r, x, start);
      }
    }
  }

  lemma OrderMoveKeepsRest(s: Store, s': Store, id: OrderId, x: ReservationId, start: int)
    requires KeysCounted(s) && id in s.orders && id in s'.orders && s' == s.(orders := s.orders[id := s'.orders[id]])
    requires s'.orders[id].credits == s.orders[id].credits
    ensures KeysCounted(s')
    ensures DiscountOk(s, x, start) ==> DiscountOk(s', x, start)
    ensures PeopleOk(s, x) ==> PeopleOk(s', x)
  {
  }

  lemma SyncCancelledKeepsRest(s: Store, id: OrderId, x: ReservationId, start: int)
    requires StoreOk(s) && KeysCounted(s)
    ensures KeysCounted(SyncCancelled(s, id))
    ensures DiscountOk(s, x, start) ==> DiscountOk(SyncCancelled(s, id), x, start)
    ensures PeopleOk(s, x) ==> PeopleOk(SyncCancelled(s, id), x)
  {
    if id in s.orders {
      var o := s.orders[id];
      if o.passId.Some? && o.passId.value in s.passes
         && s.passes[o.passId.value].remaining == s.passes[o.passId.value].purchased
      {
        ClosedKeepsRest(s, id, o.passId.value, x, start);
        OrderMoveKeepsRest(PassClosed(s, id, o.passId.value), SyncCancelled(s, id), id, x, start);
      } else {
        OrderMoveKeepsRest(s, SyncCancelled(s, id), id, x, start);
      }
    }
  }

  // ----- Runs -----

  datatype Op =
    | PaidOp(order: OrderId)
    | CancelledOp(order: OrderId)
    | RedeemOp(pass: PassId, reservation: Option<ReservationId>, uses: int, expired: bool, planExists: bool)
    | RestoreOp(use: nat, planExists: bool)

  function Apply(s: Store, op: Op): Store {
    match op
    case PaidOp(id) => SyncPaid(s, id)
    case CancelledOp(id) => SyncCancelled(s, id)
    case RedeemOp(p, x, uses, expired, planExists) => Redeem(s, p, x, uses, expired, planExists).0
    case RestoreOp(k, planExists) => Restore(s, k, planExists).0
  }

  // The operation restores a credit's use that lowers the discount of `x`.
  predicate LowersDiscount(s: Store, op: Op, x: ReservationId) {
    op.RestoreOp? && x in s.reservations && TakesDiscount(s, op.use, op.planExists, x)
  }

  lemma ApplyKeepsSound(s: Store, op: Op)
    requires StoreOk(s) && KeysCounted(s)
    ensures StoreOk(Apply(s, op)) && KeysCounted(Apply(s, op))
  {
    match op
    case PaidOp(id) =>
      SyncPaidKeepsStoreOk(s, id);
      SyncPaidKeepsRest(s, id, "", 0);
    case CancelledOp(id) =>
      SyncCancelledKeepsStoreOk(s, id);
      SyncCancelledKeepsRest(s, id, "", 0);
    case RedeemOp(p, y, uses, expired, planExists) => RedeemKeepsStoreOk(s, p, y, uses, expired, planExists);
    case RestoreOp(k, planExists) => RestoreKeepsStoreOk(s, k, planExists);
  }

  lemma OtherStepConserves(s: Store, op: Op, x: ReservationId, start: int)
    requires StoreOk(s) && KeysCounted(s) && DiscountOk(s, x, start) && !op.RestoreOp?
    ensures DiscountOk(Apply(s, op), x, start)
  {
    match op
    case PaidOp(id) => SyncPaidKeepsRest(s, id, x, start);
    case CancelledOp(id) => SyncCancelledKeepsRest(s, id, x, start);
    case RedeemOp(p, y, uses, expired, planExists) =>
      RedeemKeepsDiscount(s, p, y, uses, expired, planExists, x, start);
  }

  /** One operation conserves a discount if and only if it does not restore a credit's
      use that lowers it. */
  lemma StepConservesExactlyWhen(s: Store, op: Op, x: ReservationId, start: int)
    requires StoreOk(s) && KeysCounted(s) && DiscountOk(s, x, start)
    ensures DiscountOk(Apply(s, op), x, start) <==> !LowersDiscount(s, op, x)
  {
    if op.RestoreOp? {
      RestoreKeepsDiscountExactlyWhen(s, op.use, op.planExists, x, start);
    } else {
      OtherStepConserves(s, op, x, start);
    }
  }

  lemma StepKeepsPeople(s: Store, op: Op, x: ReservationId)
    requires StoreOk(s) && KeysCounted(s) && PeopleOk(s, x)
    ensures PeopleOk(Apply(s, op), x)
  {
    match op
    case PaidOp(id) => SyncPaidKeepsRest(s, id, x, 0);
    case CancelledOp(id) => SyncCancelledKeepsRest(s, id, x, 0);
    case RedeemOp(p, y, uses, expired, planExists) => RedeemKeepsPeople(s, p, y, uses, expired, planExists, x);
    case RestoreOp(k, planExists) => RestoreKeepsPeople(s, k, planExists, x);
  }

  // Orders and reservations as they stand before any pass exists.
  predicate Fresh(s: Store) {
    && s.passes == map[] && s.ledger == []
    && forall id | id in s.orders :: OrderOk(id, s.orders[id])
  }

  lemma FreshIsOk(s: Store, x: ReservationId)
    requires Fresh(s)
    ensures StoreOk(s) && KeysCounted(s)
    ensures x in s.reservations && 0 <= s.reservations[x].discount <= s.reservations[x].base ==>
              DiscountOk(s, x, s.reservations[x].discount)
    ensures x in s.reservations && 0 <= s.reservations[x].totalCount && NoCreditOn(s, x) ==> PeopleOk(s, x)
  {
  }

  // The stores before and after each operation, from fresh tables on.
  predicate IsRun(stores: seq<Store>, ops: seq<Op>) {
    && |stores| == |ops| + 1 && Fresh(stores[0])
    && forall i | 0 <= i < |ops| :: stores[i + 1] == Apply(stores[i], ops[i])
  }

  lemma {:induction false} SoundAlongRun(stores: seq<Store>, ops: seq<Op>, n: nat)
    requires IsRun(stores, ops) && n <= |ops|
    ensures StoreOk(stores[n]) && KeysCounted(stores[n])
    decreases n
  {
    if n == 0 {
      FreshIsOk(stores[0], "");
    } else {
      SoundAlongRun(stores, ops, n - 1);
      ApplyKeepsSound(stores[n - 1], ops[n - 1]);
    }
  }

  lemma PeopleNext(stores: seq<Store>, ops: seq<Op>, i: nat, x: ReservationId)
    requires IsRun(stores, ops) && i < |ops| && PeopleOk(stores[i], x)
    ensures PeopleOk(stores[i + 1], x)
  {
    SoundAlongRun(stores, ops, i);
    StepKeepsPeople(stores[i], ops[i], x);
  }

  lemma {:induction false} PeopleAlongRun(stores: seq<Store>, ops: seq<Op>, n: nat, x: ReservationId)
    requires IsRun(stores, ops) && n <= |ops| && PeopleOk(stores[0], x)
    ensures PeopleOk(stores[n], x)
    decreases n
  {
    if n > 0 {
      PeopleAlongRun(stores, ops, n - 1, x);
      PeopleNext(stores, ops, n - 1, x);
    }
  }

  lemma ConservedNext(stores: seq<Store>, ops: seq<Op>, i: nat, x: ReservationId, start: int)
    requires IsRun(stores, ops) && i < |ops| && DiscountOk(stores[i], x, start)
    ensures DiscountOk(stores[i + 1], x, start) <==> !LowersDiscount(stores[i], ops[i], x)
  {
    SoundAlongRun(stores, ops, i);
    StepConservesExactlyWhen(stores[i], ops[i], x, start);
  }

  lemma {:induction false} ConservedUntil(stores: seq<Store>, n: nat, x: ReservationId, start: int)
    requires n < |stores| && DiscountOk(stores[0], x, start)
    requires forall i | 0 <= i < n :: DiscountOk(stores[i], x, start) ==> DiscountOk(stores[i + 1], x, start)
    ensures DiscountOk(stores[n], x, start)
    decreases n
  {
    if n > 0 {
      ConservedUntil(stores, n - 1, x, start);
    }
  }

  lemma ConservedUnlessLowered(stores: seq<Store>, ops: seq<Op>, n: nat, x: ReservationId, start: int)
    requires IsRun(stores, ops) && n <= |ops| && DiscountOk(stores[0], x, start)
    requires forall i | 0 <= i < n :: !LowersDiscount(stores[i], ops[i], x)
    ensures DiscountOk(stores[n], x, start)
  {
    forall i | 0 <= i < n && DiscountOk(stores[i], x, start) ensures DiscountOk(stores[i + 1], x, start) {
      ConservedNext(stores, ops, i, x, start);
    }
    ConservedUntil(stores, n, x, start);
  }

  /** Over every sequence of operations, a reservation's discount is conserved all
      along if and only if no restored credit use lowers it. */
  lemma {:induction false} DiscountIsConservedExactlyWhen(stores: seq<Store>, ops: seq<Op>, x: ReservationId,
                                                          start: int)
    requires IsRun(stores, ops) && DiscountOk(stores[0], x, start)
    ensures (forall n | 0 <= n <= |ops| :: DiscountOk(stores[n], x, start))
            <==> (forall i | 0 <= i < |ops| :: !LowersDiscount(stores[i], ops[i], x))
  {
    if forall i | 0 <= i < |ops| :: !LowersDiscount(stores[i], ops[i], x) {
      forall n | 0 <= n <= |ops| ensures DiscountOk(stores[n], x, start) {
        ConservedUnlessLowered(stores, ops, n, x, start);
      }
    } else {
      var i :| 0 <= i < |ops| && LowersDiscount(stores[i], ops[i], x);
      if DiscountOk(stores[i], x, start) {
        ConservedNext(stores, ops, i, x, start);
      }
    }
  }

  // Two people, half of their 10000 discounted away, the other half paid; a purchase
  // of ten uses takes one use of 5000 as credit.
  function HalfDiscounted(id: OrderId, member: MemberId, x: ReservationId): Store {
    Store(map[], [],
          map[id := Order(member, 10, 5000, [Credit(x, 1, 5000)], PENDING, None)],
          map[x := Reservation(member, false, 2, 10000, 0, 5000, 5000, true)])
  }

  lemma HalfDiscountedIsFresh(id: OrderId, member: MemberId, x: ReservationId)
    ensures Fresh(HalfDiscounted(id, member, x))
  {
    var o := HalfDiscounted(id, member, x).orders[id];
    assert o.credits[..0] == [];
    assert OrderOk(id, o);
  }

  // The ledger a PAID sync makes of one credit.
  lemma OneCreditPaid(s: Store, id: OrderId)
    requires RowsOk(s.ledger, s.passes.Keys) && id in s.orders && OrderOk(id, s.orders[id])
    requires MemberPass(id) !in s.passes && |s.orders[id].credits| == 1
    ensures var o := s.orders[id];
            SyncPaid(s, id).ledger == s.ledger + [PurchaseRow(id, o), CreditRow(id, o, o.credits[0])]
  {
    var o := s.orders[id];
    assert o.credits[..1] == o.credits;
    PurchaseStage(s, id);
    PaidStage(s, id, 0);
  }

  lemma HalfDiscountedPaid(id: OrderId, member: MemberId, x: ReservationId)
    ensures var s := HalfDiscounted(id, member, x);
            && Fresh(s) && SyncPaid(s, id).reservations == s.reservations && MemberPass(id) in SyncPaid(s, id).passes
            && SyncPaid(s, id).ledger
               == [PurchaseRow(id, s.orders[id]), CreditRow(id, s.orders[id], Credit(x, 1, 5000))]
  {
    HalfDiscountedIsFresh(id, member, x);
    FreshIsOk(HalfDiscounted(id, member, x), x);
    OneCreditPaid(HalfDiscounted(id, member, x), id);
  }

  lemma HalfDiscountedBought(id: OrderId, member: MemberId, x: ReservationId)
    ensures DiscountOk(SyncPaid(HalfDiscounted(id, member, x), id), x, 5000)
  {
    HalfDiscountedPaid(id, member, x);
    FreshIsOk(HalfDiscounted(id, member, x), x);
    SyncPaidKeepsRest(HalfDiscounted(id, member, x), id, x, 5000);
  }

  /** An input that fails: paying for the purchase, then restoring the credit's use,
      takes the whole discount the reservation had before. */
  lemma RestoredCreditLowersDiscount(id: OrderId, member: MemberId, x: ReservationId)
    ensures Fresh(HalfDiscounted(id, member, x))
    ensures var bought := Apply(HalfDiscounted(id, member, x), PaidOp(id));
            && DiscountOk(bought, x, 5000) && LowersDiscount(bought, RestoreOp(1, false), x)
            && Apply(bought, RestoreOp(1, false)).reservations[x].discount == 0
  {
    HalfDiscountedPaid(id, member, x);
    HalfDiscountedBought(id, member, x);
  }

  lemma {:induction false} CreditFreeIsConserved(stores: seq<Store>, ops: seq<Op>, x: ReservationId, start: int)
    requires IsRun(stores, ops) && DiscountOk(stores[0], x, start) && PeopleOk(stores[0], x)
    ensures DiscountOk(stores[|ops|], x, start) && PeopleOk(stores[|ops|], x)
  {
    PeopleAlongRun(stores, ops, |ops|, x);
    forall i | 0 <= i < |ops| ensures !LowersDiscount(stores[i], ops[i], x) {
      PeopleAlongRun(stores, ops, i, x);
    }
    ConservedUnlessLowered(stores, ops, |ops|, x, start);
  }

  /** Over every sequence of purchases, repeated syncs, redemptions, restores and
      cancellations: each pass's balance is the sum of its ledger, between 0 and
      what was bought, ACTIVE means a positive balance, and a reservation outside
      purchase credits keeps the discount its unrestored uses add up to, and no
      more uses than people. */
  lemma {:induction false} BenefitsAreConserved(stores: seq<Store>, ops: seq<Op>, x: ReservationId)
    requires IsRun(stores, ops)
    ensures var s, end := stores[0], stores[|ops|];
            && StoreOk(end) && KeysCounted(end)
            && (forall p | p in end.passes ::
                  && 0 <= end.passes[p].remaining <= end.passes[p].purchased
                  && end.passes[p].remaining == Balance(end.ledger, p)
                  && (end.passes[p].status == ACTIVE ==> end.passes[p].remaining > 0))
            && (PeopleOk(s, x) && 0 <= s.reservations[x].discount <= s.reservations[x].base ==>
                  DiscountOk(end, x, s.reservations[x].discount) && PeopleOk(end, x))
  {
    var s, end := stores[0], stores[|ops|];
    SoundAlongRun(stores, ops, |ops|);
    FreshIsOk(s, x);
    forall p | p in end.passes ensures PassOk(end, p) {
    }
    if PeopleOk(s, x) && 0 <= s.reservations[x].discount <= s.reservations[x].base {
      CreditFreeIsConserved(stores, ops, x, s.reservations[x].discount);
    }
  }
}
