// Conservation over the pass ledger: balances, discounts and keys stay what the
// ledger says they are, over any sequence of operations.

module BenefitLaws {
  import opened Numbers
  import opened Wrappers
  import opened MemberBenefits

  // ----- Rows -----

  predicate UsesKey(key: Key) {
    key.CreditUseKey? || key.ReservationUseKey? || key.ManualUseKey?
  }

  // Row `i` is well formed in a ledger over the given passes.
  predicate RowFits(ledger: seq<Row>, i: nat, passes: set<PassId>)
    requires i < |ledger|
  {
    var r := ledger[i];
    && r.passId in passes
    && match r.kind
       case PURCHASE => r.key == PurchaseKey(r.passId.order)
       case USE =>
         && r.uses <= -1 && UsesKey(r.key)
         && (r.key.CreditUseKey? ==> r.key.order == r.passId.order && r.reservation == Some(r.key.reservation))
         && (r.key.ReservationUseKey? ==> r.reservation == Some(r.key.reservation))
         && (r.key.ManualUseKey? ==> r.key.nonce == i && r.reservation.None?)
       case RESTORE =>
         && r.reference.Some? && r.reference.value < i && r.key == RestoreKey(r.reference.value)
         && ledger[r.reference.value].kind == USE
       case CANCEL => r.key == CancelKey(r.passId.order)
  }

  predicate UniqueKeys(ledger: seq<Row>) {
    forall i, j | 0 <= i < j < |ledger| :: ledger[i].key != ledger[j].key
  }

  ghost predicate RowsOk(ledger: seq<Row>, passes: set<PassId>) {
    && (forall i | 0 <= i < |ledger| :: RowFits(ledger, i, passes))
    && UniqueKeys(ledger)
  }

  lemma AppendKeepsRowsOk(ledger: seq<Row>, passes: set<PassId>, r: Row, more: set<PassId>)
    requires RowsOk(ledger, passes) && passes <= more && !HasKey(ledger, r.key)
    requires RowFits(ledger + [r], |ledger|, more)
    ensures RowsOk(ledger + [r], more)
  {
    var l := ledger + [r];
    forall i | 0 <= i < |l| ensures RowFits(l, i, more) {
      if i < |ledger| {
        assert RowFits(ledger, i, passes);
      }
    }
  }

  lemma HasKeyAppend(ledger: seq<Row>, r: Row, key: Key)
    ensures HasKey(ledger + [r], key) <==> HasKey(ledger, key) || r.key == key
  {
    var l := ledger + [r];
    if HasKey(ledger, key) {
      var i :| 0 <= i < |ledger| && ledger[i].key == key;
      assert l[i].key == key;
    }
    if r.key == key {
      assert l[|ledger|].key == key;
    }
  }

  lemma RestoredMeansKey(ledger: seq<Row>, passes: set<PassId>, k: nat)
    requires RowsOk(ledger, passes)
    ensures k in Restored(ledger) <==> HasKey(ledger, RestoreKey(k))
    ensures k in Restored(ledger) ==> k < |ledger|
  {
    forall i | 0 <= i < |ledger| ensures ledger[i].key == RestoreKey(k) <==>
                                         ledger[i].kind == RESTORE && ledger[i].reference == Some(k) {
      assert RowFits(ledger, i, passes);
    }
    if k in Restored(ledger) {
      var i :| 0 <= i < |ledger| && ledger[i].kind == RESTORE && ledger[i].reference == Some(k);
      assert RowFits(ledger, i, passes);
    }
  }

  // ----- Sums -----

  lemma BalanceAppend(ledger: seq<Row>, r: Row, p: PassId)
    ensures Balance(ledger + [r], p) == Balance(ledger, p) + if r.passId == p then r.uses else 0
  {
  }

  lemma RestoredAppend(ledger: seq<Row>, r: Row)
    ensures Restored(ledger + [r]) ==
            Restored(ledger) + if r.kind == RESTORE && r.reference.Some? then {r.reference.value} else {}
  {
    var l := ledger + [r];
    forall k ensures k in Restored(l) <==>
                     k in Restored(ledger) || (r.kind == RESTORE && r.reference == Some(k)) {
      if k in Restored(ledger) {
        var i :| 0 <= i < |ledger| && ledger[i].kind == RESTORE && ledger[i].reference == Some(k);
        assert l[i].reference == Some(k);
      }
      if r.kind == RESTORE && r.reference == Some(k) {
        assert l[|ledger|].reference == Some(k);
      }
    }
  }

  // Only indexes into the rows matter to the sum.
  lemma {:induction false} ActiveSumIgnoresLater(rows: seq<Row>, restored: set<nat>, k: nat, m: Measure)
    requires k >= |rows|
    ensures ActiveSum(rows, restored + {k}, m) == ActiveSum(rows, restored, m)
  {
    if rows != [] {
      ActiveSumIgnoresLater(rows[..|rows| - 1], restored, k, m);
    }
  }

  lemma {:induction false} ActiveSumWithout(rows: seq<Row>, restored: set<nat>, k: nat, m: Measure)
    requires k < |rows| && k !in restored
    ensures ActiveSum(rows, restored + {k}, m) == ActiveSum(rows, restored, m) - Weight(rows[k], m)
  {
    var n := |rows| - 1;
    if k == n {
      ActiveSumIgnoresLater(rows[..n], restored, k, m);
    } else {
      ActiveSumWithout(rows[..n], restored, k, m);
    }
  }

  lemma ActiveAppend(ledger: seq<Row>, passes: set<PassId>, r: Row, m: Measure)
    requires RowsOk(ledger, passes) && r.kind != RESTORE
    ensures Active(ledger + [r], m) == Active(ledger, m) + Weight(r, m)
  {
    RestoredAppend(ledger, r);
    RestoredMeansKey(ledger, passes, |ledger|);
    assert (ledger + [r])[..|ledger|] == ledger;
    assert Restored(ledger + [r]) == Restored(ledger);
  }

  /** Restoring a use takes exactly that use out of every active sum. */
  lemma ActiveRestore(ledger: seq<Row>, passes: set<PassId>, k: nat, m: Measure)
    requires RowsOk(ledger, passes) && k < |ledger| && ledger[k].kind == USE && !HasKey(ledger, RestoreKey(k))
    ensures Active(ledger + [RestoreRow(ledger[k], k)], m) == Active(ledger, m) - Weight(ledger[k], m)
  {
    var r := RestoreRow(ledger[k], k);
    RestoredMeansKey(ledger, passes, k);
    RestoredMeansKey(ledger, passes, |ledger|);
    RestoredAppend(ledger, r);
    assert (ledger + [r])[..|ledger|] == ledger;
    ActiveSumWithout(ledger, Restored(ledger), k, m);
  }

  lemma {:induction false} ActiveUsesCover(rows: seq<Row>, restored: set<nat>, k: nat, p: PassId)
    requires k < |rows| && k !in restored && rows[k].kind == USE && rows[k].passId == p
    ensures ActiveSum(rows, restored, PassUses(p)) >= Abs(rows[k].uses)
  {
    var n := |rows| - 1;
    if k == n {
      ActiveUsesNonNegative(rows[..n], restored, p);
    } else {
      ActiveUsesCover(rows[..n], restored, k, p);
    }
  }

  lemma {:induction false} ActiveUsesNonNegative(rows: seq<Row>, restored: set<nat>, p: PassId)
    ensures ActiveSum(rows, restored, PassUses(p)) >= 0
  {
    if rows != [] {
      ActiveUsesNonNegative(rows[..|rows| - 1], restored, p);
    }
  }

  // ----- The invariant -----

  predicate CreditsOk(credits: seq<Credit>) {
    && (forall i | 0 <= i < |credits| :: credits[i].uses >= 1 && credits[i].amount >= 0)
    && (forall i, j | 0 <= i < j < |credits| :: credits[i].reservation != credits[j].reservation)
  }

  // What createPassPurchaseOrder stores: one credit row per reservation, and no
  // more uses than the product has.
  predicate OrderOk(id: OrderId, o: Order) {
    && CreditsOk(o.credits) && CreditTotal(o.credits) <= o.purchased
    && (o.passId.Some? ==> o.passId.value == MemberPass(id))
  }

  /** A pass's balance is what its ledger says, and what its unrestored uses leave
      of the purchase. */
  predicate PassOk(s: Store, p: PassId)
    requires p in s.passes
  {
    var pass := s.passes[p];
    && 0 <= pass.remaining <= pass.purchased
    && Balance(s.ledger, p) == pass.remaining
    && (if pass.status == CANCELLED then pass.remaining == 0 && Active(s.ledger, PassUses(p)) == 0
        else pass.remaining == pass.purchased - Active(s.ledger, PassUses(p)))
    && (pass.status == ACTIVE ==> pass.remaining > 0)
    && (pass.status == USED_UP ==> pass.remaining == 0)
  }

  predicate PurchaseOk(s: Store, id: OrderId) {
    if MemberPass(id) in s.passes
    then id in s.orders && s.passes[MemberPass(id)].purchased == s.orders[id].purchased
         && HasKey(s.ledger, PurchaseKey(id))
         && (forall i | 0 <= i < |s.orders[id].credits| ::
               HasKey(s.ledger, CreditUseKey(id, s.orders[id].credits[i].reservation)))
         && (HasKey(s.ledger, CancelKey(id)) ==> s.passes[MemberPass(id)].status == CANCELLED)
    else true
  }

  ghost predicate StoreOk(s: Store) {
    && RowsOk(s.ledger, s.passes.Keys)
    && (forall id | id in s.orders :: OrderOk(id, s.orders[id]))
    && (forall p | p in s.passes :: PassOk(s, p))
    && (forall p | p in s.passes :: PurchaseOk(s, p.order))
  }

  // ----- Redeeming and restoring -----

  ghost predicate CanRestore(s: Store, k: nat) {
    && k < |s.ledger| && s.ledger[k].kind == USE && !HasKey(s.ledger, RestoreKey(k))
    && s.ledger[k].passId in s.passes
  }

  // `r` is no RESTORE row, or the one that restores row `k`.
  ghost predicate Appendable(s: Store, r: Row, k: nat) {
    r.kind == RESTORE ==> CanRestore(s, k) && r == RestoreRow(s.ledger[k], k)
  }

  lemma OtherPassesKeepOk(s: Store, s': Store, r: Row, k: nat, q: PassId)
    requires RowsOk(s.ledger, s.passes.Keys) && q in s.passes && PassOk(s, q)
    requires s'.ledger == s.ledger + [r] && r.passId != q && Appendable(s, r, k)
    requires q in s'.passes && s'.passes[q] == s.passes[q]
    ensures PassOk(s', q)
  {
    BalanceAppend(s.ledger, r, q);
    if r.kind == RESTORE {
      ActiveRestore(s.ledger, s.passes.Keys, k, PassUses(q));
    } else {
      ActiveAppend(s.ledger, s.passes.Keys, r, PassUses(q));
    }
  }

  lemma PurchasesKeepOk(s: Store, s': Store, r: Row)
    requires forall p | p in s.passes :: PurchaseOk(s, p.order)
    requires s'.ledger == s.ledger + [r] && s'.orders == s.orders
    requires s'.passes.Keys == s.passes.Keys
    requires r.key.CancelKey? ==>
               MemberPass(r.key.order) in s.passes && s'.passes[MemberPass(r.key.order)].status == CANCELLED
    requires forall p | p in s.passes :: s'.passes[p].purchased == s.passes[p].purchased
    requires forall p | p in s.passes :: s.passes[p].status == CANCELLED ==> s'.passes[p].status == CANCELLED
    ensures forall p | p in s'.passes :: PurchaseOk(s', p.order)
  {
    forall p | p in s'.passes ensures PurchaseOk(s', p.order) {
      var id := p.order;
      assert PurchaseOk(s, id);
      HasKeyAppend(s.ledger, r, PurchaseKey(id));
      HasKeyAppend(s.ledger, r, CancelKey(id));
      forall i | 0 <= i < |s.orders[id].credits|
        ensures HasKey(s'.ledger, CreditUseKey(id, s.orders[id].credits[i].reservation))
      {
        HasKeyAppend(s.ledger, r, CreditUseKey(id, s.orders[id].credits[i].reservation));
      }
    }
  }

  // One row appended for pass `p`, and only that pass moved.
  ghost predicate MovesOnly(s: Store, s': Store, p: PassId, r: Row) {
    && s'.ledger == s.ledger + [r] && r.passId == p && s'.orders == s.orders
    && p in s.passes && s'.passes.Keys == s.passes.Keys
    && (forall q | q in s.passes && q != p :: s'.passes[q] == s.passes[q])
    && s'.passes[p].purchased == s.passes[p].purchased
    && (s.passes[p].status == CANCELLED || r.key.CancelKey? ==> s'.passes[p].status == CANCELLED)
    && (r.key.CancelKey? ==> MemberPass(r.key.order) == p)
  }

  lemma MoveKeepsPasses(s: Store, s': Store, p: PassId, r: Row, k: nat)
    requires RowsOk(s.ledger, s.passes.Keys) && forall q | q in s.passes :: PassOk(s, q)
    requires MovesOnly(s, s', p, r) && Appendable(s, r, k) && PassOk(s', p)
    ensures forall q | q in s'.passes :: PassOk(s', q)
  {
    forall q | q in s'.passes ensures PassOk(s', q) {
      if q != p {
        OtherPassesKeepOk(s, s', r, k, q);
      }
    }
  }

  lemma MoveKeepsPurchases(s: Store, s': Store, p: PassId, r: Row)
    requires forall q | q in s.passes :: PurchaseOk(s, q.order)
    requires MovesOnly(s, s', p, r)
    ensures forall q | q in s'.passes :: PurchaseOk(s', q.order)
  {
    forall q | q in s.passes
      ensures s'.passes[q].purchased == s.passes[q].purchased
      ensures s.passes[q].status == CANCELLED ==> s'.passes[q].status == CANCELLED
    {
      if q != p {
        assert s'.passes[q] == s.passes[q];
      }
    }
    PurchasesKeepOk(s, s', r);
  }

  lemma MoveKeepsStoreOk(s: Store, s': Store, p: PassId, r: Row, k: nat)
    requires StoreOk(s) && MovesOnly(s, s', p, r) && Appendable(s, r, k)
    requires RowsOk(s'.ledger, s'.passes.Keys) && PassOk(s', p)
    ensures StoreOk(s')
  {
    MoveKeepsPasses(s, s', p, r, k);
    MoveKeepsPurchases(s, s', p, r);
  }

  // The numbers in reservation keys never run ahead of the use count.
  ghost predicate KeysCounted(s: Store) {
    forall i | 0 <= i < |s.ledger| && s.ledger[i].key.ReservationUseKey? ::
      var x := s.ledger[i].key.reservation;
      x in s.reservations && s.ledger[i].key.number <= UseCount(s.ledger, s.reservations[x].memberId, x)
  }

  lemma UseKeyIsFresh(s: Store, p: PassId, x: Option<ReservationId>, uses: int)
    requires RowsOk(s.ledger, s.passes.Keys) && KeysCounted(s) && p in s.passes
    requires x.Some? ==> x.value in s.reservations && s.reservations[x.value].memberId == s.passes[p].memberId
    ensures !HasKey(s.ledger, UseRow(s, p, x, uses).key)
  {
    forall i | 0 <= i < |s.ledger| ensures s.ledger[i].key != UseRow(s, p, x, uses).key {
      assert RowFits(s.ledger, i, s.passes.Keys);
    }
  }

  lemma KeysStayCounted(s: Store, s': Store, r: Row)
    requires KeysCounted(s) && s'.ledger == s.ledger + [r]
    requires forall x | x in s.reservations ::
               x in s'.reservations && s'.reservations[x].memberId == s.reservations[x].memberId
    requires r.key.ReservationUseKey? ==>
      && r.key.reservation in s.reservations && r.kind == USE && r.reservation == Some(r.key.reservation)
      && r.memberId == s.reservations[r.key.reservation].memberId
      && r.key.number == UseCount(s.ledger, r.memberId, r.key.reservation) + 1
    ensures KeysCounted(s')
  {
  }

  ghost predicate CanRedeem(s: Store, p: PassId, x: Option<ReservationId>, uses: int) {
    && p in s.passes && s.passes[p].status == ACTIVE && 1 <= uses <= s.passes[p].remaining
    && (x.Some? ==> x.value in s.reservations && s.reservations[x.value].memberId == s.passes[p].memberId)
  }

  lemma RedeemedRowsOk(s: Store, p: PassId, x: Option<ReservationId>, uses: int)
    requires RowsOk(s.ledger, s.passes.Keys) && KeysCounted(s) && CanRedeem(s, p, x, uses)
    ensures RowsOk(Redeemed(s, p, x, uses).ledger, Redeemed(s, p, x, uses).passes.Keys)
    ensures KeysCounted(Redeemed(s, p, x, uses))
  {
    var s', r := Redeemed(s, p, x, uses), UseRow(s, p, x, uses);
    UseKeyIsFresh(s, p, x, uses);
    AppendKeepsRowsOk(s.ledger, s.passes.Keys, r, s'.passes.Keys);
    KeysStayCounted(s, s', r);
  }

  lemma RedeemedPassOk(s: Store, p: PassId, x: Option<ReservationId>, uses: int)
    requires RowsOk(s.ledger, s.passes.Keys) && p in s.passes && PassOk(s, p) && CanRedeem(s, p, x, uses)
    ensures PassOk(Redeemed(s, p, x, uses), p)
  {
    var r := UseRow(s, p, x, uses);
    BalanceAppend(s.ledger, r, p);
    ActiveAppend(s.ledger, s.passes.Keys, r, PassUses(p));
  }

  lemma RedeemMovesOne(s: Store, p: PassId, x: Option<ReservationId>, uses: int)
    requires CanRedeem(s, p, x, uses)
    ensures MovesOnly(s, Redeemed(s, p, x, uses), p, UseRow(s, p, x, uses)) && Appendable(s, UseRow(s, p, x, uses), 0)
  {
  }

  lemma RedeemedStoreOk(s: Store, p: PassId, x: Option<ReservationId>, uses: int)
    requires StoreOk(s) && KeysCounted(s) && CanRedeem(s, p, x, uses)
    ensures StoreOk(Redeemed(s, p, x, uses))
  {
    RedeemedRowsOk(s, p, x, uses);
    RedeemedPassOk(s, p, x, uses);
    RedeemMovesOne(s, p, x, uses);
    MoveKeepsStoreOk(s, Redeemed(s, p, x, uses), p, UseRow(s, p, x, uses), 0);
  }

  lemma RedeemMoves(s: Store, p: PassId, x: Option<ReservationId>, uses: int, expired: bool, planExists: bool)
    requires Redeem(s, p, x, uses, expired, planExists).1 == Ok
    ensures CanRedeem(s, p, x, uses)
    ensures x.Some? ==> Active(s.ledger, ReservationUses(x.value)) + uses <= s.reservations[x.value].totalCount
    ensures Redeem(s, p, x, uses, expired, planExists).0 == Redeemed(s, p, x, uses)
  {
  }

  lemma RefusedMovesNothing(s: Store, p: PassId, x: Option<ReservationId>, uses: int, expired: bool, planExists: bool)
    requires Redeem(s, p, x, uses, expired, planExists).1 != Ok
    ensures Redeem(s, p, x, uses, expired, planExists).0 == s
  {
  }

  lemma KeyIsNeverTaken(s: Store, p: PassId, x: Option<ReservationId>, uses: int, expired: bool, planExists: bool)
    requires RowsOk(s.ledger, s.passes.Keys) && KeysCounted(s)
    ensures Redeem(s, p, x, uses, expired, planExists).1 != KeyTaken
  {
    if CheckPass(s, p, uses, expired) == Ok
       && (x.None? || CheckReservation(s, s.passes[p].memberId, x.value, uses, planExists) == Ok)
    {
      UseKeyIsFresh(s, p, x, uses);
    }
  }

  /** Redeeming never fails on a duplicate key, takes the uses off the balance,
      and keeps every balance equal to its ledger. */
  lemma {:induction false} RedeemKeepsStoreOk(s: Store, p: PassId, x: Option<ReservationId>, uses: int,
                                              expired: bool, planExists: bool)
    requires StoreOk(s) && KeysCounted(s)
    ensures var (s', outcome) := Redeem(s, p, x, uses, expired, planExists);
            && StoreOk(s') && KeysCounted(s') && outcome != KeyTaken
            && (outcome == Ok ==> CanRedeem(s, p, x, uses) && s'.passes[p].remaining == s.passes[p].remaining - uses)
            && (outcome != Ok ==> s' == s)
  {
    KeyIsNeverTaken(s, p, x, uses, expired, planExists);
    if Redeem(s, p, x, uses, expired, planExists).1 == Ok {
      RedeemMoves(s, p, x, uses, expired, planExists);
      RedeemedRowsOk(s, p, x, uses);
      RedeemedStoreOk(s, p, x, uses);
    } else {
      RefusedMovesNothing(s, p, x, uses, expired, planExists);
    }
  }

  /** Redeeming succeeds if and only if the pass is usable and the reservation, if
      one is named, belongs to the pass's member, is open, and has people left. */
  lemma RedeemSucceedsExactlyWhen(s: Store, p: PassId, x: Option<ReservationId>, uses: int,
                                  expired: bool, planExists: bool)
    requires RowsOk(s.ledger, s.passes.Keys) && KeysCounted(s)
    ensures Redeem(s, p, x, uses, expired, planExists).1 == Ok <==>
            && CanRedeem(s, p, x, uses) && !expired
            && (x.Some? ==>
                  && !s.reservations[x.value].cancelled && !planExists
                  && Active(s.ledger, ReservationUses(x.value)) + uses <= s.reservations[x.value].totalCount)
  {
    if CanRedeem(s, p, x, uses) {
      UseKeyIsFresh(s, p, x, uses);
    }
  }

  lemma RestoredRowsOk(s: Store, k: nat)
    requires RowsOk(s.ledger, s.passes.Keys) && KeysCounted(s) && CanRestore(s, k)
    ensures RowsOk(RestoredStore(s, k).ledger, RestoredStore(s, k).passes.Keys)
    ensures KeysCounted(RestoredStore(s, k))
  {
    var s', r := RestoredStore(s, k), RestoreRow(s.ledger[k], k);
    AppendKeepsRowsOk(s.ledger, s.passes.Keys, r, s'.passes.Keys);
    KeysStayCounted(s, s', r);
  }

  // What a restored row does to the sums of its pass.
  lemma RestoredSums(s: Store, k: nat)
    requires RowsOk(s.ledger, s.passes.Keys) && CanRestore(s, k)
    ensures var p, l, uses := s.ledger[k].passId, s.ledger + [RestoreRow(s.ledger[k], k)], Abs(s.ledger[k].uses);
            && uses >= 1 && Active(s.ledger, PassUses(p)) >= uses
            && Balance(l, p) == Balance(s.ledger, p) + uses
            && Active(l, PassUses(p)) == Active(s.ledger, PassUses(p)) - uses
  {
    var p, r := s.ledger[k].passId, RestoreRow(s.ledger[k], k);
    assert RowFits(s.ledger, k, s.passes.Keys);
    RestoredMeansKey(s.ledger, s.passes.Keys, k);
    ActiveUsesCover(s.ledger, Restored(s.ledger), k, p);
    BalanceAppend(s.ledger, r, p);
    ActiveRestore(s.ledger, s.passes.Keys, k, PassUses(p));
  }

  lemma RestoredPassOk(s: Store, k: nat)
    requires RowsOk(s.ledger, s.passes.Keys) && CanRestore(s, k) && PassOk(s, s.ledger[k].passId)
    ensures var p := s.ledger[k].passId;
            && PassOk(RestoredStore(s, k), p) && s.passes[p].status != CANCELLED
            && RestoredStore(s, k).passes[p].remaining == s.passes[p].remaining + Abs(s.ledger[k].uses)
  {
    var p := s.ledger[k].passId;
    RestoredSums(s, k);
  }

  lemma RestoreMovesOne(s: Store, k: nat)
    requires CanRestore(s, k)
    ensures MovesOnly(s, RestoredStore(s, k), s.ledger[k].passId, RestoreRow(s.ledger[k], k))
    ensures Appendable(s, RestoreRow(s.ledger[k], k), k)
  {
  }

  lemma RestoredStoreOk(s: Store, k: nat)
    requires StoreOk(s) && KeysCounted(s) && CanRestore(s, k)
    ensures StoreOk(RestoredStore(s, k))
  {
    RestoredRowsOk(s, k);
    RestoredPassOk(s, k);
    RestoreMovesOne(s, k);
    MoveKeepsStoreOk(s, RestoredStore(s, k), s.ledger[k].passId, RestoreRow(s.ledger[k], k), k);
  }

  /** Restoring gives back exactly the uses taken: the MIN clamp never bites, a
      cancelled pass is never touched, and no use is restored twice. */
  lemma {:induction false} RestoreKeepsStoreOk(s: Store, k: nat, planExists: bool)
    requires StoreOk(s) && KeysCounted(s)
    ensures var (s', outcome) := Restore(s, k, planExists);
            && StoreOk(s') && KeysCounted(s')
            && (outcome == Ok ==>
                  && CanRestore(s, k) && s.passes[s.ledger[k].passId].status != CANCELLED
                  && s'.passes[s.ledger[k].passId].remaining
                     == s.passes[s.ledger[k].passId].remaining + Abs(s.ledger[k].uses)
                  && Restore(s', k, planExists).1 == AlreadyRestored)
            && (outcome != Ok ==> s' == s)
  {
    var (s', outcome) := Restore(s, k, planExists);
    if outcome == Ok {
      RestoredRowsOk(s, k);
      RestoredPassOk(s, k);
      RestoredStoreOk(s, k);
      HasKeyAppend(s.ledger, RestoreRow(s.ledger[k], k), RestoreKey(k));
    }
  }

  /** Restoring succeeds if and only if the row is a use not restored yet, and its
      reservation, if it has one, is under no payment plan. */
  lemma RestoreSucceedsExactlyWhen(s: Store, k: nat, planExists: bool)
    requires RowsOk(s.ledger, s.passes.Keys)
    ensures Restore(s, k, planExists).1 == Ok <==>
            && k < |s.ledger| && s.ledger[k].kind == USE && k !in Restored(s.ledger)
            && !(s.ledger[k].reservation.Some? && planExists)
  {
    RestoredMeansKey(s.ledger, s.passes.Keys, k);
    if k < |s.ledger| {
      assert RowFits(s.ledger, k, s.passes.Keys);
    }
  }

  // ----- Purchase and cancellation -----

  lemma {:induction false} KnownCreditsAppendNothing(ledger: seq<Row>, id: OrderId, o: Order, credits: seq<Credit>)
    requires forall i | 0 <= i < |credits| :: HasKey(ledger, CreditUseKey(id, credits[i].reservation))
    ensures AppendCredits(ledger, id, o, credits) == ledger
  {
    if credits != [] {
      KnownCreditsAppendNothing(ledger, id, o, credits[..|credits| - 1]);
    }
  }

  /** A repeated PAID sync changes neither passes nor ledger. */
  lemma RepeatedPaidAddsNothing(s: Store, id: OrderId)
    requires StoreOk(s) && id in s.orders && MemberPass(id) in s.passes
    ensures var o := s.orders[id];
            SyncPaid(s, id) == s.(orders := s.orders[id := o.(status := PAID, passId := Some(MemberPass(id)))])
  {
    var o := s.orders[id];
    assert PurchaseOk(s, MemberPass(id).order);
    assert AppendOnce(s.ledger, PurchaseRow(id, o)) == s.ledger;
    KnownCreditsAppendNothing(s.ledger, id, o, o.credits);
  }

  // The ledger after the purchase row and the first `n` credit rows.
  ghost predicate SumsAt(s: Store, id: OrderId, l: seq<Row>, n: nat)
    requires id in s.orders && n <= |s.orders[id].credits|
  {
    var p, o := MemberPass(id), s.orders[id];
    && Balance(l, p) == o.purchased - CreditTotal(o.credits[..n])
    && Active(l, PassUses(p)) == CreditTotal(o.credits[..n])
    && (forall q | q in s.passes ::
          Balance(l, q) == Balance(s.ledger, q) && Active(l, PassUses(q)) == Active(s.ledger, PassUses(q)))
  }

  ghost predicate KeysAt(s: Store, id: OrderId, l: seq<Row>, n: nat)
    requires id in s.orders && n <= |s.orders[id].credits|
  {
    var o := s.orders[id];
    && HasKey(l, PurchaseKey(id))
    && (forall i | 0 <= i < |o.credits| :: HasKey(l, CreditUseKey(id, o.credits[i].reservation)) <==> i < n)
    && (forall key | HasKey(s.ledger, key) :: HasKey(l, key))
    && (forall j | HasKey(l, CancelKey(j)) :: HasKey(s.ledger, CancelKey(j)))
  }

  lemma AbsentPassHasNoRows(s: Store, id: OrderId)
    requires RowsOk(s.ledger, s.passes.Keys)
    requires MemberPass(id) !in s.passes
    ensures !HasKey(s.ledger, PurchaseKey(id)) && !HasKey(s.ledger, CancelKey(id))
    ensures forall x :: !HasKey(s.ledger, CreditUseKey(id, x))
    ensures Balance(s.ledger, MemberPass(id)) == 0 && Active(s.ledger, PassUses(MemberPass(id))) == 0
  {
    forall i | 0 <= i < |s.ledger|
      ensures s.ledger[i].passId != MemberPass(id)
      ensures s.ledger[i].key != PurchaseKey(id) && s.ledger[i].key != CancelKey(id)
      ensures forall x :: s.ledger[i].key != CreditUseKey(id, x)
    {
      assert RowFits(s.ledger, i, s.passes.Keys);
    }
    NoRowsNoSums(s.ledger, Restored(s.ledger), MemberPass(id));
  }

  lemma {:induction false} NoRowsNoSums(rows: seq<Row>, restored: set<nat>, p: PassId)
    requires forall i | 0 <= i < |rows| :: rows[i].passId != p
    ensures Balance(rows, p) == 0 && ActiveSum(rows, restored, PassUses(p)) == 0
  {
    if rows != [] {
      NoRowsNoSums(rows[..|rows| - 1], restored, p);
    }
  }

  // Appending a row of pass `p` moves the sums of `p` alone.
  lemma SumsAppend(s: Store, p: PassId, l: seq<Row>, passes: set<PassId>, r: Row)
    requires RowsOk(l, passes) && r.passId == p && r.kind != RESTORE
    ensures Balance(l + [r], p) == Balance(l, p) + r.uses
    ensures Active(l + [r], PassUses(p)) == Active(l, PassUses(p)) + (if r.kind == USE then Abs(r.uses) else 0)
    ensures forall q | q != p :: Balance(l + [r], q) == Balance(l, q)
    ensures forall q | q != p :: Active(l + [r], PassUses(q)) == Active(l, PassUses(q))
  {
    BalanceAppend(l, r, p);
    ActiveAppend(l, passes, r, PassUses(p));
    forall q | q != p ensures Balance(l + [r], q) == Balance(l, q)
                      ensures Active(l + [r], PassUses(q)) == Active(l, PassUses(q)) {
      BalanceAppend(l, r, q);
      ActiveAppend(l, passes, r, PassUses(q));
    }
  }

  // The ledger a PAID sync has built after the purchase row and `n` credit rows.
  function PaidLedger(s: Store, id: OrderId, n: nat): seq<Row>
    requires id in s.orders && n <= |s.orders[id].credits|
  {
    AppendCredits(AppendOnce(s.ledger, PurchaseRow(id, s.orders[id])), id, s.orders[id], s.orders[id].credits[..n])
  }

  ghost predicate Staged(s: Store, id: OrderId, l: seq<Row>, n: nat)
    requires id in s.orders && n <= |s.orders[id].credits|
  {
    RowsOk(l, s.passes.Keys + {MemberPass(id)}) && SumsAt(s, id, l, n) && KeysAt(s, id, l, n)
  }

  lemma PurchaseStage(s: Store, id: OrderId)
    requires RowsOk(s.ledger, s.passes.Keys)
    requires id in s.orders && MemberPass(id) !in s.passes
    ensures PaidLedger(s, id, 0) == s.ledger + [PurchaseRow(id, s.orders[id])]
    ensures Staged(s, id, PaidLedger(s, id, 0), 0)
  {
    var o, p := s.orders[id], MemberPass(id);
    var r := PurchaseRow(id, o);
    AbsentPassHasNoRows(s, id);
    AppendKeepsRowsOk(s.ledger, s.passes.Keys, r, s.passes.Keys + {p});
    SumsAppend(s, p, s.ledger, s.passes.Keys, r);
    assert o.credits[..0] == [];
    forall key ensures HasKey(s.ledger + [r], key) <==> HasKey(s.ledger, key) || r.key == key {
      HasKeyAppend(s.ledger, r, key);
    }
  }

  lemma CreditStage(s: Store, id: OrderId, l: seq<Row>, n: nat, r: Row)
    requires id in s.orders && OrderOk(id, s.orders[id])
    requires MemberPass(id) !in s.passes && n < |s.orders[id].credits|
    requires Staged(s, id, l, n) && r == CreditRow(id, s.orders[id], s.orders[id].credits[n])
    ensures s.orders[id].credits[n].uses >= 1 && !HasKey(l, r.key) && Staged(s, id, l + [r], n + 1)
  {
    var o, p := s.orders[id], MemberPass(id);
    var passes := s.passes.Keys + {p};
    assert !HasKey(l, r.key);
    AppendKeepsRowsOk(l, passes, r, passes);
    SumsAppend(s, p, l, passes, r);
    assert o.credits[..n + 1][..n] == o.credits[..n];
    CreditKeys(s, id, l, n);
  }

  lemma CreditKeys(s: Store, id: OrderId, l: seq<Row>, n: nat)
    requires id in s.orders && n < |s.orders[id].credits| && OrderOk(id, s.orders[id]) && KeysAt(s, id, l, n)
    ensures KeysAt(s, id, l + [CreditRow(id, s.orders[id], s.orders[id].credits[n])], n + 1)
  {
    var r := CreditRow(id, s.orders[id], s.orders[id].credits[n]);
    forall key ensures HasKey(l + [r], key) <==> HasKey(l, key) || r.key == key {
      HasKeyAppend(l, r, key);
    }
  }

  // The ledger after one credit row more.
  lemma PaidStage(s: Store, id: OrderId, n: nat)
    requires id in s.orders && OrderOk(id, s.orders[id])
    requires MemberPass(id) !in s.passes && n < |s.orders[id].credits|
    requires Staged(s, id, PaidLedger(s, id, n), n)
    ensures PaidLedger(s, id, n + 1) == PaidLedger(s, id, n) + [CreditRow(id, s.orders[id], s.orders[id].credits[n])]
    ensures Staged(s, id, PaidLedger(s, id, n + 1), n + 1)
  {
    var o, l := s.orders[id], PaidLedger(s, id, n);
    assert o.credits[..n + 1][..n] == o.credits[..n];
    CreditStage(s, id, l, n, CreditRow(id, o, o.credits[n]));
  }

  lemma {:induction false} CreditStages(s: Store, id: OrderId, n: nat)
    requires RowsOk(s.ledger, s.passes.Keys) && id in s.orders && OrderOk(id, s.orders[id])
    requires MemberPass(id) !in s.passes && n <= |s.orders[id].credits|
    ensures Staged(s, id, PaidLedger(s, id, n), n)
    decreases n
  {
    if n == 0 {
      PurchaseStage(s, id);
    } else {
      CreditStages(s, id, n - 1);
      PaidStage(s, id, n - 1);
    }
  }

  // The rows a first PAID sync adds: the purchase, then one use per credit.
  ghost predicate PaidRows(s: Store, id: OrderId, l: seq<Row>, n: nat)
    requires id in s.orders && n <= |s.orders[id].credits|
  {
    var o, k := s.orders[id], |s.ledger|;
    && |l| == k + 1 + n && l[..k] == s.ledger
    && l[k] == Row(MemberPass(id), o.memberId, PURCHASE, o.purchased, None, None, PurchaseKey(id), 0)
    && forall j | 0 <= j < n ::
         var c := o.credits[j];
         l[k + 1 + j] == Row(MemberPass(id), o.memberId, USE, -c.uses, Some(c.reservation), None,
                             CreditUseKey(id, c.reservation), c.amount)
  }

  lemma OneMoreRow(s: Store, id: OrderId, l: seq<Row>, n: nat)
    requires id in s.orders && n < |s.orders[id].credits| && PaidRows(s, id, l, n)
    ensures PaidRows(s, id, l + [CreditRow(id, s.orders[id], s.orders[id].credits[n])], n + 1)
  {
  }

  lemma NextPaidRow(s: Store, id: OrderId, n: nat)
    requires RowsOk(s.ledger, s.passes.Keys) && id in s.orders && OrderOk(id, s.orders[id])
    requires MemberPass(id) !in s.passes && n < |s.orders[id].credits|
    requires PaidRows(s, id, PaidLedger(s, id, n), n)
    ensures PaidRows(s, id, PaidLedger(s, id, n + 1), n + 1)
  {
    var l := PaidLedger(s, id, n);
    CreditStages(s, id, n);
    PaidStage(s, id, n);
    OneMoreRow(s, id, l, n);
  }

  lemma {:induction false} PaidRowsAre(s: Store, id: OrderId, n: nat)
    requires RowsOk(s.ledger, s.passes.Keys) && id in s.orders && OrderOk(id, s.orders[id])
    requires MemberPass(id) !in s.passes && n <= |s.orders[id].credits|
    ensures PaidRows(s, id, PaidLedger(s, id, n), n)
    decreases n
  {
    if n == 0 {
      PurchaseStage(s, id);
    } else {
      PaidRowsAre(s, id, n - 1);
      NextPaidRow(s, id, n - 1);
    }
  }

  lemma NewPassOk(s: Store, s': Store, id: OrderId)
    requires StoreOk(s) && id in s.orders && MemberPass(id) !in s.passes && id in s'.orders
    requires s'.passes == s.passes[MemberPass(id) := NewPass(s.orders[id])]
    requires s'.orders[id].credits == s.orders[id].credits && s'.orders[id].purchased == s.orders[id].purchased
    requires SumsAt(s, id, s'.ledger, |s.orders[id].credits|) && KeysAt(s, id, s'.ledger, |s.orders[id].credits|)
    ensures PassOk(s', MemberPass(id)) && PurchaseOk(s', id)
    ensures s'.passes[MemberPass(id)].remaining == s.orders[id].purchased - CreditTotal(s.orders[id].credits)
  {
    var o := s.orders[id];
    assert OrderOk(id, o);
    assert o.credits[..|o.credits|] == o.credits;
    AbsentPassHasNoRows(s, id);
  }

  lemma OpenedRowsOk(s: Store, s': Store, id: OrderId)
    requires StoreOk(s) && id in s.orders && MemberPass(id) !in s.passes && s' == SyncPaid(s, id)
    ensures RowsOk(s'.ledger, s'.passes.Keys)
  {
    var o := s.orders[id];
    assert o.credits[..|o.credits|] == o.credits;
    CreditStages(s, id, |o.credits|);
    assert s'.passes.Keys == s.passes.Keys + {MemberPass(id)};
  }

  lemma OldPassStaysOk(s: Store, s': Store, id: OrderId, q: PassId)
    requires RowsOk(s.ledger, s.passes.Keys) && id in s.orders && OrderOk(id, s.orders[id])
    requires q in s.passes && PassOk(s, q) && PurchaseOk(s, q.order)
    requires MemberPass(id) !in s.passes && s' == SyncPaid(s, id)
    ensures PassOk(s', q) && PurchaseOk(s', q.order)
  {
    var o := s.orders[id];
    assert o.credits[..|o.credits|] == o.credits;
    CreditStages(s, id, |o.credits|);
  }

  lemma OldPassesKeepOk(s: Store, s': Store, id: OrderId)
    requires StoreOk(s) && id in s.orders && MemberPass(id) !in s.passes && s' == SyncPaid(s, id)
    ensures forall q | q in s.passes :: PassOk(s', q) && PurchaseOk(s', q.order)
  {
    forall q | q in s.passes ensures PassOk(s', q) && PurchaseOk(s', q.order) {
      OldPassStaysOk(s, s', id, q);
    }
  }

  lemma OpenedPassOk(s: Store, s': Store, id: OrderId)
    requires StoreOk(s) && id in s.orders && MemberPass(id) !in s.passes && s' == SyncPaid(s, id)
    ensures PassOk(s', MemberPass(id)) && PurchaseOk(s', id)
    ensures s'.passes[MemberPass(id)].remaining == s.orders[id].purchased - CreditTotal(s.orders[id].credits)
  {
    var o := s.orders[id];
    assert o.credits[..|o.credits|] == o.credits;
    CreditStages(s, id, |o.credits|);
    NewPassOk(s, s', id);
  }

  /** The first PAID sync opens the pass with what the credits leave of the
      purchase, and a ledger that adds up to it. */
  lemma FirstPaidKeepsStoreOk(s: Store, id: OrderId)
    requires StoreOk(s) && id in s.orders && MemberPass(id) !in s.passes
    ensures StoreOk(SyncPaid(s, id))
    ensures SyncPaid(s, id).passes[MemberPass(id)].remaining
            == s.orders[id].purchased - CreditTotal(s.orders[id].credits)
  {
    OpenedRowsOk(s, SyncPaid(s, id), id);
    OldPassesKeepOk(s, SyncPaid(s, id), id);
    OpenedPassOk(s, SyncPaid(s, id), id);
    assert OrderOk(id, s.orders[id]);
  }

  /** What the first PAID sync writes: one purchase row and one use per credited
      reservation, in order and nothing else; a pass of the order's member at its price,
      used up if the credits leave nothing; and the order, paid, naming its pass. */
  lemma FirstPaidOpens(s: Store, id: OrderId)
    requires StoreOk(s) && id in s.orders && MemberPass(id) !in s.passes
    ensures var s', o := SyncPaid(s, id), s.orders[id];
            var left := o.purchased - CreditTotal(o.credits);
            && PaidRows(s, id, s'.ledger, |o.credits|)
            && s'.passes == s.passes[MemberPass(id) := Pass(o.memberId, o.purchased, left,
                                                            if left == 0 then USED_UP else ACTIVE, o.unitPrice)]
            && s'.orders == s.orders[id := o.(status := PAID, passId := Some(MemberPass(id)))]
            && s'.reservations == s.reservations
  {
    var o := s.orders[id];
    assert o.credits[..|o.credits|] == o.credits && OrderOk(id, o);
    PaidRowsAre(s, id, |o.credits|);
  }

  lemma OrderMoveKeepsStoreOk(s: Store, s': Store, id: OrderId)
    requires StoreOk(s) && id in s.orders && id in s'.orders && s' == s.(orders := s.orders[id := s'.orders[id]])
    requires OrderOk(id, s'.orders[id]) && s'.orders[id].credits == s.orders[id].credits
    requires s'.orders[id].purchased == s.orders[id].purchased
    ensures StoreOk(s')
  {
    forall p | p in s'.passes ensures PassOk(s', p) && PurchaseOk(s', p.order) {
      assert PassOk(s, p) && PurchaseOk(s, p.order);
    }
  }

  lemma SyncPaidKeepsStoreOk(s: Store, id: OrderId)
    requires StoreOk(s)
    ensures StoreOk(SyncPaid(s, id))
  {
    if id in s.orders {
      assert OrderOk(id, s.orders[id]);
      if MemberPass(id) in s.passes {
        RepeatedPaidAddsNothing(s, id);
        OrderMoveKeepsStoreOk(s, SyncPaid(s, id), id);
      } else {
        FirstPaidKeepsStoreOk(s, id);
      }
    }
  }

  /** What a CANCELLED sync writes: a pass that was used sends the order to review; an
      unused one is closed with a row that takes its balance, unless one did before. */
  lemma CancelledCloses(s: Store, id: OrderId)
    requires id in s.orders
    ensures var s', o := SyncCancelled(s, id), s.orders[id];
            && s'.reservations == s.reservations
            && if o.passId.Some? && o.passId.value in s.passes then
                 var p := o.passId.value;
                 var pass := s.passes[p];
                 if pass.remaining != pass.purchased
                 then s' == s.(orders := s.orders[id := o.(status := REFUND_REVIEW)])
                 else
                   && s'.passes == s.passes[p := pass.(remaining := 0, status := CANCELLED)]
                   && s'.orders == s.orders[id := o.(status := CANCELLED_ORDER)]
                   && s'.ledger == s.ledger + if HasKey(s.ledger, CancelKey(id)) then [] else
                        [Row(p, pass.memberId, CANCEL, -pass.remaining, None, None, CancelKey(id), 0)]
               else s' == s.(orders := s.orders[id := o.(status := CANCELLED_ORDER)])
  {
  }

  lemma ClosedAgainStoreOk(s: Store, p: PassId)
    requires StoreOk(s) && p in s.passes && HasKey(s.ledger, CancelKey(p.order))
    requires s.passes[p].remaining == s.passes[p].purchased
    ensures StoreOk(PassClosed(s, p.order, p))
  {
    assert PassOk(s, p) && PurchaseOk(s, p.order);
    assert PassClosed(s, p.order, p).passes == s.passes;
  }

  lemma ClosedSums(s: Store, p: PassId)
    requires RowsOk(s.ledger, s.passes.Keys) && p in s.passes
    ensures var l := s.ledger + [CancelRow(p.order, p, s.passes[p])];
            Balance(l, p) == Balance(s.ledger, p) - s.passes[p].remaining
            && Active(l, PassUses(p)) == Active(s.ledger, PassUses(p))
  {
    SumsAppend(s, p, s.ledger, s.passes.Keys, CancelRow(p.order, p, s.passes[p]));
  }

  lemma ClosedPassOk(s: Store, p: PassId)
    requires RowsOk(s.ledger, s.passes.Keys) && p in s.passes && PassOk(s, p)
    requires !HasKey(s.ledger, CancelKey(p.order))
    requires s.passes[p].remaining == s.passes[p].purchased
    ensures PassOk(PassClosed(s, p.order, p), p)
  {
    ClosedSums(s, p);
  }

  lemma ClosedRowsOk(s: Store, p: PassId)
    requires RowsOk(s.ledger, s.passes.Keys) && p in s.passes && !HasKey(s.ledger, CancelKey(p.order))
    ensures RowsOk(PassClosed(s, p.order, p).ledger, s.passes.Keys)
  {
    AppendKeepsRowsOk(s.ledger, s.passes.Keys, CancelRow(p.order, p, s.passes[p]), s.passes.Keys);
  }

  lemma ClosedMoves(s: Store, p: PassId)
    requires p in s.passes && !HasKey(s.ledger, CancelKey(p.order))
    ensures MovesOnly(s, PassClosed(s, p.order, p), p, CancelRow(p.order, p, s.passes[p]))
  {
  }

  lemma ClosedStoreOk(s: Store, p: PassId)
    requires StoreOk(s) && p in s.passes && s.passes[p].remaining == s.passes[p].purchased
    ensures StoreOk(PassClosed(s, p.order, p))
  {
    if HasKey(s.ledger, CancelKey(p.order)) {
      ClosedAgainStoreOk(s, p);
    } else {
      ClosedRowsOk(s, p);
      ClosedPassOk(s, p);
      ClosedMoves(s, p);
      MoveKeepsStoreOk(s, PassClosed(s, p.order, p), p, CancelRow(p.order, p, s.passes[p]), 0);
    }
  }

  lemma {:induction false} SyncCancelledKeepsStoreOk(s: Store, id: OrderId)
    requires StoreOk(s)
    ensures StoreOk(SyncCancelled(s, id))
  {
    if id in s.orders {
      var o := s.orders[id];
      assert OrderOk(id, o);
      if o.passId.Some? && o.passId.value in s.passes
         && s.passes[o.passId.value].remaining == s.passes[o.passId.value].purchased
      {
        ClosedStoreOk(s, o.passId.value);
        OrderMoveKeepsStoreOk(PassClosed(s, id, o.passId.value), SyncCancelled(s, id), id);
      } else {
        OrderMoveKeepsStoreOk(s, SyncCancelled(s, id), id);
      }
    }
  }

  // The first cancellation closes an unused pass that still has uses on it.
  predicate ClosesPass(s: Store, id: OrderId)
    requires id in s.orders
  {
    var o := s.orders[id];
    && o.passId.Some? && o.passId.value in s.passes
    && s.passes[o.passId.value].remaining == s.passes[o.passId.value].purchased > 0
  }

  lemma CancelTwiceIsOnce(s: Store, id: OrderId)
    requires StoreOk(s) && id in s.orders && !ClosesPass(s, id)
    ensures SyncCancelled(SyncCancelled(s, id), id) == SyncCancelled(s, id)
  {
    var o := s.orders[id];
    if o.passId.Some? && o.passId.value in s.passes
       && s.passes[o.passId.value].remaining == s.passes[o.passId.value].purchased
    {
      assert PassOk(s, o.passId.value) && OrderOk(id, o);
      EmptyPassCancelledTwice(s, id);
    } else {
      OpenPassCancelledTwice(s, id);
    }
  }

  lemma OpenPassCancelledTwice(s: Store, id: OrderId)
    requires id in s.orders
    requires var o := s.orders[id];
             o.passId.Some? && o.passId.value in s.passes ==>
               s.passes[o.passId.value].remaining != s.passes[o.passId.value].purchased
    ensures SyncCancelled(SyncCancelled(s, id), id) == SyncCancelled(s, id)
  {
  }

  lemma EmptyPassCancelledTwice(s: Store, id: OrderId)
    requires id in s.orders && s.orders[id].passId == Some(MemberPass(id)) && MemberPass(id) in s.passes
    requires var pass := s.passes[s.orders[id].passId.value]; pass.remaining == pass.purchased == 0
    ensures SyncCancelled(SyncCancelled(s, id), id) == SyncCancelled(s, id)
  {
    var once := SyncCancelled(s, id);
    var p := MemberPass(id);
    HasKeyAppend(s.ledger, CancelRow(id, p, s.passes[p]), CancelKey(id));
    assert HasKey(once.ledger, CancelKey(id));
    assert SyncCancelled(once, id).orders == once.orders && SyncCancelled(once, id).passes == once.passes;
  }

  /** Cancelling twice equals cancelling once, except exactly when the first
      cancellation closed an unused pass with uses on it: then the second finds
      the balance changed and puts the order under refund review. */
  lemma {:induction false} CancelTwiceExactlyWhen(s: Store, id: OrderId)
    requires StoreOk(s) && id in s.orders
    ensures SyncCancelled(SyncCancelled(s, id), id) == SyncCancelled(s, id) <==> !ClosesPass(s, id)
    ensures ClosesPass(s, id) ==>
              && SyncCancelled(s, id).orders[id].status == CANCELLED_ORDER
              && SyncCancelled(SyncCancelled(s, id), id).orders[id].status == REFUND_REVIEW
  {
    if !ClosesPass(s, id) {
      CancelTwiceIsOnce(s, id);
    }
  }

  // ----- Deleting a cancelled pass -----

  // DELETE FROM pass_ledger WHERE member_pass_id = p. The rows keep their keys; their
  // numbers in the sequence are no longer their ids.
  function Without(ledger: seq<Row>, p: PassId): seq<Row> {
    if ledger == [] then []
    else
      var n := |ledger| - 1;
      var before := Without(ledger[..n], p);
      if ledger[n].passId == p then before else before + [ledger[n]]
  }

  // USE rows of a member on a reservation that a pass holds.
  function UsesHeld(ledger: seq<Row>, member: MemberId, x: ReservationId, p: PassId): nat {
    if ledger == [] then 0
    else
      var r := ledger[|ledger| - 1];
      UsesHeld(ledger[..|ledger| - 1], member, x, p)
      + (if r.kind == USE && r.memberId == member && r.reservation == Some(x) && r.passId == p then 1 else 0)
  }

  lemma {:induction false} WithoutCounts(ledger: seq<Row>, member: MemberId, x: ReservationId, p: PassId)
    ensures UseCount(Without(ledger, p), member, x) == UseCount(ledger, member, x) - UsesHeld(ledger, member, x, p)
  {
    if ledger != [] {
      var n := |ledger| - 1;
      WithoutCounts(ledger[..n], member, x, p);
      assert (Without(ledger[..n], p) + [ledger[n]])[..|Without(ledger[..n], p)|] == Without(ledger[..n], p);
    }
  }

  // Another pass holds the key.
  predicate HeldByOther(ledger: seq<Row>, key: Key, p: PassId) {
    exists i | 0 <= i < |ledger| :: ledger[i].key == key && ledger[i].passId != p
  }

  lemma {:induction false} WithoutKeys(ledger: seq<Row>, key: Key, p: PassId)
    ensures HasKey(Without(ledger, p), key) <==> HeldByOther(ledger, key, p)
  {
    if ledger != [] {
      var n := |ledger| - 1;
      WithoutKeys(ledger[..n], key, p);
      HasKeyAppend(Without(ledger[..n], p), ledger[n], key);
      assert HeldByOther(ledger, key, p) <==>
             HeldByOther(ledger[..n], key, p) || (ledger[n].key == key && ledger[n].passId != p) by {
        assert forall i :: 0 <= i < n ==> ledger[..n][i] == ledger[i];
      }
    }
  }

  /** Exactly when deleting a cancelled pass leaves the next redemption on a reservation
      a key of its own: if and only if the pass held no use there, or no other pass
      holds the number that the count falls back to. */
  lemma DeletionKeepsKeysFreshExactlyWhen(s: Store, x: ReservationId, p: PassId)
    requires KeysCounted(s) && x in s.reservations
    ensures var member, after := s.reservations[x].memberId, Without(s.ledger, p);
            var held := UsesHeld(s.ledger, member, x, p);
            && UseCount(after, member, x) + held == UseCount(s.ledger, member, x)
            && (!HasKey(after, ReservationUseKey(x, UseCount(after, member, x) + 1)) <==>
                held == 0 || !HeldByOther(s.ledger, ReservationUseKey(x, UseCount(after, member, x) + 1), p))
  {
    var member, after := s.reservations[x].memberId, Without(s.ledger, p);
    WithoutCounts(s.ledger, member, x, p);
    WithoutKeys(s.ledger, ReservationUseKey(x, UseCount(after, member, x) + 1), p);
  }

  lemma WithoutAppend(ledger: seq<Row>, r: Row, p: PassId)
    ensures Without(ledger + [r], p) == if r.passId == p then Without(ledger, p) else Without(ledger, p) + [r]
  {
    assert (ledger + [r])[..|ledger|] == ledger;
  }

  // Two passes bought and used on one reservation.
  function BothUsed(a: PassId, b: PassId, member: MemberId, x: ReservationId): seq<Row> {
    [Row(a, member, PURCHASE, 10, None, None, PurchaseKey(a.order), 0)]
    + [Row(b, member, PURCHASE, 10, None, None, PurchaseKey(b.order), 0)]
    + [Row(a, member, USE, -1, Some(x), None, ReservationUseKey(x, 1), 0)]
    + [Row(b, member, USE, -1, Some(x), None, ReservationUseKey(x, 2), 0)]
  }

  // The first use restored and its pass cancelled.
  function FirstCancelled(a: PassId, b: PassId, member: MemberId, x: ReservationId): seq<Row> {
    BothUsed(a, b, member, x)
    + [Row(a, member, RESTORE, 1, Some(x), Some(2), RestoreKey(2), 0)]
    + [Row(a, member, CANCEL, -10, None, None, CancelKey(a.order), 0)]
  }

  // Of four rows of two passes by turns, the first pass's rows are left out.
  lemma WithoutByTurns(r0: Row, r1: Row, r2: Row, r3: Row, a: PassId)
    requires r0.passId == r2.passId == a && r1.passId != a && r3.passId != a
    ensures Without([r0] + [r1] + [r2] + [r3], a) == [r1] + [r3]
  {
    WithoutAppend([], r0, a);
    WithoutAppend([r0], r1, a);
    WithoutAppend([r0] + [r1], r2, a);
    WithoutAppend([r0] + [r1] + [r2], r3, a);
    assert [] + [r0] == [r0];
  }

  lemma WithoutFirst(a: PassId, b: PassId, member: MemberId, x: ReservationId)
    requires a != b
    ensures var four := BothUsed(a, b, member, x);
            Without(FirstCancelled(a, b, member, x), a) == [four[1]] + [four[3]]
  {
    var rows, four := FirstCancelled(a, b, member, x), BothUsed(a, b, member, x);
    WithoutByTurns(four[0], four[1], four[2], four[3], a);
    WithoutAppend(four, rows[4], a);
    WithoutAppend(four + [rows[4]], rows[5], a);
  }

  lemma UseCountAppend(ledger: seq<Row>, r: Row, member: MemberId, x: ReservationId)
    ensures UseCount(ledger + [r], member, x)
            == UseCount(ledger, member, x)
               + if r.kind == USE && r.memberId == member && r.reservation == Some(x) then 1 else 0
  {
    assert (ledger + [r])[..|ledger|] == ledger;
  }

  // A row that is no use and then a use with a number.
  lemma SecondNumberIsNext(other: Row, use: Row, x: ReservationId)
    requires other.kind == PURCHASE && use.kind == USE && use.reservation == Some(x)
    ensures UseCount([other] + [use], use.memberId, x) == 1 && HasKey([other] + [use], use.key)
  {
    HasKeyAppend([other], use, use.key);
    UseCountAppend([], other, use.memberId, x);
    UseCountAppend([other], use, use.memberId, x);
    assert [] + [other] == [other];
  }

  /** The failing side: once the cancelled pass's rows are gone, the next redemption
      asks for the key that the other pass holds. */
  lemma DeletedPassTakesNextKey(a: PassId, b: PassId, member: MemberId, x: ReservationId)
    requires a != b
    ensures var after := Without(FirstCancelled(a, b, member, x), a);
            HasKey(after, ReservationUseKey(x, UseCount(after, member, x) + 1))
  {
    WithoutFirst(a, b, member, x);
    var four := BothUsed(a, b, member, x);
    var after := Without(FirstCancelled(a, b, member, x), a);
    SecondNumberIsNext(four[1], four[3], x);
    assert after == [four[1]] + [four[3]];
    assert four[3].memberId == member && four[3].key == ReservationUseKey(x, 2);
    assert UseCount(after, member, x) == 1;
  }
}
