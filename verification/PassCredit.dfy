// Turning games already paid for into the first uses of a multi-use pass: as many
// uses as asked for, taken from the reservations in order.
//
// A reservation yields at most one use a person of the pass's age group, and at most
// as many as its paid amount covers at the regular price. The plan is compared with
// every feasible allocation: none has more uses in all, and none with as many takes
// more from the earlier reservations.

module PassCredit {
  import opened Numbers
  import MB = MemberBenefits
  import BL = BenefitLaws

  datatype AgeGroup = Youth | Adult | Other

  datatype Candidate = Candidate(id: string, adultCount: int, youthCount: int, totalCount: int, paidGameAmount: int)

  datatype Allocation = Allocation(reservationId: string, uses: nat, amount: int)

  datatype Plan = Plan(availableUses: nat, usedUses: nat, creditAmount: int, allocations: seq<Allocation>)

  // A group counts its own heads; the total counts only where no head was
  // recorded by age, or for a pass of no age group.
  function People(c: Candidate, g: AgeGroup): (people: nat)
    ensures g.Youth? && (c.youthCount > 0 || c.adultCount > 0) ==> people == Clamp(c.youthCount)
    ensures g.Adult? && (c.youthCount > 0 || c.adultCount > 0) ==> people == Clamp(c.adultCount)
    ensures g.Other? || (c.youthCount <= 0 && c.adultCount <= 0) ==> people == Clamp(c.totalCount)
  {
    var adults, youths, all := Clamp(c.adultCount), Clamp(c.youthCount), Clamp(c.totalCount);
    match g
    case Youth => if youths > 0 then youths else if adults == 0 then all else 0
    case Adult => if adults > 0 then adults else if youths == 0 then all else 0
    case Other => all
  }

  // The most uses one reservation can cover.
  function Limit(c: Candidate, g: AgeGroup, unit: nat): nat {
    if unit == 0 then 0 else Min(People(c, g), Clamp(c.paidGameAmount) / unit)
  }

  function LimitSum(cs: seq<Candidate>, g: AgeGroup, unit: nat): nat {
    if cs == [] then 0 else LimitSum(cs[..|cs| - 1], g, unit) + Limit(cs[|cs| - 1], g, unit)
  }

  function MaxPassCreditUses(cs: seq<Candidate>, g: AgeGroup, regularUnitPrice: int): nat {
    if Clamp(regularUnitPrice) < 1 then 0 else LimitSum(cs, g, Clamp(regularUnitPrice))
  }

  // ----- What any plan has to respect -----

  function Sum(uses: seq<nat>): nat {
    if uses == [] then 0 else Sum(uses[..|uses| - 1]) + uses[|uses| - 1]
  }

  predicate Fits(uses: nat, c: Candidate, g: AgeGroup, unit: nat) {
    uses <= People(c, g) && uses * unit <= Clamp(c.paidGameAmount)
  }

  /** One number of uses per reservation, each within its people and its money. */
  predicate Feasible(uses: seq<nat>, cs: seq<Candidate>, g: AgeGroup, unit: nat) {
    |uses| == |cs| && forall i | 0 <= i < |cs| :: Fits(uses[i], cs[i], g, unit)
  }

  lemma QuotientOrder(uses: int, q: int, paid: int, unit: nat)
    requires unit > 0 && q * unit <= paid < q * unit + unit
    ensures uses <= q <==> uses * unit <= paid
  {
    if uses <= q {
      ProductOrder(uses, q, unit);
    } else {
      Distribute(q, 1, 0, unit);
      ProductOrder(q + 1, uses, unit);
    }
  }

  lemma {:induction false} LimitIsLargest(uses: nat, c: Candidate, g: AgeGroup, unit: nat)
    requires unit > 0
    ensures uses <= Limit(c, g, unit) <==> Fits(uses, c, g, unit)
  {
    var paid := Clamp(c.paidGameAmount);
    FloorBounds(paid, unit);
    QuotientOrder(uses, paid / unit, paid, unit);
  }

  // ----- The plan, with the limits laid end to end -----

  // How much of `wanted` the first i reservations cover.
  function Reach(wanted: nat, cs: seq<Candidate>, g: AgeGroup, unit: nat, i: nat): nat
    requires i <= |cs|
  {
    Min(wanted, LimitSum(cs[..i], g, unit))
  }

  lemma LimitSumStep(cs: seq<Candidate>, g: AgeGroup, unit: nat, i: nat)
    requires i < |cs|
    ensures LimitSum(cs[..i + 1], g, unit) == LimitSum(cs[..i], g, unit) + Limit(cs[i], g, unit)
  {
    assert cs[..i + 1][..i] == cs[..i];
  }

  function GivenAt(wanted: nat, cs: seq<Candidate>, g: AgeGroup, unit: nat, i: nat): nat
    requires i < |cs|
  {
    LimitSumStep(cs, g, unit, i);
    Reach(wanted, cs, g, unit, i + 1) - Reach(wanted, cs, g, unit, i)
  }

  // The uses of each of the first n reservations: the overlap of its stretch with [0, wanted).
  function Given(wanted: nat, cs: seq<Candidate>, g: AgeGroup, unit: nat, n: nat): (r: seq<nat>)
    requires n <= |cs|
    ensures |r| == n
    ensures forall i | 0 <= i < n :: r[i] == GivenAt(wanted, cs, g, unit, i)
  {
    seq(n, i requires 0 <= i < n => GivenAt(wanted, cs, g, unit, i))
  }

  // The reservations with at least one use.
  function Entries(cs: seq<Candidate>, uses: seq<nat>, unit: nat): seq<Allocation>
    requires |uses| <= |cs|
  {
    if uses == [] then []
    else
      var n := |uses| - 1;
      Entries(cs, uses[..n], unit) + if uses[n] < 1 then [] else [Allocation(cs[n].id, uses[n], uses[n] * unit)]
  }

  function CreditSum(allocations: seq<Allocation>): int {
    if allocations == [] then 0
    else CreditSum(allocations[..|allocations| - 1]) + allocations[|allocations| - 1].amount
  }

  lemma {:induction false} GivenSums(wanted: nat, cs: seq<Candidate>, g: AgeGroup, unit: nat, n: nat)
    requires n <= |cs|
    ensures Sum(Given(wanted, cs, g, unit, n)) == Reach(wanted, cs, g, unit, n)
  {
    if n == 0 {
      assert cs[..0] == [];
    } else {
      GivenSums(wanted, cs, g, unit, n - 1);
      assert Given(wanted, cs, g, unit, n)[..n - 1] == Given(wanted, cs, g, unit, n - 1);
    }
  }

  /** The plan is feasible and covers the whole of a request within the limit. */
  lemma {:induction false} GivenIsFeasible(wanted: nat, cs: seq<Candidate>, g: AgeGroup, unit: nat)
    requires unit > 0 && wanted <= LimitSum(cs, g, unit)
    ensures Feasible(Given(wanted, cs, g, unit, |cs|), cs, g, unit)
    ensures Sum(Given(wanted, cs, g, unit, |cs|)) == wanted
  {
    GivenSums(wanted, cs, g, unit, |cs|);
    assert cs[..|cs|] == cs;
    forall i | 0 <= i < |cs| ensures Fits(Given(wanted, cs, g, unit, |cs|)[i], cs[i], g, unit) {
      LimitSumStep(cs, g, unit, i);
      LimitIsLargest(GivenAt(wanted, cs, g, unit, i), cs[i], g, unit);
    }
  }

  lemma {:induction false} FeasibleWithinLimit(uses: seq<nat>, cs: seq<Candidate>, g: AgeGroup, unit: nat, k: nat)
    requires unit > 0 && Feasible(uses, cs, g, unit) && k <= |cs|
    ensures Sum(uses[..k]) <= LimitSum(cs[..k], g, unit)
  {
    if k > 0 {
      FeasibleWithinLimit(uses, cs, g, unit, k - 1);
      LimitSumStep(cs, g, unit, k - 1);
      LimitIsLargest(uses[k - 1], cs[k - 1], g, unit);
      assert uses[..k][..k - 1] == uses[..k - 1];
    }
  }

  lemma {:induction false} PrefixSumWithin(uses: seq<nat>, k: nat)
    requires k <= |uses|
    ensures Sum(uses[..k]) <= Sum(uses)
    decreases |uses| - k
  {
    if k == |uses| {
      assert uses[..k] == uses;
    } else {
      PrefixSumWithin(uses, k + 1);
      assert uses[..k + 1][..k] == uses[..k];
    }
  }

  /** No feasible allocation has more uses than the announced maximum, and the
      maximum itself is reached. */
  lemma {:induction false} MaximumIsOptimal(uses: seq<nat>, cs: seq<Candidate>, g: AgeGroup, regularUnitPrice: int)
    requires regularUnitPrice > 0 && Feasible(uses, cs, g, regularUnitPrice)
    ensures Sum(uses) <= MaxPassCreditUses(cs, g, regularUnitPrice)
    ensures var best := Given(MaxPassCreditUses(cs, g, regularUnitPrice), cs, g, regularUnitPrice, |cs|);
            Feasible(best, cs, g, regularUnitPrice) && Sum(best) == MaxPassCreditUses(cs, g, regularUnitPrice)
  {
    FeasibleWithinLimit(uses, cs, g, regularUnitPrice, |cs|);
    assert uses[..|cs|] == uses && cs[..|cs|] == cs;
    GivenIsFeasible(LimitSum(cs, g, regularUnitPrice), cs, g, regularUnitPrice);
  }

  /** Earliest first: no feasible allocation of at most `wanted` uses takes more
      from the first k reservations, for any k. */
  lemma EarliestFirst(uses: seq<nat>, wanted: nat, cs: seq<Candidate>, g: AgeGroup, unit: nat, k: nat)
    requires unit > 0 && Feasible(uses, cs, g, unit) && Sum(uses) <= wanted && k <= |cs|
    ensures Sum(uses[..k]) <= Sum(Given(wanted, cs, g, unit, |cs|)[..k])
  {
    FeasibleWithinLimit(uses, cs, g, unit, k);
    PrefixSumWithin(uses, k);
    GivenSums(wanted, cs, g, unit, k);
    assert Given(wanted, cs, g, unit, |cs|)[..k] == Given(wanted, cs, g, unit, k);
  }

  // ----- The whole request -----

  function AvailableUses(cs: seq<Candidate>, g: AgeGroup, regularUnitPrice: int, productUses: int): nat {
    Min(Clamp(productUses), MaxPassCreditUses(cs, g, regularUnitPrice))
  }

  function RequestedUses(requested: int): nat {
    if requested < 1 then 1 else requested
  }

  /** The request is met in full if and only if some feasible allocation has
      exactly that many uses and the pass has room for them. */
  lemma RequestMetExactlyWhen(cs: seq<Candidate>, g: AgeGroup, regularUnitPrice: int, requested: int, productUses: int)
    requires regularUnitPrice > 0
    ensures RequestedUses(requested) <= AvailableUses(cs, g, regularUnitPrice, productUses) <==>
            RequestedUses(requested) <= productUses
            && exists uses :: Feasible(uses, cs, g, regularUnitPrice) && Sum(uses) == RequestedUses(requested)
  {
    var wanted := RequestedUses(requested);
    if wanted <= LimitSum(cs, g, regularUnitPrice) {
      GivenIsFeasible(wanted, cs, g, regularUnitPrice);
    }
    forall uses | Feasible(uses, cs, g, regularUnitPrice) && Sum(uses) == wanted
      ensures wanted <= MaxPassCreditUses(cs, g, regularUnitPrice)
    {
      MaximumIsOptimal(uses, cs, g, regularUnitPrice);
    }
  }

  lemma {:induction false} EntriesCredit(cs: seq<Candidate>, uses: seq<nat>, unit: nat)
    requires |uses| <= |cs|
    ensures CreditSum(Entries(cs, uses, unit)) == Sum(uses) * unit
  {
    if uses != [] {
      var n := |uses| - 1;
      EntriesCredit(cs, uses[..n], unit);
      var before, all := Entries(cs, uses[..n], unit), Entries(cs, uses, unit);
      if uses[n] >= 1 {
        assert all[..|all| - 1] == before;
      } else {
        assert all == before;
      }
      assert (Sum(uses[..n]) + uses[n]) * unit == Sum(uses[..n]) * unit + uses[n] * unit;
    }
  }

  /** Every allocation is for one or more uses of a candidate, within its people
      and within the game amount it paid. */
  lemma {:induction false} EntriesFit(cs: seq<Candidate>, uses: seq<nat>, g: AgeGroup, unit: nat, k: nat)
    requires Feasible(uses, cs, g, unit) && k <= |uses|
    ensures forall a | a in Entries(cs, uses[..k], unit) ::
              a.uses >= 1 && a.amount == a.uses * unit
              && exists i | 0 <= i < k :: cs[i].id == a.reservationId && Fits(a.uses, cs[i], g, unit)
  {
    if k > 0 {
      EntriesFit(cs, uses, g, unit, k - 1);
      assert uses[..k][..k - 1] == uses[..k - 1];
      assert Fits(uses[k - 1], cs[k - 1], g, unit);
      forall a | a in Entries(cs, uses[..k], unit)
        ensures exists i | 0 <= i < k :: cs[i].id == a.reservationId && Fits(a.uses, cs[i], g, unit)
      {
        if a in Entries(cs, uses[..k - 1], unit) {
          var i :| 0 <= i < k - 1 && cs[i].id == a.reservationId && Fits(a.uses, cs[i], g, unit);
        }
      }
    }
  }

  // One turn of the loop.
  lemma TurnLaw(wanted: nat, cs: seq<Candidate>, g: AgeGroup, unit: nat, i: nat)
    requires i < |cs|
    ensures var uses := Min(wanted - Reach(wanted, cs, g, unit, i), Limit(cs[i], g, unit));
            && Reach(wanted, cs, g, unit, i + 1) == Reach(wanted, cs, g, unit, i) + uses
            && Entries(cs, Given(wanted, cs, g, unit, i + 1), unit)
               == Entries(cs, Given(wanted, cs, g, unit, i), unit)
                  + if uses < 1 then [] else [Allocation(cs[i].id, uses, uses * unit)]
  {
    LimitSumStep(cs, g, unit, i);
    assert Given(wanted, cs, g, unit, i + 1)[..i] == Given(wanted, cs, g, unit, i);
  }

  lemma NothingInTurn(wanted: nat, cs: seq<Candidate>, g: AgeGroup, unit: nat, i: nat)
    requires i < |cs| && Reach(wanted, cs, g, unit, i) == wanted
    ensures Reach(wanted, cs, g, unit, i + 1) == wanted
    ensures Entries(cs, Given(wanted, cs, g, unit, i + 1), unit) == Entries(cs, Given(wanted, cs, g, unit, i), unit)
  {
    TurnLaw(wanted, cs, g, unit, i);
  }

  // Once the request is covered, later reservations get nothing.
  lemma {:induction false} NothingAfterwards(wanted: nat, cs: seq<Candidate>, g: AgeGroup, unit: nat, i: nat, n: nat)
    requires i <= n <= |cs| && Reach(wanted, cs, g, unit, i) == wanted
    ensures Reach(wanted, cs, g, unit, n) == wanted
    ensures Entries(cs, Given(wanted, cs, g, unit, n), unit) == Entries(cs, Given(wanted, cs, g, unit, i), unit)
    decreases n
  {
    if i < n {
      NothingAfterwards(wanted, cs, g, unit, i, n - 1);
      NothingInTurn(wanted, cs, g, unit, n - 1);
    }
  }

  lemma NothingYet(wanted: nat, cs: seq<Candidate>, g: AgeGroup, unit: nat)
    ensures Reach(wanted, cs, g, unit, 0) == 0
    ensures Entries(cs, Given(wanted, cs, g, unit, 0), unit) == []
  {
  }

  lemma PlanCredit(wanted: nat, cs: seq<Candidate>, g: AgeGroup, unit: nat)
    requires wanted <= LimitSum(cs, g, unit)
    ensures CreditSum(Entries(cs, Given(wanted, cs, g, unit, |cs|), unit)) == wanted * unit
    ensures Reach(wanted, cs, g, unit, |cs|) == wanted
  {
    assert cs[..|cs|] == cs;
    GivenSums(wanted, cs, g, unit, |cs|);
    EntriesCredit(cs, Given(wanted, cs, g, unit, |cs|), unit);
  }

  // The loop: takes `wanted` uses from the reservations in order.
  method TakeUses(cs: seq<Candidate>, g: AgeGroup, unit: nat, wanted: nat)
    returns (allocations: seq<Allocation>, remaining: nat)
    requires wanted <= LimitSum(cs, g, unit)
    ensures remaining == 0
    ensures allocations == Entries(cs, Given(wanted, cs, g, unit, |cs|), unit)
  {
    remaining, allocations := wanted, [];
    NothingYet(wanted, cs, g, unit);
    var i := 0;
    while i < |cs|
      invariant 0 <= i <= |cs|
      invariant remaining == wanted - Reach(wanted, cs, g, unit, i)
      invariant allocations == Entries(cs, Given(wanted, cs, g, unit, i), unit)
    {
      if remaining < 1 {
        break;
      }
      var uses := Min(remaining, Limit(cs[i], g, unit));
      TurnLaw(wanted, cs, g, unit, i);
      if uses >= 1 {
        allocations := allocations + [Allocation(cs[i].id, uses, uses * unit)];
        remaining := remaining - uses;
      }
      i := i + 1;
    }
    PlanCredit(wanted, cs, g, unit);
    if remaining < 1 {
      NothingAfterwards(wanted, cs, g, unit, i, |cs|);
    }
  }

  // Without a price nothing can be credited.
  lemma {:induction false} NoPriceNoLimit(cs: seq<Candidate>, g: AgeGroup)
    ensures Entries(cs, Given(0, cs, g, 0, |cs|), 0) == []
  {
    NothingYet(0, cs, g, 0);
    NothingAfterwards(0, cs, g, 0, 0, |cs|);
  }

  method BuildPassCreditPlan(cs: seq<Candidate>, g: AgeGroup, regularUnitPrice: int, requested: int, productUses: int)
    returns (plan: Plan)
    ensures plan.availableUses == AvailableUses(cs, g, regularUnitPrice, productUses)
    ensures plan.usedUses <= plan.availableUses <= Clamp(productUses)
    ensures requested >= 1 ==> plan.usedUses == Min(plan.availableUses, requested)
    ensures requested < 1 ==> plan.usedUses == Min(plan.availableUses, 1)
    ensures regularUnitPrice <= 0 ==> plan == Plan(0, 0, 0, [])
    ensures var unit := Clamp(regularUnitPrice);
            && plan.allocations == Entries(cs, Given(plan.usedUses, cs, g, unit, |cs|), unit)
            && plan.creditAmount == plan.usedUses * unit
  {
    var unit := Clamp(regularUnitPrice);
    var availableUses := AvailableUses(cs, g, regularUnitPrice, productUses);
    var requestedUses := Min(availableUses, RequestedUses(requested));
    var allocations, remaining := TakeUses(cs, g, unit, requestedUses);
    PlanCredit(requestedUses, cs, g, unit);
    if unit == 0 {
      NoPriceNoLimit(cs, g);
    }
    plan := Plan(availableUses, requestedUses - remaining, CreditSum(allocations), allocations);
  }

  // ----- The purchase order -----

  function CreditsOf(allocations: seq<Allocation>): seq<MB.Credit> {
    if allocations == [] then []
    else
      var a := allocations[|allocations| - 1];
      CreditsOf(allocations[..|allocations| - 1]) + [MB.Credit(a.reservationId, a.uses, a.amount)]
  }

  predicate DistinctIds(cs: seq<Candidate>) {
    forall i, j | 0 <= i < j < |cs| :: cs[i].id != cs[j].id
  }

  lemma CreditsAppend(before: seq<Allocation>, a: Allocation)
    ensures CreditsOf(before + [a]) == CreditsOf(before) + [MB.Credit(a.reservationId, a.uses, a.amount)]
  {
    assert (before + [a])[..|before|] == before;
  }

  lemma CreditTotalAppend(credits: seq<MB.Credit>, c: MB.Credit)
    requires c.uses >= 0
    ensures MB.CreditTotal(credits + [c]) == MB.CreditTotal(credits) + c.uses
  {
    assert (credits + [c])[..|credits|] == credits;
  }

  lemma CreditsOkAppend(credits: seq<MB.Credit>, c: MB.Credit)
    requires BL.CreditsOk(credits) && c.uses >= 1 && c.amount >= 0
    requires forall j | 0 <= j < |credits| :: credits[j].reservation != c.reservation
    ensures BL.CreditsOk(credits + [c])
  {
  }

  lemma CreditAppended(before: seq<Allocation>, a: Allocation)
    requires BL.CreditsOk(CreditsOf(before)) && a.uses >= 1 && a.amount >= 0
    requires forall j | 0 <= j < |CreditsOf(before)| :: CreditsOf(before)[j].reservation != a.reservationId
    ensures CreditsOf(before + [a]) == CreditsOf(before) + [MB.Credit(a.reservationId, a.uses, a.amount)]
    ensures BL.CreditsOk(CreditsOf(before + [a]))
    ensures MB.CreditTotal(CreditsOf(before + [a])) == MB.CreditTotal(CreditsOf(before)) + a.uses
  {
    CreditsAppend(before, a);
    var credits, c := CreditsOf(before), MB.Credit(a.reservationId, a.uses, a.amount);
    CreditTotalAppend(credits, c);
    CreditsOkAppend(credits, c);
  }

  // No credit is on a reservation after the first k.
  predicate CreditsWithin(credits: seq<MB.Credit>, cs: seq<Candidate>, k: nat) {
    forall j, i | 0 <= j < |credits| && k <= i < |cs| :: credits[j].reservation != cs[i].id
  }

  lemma EntriesStep(cs: seq<Candidate>, uses: seq<nat>, unit: nat, k: nat)
    requires |uses| == |cs| && k < |cs|
    ensures Sum(uses[..k + 1]) == Sum(uses[..k]) + uses[k]
    ensures Entries(cs, uses[..k + 1], unit)
            == Entries(cs, uses[..k], unit)
               + if uses[k] < 1 then [] else [Allocation(cs[k].id, uses[k], uses[k] * unit)]
  {
    assert uses[..k + 1][..k] == uses[..k];
  }

  predicate MakesCredits(entries: seq<Allocation>, uses: nat, cs: seq<Candidate>, k: nat)
  {
    var credits := CreditsOf(entries);
    MB.CreditTotal(credits) == uses && BL.CreditsOk(credits) && CreditsWithin(credits, cs, k)
  }

  lemma MakesOneMore(entries: seq<Allocation>, uses: nat, cs: seq<Candidate>, k: nat, more: nat, amount: int,
                     after: seq<Allocation>)
    requires DistinctIds(cs) && k < |cs| && MakesCredits(entries, uses, cs, k) && amount >= 0
    requires after == entries + if more < 1 then [] else [Allocation(cs[k].id, more, amount)]
    ensures MakesCredits(after, uses + more, cs, k + 1)
  {
    if more >= 1 {
      CreditAppended(entries, Allocation(cs[k].id, more, amount));
    } else {
      assert after == entries;
    }
  }

  lemma NoneMakesCredits(cs: seq<Candidate>)
    ensures MakesCredits([], 0, cs, 0)
  {
  }

  lemma {:induction false} EntriesMakeCredits(cs: seq<Candidate>, uses: seq<nat>, unit: nat, k: nat)
    requires DistinctIds(cs) && |uses| == |cs| && k <= |cs|
    ensures MakesCredits(Entries(cs, uses[..k], unit), Sum(uses[..k]), cs, k)
    decreases k
  {
    if k == 0 {
      assert uses[..0] == [];
      NoneMakesCredits(cs);
    } else {
      var n, entries, after := k - 1, Entries(cs, uses[..k - 1], unit), Entries(cs, uses[..k], unit);
      EntriesMakeCredits(cs, uses, unit, n);
      EntriesStep(cs, uses, unit, n);
      MakesOneMore(entries, Sum(uses[..n]), cs, n, uses[n], uses[n] * unit, after);
    }
  }

  lemma GivenMakesOrder(wanted: nat, cs: seq<Candidate>, g: AgeGroup, unit: nat)
    requires DistinctIds(cs)
    ensures var credits := CreditsOf(Entries(cs, Given(wanted, cs, g, unit, |cs|), unit));
            BL.CreditsOk(credits) && MB.CreditTotal(credits) <= wanted
  {
    var given := Given(wanted, cs, g, unit, |cs|);
    assert given[..|cs|] == given;
    EntriesMakeCredits(cs, given, unit, |cs|);
    GivenSums(wanted, cs, g, unit, |cs|);
  }

  /** A plan over distinct reservations gives a purchase order as the pass ledger
      needs it: one credit a reservation, and no more uses than the product has. */
  lemma {:induction false} PlanMakesOrder(cs: seq<Candidate>, g: AgeGroup, regularUnitPrice: int, requested: int,
                                          productUses: nat, id: MB.OrderId, order: MB.Order)
    requires DistinctIds(cs) && order.purchased == productUses && order.passId.None?
    requires var unit := Clamp(regularUnitPrice);
             var used := Min(AvailableUses(cs, g, regularUnitPrice, productUses), RequestedUses(requested));
             order.credits == CreditsOf(Entries(cs, Given(used, cs, g, unit, |cs|), unit))
    ensures BL.OrderOk(id, order)
  {
    var used := Min(AvailableUses(cs, g, regularUnitPrice, productUses), RequestedUses(requested));
    GivenMakesOrder(used, cs, g, Clamp(regularUnitPrice));
  }
}
