// Member coupons: one coupon covers one participant's price, youths first, until
// the maximum coupon amount of the reservation is spent.
//
// The slots are specified by the sequence of priced participants and the sum of the
// prices before each; the nested loops with their early return are proved to compute
// them. A list of coupon amounts passes the check exactly when it is a sub-multiset
// of the slot amounts.

module CouponSlots {
  import opened Numbers

  datatype ParticipantType = Youth | Adult

  datatype Slot = Slot(participantType: ParticipantType, participantOrdinal: nat, amount: nat)

  datatype Booking = Booking(adultCount: int, youthCount: int, adultPrice: int, youthPrice: int, maximum: int)

  datatype Group = Group(participantType: ParticipantType, count: nat, price: nat)

  datatype Head = Head(participantType: ParticipantType, ordinal: nat, price: nat)

  function Groups(b: Booking): seq<Group> {
    [Group(Youth, Clamp(b.youthCount), Clamp(b.youthPrice)),
     Group(Adult, Clamp(b.adultCount), Clamp(b.adultPrice))]
  }

  // ----- The participants with a price, laid end to end -----

  function HeadsOf(g: Group): (r: seq<Head>)
    ensures g.price >= 1 ==>
              |r| == g.count && forall i | 0 <= i < |r| :: r[i] == Head(g.participantType, i + 1, g.price)
    ensures g.price < 1 ==> r == []
    ensures forall h | h in r :: h.price >= 1
  {
    if g.price < 1 then [] else seq(g.count, i requires 0 <= i => Head(g.participantType, i + 1, g.price))
  }

  function HeadsUpTo(groups: seq<Group>, k: nat): seq<Head>
    requires k <= |groups|
  {
    if k == 0 then [] else HeadsUpTo(groups, k - 1) + HeadsOf(groups[k - 1])
  }

  function Heads(b: Booking): seq<Head> {
    HeadsUpTo(Groups(b), 2)
  }

  function PriceSum(heads: seq<Head>): nat {
    if heads == [] then 0 else PriceSum(heads[..|heads| - 1]) + heads[|heads| - 1].price
  }

  function AmountSum(slots: seq<Slot>): nat {
    if slots == [] then 0 else AmountSum(slots[..|slots| - 1]) + slots[|slots| - 1].amount
  }

  function SlotOf(h: Head, left: nat): Slot {
    Slot(h.participantType, h.ordinal, Min(h.price, left))
  }

  // A head has a slot while the heads before it have not spent the maximum.
  function Slots(heads: seq<Head>, maximum: nat): seq<Slot> {
    if heads == [] then []
    else
      var n := |heads| - 1;
      var before := PriceSum(heads[..n]);
      Slots(heads[..n], maximum) + if before >= maximum then [] else [SlotOf(heads[n], maximum - before)]
  }

  function MemberCouponSlots(b: Booking): seq<Slot> {
    Slots(Heads(b), Clamp(b.maximum))
  }

  predicate Priced(heads: seq<Head>) {
    forall i | 0 <= i < |heads| :: heads[i].price >= 1
  }

  lemma HeadsArePriced(b: Booking)
    ensures Priced(Heads(b))
  {
    var groups := Groups(b);
    assert HeadsUpTo(groups, 1) == HeadsOf(groups[0]);
    assert Heads(b) == HeadsOf(groups[0]) + HeadsOf(groups[1]);
  }

  /** Youths come first, each group numbered from 1, and a group without a price
      has no head. */
  lemma YouthsComeFirst(b: Booking)
    ensures var youths := if b.youthPrice < 1 then 0 else Clamp(b.youthCount);
            var adults := if b.adultPrice < 1 then 0 else Clamp(b.adultCount);
            && |Heads(b)| == youths + adults
            && (forall i | 0 <= i < youths :: Heads(b)[i] == Head(Youth, i + 1, b.youthPrice))
            && (forall i | youths <= i < youths + adults :: Heads(b)[i] == Head(Adult, i - youths + 1, b.adultPrice))
  {
    var groups := Groups(b);
    assert HeadsUpTo(groups, 1) == HeadsOf(groups[0]);
    assert Heads(b) == HeadsOf(groups[0]) + HeadsOf(groups[1]);
  }

  lemma {:induction false} PriceSumGrows(heads: seq<Head>, n: nat)
    requires n <= |heads|
    ensures PriceSum(heads[..n]) <= PriceSum(heads)
    ensures Priced(heads) && n < |heads| ==> PriceSum(heads[..n]) < PriceSum(heads)
    decreases |heads|
  {
    if n < |heads| {
      var k := |heads| - 1;
      PriceSumGrows(heads[..k], n);
      assert heads[..k][..n] == heads[..n];
    } else {
      assert heads[..n] == heads;
    }
  }

  lemma {:induction false} SlotsStop(heads: seq<Head>, n: nat, maximum: nat)
    requires n <= |heads| && PriceSum(heads[..n]) >= maximum
    ensures Slots(heads, maximum) == Slots(heads[..n], maximum)
    decreases |heads|
  {
    if n < |heads| {
      var k := |heads| - 1;
      assert heads[..k][..n] == heads[..n];
      SlotsStop(heads[..k], n, maximum);
      PriceSumGrows(heads[..k], n);
    } else {
      assert heads[..n] == heads;
    }
  }

  // Slot i is cut from head i by what the heads before it leave of the maximum.
  predicate CutFrom(slots: seq<Slot>, heads: seq<Head>, maximum: nat) {
    && |slots| <= |heads|
    && (forall i | 0 <= i < |slots| ::
          PriceSum(heads[..i]) < maximum && slots[i] == SlotOf(heads[i], maximum - PriceSum(heads[..i])))
    && (|slots| == |heads| || PriceSum(heads[..|slots|]) >= maximum)
  }

  lemma PrefixKept(heads: seq<Head>, h: Head, i: nat)
    requires i <= |heads|
    ensures (heads + [h])[..i] == heads[..i]
  {
  }

  lemma CutKept(slots: seq<Slot>, heads: seq<Head>, h: Head, maximum: nat)
    requires CutFrom(slots, heads, maximum) && (|slots| == |heads| ==> PriceSum(heads) >= maximum)
    ensures CutFrom(slots, heads + [h], maximum)
  {
    assert heads[..|heads|] == heads;
    PrefixKept(heads, h, |slots|);
    forall i | 0 <= i < |slots| ensures (heads + [h])[..i] == heads[..i] {
      PrefixKept(heads, h, i);
    }
  }

  lemma CutOneMore(slots: seq<Slot>, heads: seq<Head>, h: Head, maximum: nat)
    requires CutFrom(slots, heads, maximum) && |slots| == |heads| && PriceSum(heads) < maximum
    ensures CutFrom(slots + [SlotOf(h, maximum - PriceSum(heads))], heads + [h], maximum)
  {
    var all, more := heads + [h], slots + [SlotOf(h, maximum - PriceSum(heads))];
    forall i | 0 <= i < |more|
      ensures PriceSum(all[..i]) < maximum && more[i] == SlotOf(all[i], maximum - PriceSum(all[..i]))
    {
      PrefixKept(heads, h, i);
      if i == |heads| {
        assert heads[..i] == heads;
      }
    }
  }

  lemma CutStep(slots: seq<Slot>, heads: seq<Head>, h: Head, maximum: nat, more: seq<Slot>, all: seq<Head>)
    requires CutFrom(slots, heads, maximum) && all == heads + [h]
    requires more == slots + if PriceSum(heads) >= maximum then [] else [SlotOf(h, maximum - PriceSum(heads))]
    ensures CutFrom(more, all, maximum)
  {
    PriceSumGrows(heads, |slots|);
    if PriceSum(heads) >= maximum {
      assert more == slots + [] == slots;
      CutKept(slots, heads, h, maximum);
    } else {
      CutOneMore(slots, heads, h, maximum);
    }
  }

  lemma NothingIsCut(maximum: nat)
    ensures CutFrom([], [], maximum)
  {
  }

  lemma {:induction false} SlotsAreCut(heads: seq<Head>, maximum: nat)
    ensures CutFrom(Slots(heads, maximum), heads, maximum)
    decreases |heads|
  {
    if heads == [] {
      NothingIsCut(maximum);
    } else {
      var n := |heads| - 1;
      var before := heads[..n];
      SlotsAreCut(before, maximum);
      CutStep(Slots(before, maximum), before, heads[n], maximum, Slots(heads, maximum), heads);
    }
  }

  lemma {:induction false} SlotsSum(heads: seq<Head>, maximum: nat)
    ensures AmountSum(Slots(heads, maximum)) == Min(maximum, PriceSum(heads))
  {
    if heads != [] {
      var n := |heads| - 1;
      SlotsSum(heads[..n], maximum);
      var before, all := Slots(heads[..n], maximum), Slots(heads, maximum);
      if PriceSum(heads[..n]) < maximum {
        assert all[..|all| - 1] == before;
      } else {
        assert all == before;
      }
    }
  }

  /** Slot i is for head i, is positive, and takes the whole price except possibly
      in the last slot; together the slots take the smaller of the maximum and
      the total price. */
  predicate SlotsFit(slots: seq<Slot>, heads: seq<Head>, maximum: nat) {
    && |slots| <= |heads|
    && (forall i | 0 <= i < |slots| ::
          slots[i].participantType == heads[i].participantType && slots[i].participantOrdinal == heads[i].ordinal
          && 1 <= slots[i].amount <= heads[i].price
          && (i < |slots| - 1 ==> slots[i].amount == heads[i].price))
    && AmountSum(slots) == Min(maximum, PriceSum(heads))
  }

  lemma CutSlotFits(slots: seq<Slot>, heads: seq<Head>, maximum: nat, i: nat)
    requires CutFrom(slots, heads, maximum) && Priced(heads) && i < |slots|
    ensures 1 <= slots[i].amount <= heads[i].price
    ensures i < |slots| - 1 ==> slots[i].amount == heads[i].price
  {
    if i < |slots| - 1 {
      assert PriceSum(heads[..i + 1]) < maximum;
      assert heads[..i + 1][..i] == heads[..i];
    }
  }

  lemma MemberCouponSlotsFit(b: Booking)
    ensures SlotsFit(MemberCouponSlots(b), Heads(b), Clamp(b.maximum))
  {
    HeadsArePriced(b);
    SlotsAreCut(Heads(b), Clamp(b.maximum));
    SlotsSum(Heads(b), Clamp(b.maximum));
    forall i | 0 <= i < |MemberCouponSlots(b)|
      ensures var s, h := MemberCouponSlots(b)[i], Heads(b)[i];
              1 <= s.amount <= h.price && (i < |MemberCouponSlots(b)| - 1 ==> s.amount == h.price)
    {
      CutSlotFits(MemberCouponSlots(b), Heads(b), Clamp(b.maximum), i);
    }
  }

  lemma HeadsSoFar(groups: seq<Group>, k: nat, index: nat)
    requires |groups| == 2 && k < 2 && index <= |HeadsOf(groups[k])|
    ensures var heads := HeadsUpTo(groups, k) + HeadsOf(groups[k])[..index];
            |heads| <= |HeadsUpTo(groups, 2)| && HeadsUpTo(groups, 2)[..|heads|] == heads
  {
  }

  // What the loops have after the heads `heads`.
  predicate Filled(slots: seq<Slot>, remaining: nat, heads: seq<Head>, maximum: nat) {
    slots == Slots(heads, maximum) && remaining == maximum - Min(maximum, PriceSum(heads))
  }

  // One turn of the inner loop.
  lemma FilledOneMore(slots: seq<Slot>, remaining: nat, heads: seq<Head>, h: Head, maximum: nat)
    requires Filled(slots, remaining, heads, maximum) && remaining >= 1
    ensures Filled(slots + [SlotOf(h, remaining)], remaining - Min(h.price, remaining), heads + [h], maximum)
  {
  }

  // The early return.
  lemma FilledEarly(slots: seq<Slot>, b: Booking, k: nat, index: nat)
    requires k < 2 && index <= |HeadsOf(Groups(b)[k])|
    requires Filled(slots, 0, HeadsUpTo(Groups(b), k) + HeadsOf(Groups(b)[k])[..index], Clamp(b.maximum))
    ensures slots == MemberCouponSlots(b)
  {
    var heads := HeadsUpTo(Groups(b), k) + HeadsOf(Groups(b)[k])[..index];
    HeadsSoFar(Groups(b), k, index);
    SlotsStop(Heads(b), |heads|, Clamp(b.maximum));
  }

  lemma GroupDone(groups: seq<Group>, k: nat, heads: seq<Head>)
    requires k < |groups| && heads == HeadsUpTo(groups, k) + HeadsOf(groups[k])[..|HeadsOf(groups[k])|]
    ensures heads == HeadsUpTo(groups, k + 1)
  {
  }

  // The inner loop: slots for one group, until the maximum is spent.
  method FillGroup(g: Group, given: seq<Slot>, left: nat, ghost before: seq<Head>, ghost maximum: nat)
    returns (slots: seq<Slot>, remaining: nat, spent: bool, index: nat)
    requires g.price >= 1 && Filled(given, left, before, maximum)
    ensures index <= g.count && Filled(slots, remaining, before + HeadsOf(g)[..index], maximum)
    ensures if spent then remaining == 0 else index == g.count
  {
    slots, remaining := given, left;
    ghost var heads := before;
    var i := 0;
    while i < g.count
      invariant 0 <= i <= g.count
      invariant heads == before + HeadsOf(g)[..i]
      invariant Filled(slots, remaining, heads, maximum)
    {
      if remaining < 1 {
        return slots, remaining, true, i;
      }
      FilledOneMore(slots, remaining, heads, HeadsOf(g)[i], maximum);
      slots := slots + [Slot(g.participantType, i + 1, Min(g.price, remaining))];
      remaining := remaining - Min(g.price, remaining);
      heads := heads + [HeadsOf(g)[i]];
      i := i + 1;
    }
    spent, index := false, i;
  }

  method BuildMemberCouponSlots(b: Booking) returns (slots: seq<Slot>)
    ensures slots == MemberCouponSlots(b)
  {
    var groups := Groups(b);
    var remaining: nat := Clamp(b.maximum);
    slots := [];
    var k := 0;
    while k < |groups|
      invariant 0 <= k <= |groups|
      invariant Filled(slots, remaining, HeadsUpTo(groups, k), Clamp(b.maximum))
    {
      if groups[k].price >= 1 {
        var spent, index;
        slots, remaining, spent, index :=
          FillGroup(groups[k], slots, remaining, HeadsUpTo(groups, k), Clamp(b.maximum));
        if spent {
          FilledEarly(slots, b, k, index);
          return;
        }
        GroupDone(groups, k, HeadsUpTo(groups, k) + HeadsOf(groups[k])[..index]);
      } else {
        assert HeadsUpTo(groups, k + 1) == HeadsUpTo(groups, k);
      }
      k := k + 1;
    }
  }

  // ----- Handing the slots out -----

  type CouponId = string

  datatype Allocation = Allocation(couponId: CouponId, slot: Slot)

  datatype Answer = Allocated(allocations: seq<Allocation>) | Required | DuplicateInPlan | ParticipantLimit

  function IdSet(ids: seq<CouponId>): set<CouponId> {
    set id | id in ids
  }

  function AllocateMemberCoupons(ids: seq<CouponId>, b: Booking): Answer {
    if "" in ids then Required
    else if |IdSet(ids)| != |ids| then DuplicateInPlan
    else
      var slots := MemberCouponSlots(b);
      if |ids| > |slots| then ParticipantLimit
      else Allocated(seq(|ids|, i requires 0 <= i < |ids| && |ids| <= |slots| => Allocation(ids[i], slots[i])))
  }

  predicate Distinct(ids: seq<CouponId>) {
    forall i, j | 0 <= i < j < |ids| :: ids[i] != ids[j]
  }

  lemma IdSetAppend(ids: seq<CouponId>, id: CouponId)
    ensures IdSet(ids + [id]) == IdSet(ids) + {id}
    ensures |IdSet(ids + [id])| == |IdSet(ids)| + if id in ids then 0 else 1
    ensures Distinct(ids + [id]) <==> Distinct(ids) && id !in ids
  {
    var more := ids + [id];
    assert IdSet(more) == IdSet(ids) + {id};
    if id in ids {
      assert IdSet(more) == IdSet(ids);
      var i :| 0 <= i < |ids| && ids[i] == id;
      assert more[i] == more[|ids|];
    }
    if Distinct(more) {
      forall i, j | 0 <= i < j < |ids| ensures ids[i] != ids[j] {
        assert more[i] != more[j];
      }
    }
  }

  lemma {:induction false} SetSizeMeansDistinct(ids: seq<CouponId>)
    ensures |IdSet(ids)| <= |ids|
    ensures |IdSet(ids)| == |ids| <==> Distinct(ids)
  {
    if ids == [] {
      assert IdSet(ids) == {};
    } else {
      var n := |ids| - 1;
      SetSizeMeansDistinct(ids[..n]);
      IdSetAppend(ids[..n], ids[n]);
      assert ids == ids[..n] + [ids[n]];
    }
  }

  /** Coupons are handed out if and only if every one is named, none twice, and
      there is a slot for each; then coupon i covers participant i. */
  lemma AllocatedExactlyWhen(ids: seq<CouponId>, b: Booking)
    ensures AllocateMemberCoupons(ids, b).Allocated? <==>
            "" !in ids && Distinct(ids) && |ids| <= |MemberCouponSlots(b)|
    ensures AllocateMemberCoupons(ids, b).DuplicateInPlan? <==> "" !in ids && !Distinct(ids)
    ensures AllocateMemberCoupons(ids, b).Allocated? ==>
              var given := AllocateMemberCoupons(ids, b).allocations;
              && |given| == |ids| <= |Heads(b)|
              && (forall i | 0 <= i < |given| ::
                    && given[i].couponId == ids[i]
                    && given[i].slot.participantType == Heads(b)[i].participantType
                    && given[i].slot.participantOrdinal == Heads(b)[i].ordinal
                    && 1 <= given[i].slot.amount <= Heads(b)[i].price)
  {
    SetSizeMeansDistinct(ids);
    MemberCouponSlotsFit(b);
  }

  // ----- The fit check -----

  function Amounts(slots: seq<Slot>): (r: seq<int>)
    ensures |r| == |slots| && forall i | 0 <= i < |r| :: r[i] == slots[i].amount
  {
    seq(|slots|, i requires 0 <= i < |slots| => slots[i].amount)
  }

  function Clamped(amounts: seq<int>): (r: seq<int>)
    ensures |r| == |amounts| && forall i | 0 <= i < |r| :: r[i] == Clamp(amounts[i])
  {
    seq(|amounts|, i requires 0 <= i < |amounts| => Clamp(amounts[i]))
  }

  function Without<T>(s: seq<T>, i: nat): seq<T>
    requires i < |s|
  {
    s[..i] + s[i + 1..]
  }

  lemma WithoutOne<T>(s: seq<T>, i: nat)
    requires i < |s|
    ensures multiset(s) == multiset(Without(s, i)) + multiset{s[i]}
  {
    assert s == s[..i] + [s[i]] + s[i + 1..];
  }

  lemma WithoutSlot(slots: seq<Slot>, i: nat)
    requires i < |slots|
    ensures Amounts(Without(slots, i)) == Without(Amounts(slots), i)
    ensures multiset(Amounts(slots)) == multiset(Amounts(Without(slots, i))) + multiset{slots[i].amount}
  {
    WithoutOne(Amounts(slots), i);
  }

  method FindIndex(slots: seq<Slot>, amount: nat) returns (index: int)
    ensures index == -1 ==> amount !in Amounts(slots)
    ensures index != -1 ==> 0 <= index < |slots| && slots[index].amount == amount
                            && amount !in Amounts(slots)[..index]
  {
    index := 0;
    while index < |slots|
      invariant 0 <= index <= |slots|
      invariant amount !in Amounts(slots)[..index]
    {
      if slots[index].amount == amount {
        return;
      }
      index := index + 1;
    }
    assert Amounts(slots)[..|slots|] == Amounts(slots);
    index := -1;
  }

  /** The check accepts exactly the lists of amounts that are a sub-multiset of the
      slot amounts, in whatever order they come. */
  method MemberCouponAmountsFitParticipantSlots(couponAmounts: seq<int>, b: Booking) returns (fits: bool)
    ensures fits <==> multiset(Clamped(couponAmounts)) <= multiset(Amounts(MemberCouponSlots(b)))
  {
    var remaining := BuildMemberCouponSlots(b);
    ghost var all, clamped := Amounts(remaining), Clamped(couponAmounts);
    var i := 0;
    while i < |couponAmounts|
      invariant 0 <= i <= |couponAmounts|
      invariant multiset(all) == multiset(Amounts(remaining)) + multiset(clamped[..i])
    {
      var amount := Clamp(couponAmounts[i]);
      var index := FindIndex(remaining, amount);
      assert clamped[..i + 1] == clamped[..i] + [amount];
      if index < 0 {
        NoRoom(multiset(clamped[..i]), multiset(Amounts(remaining)), amount);
        PrefixWithin(clamped, i + 1);
        return false;
      }
      SlotTaken(all, remaining, clamped, i, index);
      remaining := Without(remaining, index);
      i := i + 1;
    }
    assert clamped[..i] == clamped;
    fits := true;
  }

  // Taking a slot of the next amount out keeps the balance.
  lemma SlotTaken(all: seq<int>, remaining: seq<Slot>, clamped: seq<int>, i: nat, index: nat)
    requires i < |clamped| && index < |remaining| && remaining[index].amount == clamped[i]
    requires multiset(all) == multiset(Amounts(remaining)) + multiset(clamped[..i])
    ensures multiset(all) == multiset(Amounts(Without(remaining, index))) + multiset(clamped[..i + 1])
  {
    WithoutSlot(remaining, index);
    assert clamped[..i + 1] == clamped[..i] + [clamped[i]];
  }

  lemma NoRoom(taken: multiset<int>, left: multiset<int>, amount: int)
    requires amount !in left
    ensures !(taken + multiset{amount} <= left + taken)
  {
    assert (taken + multiset{amount})[amount] > (left + taken)[amount];
  }

  lemma PrefixWithin(s: seq<int>, n: nat)
    requires n <= |s|
    ensures multiset(s[..n]) <= multiset(s)
  {
    assert s == s[..n] + s[n..];
  }

  function Sum(s: seq<int>): int {
    if s == [] then 0 else Sum(s[..|s| - 1]) + s[|s| - 1]
  }

  lemma {:induction false} SumWithout(s: seq<int>, i: nat)
    requires i < |s|
    ensures Sum(s) == Sum(Without(s, i)) + s[i]
    decreases |s|
  {
    var n := |s| - 1;
    if i < n {
      SumWithout(s[..n], i);
      assert Without(s, i)[..n - 1] == Without(s[..n], i);
    } else {
      assert Without(s, i) == s[..n];
    }
  }

  lemma {:induction false} SumIsPositive(s: seq<int>)
    requires forall i | 0 <= i < |s| :: s[i] >= 0
    ensures Sum(s) >= 0
  {
    if s != [] {
      SumIsPositive(s[..|s| - 1]);
    }
  }

  lemma Cancel(a: multiset<int>, b: multiset<int>, m: multiset<int>)
    requires a + m <= b + m
    ensures a <= b
  {
    forall x ensures a[x] <= b[x] {
      assert (a + m)[x] <= (b + m)[x];
    }
  }

  lemma {:induction false} SubMultisetSumsToLess(s: seq<int>, t: seq<int>)
    requires (forall i | 0 <= i < |t| :: t[i] >= 0) && multiset(s) <= multiset(t)
    ensures Sum(s) <= Sum(t)
    decreases |s|
  {
    if s == [] {
      SumIsPositive(t);
    } else {
      var n := |s| - 1;
      assert s == s[..n] + [s[n]];
      assert s[n] in multiset(s);
      assert s[n] in t;
      var i :| 0 <= i < |t| && t[i] == s[n];
      WithoutOne(t, i);
      assert multiset(s) == multiset(s[..n]) + multiset{s[n]};
      Cancel(multiset(s[..n]), multiset(Without(t, i)), multiset{s[n]});
      SubMultisetSumsToLess(s[..n], Without(t, i));
      SumWithout(t, i);
    }
  }

  lemma {:induction false} AmountsSum(slots: seq<Slot>)
    ensures Sum(Amounts(slots)) == AmountSum(slots)
  {
    if slots != [] {
      AmountsSum(slots[..|slots| - 1]);
      assert Amounts(slots)[..|slots| - 1] == Amounts(slots[..|slots| - 1]);
    }
  }

  /** Amounts the check accepts are each worth something and together never exceed
      the maximum nor the participants' total price. */
  lemma AcceptedAmountsAreBounded(couponAmounts: seq<int>, b: Booking)
    requires multiset(Clamped(couponAmounts)) <= multiset(Amounts(MemberCouponSlots(b)))
    ensures forall i | 0 <= i < |couponAmounts| :: couponAmounts[i] >= 1
    ensures Sum(Clamped(couponAmounts)) <= Min(Clamp(b.maximum), PriceSum(Heads(b)))
  {
    var slots, clamped := MemberCouponSlots(b), Clamped(couponAmounts);
    MemberCouponSlotsFit(b);
    SubMultisetSumsToLess(clamped, Amounts(slots));
    AmountsSum(slots);
    forall i | 0 <= i < |couponAmounts| ensures couponAmounts[i] >= 1 {
      assert clamped[i] in multiset(clamped);
      assert clamped[i] in Amounts(slots);
    }
  }

  function AllocatedAmounts(given: seq<Allocation>): (r: seq<int>)
    ensures |r| == |given| && forall i | 0 <= i < |r| :: r[i] == given[i].slot.amount
  {
    seq(|given|, i requires 0 <= i < |given| => given[i].slot.amount)
  }

  /** Whatever the allocator hands out passes the check, in any order. */
  lemma AllocationPassesCheck(ids: seq<CouponId>, b: Booking, amounts: seq<int>)
    requires AllocateMemberCoupons(ids, b).Allocated?
    requires multiset(amounts) == multiset(AllocatedAmounts(AllocateMemberCoupons(ids, b).allocations))
    ensures multiset(Clamped(amounts)) <= multiset(Amounts(MemberCouponSlots(b)))
  {
    var given := AllocatedAmounts(AllocateMemberCoupons(ids, b).allocations);
    MemberCouponSlotsFit(b);
    forall i | 0 <= i < |amounts| ensures amounts[i] >= 1 {
      assert amounts[i] in multiset(amounts);
      assert amounts[i] in given;
    }
    assert Clamped(amounts) == amounts;
    assert given == Amounts(MemberCouponSlots(b))[..|given|];
    PrefixWithin(Amounts(MemberCouponSlots(b)), |given|);
  }
}
