// Splitting a recognised add-on amount over the physical payment methods in
// proportion to what each paid; the last method used takes the rest.
//
// The recognised amount is at most what was paid in all. A method that is not the
// last gets its proportion rounded down, so the last may get almost 2 more than its
// own. The laws are about the closed form `Allocation`, the loop is proved equal to
// it, and the one case in which the last method gets more than it paid is exact.

module AddOnAllocation {
  import opened Numbers

  datatype Amounts = Amounts(card: int, cash: int, account: int)
  {
    function Total(): int { card + cash + account }
  }

  datatype Method = Card | Cash | Account

  const METHODS: seq<Method> := [Card, Cash, Account]

  function Of(a: Amounts, m: Method): int {
    match m
    case Card => a.card
    case Cash => a.cash
    case Account => a.account
  }

  function With(a: Amounts, m: Method, value: int): Amounts {
    match m
    case Card => a.(card := value)
    case Cash => a.(cash := value)
    case Account => a.(account := value)
  }

  function Safe(paid: Amounts): Amounts {
    Amounts(Clamp(paid.card), Clamp(paid.cash), Clamp(paid.account))
  }

  function Recognised(addOn: int, paid: Amounts): nat {
    var total := Safe(paid).Total();
    Min(Clamp(addOn), total)
  }

  predicate Used(paid: Amounts, m: Method) { Of(Safe(paid), m) > 0 }

  // The last method that paid anything, in the order card, cash, account.
  function LastOf(values: Amounts): Method {
    if values.account > 0 then Account else if values.cash > 0 then Cash else Card
  }

  function RoundedPart(recognised: int, values: Amounts, m: Method): int {
    recognised * Of(values, m) / (if values.Total() > 1 then values.Total() else 1)
  }

  function Share(addOn: int, paid: Amounts, m: Method): int {
    if Safe(paid).Total() == 0 then 0 else RoundedPart(Recognised(addOn, paid), Safe(paid), m)
  }

  // ----- Rounding -----

  // A quotient of r * v by t, when r <= t, never exceeds `v`, and is all of it
  // when r == t.
  lemma QuotientWithin(q: int, r: nat, v: nat, t: nat)
    requires q * t <= r * v < q * t + t && r <= t
    ensures q <= v
    ensures r == t ==> q == v
  {
    ProductOrder(r, t, v);
    Distribute(v, 1, 0, t);
    LessFromProducts(q, v + 1, t);
    if r == t {
      Distribute(q, 1, 0, t);
      LessFromProducts(v, q + 1, t);
    }
  }

  // The rest after two rounded-down parts is less than 2 above its exact share,
  // and never negative.
  lemma RestWithin(x: int, y: int, r: nat, a: nat, b: nat, c: nat, t: nat)
    requires x * t <= r * a < x * t + t && y * t <= r * b < y * t + t
    requires r <= t && a + b + c == t
    ensures r * c <= (r - x - y) * t < r * c + 2 * t
    ensures 0 <= r - x - y <= c + 1
  {
    var rest := r - x - y;
    DistributeLeft(r, a, b, c);
    Distribute(r, -x, -y, t);
    RestIsSmall(rest, r, c, t, 2);
  }

  // With one part the rest stays within what was paid.
  lemma RestWithinOne(x: int, r: nat, a: nat, c: nat, t: nat)
    requires x * t <= r * a < x * t + t && r <= t && a + c == t
    ensures r * c <= (r - x) * t < r * c + t
    ensures 0 <= r - x <= c
  {
    DistributeLeft(r, a, c, 0);
    Distribute(r, -x, 0, t);
    RestIsSmall(r - x, r, c, t, 1);
  }

  lemma RestIsSmall(rest: int, r: nat, c: nat, t: nat, slack: nat)
    requires r <= t && t > 0 && r * c <= rest * t < r * c + slack * t && slack > 0
    ensures 0 <= rest < c + slack
  {
  }

  // ----- The allocation -----

  // The allocation, from the rounded-down parts of the methods before the last.
  function Placed(values: Amounts, recognised: int, parts: Amounts): Amounts {
    var x := if values.card > 0 then parts.card else 0;
    var y := if values.cash > 0 then parts.cash else 0;
    if values.account > 0 then Amounts(x, y, recognised - x - y)
    else if values.cash > 0 then Amounts(x, recognised - x, 0)
    else Amounts(recognised, 0, 0)
  }

  function Parts(addOn: int, paid: Amounts): Amounts {
    Amounts(Share(addOn, paid, Card), Share(addOn, paid, Cash), Share(addOn, paid, Account))
  }

  function Allocation(addOn: int, paid: Amounts): Amounts {
    if Safe(paid).Total() == 0 then Amounts(0, 0, 0)
    else Placed(Safe(paid), Recognised(addOn, paid), Parts(addOn, paid))
  }

  // `x` is the rounded-down proportional part of method m.
  predicate IsPart(x: int, addOn: int, paid: Amounts, m: Method) {
    var p, t := Recognised(addOn, paid) * Of(Safe(paid), m), Safe(paid).Total();
    0 <= x && x * t <= p < x * t + t
  }

  lemma ShareIsPart(addOn: int, paid: Amounts, m: Method)
    requires Safe(paid).Total() > 0
    ensures IsPart(Share(addOn, paid, m), addOn, paid, m)
  {
    FloorBounds(Recognised(addOn, paid) * Of(Safe(paid), m), Safe(paid).Total());
  }

  /** The split adds up to the recognised amount: the smaller of the add-on
      amount and the physical total. */
  lemma SplitAddsUp(addOn: int, paid: Amounts)
    ensures Allocation(addOn, paid).Total() == Recognised(addOn, paid)
  {
    if Safe(paid).Total() > 0 {
      var parts := Parts(addOn, paid);
      assert Allocation(addOn, paid) == Placed(Safe(paid), Recognised(addOn, paid), parts);
      PlacedAddsUp(Safe(paid), Recognised(addOn, paid), parts);
    } else {
      assert Recognised(addOn, paid) == 0;
    }
  }

  lemma PlacedAddsUp(values: Amounts, recognised: int, parts: Amounts)
    ensures Placed(values, recognised, parts).Total() == recognised
  {
  }

  /** Every method but the last takes at most what it paid, and less than 1 below
      its exact proportion. */
  lemma {:induction false} OtherShareLaw(addOn: int, paid: Amounts, m: Method)
    requires Safe(paid).Total() > 0 && m != LastOf(Safe(paid))
    ensures var x := Of(Allocation(addOn, paid), m);
            IsPart(x, addOn, paid, m) && x <= Of(Safe(paid), m)
  {
    ShareIsPart(addOn, paid, m);
    var x := Of(Allocation(addOn, paid), m);
    if Used(paid, m) {
      assert x == Share(addOn, paid, m);
    } else {
      assert x == 0 && Of(Safe(paid), m) == 0;
    }
    QuotientWithin(x, Recognised(addOn, paid), Of(Safe(paid), m), Safe(paid).Total());
  }

  // `x` is what the last method used takes: less than 2 above its proportion r * v / t.
  predicate IsLastPart(x: int, r: int, s: Amounts, v: int, t: int) {
    && 0 <= x <= v + 1
    && r * v <= x * t < r * v + 2 * t
    && (s.card == 0 || s.cash == 0 || s.account == 0 ==> x <= v)
  }

  lemma LastOfThree(x: int, y: int, r: nat, s: Amounts, t: nat)
    requires s.card > 0 && s.cash > 0 && s.account > 0 && t == s.Total() && r <= t
    requires x * t <= r * s.card < x * t + t && y * t <= r * s.cash < y * t + t
    ensures IsLastPart(r - x - y, r, s, s.account, t)
  {
    RestWithin(x, y, r, s.card, s.cash, s.account, t);
  }

  lemma LastOfTwo(x: int, r: nat, s: Amounts, a: nat, c: nat, t: nat)
    requires x * t <= r * a < x * t + t && r <= t && a + c == t
    ensures IsLastPart(r - x, r, s, c, t)
  {
    RestWithinOne(x, r, a, c, t);
  }

  lemma LastOfOne(r: nat, s: Amounts, t: nat)
    requires r <= t && t > 0
    ensures IsLastPart(r, r, s, t, t)
  {
  }

  lemma LastPlaced(s: Amounts, r: nat, parts: Amounts, t: nat)
    requires s.card >= 0 && s.cash >= 0 && s.account >= 0 && t == s.Total() && r <= t && t > 0
    requires parts.card * t <= r * s.card < parts.card * t + t
    requires parts.cash * t <= r * s.cash < parts.cash * t + t
    ensures IsLastPart(Of(Placed(s, r, parts), LastOf(s)), r, s, Of(s, LastOf(s)), t)
  {
    var x, y := parts.card, parts.cash;
    if s.card > 0 && s.cash > 0 && s.account > 0 {
      LastOfThree(x, y, r, s, t);
    } else if s.card > 0 && (s.cash > 0 || s.account > 0) {
      LastOfTwo(x, r, s, s.card, s.cash + s.account, t);
    } else if s.cash > 0 && s.account > 0 {
      LastOfTwo(y, r, s, s.cash, s.account, t);
    } else {
      LastOfOne(r, s, t);
    }
  }

  /** The last method is less than 2 above its exact proportion and exceeds what
      it paid by at most 1, never when at most two methods were used. */
  lemma {:induction false} LastShareLaw(addOn: int, paid: Amounts)
    requires Safe(paid).Total() > 0
    ensures IsLastPart(Of(Allocation(addOn, paid), LastOf(Safe(paid))), Recognised(addOn, paid), Safe(paid),
                       Of(Safe(paid), LastOf(Safe(paid))), Safe(paid).Total())
  {
    var s, parts := Safe(paid), Parts(addOn, paid);
    ShareIsPart(addOn, paid, Card);
    ShareIsPart(addOn, paid, Cash);
    assert Allocation(addOn, paid) == Placed(s, Recognised(addOn, paid), parts);
    LastPlaced(s, Recognised(addOn, paid), parts, s.Total());
  }

  // ----- Exactly when the last method is charged more than it paid -----

  function Ceil(p: nat, t: nat): nat
    requires t > 0
  {
    (p + t - 1) / t
  }

  lemma CeilBounds(p: nat, t: nat)
    requires t > 0
    ensures p <= Ceil(p, t) * t < p + t && Ceil(p, t) >= 0
  {
  }

  // Rounding a share down is rounding its shortfall up.
  lemma FloorIsShortCeil(q: int, c: int, d: nat, a: nat, t: nat)
    requires d <= t && q * t <= (t - d) * a < q * t + t && d * a <= c * t < d * a + t
    ensures q == a - c
  {
    assert (t - d) * a == t * a - d * a;
    Distribute(a, -c, 0, t);
    Distribute(q, 1, 0, t);
    LessFromProducts(a - c, q + 1, t);
    Distribute(a, -c, 1, t);
    LessFromProducts(q, a - c + 1, t);
  }

  // The part of the physical total that is not recognised as add-on.
  function Shortfall(addOn: int, paid: Amounts): nat {
    Safe(paid).Total() - Recognised(addOn, paid)
  }

  /** The last of three methods is charged more than it paid if and only if
      rounding the first two methods' parts of the shortfall up takes more than
      the whole shortfall. */
  lemma {:induction false} LastIsOverchargedExactlyWhen(addOn: int, paid: Amounts)
    requires paid.card > 0 && paid.cash > 0 && paid.account > 0
    ensures Allocation(addOn, paid).account > paid.account <==>
            Ceil(Shortfall(addOn, paid) * paid.card, paid.Total())
            + Ceil(Shortfall(addOn, paid) * paid.cash, paid.Total()) > Shortfall(addOn, paid)
  {
    var d, t := Shortfall(addOn, paid), paid.Total();
    ShareIsPart(addOn, paid, Card);
    ShareIsPart(addOn, paid, Cash);
    CeilBounds(d * paid.card, t);
    CeilBounds(d * paid.cash, t);
    FloorIsShortCeil(Share(addOn, paid, Card), Ceil(d * paid.card, t), d, paid.card, t);
    FloorIsShortCeil(Share(addOn, paid, Cash), Ceil(d * paid.cash, t), d, paid.cash, t);
  }

  /** It does happen: three payments of 1 and an add-on of 2 charge the account 2. */
  lemma OverchargeExample()
    ensures Allocation(2, Amounts(1, 1, 1)) == Amounts(0, 0, 2)
  {
  }

  // ----- The loop -----

  // The methods that paid anything, in order.
  function UsedMethods(values: Amounts): seq<Method> {
    (if values.card > 0 then [Card] else []) + (if values.cash > 0 then [Cash] else [])
    + (if values.account > 0 then [Account] else [])
  }

  // What the loop has handed to methods 0, ..., i - 1.
  function Handed(methods: seq<Method>, recognised: int, parts: Amounts, i: nat): Amounts
    requires i <= |methods|
  {
    if i == 0 then Amounts(0, 0, 0)
    else
      var before := Handed(methods, recognised, parts, i - 1);
      var value := if i == |methods| then recognised - before.Total() else Of(parts, methods[i - 1]);
      With(before, methods[i - 1], Max(0, value))
  }

  lemma HandedToOne(recognised: nat, parts: Amounts, methods: seq<Method>)
    requires |methods| == 1
    ensures Handed(methods, recognised, parts, 1) == With(Amounts(0, 0, 0), methods[0], recognised)
  {
    var before := Handed(methods, recognised, parts, 0);
    assert before == Amounts(0, 0, 0) && before.Total() == 0;
  }

  lemma HandedToTwo(recognised: nat, parts: Amounts, a: Method, b: Method)
    requires a != b && 0 <= Of(parts, a) <= recognised
    ensures Handed([a, b], recognised, parts, 2)
            == With(With(Amounts(0, 0, 0), a, Of(parts, a)), b, recognised - Of(parts, a))
  {
    assert Handed([a, b], recognised, parts, 0) == Amounts(0, 0, 0);
    assert Handed([a, b], recognised, parts, 1) == With(Amounts(0, 0, 0), a, Of(parts, a));
  }

  lemma HandedToThree(recognised: nat, parts: Amounts)
    requires 0 <= parts.card && 0 <= parts.cash && parts.card + parts.cash <= recognised
    ensures Handed(METHODS, recognised, parts, 3)
            == Amounts(parts.card, parts.cash, recognised - parts.card - parts.cash)
  {
    assert Handed(METHODS, recognised, parts, 0) == Amounts(0, 0, 0);
    assert Handed(METHODS, recognised, parts, 1) == Amounts(parts.card, 0, 0);
    assert Handed(METHODS, recognised, parts, 2) == Amounts(parts.card, parts.cash, 0);
  }

  lemma HandedIsPlaced(values: Amounts, recognised: nat, parts: Amounts)
    requires values.card > 0 || values.cash > 0 || values.account > 0
    requires 0 <= parts.card && 0 <= parts.cash && parts.card + parts.cash <= recognised
    ensures var methods := UsedMethods(values);
            Handed(methods, recognised, parts, |methods|) == Placed(values, recognised, parts)
  {
    var methods := UsedMethods(values);
    if |methods| == 3 {
      assert methods == METHODS;
      HandedToThree(recognised, parts);
    } else if |methods| == 2 {
      assert methods == [methods[0], methods[1]];
      HandedToTwo(recognised, parts, methods[0], methods[1]);
    } else {
      HandedToOne(recognised, parts, methods);
    }
  }

  lemma PartsFit(addOn: int, paid: Amounts)
    requires Safe(paid).Total() > 0
    ensures var p := Parts(addOn, paid);
            0 <= p.card && 0 <= p.cash && p.card + p.cash <= Recognised(addOn, paid)
  {
    var s := Safe(paid);
    ShareIsPart(addOn, paid, Card);
    ShareIsPart(addOn, paid, Cash);
    RestWithin(Share(addOn, paid, Card), Share(addOn, paid, Cash), Recognised(addOn, paid),
               s.card, s.cash, s.account, s.Total());
  }

  /** The loop's running sum computes the allocation. */
  lemma HandedIsAllocation(addOn: int, paid: Amounts)
    ensures var methods := UsedMethods(Safe(paid));
            Handed(methods, Recognised(addOn, paid), Parts(addOn, paid), |methods|) == Allocation(addOn, paid)
  {
    if Safe(paid).Total() > 0 {
      PartsFit(addOn, paid);
      HandedIsPlaced(Safe(paid), Recognised(addOn, paid), Parts(addOn, paid));
    }
  }

  predicate Distinct(methods: seq<Method>) {
    forall j, k | 0 <= j < k < |methods| :: methods[j] != methods[k]
  }

  // A method whose turn has not come has nothing yet.
  lemma {:induction false} NothingHandedYet(methods: seq<Method>, recognised: int, parts: Amounts, i: nat, k: nat)
    requires Distinct(methods) && i <= k < |methods|
    ensures Of(Handed(methods, recognised, parts, i), methods[k]) == 0
    decreases i
  {
    if i > 0 {
      NothingHandedYet(methods, recognised, parts, i - 1, k);
      assert methods[i - 1] != methods[k];
    }
  }

  lemma WithTotal(a: Amounts, m: Method, value: int)
    ensures With(a, m, value).Total() == a.Total() - Of(a, m) + value
  {
  }

  // One turn of the loop.
  lemma HandedTurn(methods: seq<Method>, recognised: int, parts: Amounts, i: nat, before: Amounts, value: int)
    requires Distinct(methods) && i < |methods| && before == Handed(methods, recognised, parts, i)
    requires value == if i == |methods| - 1 then recognised - before.Total() else Of(parts, methods[i])
    ensures Handed(methods, recognised, parts, i + 1) == With(before, methods[i], Max(0, value))
    ensures With(before, methods[i], Max(0, value)).Total() == before.Total() + Max(0, value)
  {
    NothingHandedYet(methods, recognised, parts, i, i);
    WithTotal(before, methods[i], Max(0, value));
  }

  // The parts, also where nothing was paid at all and the loop is empty.
  function Rounded(recognised: int, values: Amounts): Amounts {
    Amounts(RoundedPart(recognised, values, Card), RoundedPart(recognised, values, Cash),
            RoundedPart(recognised, values, Account))
  }

  // The loop over the methods that paid anything.
  method HandOut(methods: seq<Method>, recognised: int, values: Amounts) returns (allocation: Amounts)
    requires Distinct(methods)
    ensures allocation == Handed(methods, recognised, Rounded(recognised, values), |methods|)
  {
    allocation := Amounts(0, 0, 0);
    ghost var parts := Rounded(recognised, values);
    var given := 0;
    var i := 0;
    while i < |methods|
      invariant 0 <= i <= |methods|
      invariant given == allocation.card + allocation.cash + allocation.account
      invariant allocation == Handed(methods, recognised, parts, i)
    {
      var value := if i == |methods| - 1 then recognised - given else RoundedPart(recognised, values, methods[i]);
      HandedTurn(methods, recognised, parts, i, allocation, value);
      var part := Max(0, value);
      allocation := With(allocation, methods[i], part);
      given := given + part;
      i := i + 1;
    }
  }

  lemma RoundedIsParts(addOn: int, paid: Amounts)
    requires UsedMethods(Safe(paid)) != []
    ensures Rounded(Recognised(addOn, paid), Safe(paid)) == Parts(addOn, paid)
  {
  }

  lemma RoundedHanded(addOn: int, paid: Amounts, recognised: int, values: Amounts)
    requires recognised == Recognised(addOn, paid) && values == Safe(paid)
    ensures Handed(UsedMethods(values), recognised, Rounded(recognised, values), |UsedMethods(values)|)
            == Allocation(addOn, paid)
  {
    HandedIsAllocation(addOn, paid);
    if UsedMethods(values) != [] {
      RoundedIsParts(addOn, paid);
    }
  }

  method AllocateAddOnPaymentMethods(addOn: int, paid: Amounts) returns (allocation: Amounts)
    ensures allocation == Allocation(addOn, paid)
  {
    var recognised, values := Recognised(addOn, paid), Safe(paid);
    allocation := HandOut(UsedMethods(values), recognised, values);
    RoundedHanded(addOn, paid, recognised, values);
  }
}
