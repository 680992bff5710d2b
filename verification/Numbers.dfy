// Amounts of money and counts, and the few facts about products that the
// rounding proofs need.

module Numbers {

  function Min(a: int, b: int): int { if a <= b then a else b }

  function Max(a: int, b: int): int { if a >= b then a else b }

  // Amounts and counts from outside: a negative one counts as nothing.
  function Clamp(a: int): nat { if a < 0 then 0 else a }

  lemma LessFromProducts(a: int, b: int, t: nat)
    requires a * t < b * t
    ensures a < b
  {
  }

  lemma ProductOrder(a: int, b: int, t: nat)
    requires a <= b
    ensures a * t <= b * t
  {
  }

  lemma Distribute(p: int, q: int, s: int, t: int)
    ensures (p + q + s) * t == p * t + q * t + s * t
  {
  }

  lemma DistributeLeft(r: int, a: int, b: int, c: int)
    ensures r * (a + b + c) == r * a + r * b + r * c
  {
  }

  lemma FloorBounds(p: nat, t: nat)
    requires t > 0
    ensures p / t * t <= p < p / t * t + t
    ensures p / t >= 0
  {
  }
}
