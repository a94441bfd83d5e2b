/** Facts about integers that several modules need. */
module Numbers {

  function Min(a: int, b: int): int { if a <= b then a else b }

  function Max(a: int, b: int): int { if a >= b then a else b }

  lemma Scale(n: nat, a: int, b: int)
    requires a <= b
    ensures n * a <= n * b && a * n <= b * n
  {
  }
}
