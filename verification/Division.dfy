/**
 Division by repeated subtraction. Equal to the built-in operators, but a recursive
 definition keeps non-linear arithmetic out of the proofs that only compare quotients.
 */
module Division {

  function Quotient(a: nat, n: nat): (q: nat)
    requires n > 0
  {
    if a < n then 0 else 1 + Quotient(a - n, n)
  }

  function Remainder(a: nat, n: nat): (r: nat)
    requires n > 0
    ensures r < n
  {
    if a < n then a else Remainder(a - n, n)
  }

  /** The position of turn `a` in a cycle of length `n`; Python's `a % n`, also for negative `a`. */
  function Phase(a: int, n: nat): (r: nat)
    requires n > 0
    ensures r < n
    decreases if a < 0 then n - a else a
  {
    if a < 0 then Phase(a + n, n) else if a < n then a else Phase(a - n, n)
  }

  lemma {:induction false} QuotientExact(a: nat, n: nat)
    requires n > 0
    ensures n * Quotient(a, n) + Remainder(a, n) == a
  {
    if a >= n {
      QuotientExact(a - n, n);
      assert n * Quotient(a, n) == n * Quotient(a - n, n) + n;
    }
  }

  lemma {:induction false} DivisionUnique(n: int, q: int, r: int, q': int, r': int)
    requires n > 0 && 0 <= r < n && 0 <= r' < n
    requires n * q + r == n * q' + r'
    ensures q == q' && r == r'
  {
    if q < q' {
      Step(n, q, q');
    } else if q' < q {
      Step(n, q', q);
    }
  }

  lemma Step(n: int, small: int, large: int)
    requires n > 0 && small < large
    ensures n * small + n <= n * large
  {
    assert n * (small + 1) <= n * large;
  }

  lemma BuiltinQuotient(a: nat, n: nat)
    requires n > 0
    ensures Quotient(a, n) == a / n && Remainder(a, n) == a % n
  {
    QuotientExact(a, n);
    DivisionUnique(n, Quotient(a, n), Remainder(a, n), a / n, a % n);
  }

  /** Python's `divmod` on non-negative operands. */
  method DivMod(a: nat, n: nat) returns (q: nat, r: nat)
    requires n > 0
    ensures q == Quotient(a, n) && r == Remainder(a, n)
  {
    BuiltinQuotient(a, n);
    q, r := a / n, a % n;
  }

  lemma {:induction false} PhaseExact(a: int, n: nat) returns (q: int)
    requires n > 0
    ensures n * q + Phase(a, n) == a
    decreases if a < 0 then n - a else a
  {
    if a < 0 {
      q := PhaseExact(a + n, n);
      q := q - 1;
    } else if a < n {
      q := 0;
    } else {
      q := PhaseExact(a - n, n);
      q := q + 1;
    }
  }

  lemma BuiltinPhase(a: int, n: nat)
    requires n > 0
    ensures Phase(a, n) == a % n
  {
    var q := PhaseExact(a, n);
    DivisionUnique(n, q, Phase(a, n), a / n, a % n);
  }

  lemma PhasePeriod(a: int, n: nat)
    requires n > 0
    ensures Phase(a + n, n) == Phase(a, n)
  {
  }

  lemma {:induction false} QuotientMonotone(a: nat, b: nat, n: nat)
    requires n > 0 && a <= b
    ensures Quotient(a, n) <= Quotient(b, n)
    ensures Quotient(a, n) == Quotient(b, n) ==> Remainder(a, n) <= Remainder(b, n)
  {
    if a >= n {
      QuotientMonotone(a - n, b - n, n);
    }
  }

  lemma {:induction false} QuotientAtLeast(a: nat, n: nat, q: nat)
    requires n > 0 && n * q <= a
    ensures Quotient(a, n) >= q
  {
    if q > 0 {
      assert n * q == n * (q - 1) + n;
      assert n * (q - 1) >= 0;
      QuotientAtLeast(a - n, n, q - 1);
    }
  }

  /** Taking at most one share out of n never lowers the share of the other n - 1. */
  lemma ShareTaken(taken: int, a: nat, n: nat)
    requires n > 0 && taken <= Quotient(a, n)
    ensures taken <= a
    ensures n > 1 ==> Quotient(a - taken, n - 1) >= Quotient(a, n)
  {
    var q := Quotient(a, n);
    QuotientExact(a, n);
    assert q <= n * q;
    if n > 1 {
      assert (n - 1) * q == n * q - q;
      QuotientAtLeast(a - taken, n - 1, q);
    }
  }
}
