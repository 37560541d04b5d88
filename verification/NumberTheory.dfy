/** The arithmetic behind the Maglev permutations: a step that is not a multiple
    of a prime table size walks through every slot. */
module NumberTheory {

  ghost predicate IsPrime(m: nat)
  {
    m > 1 && forall d :: 1 < d < m ==> m % d != 0
  }

  // Euclid's lemma, by descent on a: m = s * a + r with 0 < r < a, and m divides r * b.
  lemma EuclidsLemma(m: nat, a: nat, b: int, k: int) returns (q: int)
    requires IsPrime(m) && 0 < a < m
    requires a * b == k * m
    ensures b == q * m
    decreases a
  {
    if a == 1 {
      q := k;
    } else {
      var s, r := m / a, m % a;
      assert m == s * a + r;
      calc {
        r * b;
        m * b - (s * a) * b;
        m * b - s * (a * b);
        m * b - s * (k * m);
        (b - s * k) * m;
      }
      q := EuclidsLemma(m, r, b, b - s * k);
    }
  }

  // A nonzero factor takes a multiple of m at least m away from zero.
  lemma MultipleIsFar(d: int, m: nat)
    ensures d >= 1 ==> d * m >= m
    ensures d <= -1 ==> d * m <= -(m as int)
  {
    if d >= 1 {
      assert d * m == m + (d - 1) * m;
    } else if d <= -1 {
      assert d * m == -(m as int) + (d + 1) * m;
    }
  }

  lemma SameRemainder(x: int, y: int, m: nat) returns (q: int)
    requires m > 0 && x % m == y % m
    ensures x - y == q * m
  {
    q := x / m - y / m;
    assert x == (x / m) * m + x % m && y == (y / m) * m + y % m;
    assert (x / m) * m - (y / m) * m == q * m;
  }

  lemma MultipleHasNoRemainder(q: int, m: nat)
    requires m > 0
    ensures (q * m) % m == 0
  {
    var d := (q * m) / m - q;
    assert q * m == ((q * m) / m) * m + (q * m) % m;
    assert d * m == ((q * m) / m) * m - q * m;
    MultipleIsFar(d, m);
  }

  /** Two different steps j < k of the walk h1, h1 + h2, h1 + 2 h2, ... modulo a
      prime meet in one slot only when h2 is a multiple of the prime. */
  lemma WalkIsInjective(h1: nat, h2: nat, m: nat, j: nat, k: nat)
    requires IsPrime(m) && h2 % m != 0
    requires j < k < m
    ensures (h1 + j * h2) % m != (h1 + k * h2) % m
  {
    if (h1 + j * h2) % m == (h1 + k * h2) % m {
      var q := SameRemainder(h1 + k * h2, h1 + j * h2, m);
      assert (k - j) * h2 == q * m by {
        assert (k - j) * h2 == k * h2 - j * h2;
      }
      var p := EuclidsLemma(m, k - j, h2, q);
      MultipleHasNoRemainder(p, m);
    }
  }

  // With no step at all the walk never leaves its first slot.
  lemma WalkStandsStill(h1: nat, h2: nat, m: nat, j: nat)
    requires m > 0 && h2 % m == 0
    ensures (h1 + j * h2) % m == h1 % m
  {
    var q := h2 / m;
    assert h2 == q * m;
    var x := h1 + j * h2;
    assert x == h1 + (j * q) * m;
    MultipleHasNoRemainder(j * q, m);
    AddMultiple(h1, j * q, m);
  }

  lemma AddMultiple(x: nat, q: int, m: nat)
    requires m > 0
    ensures (x + q * m) % m == x % m
  {
    var y := x + q * m;
    var d := y / m - x / m - q;
    assert y == (y / m) * m + y % m && x == (x / m) * m + x % m;
    assert d * m == (y / m) * m - (x / m) * m - q * m;
    MultipleIsFar(d, m);
  }

  // Of two factors of a number below limit squared, one is below limit.
  lemma SmallerFactor(d: nat, e: nat, limit: nat)
    requires d >= limit && e >= limit
    ensures e * d >= limit * limit
  {
    assert e * d == limit * limit + limit * (d - limit) + (e - limit) * d;
  }

  lemma CofactorDivides(m: nat, d: nat)
    requires 1 < d < m && m % d == 0
    ensures 1 < m / d < m && m % (m / d) == 0
  {
    var e := m / d;
    assert m == d * e;
    MultipleIsFar(d - 1, e);
    MultipleHasNoRemainder(d, e);
  }

  /** Trial division up to a limit whose square exceeds m decides primality. */
  lemma TrialDivision(m: nat, limit: nat)
    requires m > 1 && 2 <= limit && m < limit * limit
    requires forall d :: 2 <= d < limit ==> m % d != 0
    ensures IsPrime(m)
  {
    forall d | 1 < d < m
      ensures m % d != 0
    {
      if d >= limit && m % d == 0 {
        CofactorDivides(m, d);
        var e := m / d;
        assert m == e * d;
        if e >= limit {
          SmallerFactor(d, e, limit);
        }
      }
    }
  }

  // A quotient and a remainder below the divisor are the only ones there are.
  lemma DivisionIsUnique(x: nat, d: nat, q: nat, r: nat)
    requires 0 < d && r < d && x == q * d + r
    ensures x / d == q && x % d == r
  {
    var e := x / d - q;
    assert x == (x / d) * d + x % d;
    assert e * d == (x / d) * d - q * d;
    MultipleIsFar(e, d);
  }
}
