/** Remainders by repeated subtraction, which keeps every proof about them linear. */
module Residues {

  function Rem(n: nat, d: nat): (r: nat)
    requires d > 0
    ensures r < d && r <= n
  {
    if n < d then n else Rem(n - d, d)
  }

  lemma MulAtLeast(x: int, d: int)
    requires x >= 1 && d > 0
    ensures x * d >= d
  {
    assert (x - 1) * d >= 0;
    assert x * d == (x - 1) * d + d;
  }

  lemma QuotientUnique(a: int, b: int, r: int, s: int, d: int)
    requires d > 0 && 0 <= r < d && 0 <= s < d && a * d + r == b * d + s
    ensures a == b && r == s
  {
    if a < b {
      assert (b - a) * d == r - s;
      MulAtLeast(b - a, d);
    } else if a > b {
      assert (a - b) * d == s - r;
      MulAtLeast(a - b, d);
    }
  }

  /** `Rem` is the machine's `%`. */
  lemma {:induction false} RemIsMod(n: nat, d: nat)
    requires d > 0
    ensures Rem(n, d) == n % d
  {
    assert n == (n / d) * d + n % d;
    if n < d {
      QuotientUnique(n / d, 0, n % d, n, d);
    } else {
      var q := (n - d) / d;
      RemIsMod(n - d, d);
      assert n - d == q * d + (n - d) % d && (q + 1) * d == q * d + d;
      QuotientUnique(n / d, q + 1, n % d, (n - d) % d, d);
    }
  }

  /** Numbers closer than `d` with the same remainder are equal. */
  lemma {:induction false} RemInjective(a: nat, b: nat, d: nat)
    requires d > 0 && a <= b < a + d && Rem(a, d) == Rem(b, d)
    ensures a == b
    decreases a
  {
    if a >= d { RemInjective(a - d, b - d, d); }
  }

  lemma {:induction false} RemAdd(a: nat, b: nat, d: nat)
    requires d > 0
    ensures Rem(a + b, d) == Rem(a + Rem(b, d), d)
    decreases b
  {
    if b >= d {
      assert a + b >= d && a + b - d == a + (b - d);
      RemAdd(a, b - d, d);
    }
  }
}
