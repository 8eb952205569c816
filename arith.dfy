/**
 * Facts about integer multiplication, division and remainder that the
 * solver does not find on its own. Dafny's `/` and `%` are Euclidean: for a
 * non-zero divisor `d`, `n == (n / d) * d + n % d` with `0 <= n % d < |d|`.
 */
module Arith {

  function Abs(d: int): (r: int)
    ensures r >= 0 && (r == d || r == -d)
  {
    if d >= 0 then d else -d
  }

  lemma MulAtLeast(k: int, d: int)
    requires k >= 1 && d >= 0
    ensures k * d >= d
  {
    assert k * d == (k - 1) * d + d;
    assert (k - 1) * d >= 0;
  }

  /** A non-zero multiple of `d` is at least `|d|` away from zero. */
  lemma NonZeroMultiple(k: int, d: int)
    requires k != 0 && d != 0
    ensures k * d >= Abs(d) || k * d <= -Abs(d)
  {
    if k > 0 && d > 0 {
      MulAtLeast(k, d);
    } else if k < 0 && d > 0 {
      MulAtLeast(-k, d);
      assert k * d == -((-k) * d);
    } else if k > 0 && d < 0 {
      MulAtLeast(k, -d);
      assert k * d == -(k * (-d));
    } else {
      MulAtLeast(-k, -d);
      assert k * d == (-k) * (-d);
    }
  }

  /** Quotient and remainder are the only ones with `n == q * d + r` and `0 <= r < |d|`. */
  lemma DivModUnique(n: int, d: int, q: int, r: int)
    requires d != 0 && n == q * d + r && 0 <= r < Abs(d)
    ensures n / d == q && n % d == r
  {
    var q', r' := n / d, n % d;
    assert n == q' * d + r' && 0 <= r' < Abs(d);
    assert (q - q') * d == r' - r;
    if q != q' {
      NonZeroMultiple(q - q', d);
    }
  }

  /** A multiple of a non-zero `d` divides exactly, with its factor as quotient. */
  lemma ExactQuotient(q: int, d: int)
    requires d != 0
    ensures (q * d) % d == 0 && (q * d) / d == q
  {
    DivModUnique(q * d, d, q, 0);
  }

  lemma MulCancel(p: int, q: int, d: int)
    requires d != 0 && p != q
    ensures p * d != q * d
  {
    NonZeroMultiple(p - q, d);
    assert (p - q) * d == p * d - q * d;
  }

  lemma NonZeroFactor(x: int, y: int)
    requires x != 0 && x * y == 0
    ensures y == 0
  {
    if y != 0 {
      NonZeroMultiple(x, y);
    }
  }

  /** Adding a multiple of `m` does not change the remainder. */
  lemma ModShift(x: int, q: int, m: int)
    requires m > 0
    ensures (x + q * m) % m == x % m
  {
    DivModUnique(x + q * m, m, x / m + q, x % m);
  }

  /** Reducing an operand first does not change the remainder of a sum. */
  lemma ModAdd(a: int, b: int, m: int)
    requires m > 0
    ensures (a % m + b) % m == (a + b) % m
  {
    ModShift(a % m + b, a / m, m);
    assert a % m + b + (a / m) * m == a + b;
  }

  lemma MulSucc(a: int, b: int)
    ensures a * (b + 1) == a * b + a
  {
  }

  lemma MulNonNegative(a: int, b: int)
    requires a >= 0 && b >= 0
    ensures a * b >= 0
  {
  }

  lemma MulSuccLeft(a: int, b: int)
    ensures (a + 1) * b == a * b + b
  {
  }

  lemma MulLess(n: int, m: int, r: int)
    requires n < m && r >= 1
    ensures n * r < m * r
  {
    assert m * r - n * r == (m - n) * r;
    MulAtLeast(m - n, r);
  }

  /** Dividing a natural by a positive number never grows it. */
  lemma DivAtMost(a: int, p: int)
    requires a >= 0 && p >= 1
    ensures 0 <= a / p <= a
  {
    assert a / p * p <= a;
    MulAtLeast(p, a / p);
  }

  /** Multiplying by a natural keeps the order. */
  lemma MulMonotone(a: int, b: int, c: int)
    requires a >= 0 && b <= c
    ensures a * b <= a * c
  {
    assert a * c - a * b == a * (c - b);
    MulNonNegative(a, c - b);
  }
}
