/** Facts about integer multiplication and floor division that the solver
    does not find on its own. */
module Arith {

  lemma MulMono(a: int, b: int, n: nat)
    requires a <= b
    ensures a * n <= b * n
  {
    assert b * n == a * n + (b - a) * n;
  }

  /** The next multiple of `k` after `i * k`. */
  lemma NextMultiple(i: int, k: int)
    ensures (i + 1) * k == i * k + k
  {
  }

  /** Floor division brackets the dividend. */
  lemma FloorDiv(s: nat, n: nat)
    requires 0 < n
    ensures (s / n) * n <= s < (s / n + 1) * n
  {
    var q := s / n;
    assert s == n * q + s % n;
    assert (q + 1) * n == q * n + n;
  }

  lemma ExactQuotient(v: nat, n: nat)
    requires 0 < n
    ensures (v * n) / n == v
  {
    var q := (v * n) / n;
    FloorDiv(v * n, n);
    if q < v {
      MulMono(q + 1, v, n);
    } else if q > v {
      MulMono(v + 1, q, n);
    }
  }

  lemma PositiveProduct(a: nat, b: nat)
    requires a >= 1 && b >= 1
    ensures a * b >= 1
  {
    assert a * b == (a - 1) * b + b;
  }

  /** Multiplying by a positive factor preserves strict order both ways. */
  lemma ScaleLess(a: int, b: int, k: int)
    requires k >= 1
    ensures a * k < b * k <==> a < b
  {
    if a < b {
      MulMono(a + 1, b, k);
    } else {
      MulMono(b, a, k);
    }
  }

  /** A multiple of `k` leaves remainder 0, and dividing it by `k` gives the factor back. */
  lemma MultipleMod(a: int, k: int)
    requires k >= 1
    ensures (a * k) % k == 0 && (a * k) / k == a
  {
    var q, m := (a * k) / k, (a * k) % k;
    assert a * k == q * k + m && 0 <= m < k;
    var d := a - q;
    assert d * k == m by {
      assert a * k - q * k == (a - q) * k;
    }
  }

  /** A non-negative number with remainder 0 is its quotient times `k`. */
  lemma ModZero(a: int, k: int)
    requires k >= 1 && a % k == 0
    ensures a == (a / k) * k
  {
  }
}
