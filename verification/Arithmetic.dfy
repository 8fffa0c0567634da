/** Facts about quotients and remainders that the solver does not find by itself. */
module Arithmetic {

  lemma MulAtLeast(k: int, d: nat)
    requires k >= 1
    ensures k * d >= d
  {
    assert (k - 1) * d >= 0;
  }

  lemma QuotientUnique(x: nat, d: nat, q: int, r: nat)
    requires 0 < d && r < d && x == q * d + r
    ensures x / d == q && x % d == r
  {
    var q' := x / d;
    assert (q - q') * d == x % d - r;
    assert q - q' < 1 by {
      if q - q' >= 1 { MulAtLeast(q - q', d); }
    }
    assert q - q' > -1 by {
      if q - q' <= -1 { MulAtLeast(q' - q, d); }
    }
  }

  lemma QuotientOfQuotient(x: nat, b: nat, c: nat)
    requires b > 0 && c > 0
    ensures b * c > 0 && x / (b * c) == x / b / c
  {
    var y := x / b;
    var r := y % c * b + x % b;
    MulAtLeast(c, b);
    assert r < b * c by {
      assert y % c * b <= (c - 1) * b by { MulAtMost(y % c, c - 1, b); }
      assert (c - 1) * b == b * c - b;
    }
    assert x == y / c * (b * c) + r by {
      assert x == y * b + x % b;
      assert y * b == (y / c * c + y % c) * b;
      assert (y / c * c + y % c) * b == y / c * c * b + y % c * b;
      assert y / c * c * b == y / c * (b * c) by { MulAssociates(y / c, c, b); }
    }
    QuotientUnique(x, b * c, y / c, r);
  }

  lemma MulAssociates(x: int, y: int, z: int)
    ensures x * y * z == x * (z * y)
  {
  }

  lemma MulAtMost(x: int, y: int, d: nat)
    requires x <= y
    ensures x * d <= y * d
  {
    assert (y - x) * d >= 0;
  }

  /** Reducing modulo a multiple of `d` first does not change the remainder modulo `d`, and reduces the
      quotient modulo the other factor. */
  lemma RemainderOfRemainder(x: nat, d: nat, k: nat)
    requires d > 0 && k > 0
    ensures d * k > 0 && x % (d * k) % d == x % d && x % (d * k) / d == x / d % k
  {
    MulAtLeast(k, d);
    var n := x / (d * k);
    QuotientOfQuotient(x, d, k);
    var y := x % (d * k);
    assert x == n * (d * k) + y;
    assert n * (d * k) == n * k * d by { MulAssociates(n, k, d); }
    var q := x / d - n * k;
    assert y == q * d + x % d by {
      assert x == x / d * d + x % d;
      assert q * d == x / d * d - n * k * d;
    }
    assert q >= 0 by {
      assert n == x / d / k;
      assert x / d == n * k + x / d % k;
    }
    QuotientUnique(y, d, q, x % d);
  }
}
