/** Facts about multiplication, division and remainder that the solver does not find alone. */
module Arith {

  lemma MulLeft(a: int, b: int, c: int)
    requires a <= b && c >= 0
    ensures a * c <= b * c
  {
    assert b * c - a * c == (b - a) * c;
  }

  /** Euclidean division is determined by a quotient and a remainder in range. */
  lemma DivModUnique(a: int, p: int, q: int, r: int)
    requires p > 0 && a == q * p + r && 0 <= r < p
    ensures a / p == q && a % p == r
  {
    var q', r' := a / p, a % p;
    assert a == q' * p + r';
    if q' > q {
      MulLeft(q + 1, q', p);
    } else if q' < q {
      MulLeft(q' + 1, q, p);
    }
  }

  /** Adding one period does not change a remainder. */
  lemma ModAddPeriod(x: int, p: int)
    requires p > 0
    ensures (x + p) % p == x % p
  {
    var q, r := x / p, x % p;
    assert x + p == (q + 1) * p + r;
    DivModUnique(x + p, p, q + 1, r);
  }

  lemma MulDivAssoc(a: real, b: real, c: real)
    requires c != 0.0
    ensures a * b / c == a * (b / c)
  {
  }

  lemma Fraction(m: int, n: int)
    requires 0 <= m < n
    ensures 0.0 <= m as real / n as real < 1.0
  {
  }

  /** Scaling by a fraction in [0, 1) keeps a value between 0 and itself. */
  lemma ScaleFraction(a: real, f: real)
    requires 0.0 <= f < 1.0
    ensures a >= 0.0 ==> 0.0 <= a * f <= a
    ensures a <= 0.0 ==> a <= a * f <= 0.0
  {
  }

  /** Dividing by a positive count preserves bounds on the total. */
  lemma DivBounds(s: real, n: real, lo: real, hi: real)
    requires n > 0.0 && n * lo <= s <= n * hi
    ensures lo <= s / n <= hi
  {
  }

  /** `k` is below the quotient of `m` by `n`, rounded up, exactly when k * n < m. */
  lemma CeilDiv(m: int, n: int, k: nat)
    requires n > 0
    ensures k * n < m <==> k < (m + n - 1) / n
  {
    var q := (m + n - 1) / n;
    assert m + n - 1 == q * n + (m + n - 1) % n;
    if k < q {
      MulLeft(k + 1, q, n);
    } else {
      MulLeft(q, k, n);
    }
  }

  /** k steps of length s / rate stay below `to` exactly when k * s < to * rate. */
  lemma StepBelow(k: nat, s: int, rate: int, to: int)
    requires s > 0 && rate > 0
    ensures k as real * (s as real / rate as real) < to as real <==> k * s < to * rate
  {
    var r := rate as real;
    assert k as real * (s as real / r) == (k * s) as real / r;
    assert (to * rate) as real == to as real * r;
  }

  lemma StepOrder(j: nat, k: nat, step: real)
    requires j <= k && step > 0.0
    ensures 0.0 <= j as real * step <= k as real * step
  {
    assert k as real * step - j as real * step == (k - j) as real * step;
  }

  lemma StepNext(n: nat, step: real)
    ensures (n + 1) as real * step == n as real * step + step
  {
  }

  /** A product of two bounded values is bounded by the product of the bounds. */
  lemma MulBound(a: real, b: real, pa: real, pb: real)
    requires -pa <= a <= pa && -pb <= b <= pb
    ensures -(pa * pb) <= a * b <= pa * pb
  {
    if a >= 0.0 && b >= 0.0 {
      assert a * b <= pa * b <= pa * pb;
    } else if a >= 0.0 {
      assert a * b >= a * (-pb) >= pa * (-pb);
    } else if b >= 0.0 {
      assert a * b >= (-pa) * b >= (-pa) * pb;
    } else {
      assert a * b == (-a) * (-b) <= pa * (-b) <= pa * pb;
    }
  }
}
