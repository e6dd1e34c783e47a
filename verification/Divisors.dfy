/** Greatest common divisors, and which differences of multiples of two numbers there are. Rounding errors on a grid
    are such differences, so the worst of them depends on the common divisor. */
module Divisors {
  import opened FixedPoint

  function Gcd(a: nat, b: nat): (g: nat)
    requires 0 < a && 0 < b
    ensures 0 < g <= a && g <= b
    decreases a + b
  {
    if a == b then a else if a < b then Gcd(a, b - a) else Gcd(a - b, b)
  }

  lemma GcdStep(a: nat, b: nat)
    requires 0 < a && 0 < b
    ensures a == b ==> Gcd(a, b) == a
    ensures a < b ==> Gcd(a, b) == Gcd(a, b - a)
    ensures b < a ==> Gcd(a, b) == Gcd(a - b, b)
  {
  }

  predicate IsTimes(n: int, k: int, g: int) {
    n == k * g
  }

  lemma SumOfMultiples(m: int, j: int, n: int, k: int, g: int)
    requires IsTimes(m, j, g) && IsTimes(n, k, g)
    ensures IsTimes(m + n, j + k, g)
  {
  }

  lemma ScaledMultiple(c: int, m: int, j: int, g: int)
    requires IsTimes(m, j, g)
    ensures IsTimes(c * m, c * j, g)
  {
    assert c * (j * g) == (c * j) * g;
  }

  lemma OneTime(g: int)
    ensures IsTimes(g, 1, g)
  {
  }

  /** The common divisor divides both numbers. */
  lemma {:induction false} GcdDivides(a: nat, b: nat) returns (j: nat, k: nat)
    requires 0 < a && 0 < b
    ensures IsTimes(a, j, Gcd(a, b)) && IsTimes(b, k, Gcd(a, b))
    decreases a + b
  {
    GcdStep(a, b);
    hide Gcd, IsTimes;
    if a == b {
      j, k := 1, 1;
      OneTime(a);
    } else if a < b {
      j, k := GcdDivides(a, b - a);
      SumOfMultiples(a, j, b - a, k, Gcd(a, b));
      k := j + k;
    } else {
      j, k := GcdDivides(a - b, b);
      SumOfMultiples(a - b, j, b, k, Gcd(a, b));
      j := j + k;
    }
  }

  /** The common divisor is a combination of both numbers. */
  lemma {:induction false} GcdCombines(a: nat, b: nat) returns (x: int, y: int)
    requires 0 < a && 0 < b
    ensures x * a + y * b == Gcd(a, b)
    decreases a + b
  {
    GcdStep(a, b);
    hide Gcd;
    if a == b {
      x, y := 1, 0;
    } else if a < b {
      x, y := GcdCombines(a, b - a);
      Distribute(y, b, a);
      Distribute(a, x, y);
      x := x - y;
    } else {
      x, y := GcdCombines(a - b, b);
      Distribute(x, a, b);
      Distribute(b, y, x);
      y := y - x;
    }
  }

  lemma {:induction false} GcdSymmetric(a: nat, b: nat)
    requires 0 < a && 0 < b
    ensures Gcd(a, b) == Gcd(b, a)
    decreases a + b
  {
    if a < b {
      GcdSymmetric(a, b - a);
    } else if b < a {
      GcdSymmetric(a - b, b);
    }
  }

  /** No common divisor is greater. */
  lemma GcdIsGreatest(a: nat, b: nat, d: nat, p: nat, q: nat)
    requires 0 < a == d * p && 0 < b == d * q
    ensures d <= Gcd(a, b)
  {
    var x, y := GcdCombines(a, b);
    var times := x * p + y * q;
    assert x * (d * p) + y * (d * q) == d * times;
    if times <= 0 {
      MulMono(times, 0, d);
    } else {
      MulMono(1, times, d);
    }
  }

  /** A difference of multiples of two numbers is a multiple of their common divisor. */
  lemma DifferenceDivides(i: nat, n: nat, d: int, a: int) returns (times: int)
    requires 0 < i && 0 < n
    ensures IsTimes(d * i - a * n, times, Gcd(i, n))
  {
    var j, k := GcdDivides(i, n);
    hide Gcd, IsTimes;
    ScaledMultiple(d, i, j, Gcd(i, n));
    ScaledMultiple(-a, n, k, Gcd(i, n));
    SumOfMultiples(d * i, d * j, -a * n, -a * k, Gcd(i, n));
    times := d * j + -a * k;
    assert d * i + -a * n == d * i - a * n;
  }

  /** Every multiple of the common divisor is a difference of non-negative multiples of the two numbers. */
  lemma Reach(i: nat, n: nat, times: int) returns (x: nat, y: nat)
    requires 0 < i && 0 < n
    ensures x * i - y * n == times * Gcd(i, n)
  {
    var u, v := GcdCombines(i, n);
    var shift := Abs(times * u) + Abs(times * v);
    MulMono(1, n, shift);
    MulMono(1, i, shift);
    x := times * u + shift * n;
    y := shift * i - times * v;
    Combination(i, n, times, u, v, shift, Gcd(i, n));
  }

  lemma Combination(i: int, n: int, times: int, u: int, v: int, shift: int, g: int)
    requires u * i + v * n == g
    ensures (times * u + shift * n) * i - (shift * i - times * v) * n == times * g
  {
    assert (times * u + shift * n) * i == times * (u * i) + shift * n * i;
    assert (shift * i - times * v) * n == shift * i * n - times * (v * n);
    Distribute(times, u * i, v * n);
  }

  /** Some multiple of g lies just below h. */
  lemma MultipleBelow(g: nat, h: nat) returns (k: nat)
    requires 0 < g && 0 < h
    ensures h - g <= k * g < h
  {
    k := Quotient(h - 1, g);
    QuotientBounds(h - 1, g);
  }

  /** Two multiples of g that differ, differ by at least g. */
  lemma MultiplesApart(m: int, j: int, n: int, k: int, g: nat)
    requires IsTimes(m, j, g) && IsTimes(n, k, g)
    ensures m < n ==> m + g <= n
    ensures n < m ==> n + g <= m
  {
    if j < k {
      MulMono(j + 1, k, g);
      Distribute(g, j, 1);
    } else if k < j {
      MulMono(k + 1, j, g);
      Distribute(g, k, 1);
    }
  }
}
