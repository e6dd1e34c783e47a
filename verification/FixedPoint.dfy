/** Fixed-point arithmetic of the lending market: integers scaled by 10^27 ("ray"), by 10^18 ("wad") or by
    10^4 (percentages), with half-up rounding.

    The scenario suite configures its big-number library with no decimal places and rounding down, so every
    division of the source truncates toward zero; `TruncDiv` is that division. */
module FixedPoint {

  const RAY: int := 1_000_000_000_000_000_000_000_000_000
  const HALF_RAY: int := 500_000_000_000_000_000_000_000_000
  const WAD_RAY_RATIO: int := 1_000_000_000
  const PERCENTAGE_FACTOR: int := 10_000
  const HALF_PERCENTAGE: int := 5_000

  /** How many times d can be taken from n. */
  function Quotient(n: nat, d: nat): nat
    requires 0 < d
  {
    if n < d then 0 else 1 + Quotient(n - d, d)
  }

  function Abs(x: int): nat {
    if x < 0 then -x else x
  }

  /** Division that truncates toward zero, whatever the signs of its operands. */
  function TruncDiv(n: int, d: int): int
    requires d != 0
  {
    var q: int := Quotient(Abs(n), Abs(d));
    if (0 <= n) == (0 < d) then q else -q
  }

  function RayMul(a: int, b: int): int {
    TruncDiv(HALF_RAY + a * b, RAY)
  }

  function RayDiv(a: int, b: int): int
    requires b != 0
  {
    TruncDiv(TruncDiv(b, 2) + a * RAY, b)
  }

  function WadToRay(a: int): int {
    a * WAD_RAY_RATIO
  }

  function PercentMul(a: int, b: int): int {
    TruncDiv(HALF_PERCENTAGE + a * b, PERCENTAGE_FACTOR)
  }

  // ---------- Products ----------

  /** Multiplying by a non-negative factor keeps an inequality. */
  lemma MulMono(a: int, b: int, c: int)
    requires a <= b && 0 <= c
    ensures a * c <= b * c && c * a <= c * b
  {
  }

  lemma MulNonNeg(a: int, b: int)
    requires 0 <= a && 0 <= b
    ensures 0 <= a * b
  {
  }

  lemma Distribute(a: int, b: int, c: int)
    ensures a * (b + c) == a * b + a * c == (b + c) * a
    ensures a * (b - c) == a * b - a * c == (b - c) * a
  {
  }

  /** A positive factor may be cancelled from a strict inequality. */
  lemma MulCancel(a: int, b: int, c: int)
    requires a * c < b * c && 0 < c
    ensures a < b
  {
    if b <= a {
      MulMono(b, a, c);
    }
  }

  // ---------- Truncated quotients ----------

  lemma {:induction false} QuotientBounds(n: nat, d: nat)
    requires 0 < d
    ensures d * Quotient(n, d) <= n < d * Quotient(n, d) + d
  {
    if d <= n {
      QuotientBounds(n - d, d);
      Distribute(d, Quotient(n - d, d), 1);
    }
  }

  /** A truncated quotient is never further from zero than the exact one, and less than one unit away from it. */
  lemma TruncDivBounds(n: int, d: int)
    requires 0 < d
    ensures 0 <= n ==> 0 <= TruncDiv(n, d) && d * TruncDiv(n, d) <= n < d * TruncDiv(n, d) + d
    ensures n < 0 ==> TruncDiv(n, d) <= 0 && d * TruncDiv(n, d) - d < n <= d * TruncDiv(n, d)
  {
    QuotientBounds(Abs(n), d);
  }

  /** Whatever the signs, a truncated quotient is less than one unit away from the exact one. */
  lemma TruncDivNear(n: int, d: int)
    requires d != 0
    ensures Abs(d * TruncDiv(n, d) - n) < Abs(d)
  {
    QuotientBounds(Abs(n), Abs(d));
    var q: int := Quotient(Abs(n), Abs(d));
    assert d * q == -((-d) * q) && d * (-q) == (-d) * q;
  }

  /** The only integer that satisfies the inequality of a truncated quotient is that quotient. */
  lemma QuotientIs(n: int, d: int, q: int)
    requires 0 <= n && 0 < d && d * q <= n < d * q + d
    ensures TruncDiv(n, d) == q
  {
    hide *;
    TruncDivBounds(n, d);
    var r := TruncDiv(n, d);
    Distribute(d, q, 1);
    Distribute(d, r, 1);
    MulCancel(r, q + 1, d);
    MulCancel(q, r + 1, d);
  }

  // ---------- Half-up rounding ----------

  /** `RayMul` is the integer nearest to a * b / RAY, ties upward. */
  lemma RayMulRounds(a: int, b: int)
    requires 0 <= a && 0 <= b
    ensures 0 <= RayMul(a, b)
    ensures 2 * RAY * RayMul(a, b) <= 2 * (a * b) + RAY < 2 * RAY * RayMul(a, b) + 2 * RAY
  {
    MulNonNeg(a, b);
    TruncDivBounds(HALF_RAY + a * b, RAY);
  }

  /** Whatever the signs, `RayMul` is less than one and a half units away from the exact product. */
  lemma RayMulNear(a: int, b: int)
    ensures Abs(RAY * RayMul(a, b) - (HALF_RAY + a * b)) < RAY
  {
    TruncDivNear(HALF_RAY + a * b, RAY);
  }

  /** Whatever the signs, `RayDiv` is at most one and a half units away from the exact quotient. */
  lemma RayDivNear(a: int, b: int)
    requires b != 0
    ensures 2 * Abs(b * RayDiv(a, b) - a * RAY) <= 3 * Abs(b)
  {
    TruncDivNear(TruncDiv(b, 2) + a * RAY, b);
    QuotientBounds(Abs(b), 2);
  }

  /** The only integer that satisfies the rounding inequality of `RayMul` is its result. */
  lemma RayMulIs(a: int, b: int, m: int)
    requires 0 <= a && 0 <= b
    requires 2 * RAY * m <= 2 * (a * b) + RAY < 2 * RAY * m + 2 * RAY
    ensures RayMul(a, b) == m
  {
    RayMulRounds(a, b);
  }

  /** `RayDiv` is the integer nearest to a * RAY / b, ties upward: the truncated half of an odd b loses nothing. */
  lemma RayDivRounds(a: int, b: int)
    requires 0 <= a && 0 < b
    ensures 0 <= RayDiv(a, b)
    ensures 2 * (b * RayDiv(a, b)) <= 2 * RAY * a + b < 2 * (b * RayDiv(a, b)) + 2 * b
  {
    var q := RayDiv(a, b);
    var n := TruncDiv(b, 2) + a * RAY;
    TruncDivBounds(b, 2);
    TruncDivBounds(n, b);
  }

  /** The only integer that satisfies the rounding inequality of `RayDiv` is its result. */
  lemma RayDivIs(a: int, b: int, q: int)
    requires 0 <= a && 0 < b
    requires 2 * (b * q) <= 2 * RAY * a + b < 2 * (b * q) + 2 * b
    ensures RayDiv(a, b) == q
  {
    hide *;
    var r := RayDiv(a, b);
    RayDivRounds(a, b);
    Distribute(b, q, 1);
    Distribute(b, r, 1);
    MulCancel(r, q + 1, b);
    MulCancel(q, r + 1, b);
  }

  lemma RayMulMono(a: int, a': int, b: int, b': int)
    requires 0 <= a <= a' && 0 <= b <= b'
    ensures RayMul(a, b) <= RayMul(a', b')
  {
    hide *;
    MulMono(a, a', b);
    MulMono(b, b', a');
    RayMulRounds(a, b);
    RayMulRounds(a', b');
    RoundedMono(a * b, RayMul(a, b), a' * b', RayMul(a', b'));
  }

  lemma RoundedMono(p: int, m: int, p': int, m': int)
    requires p <= p' && 2 * RAY * m <= 2 * p + RAY && 2 * p' + RAY < 2 * RAY * m' + 2 * RAY
    ensures m <= m'
  {
  }

  /** A ray is the unit of `RayMul`, zero its zero. */
  lemma RayMulUnit(a: int)
    requires 0 <= a
    ensures RayMul(a, RAY) == a == RayMul(RAY, a)
    ensures RayMul(a, 0) == 0 == RayMul(0, a)
  {
    RayMulRounds(a, RAY);
  }

  /** Growing by a factor of at least one ray never shrinks an amount; shrinking never grows it. */
  lemma RayMulScales(a: int, b: int)
    requires 0 <= a && 0 <= b
    ensures RAY <= b ==> a <= RayMul(a, b)
    ensures b <= RAY ==> RayMul(a, b) <= a
  {
    RayMulUnit(a);
    if RAY <= b {
      RayMulMono(a, a, RAY, b);
    }
    if b <= RAY {
      RayMulMono(a, a, b, RAY);
    }
  }

  /** `RayDiv` respects the order of the fractions it rounds, also across different denominators. */
  lemma RayDivMono(a: int, b: int, a': int, b': int)
    requires 0 <= a && 0 < b && 0 <= a' && 0 < b'
    requires a * b' <= a' * b
    ensures RayDiv(a, b) <= RayDiv(a', b')
  {
    hide *;
    var q, q' := RayDiv(a, b), RayDiv(a', b');
    RayDivRounds(a, b);
    RayDivRounds(a', b');
    MulMono(2 * (b * q), 2 * RAY * a + b, b');
    MulMono(2 * RAY * a' + b' + 1, 2 * (b' * q') + 2 * b', b);
    CommonDenominator(a, b, q, a', b', q');
    MulCancel(q, q' + 1, 2 * (b * b'));
  }

  lemma CommonDenominator(a: int, b: int, q: int, a': int, b': int, q': int)
    requires 0 < b && 0 < b' && a * b' <= a' * b
    requires (2 * (b * q)) * b' <= (2 * RAY * a + b) * b'
    requires (2 * RAY * a' + b' + 1) * b <= (2 * (b' * q') + 2 * b') * b
    ensures q * (2 * (b * b')) < (q' + 1) * (2 * (b * b'))
    ensures 0 < b * b'
  {
    assert (2 * (b * q)) * b' == q * (2 * (b * b'));
    assert (2 * RAY * a + b) * b' == 2 * RAY * (a * b') + b * b';
    assert (2 * RAY * a' + b' + 1) * b == 2 * RAY * (a' * b) + b * b' + b;
    assert (2 * (b' * q') + 2 * b') * b == (q' + 1) * (2 * (b * b'));
  }

  lemma RayDivUnit(b: int)
    requires 0 < b
    ensures RayDiv(b, b) == RAY && RayDiv(0, b) == 0
  {
    RayDivIs(b, b, RAY);
    RayDivIs(0, b, 0);
  }

  lemma PercentMulRounds(a: int, b: int)
    requires 0 <= a && 0 <= b
    ensures 0 <= PercentMul(a, b)
    ensures PERCENTAGE_FACTOR * PercentMul(a, b) <= HALF_PERCENTAGE + a * b
          < PERCENTAGE_FACTOR * PercentMul(a, b) + PERCENTAGE_FACTOR
  {
    MulNonNeg(a, b);
    TruncDivBounds(HALF_PERCENTAGE + a * b, PERCENTAGE_FACTOR);
  }

  lemma PercentMulShrinks(a: int, b: int)
    requires 0 <= a && 0 <= b <= PERCENTAGE_FACTOR
    ensures 0 <= PercentMul(a, b) <= a
  {
    PercentMulRounds(a, b);
    MulMono(b, PERCENTAGE_FACTOR, a);
  }

  // ---------- No dust ----------

  /** Scaling an amount up by an index of at least one ray and back down again loses nothing. */
  lemma NoDust(s: int, i: int)
    requires 0 <= s && RAY <= i
    ensures RayDiv(RayMul(s, i), i) == s
  {
    var m := RayMul(s, i);
    RayMulRounds(s, i);
    if i == RAY {
      RayMulUnit(s);
    }
    RayDivIs(m, i, s);
  }

  ghost predicate Lossless(i: int)
    requires 0 < i
  {
    forall s: int :: 0 <= s ==> RayDiv(RayMul(s, i), i) == s
  }

  /** Below one ray two neighbouring amounts share a product, so one of them cannot be recovered. */
  lemma Collision(i: int) returns (s: int)
    requires 0 < i < RAY
    ensures 0 <= s && RayMul(s, i) == RayMul(s + 1, i)
  {
    if i < HALF_RAY {
      s := 0;
    } else {
      var d := RAY - i;
      s := TruncDiv(HALF_RAY, d);
      TruncDivBounds(HALF_RAY, d);
      Distribute(s, RAY, d);
      Distribute(s + 1, RAY, d);
      Distribute(d, s, 1);
      RayMulIs(s, i, s);
      RayMulIs(s + 1, i, s);
    }
  }

  /** Exactly the indices of at least one ray are free of dust. */
  lemma LosslessIffAtLeastRay(i: int)
    requires 0 < i
    ensures Lossless(i) <==> RAY <= i
  {
    if RAY <= i {
      forall s: int | 0 <= s
        ensures RayDiv(RayMul(s, i), i) == s
      {
        NoDust(s, i);
      }
    } else {
      var s := Collision(i);
      assert RayDiv(RayMul(s, i), i) == RayDiv(RayMul(s + 1, i), i);
      assert !(RayDiv(RayMul(s, i), i) == s && RayDiv(RayMul(s + 1, i), i) == s + 1);
      assert 0 <= s + 1;
    }
  }

  /** An amount of at most the current balance scales down to at most the scaled balance. */
  lemma NoOverdraw(a: int, s: int, i: int)
    requires 0 <= s && RAY <= i && 0 <= a <= RayMul(s, i)
    ensures 0 <= RayDiv(a, i) <= s
  {
    NoDust(s, i);
    RayDivRounds(a, i);
    MulMono(a, RayMul(s, i), i);
    RayDivMono(a, i, RayMul(s, i), i);
  }

  // ---------- Drift between scaled and current amounts ----------

  /** ceil(i / (2 * RAY)): what one rounding of a scaled amount is worth at index i. */
  function Drift(i: int): (c: int)
    requires 0 <= i
    ensures 2 * RAY * (c - 1) < i <= 2 * RAY * c
  {
    (i + 2 * RAY - 1) / (2 * RAY)
  }

  /** Adding an amount to a scaled balance and adding it to the current balance stay within `Drift(i)`. */
  lemma AddDrift(s: int, a: int, i: int)
    requires 0 <= s && 0 <= a && RAY <= i
    ensures -Drift(i) <= RayMul(s + RayDiv(a, i), i) - (RayMul(s, i) + a) <= Drift(i)
  {
    assert 0 < i;
    hide *;
    var d := RayDiv(a, i);
    RayDivRounds(a, i);
    MovedDrift(s, d, a, i);
  }

  /** A balance and the balance after d scaled units came in, where d scaled units are worth a up to rounding. */
  lemma MovedDrift(s: int, d: int, a: int, i: int)
    requires 0 <= s && 0 <= s + d && 0 < i
    requires 2 * (i * d) <= 2 * RAY * a + i < 2 * (i * d) + 2 * i
    ensures -Drift(i) <= RayMul(s + d, i) - (RayMul(s, i) + a) <= Drift(i)
  {
    hide *;
    RayMulRounds(s, i);
    RayMulRounds(s + d, i);
    Distribute(i, s, d);
    RoundedSum(RayMul(s, i), s * i, i * d, a, RayMul(s + d, i), (s + d) * i, i, Drift(i));
  }

  lemma RoundedSum(m: int, p: int, moved: int, a: int, m': int, p': int, i: int, c: int)
    requires p' == p + moved && 2 * RAY * (c - 1) < i <= 2 * RAY * c
    requires 2 * moved <= 2 * RAY * a + i < 2 * moved + 2 * i
    requires 2 * RAY * m <= 2 * p + RAY < 2 * RAY * m + 2 * RAY
    requires 2 * RAY * m' <= 2 * p' + RAY < 2 * RAY * m' + 2 * RAY
    ensures -c <= m' - (m + a) <= c
  {
  }

  /** Taking at most the current balance keeps both balances within the same distance. */
  lemma TakeDrift(s: int, a: int, i: int)
    requires 0 <= s && RAY <= i && 0 <= a <= RayMul(s, i)
    ensures 0 <= RayDiv(a, i) <= s
    ensures -Drift(i) <= RayMul(s - RayDiv(a, i), i) - (RayMul(s, i) - a) <= Drift(i)
  {
    assert 0 < i;
    hide *;
    var d := RayDiv(a, i);
    NoOverdraw(a, s, i);
    RayDivRounds(a, i);
    MovedDrift(s - d, d, a, i);
    assert s - d + d == s;
  }

  lemma RoundedSplit(m1: int, p1: int, m2: int, p2: int, m: int, p: int)
    requires p == p1 + p2
    requires 2 * RAY * m1 <= 2 * p1 + RAY < 2 * RAY * m1 + 2 * RAY
    requires 2 * RAY * m2 <= 2 * p2 + RAY < 2 * RAY * m2 + 2 * RAY
    requires 2 * RAY * m <= 2 * p + RAY < 2 * RAY * m + 2 * RAY
    ensures -1 <= m1 + m2 - m <= 1
  {
  }

  /** Splitting a scaled amount moves the sum of the current amounts by at most one unit. */
  lemma SplitDrift(s: int, part: int, i: int)
    requires 0 <= part <= s && 0 <= i
    ensures -1 <= RayMul(part, i) + RayMul(s - part, i) - RayMul(s, i) <= 1
  {
    RayMulRounds(part, i);
    RayMulRounds(s - part, i);
    RayMulRounds(s, i);
    Distribute(i, s, part);
    RoundedSplit(RayMul(part, i), part * i, RayMul(s - part, i), (s - part) * i, RayMul(s, i), s * i);
  }
}
