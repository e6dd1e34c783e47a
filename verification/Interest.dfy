/** Interest accrued over a period: linear for suppliers, a third-order binomial expansion of per-second
    compounding for borrowers. Both are factors in ray. */
module Interest {
  import opened FixedPoint

  const ONE_YEAR: int := 31_536_000

  function LinearInterest(rate: int, now: int, last: int): int {
    TruncDiv(rate * (now - last), ONE_YEAR) + RAY
  }

  function RatePerSecond(rate: int): int {
    TruncDiv(rate, ONE_YEAR)
  }

  function BasePowerTwo(rate: int): int {
    RayMul(RatePerSecond(rate), RatePerSecond(rate))
  }

  function BasePowerThree(rate: int): int {
    RayMul(BasePowerTwo(rate), RatePerSecond(rate))
  }

  function CompoundedInterest(rate: int, now: int, last: int): int {
    var exp := now - last;
    if exp == 0 then RAY
    else
      var expMinusTwo := if exp > 2 then exp - 2 else 0;
      RAY + RatePerSecond(rate) * exp
      + TruncDiv(exp * (exp - 1) * BasePowerTwo(rate), 2)
      + TruncDiv(exp * (exp - 1) * expMinusTwo * BasePowerThree(rate), 6)
  }

  // ---------- Binomial coefficients ----------

  /** Pascal's rule. */
  function Choose(n: nat, k: nat): nat {
    if k == 0 then 1 else if n == 0 then 0 else Choose(n - 1, k) + Choose(n - 1, k - 1)
  }

  /** The products that the source halves and divides by six are exact multiples. */
  lemma {:induction false} ChooseClosed(n: nat)
    ensures Choose(n, 1) == n
    ensures 2 * Choose(n, 2) == n * (n - 1)
    ensures 6 * Choose(n, 3) == n * (n - 1) * (n - 2)
  {
    if n == 0 {
    } else {
      ChooseClosed(n - 1);
      assert Choose(n - 1, 0) == 1;
      assert (n - 1) * (n - 2) * (n - 3) + 3 * ((n - 1) * (n - 2)) == n * (n - 1) * (n - 2);
    }
  }

  /** Vandermonde's identity for the two coefficients in use. */
  lemma Vandermonde(n: nat, m: nat)
    ensures Choose(n + m, 2) == Choose(n, 2) + n * m + Choose(m, 2)
    ensures Choose(n + m, 3) == Choose(n, 3) + Choose(n, 2) * m + n * Choose(m, 2) + Choose(m, 3)
  {
    ChoosePairs(n, m);
    ChooseTriples(n, m);
  }

  lemma ChooseStep(n: nat, k: nat)
    requires 0 < n && 0 < k
    ensures Choose(n, k) == Choose(n - 1, k) + Choose(n - 1, k - 1)
    ensures Choose(n - 1, 0) == 1
  {
  }

  lemma ChooseZero(k: nat)
    requires 0 < k
    ensures Choose(0, k) == 0
  {
  }

  lemma {:induction false} ChoosePairs(n: nat, m: nat)
    ensures Choose(n + m, 2) == Choose(n, 2) + n * m + Choose(m, 2)
  {
    hide Choose;
    ChooseZero(2);
    if m == 0 {
    } else {
      var k: nat := m - 1;
      ChoosePairs(n, k);
      ChooseStep(n + m, 2);
      ChooseStep(m, 2);
      ChooseClosed(n + k);
      ChooseClosed(k);
      Distribute(n, k, 1);
    }
  }

  lemma {:induction false} ChooseTriples(n: nat, m: nat)
    ensures Choose(n + m, 3) == Choose(n, 3) + Choose(n, 2) * m + n * Choose(m, 2) + Choose(m, 3)
  {
    hide Choose;
    ChooseZero(2);
    ChooseZero(3);
    if m == 0 {
    } else {
      var k: nat := m - 1;
      ChooseTriples(n, k);
      ChoosePairs(n, k);
      ChooseStep(n + m, 3);
      ChooseStep(m, 3);
      ChooseStep(m, 2);
      ChooseClosed(k);
      Distribute(Choose(n, 2), k, 1);
      Distribute(n, Choose(k, 2), k);
    }
  }

  lemma {:induction false} ChooseMono(n: nat, m: nat, k: nat)
    requires n <= m
    ensures Choose(n, k) <= Choose(m, k)
  {
    if n < m && 0 < k {
      ChooseMono(n, m - 1, k);
    }
  }

  // ---------- Compounded interest ----------

  /** The rate per second and its rounded powers, with what each rounding may have added or removed. */
  lemma BasePowers(rate: int)
    requires 0 <= rate
    ensures var p, two, three := RatePerSecond(rate), BasePowerTwo(rate), BasePowerThree(rate);
      && 0 <= p && ONE_YEAR * p <= rate < ONE_YEAR * p + ONE_YEAR
      && 0 <= two && 0 <= three
      && 2 * RAY * two <= 2 * (p * p) + RAY < 2 * RAY * two + 2 * RAY
      && 2 * RAY * three <= 2 * (two * p) + RAY < 2 * RAY * three + 2 * RAY
  {
    TruncDivBounds(rate, ONE_YEAR);
    hide RayMul, TruncDiv;
    RayMulRounds(RatePerSecond(rate), RatePerSecond(rate));
    RayMulRounds(BasePowerTwo(rate), RatePerSecond(rate));
  }

  /** For every elapsed time the code computes the binomial expansion exactly: neither of its two divisions
      truncates, and the clamp of the last factor changes nothing. */
  lemma CompoundedIsExpansion(rate: int, now: int, last: int)
    requires 0 <= rate && last <= now
    ensures var n := now - last;
      CompoundedInterest(rate, now, last)
      == RAY + n * RatePerSecond(rate) + Choose(n, 2) * BasePowerTwo(rate) + Choose(n, 3) * BasePowerThree(rate)
  {
    var n: nat := now - last;
    var two, three := BasePowerTwo(rate), BasePowerThree(rate);
    BasePowers(rate);
    ChooseClosed(n);
    if n > 0 {
      var expMinusTwo := if n > 2 then n - 2 else 0;
      assert n * (n - 1) * expMinusTwo == 6 * Choose(n, 3);
      ExactQuotient(n * (n - 1), Choose(n, 2), two, 2);
      ExactQuotient(n * (n - 1) * expMinusTwo, Choose(n, 3), three, 6);
    }
  }

  lemma ExactQuotient(product: int, count: int, power: int, d: int)
    requires 0 <= count && 0 <= power && 0 < d && product == d * count
    ensures TruncDiv(product * power, d) == count * power
  {
    hide *;
    MulNonNeg(count, power);
    MulNonNeg(d, count * power);
    assert product * power == d * (count * power);
    QuotientIs(product * power, d, count * power);
  }

  /** A longer time or a higher rate never owes less, and nothing ever shrinks. */
  lemma CompoundedMono(rate: int, n: nat, rate': int, n': nat)
    requires 0 <= rate <= rate' && n <= n'
    ensures RAY <= CompoundedInterest(rate, n, 0) <= CompoundedInterest(rate', n', 0)
  {
    var p, p' := RatePerSecond(rate), RatePerSecond(rate');
    CompoundedIsExpansion(rate, n, 0);
    CompoundedIsExpansion(rate', n', 0);
    BasePowers(rate);
    BasePowers(rate');
    assert p <= p';
    RayMulMono(p, p', p, p');
    RayMulMono(BasePowerTwo(rate), BasePowerTwo(rate'), p, p');
    ChooseMono(n, n', 2);
    ChooseMono(n, n', 3);
    ProductMono(n, n', p, p');
    ProductMono(Choose(n, 2), Choose(n', 2), BasePowerTwo(rate), BasePowerTwo(rate'));
    ProductMono(Choose(n, 3), Choose(n', 3), BasePowerThree(rate), BasePowerThree(rate'));
  }

  lemma ProductMono(a: int, a': int, b: int, b': int)
    requires 0 <= a <= a' && 0 <= b <= b'
    ensures 0 <= a * b <= a' * b'
  {
    MulNonNeg(a, b);
    MulMono(a, a', b);
    MulMono(b, b', a');
  }

  /** Only the elapsed time matters. */
  lemma CompoundedShift(rate: int, now: int, last: int)
    ensures CompoundedInterest(rate, now, last) == CompoundedInterest(rate, now - last, 0)
    ensures LinearInterest(rate, now, last) == LinearInterest(rate, now - last, 0)
  {
  }

  lemma CompoundedAtLeastRay(rate: int, now: int, last: int)
    requires 0 <= rate && last <= now
    ensures RAY <= CompoundedInterest(rate, now, last)
  {
    CompoundedShift(rate, now, last);
    CompoundedMono(rate, now - last, rate, now - last);
  }

  /** Linear growth is the yearly rate for the elapsed time, truncated. */
  lemma LinearAtLeastRay(rate: int, now: int, last: int)
    requires 0 <= rate && last <= now
    ensures RAY <= LinearInterest(rate, now, last)
    ensures var grown := LinearInterest(rate, now, last) - RAY;
      ONE_YEAR * grown <= rate * (now - last) < ONE_YEAR * grown + ONE_YEAR
  {
    MulNonNeg(rate, now - last);
    TruncDivBounds(rate * (now - last), ONE_YEAR);
  }

  /** A rate of zero, and no time at all, leave everything as it is. */
  lemma NothingAccrues(rate: int, now: int, last: int)
    requires rate == 0 || now == last
    requires last <= now
    ensures CompoundedInterest(rate, now, last) == RAY == LinearInterest(rate, now, last)
  {
    if rate == 0 {
      BasePowers(0);
      RayMulUnit(0);
    }
  }

  /** Truncating the rate to whole seconds is all that compounding can lose against linear growth: less than
      one unit for every elapsed second. */
  lemma LinearVersusCompounded(rate: int, now: int, last: int)
    requires 0 <= rate && last <= now
    ensures last < now ==> LinearInterest(rate, now, last) < CompoundedInterest(rate, now, last) + (now - last)
    ensures last == now ==> LinearInterest(rate, now, last) == CompoundedInterest(rate, now, last)
  {
    var n: nat := now - last;
    CompoundedIsExpansion(rate, now, last);
    BasePowers(rate);
    MulNonNeg(Choose(n, 2), BasePowerTwo(rate));
    MulNonNeg(Choose(n, 3), BasePowerThree(rate));
    TruncatedProduct(rate, n);
  }

  /** Truncating before multiplying by n loses less than n against truncating afterwards. */
  lemma TruncatedProduct(rate: int, n: nat)
    requires 0 <= rate
    ensures n * RatePerSecond(rate) <= TruncDiv(rate * n, ONE_YEAR)
    ensures 0 < n ==> TruncDiv(rate * n, ONE_YEAR) < n * RatePerSecond(rate) + n
  {
    BasePowers(rate);
    hide *;
    MulNonNeg(rate, n);
    TruncDivBounds(rate * n, ONE_YEAR);
    TimesSeconds(rate, RatePerSecond(rate), n);
  }

  lemma TimesSeconds(rate: int, p: int, n: nat)
    requires ONE_YEAR * p <= rate < ONE_YEAR * p + ONE_YEAR
    ensures ONE_YEAR * (n * p) <= rate * n <= ONE_YEAR * (n * p) + (ONE_YEAR - 1) * n
  {
    MulMono(ONE_YEAR * p, rate, n);
    MulMono(rate, ONE_YEAR * p + (ONE_YEAR - 1), n);
    Distribute(n, ONE_YEAR * p, ONE_YEAR - 1);
    assert ONE_YEAR * p * n == ONE_YEAR * (n * p);
  }

  // ---------- Touching a reserve more often ----------

  /** Twice the rounding loss of splitting a period of n + m seconds: one unit for every product of a rounded
      power that the single expansion contains. */
  function SplitSlack(n: nat, m: nat): int {
    n * m + n * Choose(m, 2) + m * Choose(n, 2)
  }

  /** What two expansions multiplied contain beyond the third order of a single one. */
  function DroppedTerms(n: int, n2: int, n3: int, m: int, m2: int, m3: int, p: int, two: int, three: int): int {
    (n * m3 + m * n3) * (p * three) + (n2 * two + n3 * three) * (m2 * two + m3 * three)
  }

  function Dropped(rate: int, n: nat, m: nat): int {
    DroppedTerms(n, Choose(n, 2), Choose(n, 3), m, Choose(m, 2), Choose(m, 3),
                 RatePerSecond(rate), BasePowerTwo(rate), BasePowerThree(rate))
  }

  /** Compounding n seconds on top of m seconds grows at least as much as compounding n + m seconds at once, up
      to the rounding of the powers; and by no more than the terms that a single expansion drops. */
  lemma SplitCompounded(rate: int, n: nat, m: nat)
    requires 0 <= rate
    ensures RAY * CompoundedInterest(rate, n + m, 0) - HALF_RAY * SplitSlack(n, m)
         <= CompoundedInterest(rate, n, 0) * CompoundedInterest(rate, m, 0)
         <= RAY * CompoundedInterest(rate, n + m, 0) + HALF_RAY * SplitSlack(n, m) + Dropped(rate, n, m)
    ensures 0 <= Dropped(rate, n, m)
  {
    CompoundedIsExpansion(rate, n, 0);
    CompoundedIsExpansion(rate, m, 0);
    CompoundedIsExpansion(rate, n + m, 0);
    Vandermonde(n, m);
    BasePowers(rate);
    hide CompoundedInterest, RatePerSecond, BasePowerTwo, BasePowerThree, Choose, DroppedTerms;
    ExpansionProduct(CompoundedInterest(rate, n, 0), n, Choose(n, 2), Choose(n, 3),
                     CompoundedInterest(rate, m, 0), m, Choose(m, 2), Choose(m, 3),
                     CompoundedInterest(rate, n + m, 0), Choose(n + m, 2), Choose(n + m, 3),
                     RatePerSecond(rate), BasePowerTwo(rate), BasePowerThree(rate));
  }

  /** The arithmetic of `SplitCompounded`, with the factors, coefficients and powers as plain numbers. */
  lemma ExpansionProduct(x: int, n: int, n2: int, n3: int, y: int, m: int, m2: int, m3: int,
                         once: int, both2: int, both3: int, p: int, two: int, three: int)
    requires 0 <= n && 0 <= n2 && 0 <= n3 && 0 <= m && 0 <= m2 && 0 <= m3
    requires 0 <= p && 0 <= two && 0 <= three
    requires RAY * two - HALF_RAY <= p * p <= RAY * two + HALF_RAY
    requires RAY * three - HALF_RAY <= two * p <= RAY * three + HALF_RAY
    requires x == RAY + n * p + n2 * two + n3 * three
    requires y == RAY + m * p + m2 * two + m3 * three
    requires once == RAY + (n + m) * p + both2 * two + both3 * three
    requires both2 == n2 + n * m + m2 && both3 == n3 + n2 * m + n * m2 + m3
    ensures RAY * once - HALF_RAY * (n * m + n * m2 + m * n2) <= x * y
         <= RAY * once + HALF_RAY * (n * m + n * m2 + m * n2) + DroppedTerms(n, n2, n3, m, m2, m3, p, two, three)
    ensures 0 <= DroppedTerms(n, n2, n3, m, m2, m3, p, two, three)
  {
    var an, am := n * p + n2 * two + n3 * three, m * p + m2 * two + m3 * three;
    var square, mixed := n * m, n * m2 + m * n2;
    MulNonNeg(n, m);
    MulNonNeg(n, m2);
    MulNonNeg(m, n2);
    GrowthProduct(n, n2, n3, m, m2, m3, p, two, three);
    DroppedNonNegative(n, n2, n3, m, m2, m3, p, two, three);
    RoundedTerm(square, two, p * p);
    RoundedTerm(mixed, three, two * p);
    Distribute(p, n, m);
    SplitSum(n2, square, m2, two);
    SplitSum(n3, mixed, m3, three);
    assert once == RAY + an + am + square * two + mixed * three;
    SquareOfSum(an, am);
    hide *;
  }

  lemma DroppedNonNegative(n: int, n2: int, n3: int, m: int, m2: int, m3: int, p: int, two: int, three: int)
    requires 0 <= n && 0 <= n2 && 0 <= n3 && 0 <= m && 0 <= m2 && 0 <= m3
    requires 0 <= p && 0 <= two && 0 <= three
    ensures 0 <= DroppedTerms(n, n2, n3, m, m2, m3, p, two, three)
  {
    MulNonNeg(n, m3);
    MulNonNeg(m, n3);
    MulNonNeg(p, three);
    MulNonNeg(n * m3 + m * n3, p * three);
    MulNonNeg(n2, two);
    MulNonNeg(m2, two);
    MulNonNeg(n3, three);
    MulNonNeg(m3, three);
    MulNonNeg(n2 * two + n3 * three, m2 * two + m3 * three);
  }

  lemma SquareOfSum(a: int, b: int)
    ensures (RAY + a) * (RAY + b) == RAY * RAY + RAY * a + RAY * b + a * b
  {
  }

  lemma SplitSum(a: int, b: int, c: int, d: int)
    ensures (a + b + c) * d == a * d + b * d + c * d
  {
  }

  lemma RoundedTerm(count: int, rounded: int, exact: int)
    requires 0 <= count && RAY * rounded - HALF_RAY <= exact <= RAY * rounded + HALF_RAY
    ensures RAY * (count * rounded) - HALF_RAY * count <= count * exact <= RAY * (count * rounded) + HALF_RAY * count
  {
    MulMono(RAY * rounded - HALF_RAY, exact, count);
    MulMono(exact, RAY * rounded + HALF_RAY, count);
    Distribute(count, RAY * rounded, HALF_RAY);
  }

  /** The product of two growths: the terms that the expansion of the sum adds, and those that it drops. */
  lemma GrowthProduct(n: int, n2: int, n3: int, m: int, m2: int, m3: int, p: int, two: int, three: int)
    ensures (n * p + n2 * two + n3 * three) * (m * p + m2 * two + m3 * three)
         == (n * m) * (p * p) + (n * m2 + m * n2) * (two * p) + DroppedTerms(n, n2, n3, m, m2, m3, p, two, three)
  {
    var np, mp := n * p, m * p;
    var n2t, n3t, m2t, m3t := n2 * two, n3 * three, m2 * two, m3 * three;
    NineProducts(np, n2t, n3t, mp, m2t, m3t);
    Regrouped(n, p, m, p);
    Regrouped(n, p, m2, two);
    Regrouped(m, p, n2, two);
    Regrouped(n, p, m3, three);
    Regrouped(m, p, n3, three);
    Distribute(two * p, n * m2, m * n2);
    Distribute(p * three, n * m3, m * n3);
  }

  lemma NineProducts(a: int, b: int, c: int, d: int, e: int, f: int)
    ensures (a + b + c) * (d + e + f) == a * d + a * e + d * b + a * f + d * c + (b + c) * (e + f)
  {
  }

  lemma Regrouped(a: int, b: int, c: int, d: int)
    ensures (a * b) * (c * d) == (a * c) * (b * d) == (a * c) * (d * b)
  {
  }

  lemma SplitLinear(rate: int, n: nat, m: nat)
    requires 0 <= rate
    ensures LinearInterest(rate, n, 0) * LinearInterest(rate, m, 0)
         >= RAY * LinearInterest(rate, n + m, 0) - HALF_RAY * 2
  {
    var a, b := rate * n, rate * m;
    MulNonNeg(rate, n);
    MulNonNeg(rate, m);
    Distribute(rate, n, m);
    var fn, fm := TruncDiv(a, ONE_YEAR), TruncDiv(b, ONE_YEAR);
    TruncDivBounds(a, ONE_YEAR);
    TruncDivBounds(b, ONE_YEAR);
    TruncDivBounds(a + b, ONE_YEAR);
    assert TruncDiv(a + b, ONE_YEAR) <= fn + fm + 1;
    GrownProduct(fn, fm);
  }

  lemma GrownProduct(a: int, b: int)
    requires 0 <= a && 0 <= b
    ensures (a + RAY) * (b + RAY) >= RAY * (RAY + a + b)
  {
    MulNonNeg(a, b);
  }

  /** If two factors multiply to a third up to slack, then applying them in turn to an index does, too. */
  lemma TwoTouches(x: int, y: int, once: int, slack: int, index: int)
    requires 0 <= x && 0 <= y && 0 <= once && 0 <= index
    requires x * y >= RAY * once - HALF_RAY * slack
    ensures 2 * RAY * (RayMul(once, index) - RayMul(x, RayMul(y, index))) < 2 * RAY + x + slack * index
  {
    var first := RayMul(y, index);
    RayMulRounds(y, index);
    RayMulRounds(x, first);
    RayMulRounds(once, index);
    ScaledTouch(x, y, index, first);
    SlackTouch(x * y, once, slack, index);
  }

  lemma ScaledTouch(x: int, y: int, index: int, first: int)
    requires 0 <= x && 2 * (y * index) - RAY <= 2 * RAY * first
    ensures 2 * RAY * (x * first) >= 2 * (x * y * index) - RAY * x
  {
    MulMono(2 * (y * index) - RAY, 2 * RAY * first, x);
    Distribute(x, 2 * (y * index), RAY);
    assert x * (2 * (y * index)) == 2 * (x * y * index);
  }

  lemma SlackTouch(product: int, once: int, slack: int, index: int)
    requires 0 <= index && product >= RAY * once - HALF_RAY * slack
    ensures product * index >= RAY * (once * index) - HALF_RAY * (slack * index)
  {
    MulMono(RAY * once - HALF_RAY * slack, product, index);
    Distribute(index, RAY * once, HALF_RAY * slack);
  }

  /** Touching a reserve after m of n + m seconds never lowers either index by more than the stated rounding. */
  lemma FrequentTouchesKeepGrowth(rate: int, n: nat, m: nat, index: int)
    requires 0 <= rate && 0 <= index
    ensures
      var twice := RayMul(CompoundedInterest(rate, n, 0), RayMul(CompoundedInterest(rate, m, 0), index));
      2 * RAY * (RayMul(CompoundedInterest(rate, n + m, 0), index) - twice)
      < 2 * RAY + CompoundedInterest(rate, n, 0) + SplitSlack(n, m) * index
    ensures
      var twice := RayMul(LinearInterest(rate, n, 0), RayMul(LinearInterest(rate, m, 0), index));
      2 * RAY * (RayMul(LinearInterest(rate, n + m, 0), index) - twice)
      < 2 * RAY + LinearInterest(rate, n, 0) + 2 * index
  {
    CompoundedAtLeastRay(rate, n, 0);
    CompoundedAtLeastRay(rate, m, 0);
    CompoundedAtLeastRay(rate, n + m, 0);
    SplitCompounded(rate, n, m);
    TwoTouches(CompoundedInterest(rate, n, 0), CompoundedInterest(rate, m, 0),
               CompoundedInterest(rate, n + m, 0), SplitSlack(n, m), index);
    LinearAtLeastRay(rate, n, 0);
    LinearAtLeastRay(rate, m, 0);
    LinearAtLeastRay(rate, n + m, 0);
    SplitLinear(rate, n, m);
    TwoTouches(LinearInterest(rate, n, 0), LinearInterest(rate, m, 0), LinearInterest(rate, n + m, 0), 2, index);
  }
}
