/** How the expansion of `Interest.CompoundedInterest` relates to true per-second compounding, over the reals. */
module Compounding {
  import opened FixedPoint
  import opened Interest

  /** Growth by a factor b in each of n seconds. */
  ghost function Power(b: real, n: nat): real {
    if n == 0 then 1.0 else b * Power(b, n - 1)
  }

  /** (1 + x)^n multiplied out one factor at a time, dropping every power of x above the k-th. */
  ghost function Truncated(x: real, n: nat, k: nat): real {
    if n == 0 || k == 0 then 1.0 else Truncated(x, n - 1, k) + x * Truncated(x, n - 1, k - 1)
  }

  // The unfoldings of the two definitions. The inductions below hide the definitions and use these instead.

  lemma PowerStep(b: real, n: nat)
    requires 0 < n
    ensures Power(b, n) == b * Power(b, n - 1)
  {
  }

  lemma PowerZero(b: real)
    ensures Power(b, 0) == 1.0
  {
  }

  lemma TruncatedStep(x: real, n: nat, k: nat)
    requires 0 < n && 0 < k
    ensures Truncated(x, n, k) == Truncated(x, n - 1, k) + x * Truncated(x, n - 1, k - 1)
  {
  }

  lemma TruncatedEnds(x: real, n: nat)
    ensures Truncated(x, 0, n) == 1.0 == Truncated(x, n, 0)
  {
  }

  lemma RealMono(a: real, b: real, c: real)
    requires a <= b && 0.0 <= c
    ensures c * a <= c * b
  {
  }

  lemma {:induction false} PowerNonNeg(b: real, n: nat)
    requires 0.0 <= b
    ensures 0.0 <= Power(b, n)
  {
    if n == 0 {
    } else {
      PowerNonNeg(b, n - 1);
      RealMono(0.0, Power(b, n - 1), b);
    }
  }

  /** A truncated expansion never exceeds the power it truncates, and is that power while no term is dropped. */
  lemma {:induction false} TruncatedBelow(x: real, n: nat, k: nat)
    requires 0.0 <= x
    ensures Truncated(x, n, k) <= Power(1.0 + x, n)
    ensures n <= k ==> Truncated(x, n, k) == Power(1.0 + x, n)
  {
    hide Truncated, Power;
    if n == 0 {
      TruncatedEnds(x, k);
      PowerZero(1.0 + x);
    } else {
      var power := Power(1.0 + x, n - 1);
      TruncatedBelow(x, n - 1, k);
      PowerStep(1.0 + x, n);
      assert (1.0 + x) * power == power + x * power;
      PowerNonNeg(1.0 + x, n - 1);
      RealMono(0.0, power, x);
      TruncatedEnds(x, n);
      TruncatedEnds(x, n - 1);
      if k > 0 {
        TruncatedStep(x, n, k);
        TruncatedBelow(x, n - 1, k - 1);
        RealMono(Truncated(x, n - 1, k - 1), power, x);
      }
    }
  }

  /** What the truncation misses: at most the first dropped term, grown over the whole period. */
  lemma {:induction false} TruncatedRemainder(x: real, n: nat, k: nat)
    requires 0.0 <= x
    ensures Power(1.0 + x, n) - Truncated(x, n, k)
         <= Choose(n, k + 1) as real * Power(x, k + 1) * Power(1.0 + x, n)
  {
    hide *;
    PowerNonNeg(x, k + 1);
    TruncatedEnds(x, k);
    TruncatedEnds(x, n);
    PowerZero(1.0 + x);
    if n == 0 {
      RealMono(0.0, Power(x, k + 1), Choose(0, k + 1) as real);
    } else {
      var m: nat := n - 1;
      PowerStep(1.0 + x, n);
      PowerStep(x, k + 1);
      PowerNonNeg(1.0 + x, m);
      PowerNonNeg(x, k);
      PowerZero(x);
      ChooseStep(n, k + 1);
      TruncatedEnds(x, m);
      TruncatedRemainder(x, m, k);
      var before := 0.0;
      if k > 0 {
        TruncatedRemainder(x, m, k - 1);
        TruncatedStep(x, n, k);
        before := Truncated(x, m, k - 1);
      }
      RemainderStep(x, Power(1.0 + x, m), Power(1.0 + x, n), Power(x, k), Power(x, k + 1),
                    Choose(m, k + 1) as real, Choose(m, k) as real, Choose(n, k + 1) as real,
                    Truncated(x, m, k), before, Truncated(x, n, k));
    }
  }

  /** The induction step of `TruncatedRemainder`, with every function value as a plain number. */
  lemma RemainderStep(x: real, pm: real, pn: real, xk: real, xk1: real, m1: real, m0: real, n1: real,
                      tm: real, before: real, tn: real)
    requires 0.0 <= x && 0.0 <= pm && 0.0 <= xk && xk1 == x * xk && pn == (1.0 + x) * pm
    requires 0.0 <= m1 && 0.0 <= m0 && n1 == m1 + m0
    requires tn == tm + x * before
    requires pm - tm <= m1 * xk1 * pm && pm - before <= m0 * xk * pm
    ensures pn - tn <= n1 * xk1 * pn
  {
    RealMono(pm - before, m0 * xk * pm, x);
    Spread(x, pm, -before);
    TermStep(x, m1, m0, n1, xk1, xk);
    assert x * (m0 * xk * pm) == x * (m0 * xk) * pm;
    Spread(pm, m1 * xk1, x * (m0 * xk));
    GrowthMono(n1, xk1, pm, pn, x);
  }

  lemma GrowthMono(n1: real, xk1: real, pm: real, pn: real, x: real)
    requires 0.0 <= x && 0.0 <= pm && pn == (1.0 + x) * pm && 0.0 <= n1 && 0.0 <= xk1
    ensures n1 * xk1 * pm <= n1 * xk1 * pn
  {
    RealMono(0.0, x, pm);
    RealMono(0.0, n1, xk1);
    RealMono(pm, pn, n1 * xk1);
  }

  /** With every further order the expansion can only grow, and it is never below one. */
  lemma {:induction false} TruncatedMono(x: real, n: nat, k: nat)
    requires 0.0 <= x && 0 < k
    ensures 1.0 <= Truncated(x, n, k - 1) <= Truncated(x, n, k)
  {
    hide *;
    TruncatedEnds(x, k);
    TruncatedEnds(x, k - 1);
    TruncatedEnds(x, n);
    if n > 0 {
      TruncatedMono(x, n - 1, k);
      TruncatedStep(x, n, k);
      RealMono(0.0, Truncated(x, n - 1, k - 1), x);
      TruncatedEnds(x, n - 1);
      if k > 1 {
        TruncatedMono(x, n - 1, k - 1);
        TruncatedStep(x, n, k - 1);
        RealMono(Truncated(x, n - 1, k - 2), Truncated(x, n - 1, k - 1), x);
      }
    }
  }

  /** Without rounding, touching a reserve in between never lowers its growth, at every order of the expansion. */
  lemma {:induction false} TouchesKeepExpansion(x: real, n: nat, m: nat, k: nat)
    requires 0.0 <= x
    ensures Truncated(x, n + m, k) <= Truncated(x, n, k) * Truncated(x, m, k)
  {
    hide *;
    TruncatedEnds(x, k);
    TruncatedEnds(x, n + m);
    TruncatedEnds(x, n);
    TruncatedEnds(x, m);
    if n > 0 && k > 0 {
      var a, b := Truncated(x, n - 1, k), Truncated(x, n - 1, k - 1);
      var c, d := Truncated(x, m, k), Truncated(x, m, k - 1);
      TouchesKeepExpansion(x, n - 1, m, k);
      TouchesKeepExpansion(x, n - 1, m, k - 1);
      TruncatedStep(x, n + m, k);
      TruncatedStep(x, n, k);
      TruncatedMono(x, m, k);
      TruncatedMono(x, n - 1, k);
      assert n + m - 1 == n - 1 + m;
      TouchStep(x, Truncated(x, n - 1 + m, k), Truncated(x, n - 1 + m, k - 1), a, b, c, d);
    }
  }

  lemma TouchStep(x: real, ac: real, bd: real, a: real, b: real, c: real, d: real)
    requires 0.0 <= x && ac <= a * c && bd <= b * d && d <= c && 0.0 <= b
    ensures ac + x * bd <= (a + x * b) * c
  {
    RealMono(d, c, b);
    RealMono(bd, b * c, x);
    assert (a + x * b) * c == a * c + x * (b * c);
  }

  /** Each order adds one binomial term. */
  lemma {:induction false} TruncatedTerm(x: real, n: nat, k: nat)
    requires 0 < k
    ensures Truncated(x, n, k) == Truncated(x, n, k - 1) + Choose(n, k) as real * Power(x, k)
  {
    hide *;
    if n == 0 {
      TruncatedEnds(x, k);
      TruncatedEnds(x, k - 1);
      ChooseZero(k);
    } else {
      var m: nat := n - 1;
      ChooseStep(n, k);
      TruncatedTerm(x, m, k);
      TruncatedStep(x, n, k);
      PowerStep(x, k);
      TermStep(x, Choose(m, k) as real, Choose(m, k - 1) as real, Choose(n, k) as real, Power(x, k), Power(x, k - 1));
      if k == 1 {
        TruncatedEnds(x, n);
        TruncatedEnds(x, m);
        PowerZero(x);
      } else {
        TruncatedTerm(x, m, k - 1);
        TruncatedStep(x, n, k - 1);
        Spread(x, Truncated(x, m, k - 2), Choose(m, k - 1) as real * Power(x, k - 1));
      }
    }
  }

  lemma TermStep(x: real, m1: real, m0: real, n1: real, xk: real, xk0: real)
    requires xk == x * xk0 && n1 == m1 + m0
    ensures n1 * xk == m1 * xk + x * (m0 * xk0)
  {
  }

  lemma Spread(x: real, a: real, b: real)
    ensures x * (a + b) == x * a + x * b
  {
  }

  /** The third-order expansion written out. */
  lemma CubicWrittenOut(x: real, n: nat)
    ensures Truncated(x, n, 3)
         == 1.0 + n as real * x + Choose(n, 2) as real * (x * x) + Choose(n, 3) as real * (x * x * x)
  {
    hide Truncated, Power, Choose;
    TruncatedTerm(x, n, 3);
    TruncatedTerm(x, n, 2);
    TruncatedTerm(x, n, 1);
    TruncatedEnds(x, n);
    ChooseClosed(n);
    SmallPowers(x);
  }

  lemma SmallPowers(x: real)
    ensures Power(x, 1) == x && Power(x, 2) == x * x && Power(x, 3) == x * x * x
  {
    hide Power;
    PowerZero(x);
    PowerStep(x, 1);
    PowerStep(x, 2);
    PowerStep(x, 3);
    assert x * (x * x) == x * x * x;
  }

  /** Half a unit for each rounded square and cube, where the cube inherits the rounding of the square. */
  ghost function PowerSlack(x: real, n: nat): real {
    Choose(n, 2) as real * 0.5 + Choose(n, 3) as real * (0.5 * (1.0 + x))
  }

  /** With its rounded powers the code stays within `PowerSlack` of the expansion. */
  lemma CompoundedNearCubic(rate: int, n: nat, x: real)
    requires 0 <= rate && RAY as real * x == RatePerSecond(rate) as real
    ensures -PowerSlack(x, n) <= CompoundedInterest(rate, n, 0) as real - RAY as real * Truncated(x, n, 3)
          <= PowerSlack(x, n)
  {
    hide *;
    var two, three := BasePowerTwo(rate) as real, BasePowerThree(rate) as real;
    RoundedPowers(rate, x);
    ErrorSum(rate, n, x);
    SlackWrittenOut(x, n);
    WeightedErrors(Choose(n, 2) as real, two - RAY as real * (x * x), 0.5,
                   Choose(n, 3) as real, three - RAY as real * (x * x * x), 0.5 * (1.0 + x), PowerSlack(x, n));
  }

  lemma SlackWrittenOut(x: real, n: nat)
    ensures PowerSlack(x, n) == Choose(n, 2) as real * 0.5 + Choose(n, 3) as real * (0.5 * (1.0 + x))
  {
  }

  lemma RoundedPowers(rate: int, x: real)
    requires 0 <= rate && RAY as real * x == RatePerSecond(rate) as real
    ensures -0.5 <= BasePowerTwo(rate) as real - RAY as real * (x * x) <= 0.5
    ensures -(0.5 * (1.0 + x)) <= BasePowerThree(rate) as real - RAY as real * (x * x * x) <= 0.5 * (1.0 + x)
  {
    hide *;
    NearestSquare(rate, x);
    NearestCube(rate, x);
    CubeError(RAY as real, x, RatePerSecond(rate) as real, BasePowerTwo(rate) as real, BasePowerThree(rate) as real);
  }

  lemma PowersRound(rate: int)
    requires 0 <= rate
    ensures
      var p, two := RatePerSecond(rate), BasePowerTwo(rate);
      2 * RAY * two <= 2 * (p * p) + RAY < 2 * RAY * two + 2 * RAY
    ensures
      var p, two, three := RatePerSecond(rate), BasePowerTwo(rate), BasePowerThree(rate);
      2 * RAY * three <= 2 * (two * p) + RAY < 2 * RAY * three + 2 * RAY
  {
    BasePowers(rate);
    hide *;
  }

  lemma NearestSquare(rate: int, x: real)
    requires 0 <= rate && RAY as real * x == RatePerSecond(rate) as real
    ensures 0.0 <= x
    ensures -0.5 <= BasePowerTwo(rate) as real - RatePerSecond(rate) as real * x <= 0.5
  {
    hide RatePerSecond, BasePowerTwo;
    RateNonNegative(rate);
    NonNegativeShare(RatePerSecond(rate), x);
    PowersRound(rate);
    NearestAsReal(RatePerSecond(rate), RatePerSecond(rate), BasePowerTwo(rate), x);
  }

  lemma RateNonNegative(rate: int)
    requires 0 <= rate
    ensures 0 <= RatePerSecond(rate)
  {
    BasePowers(rate);
    hide *;
  }

  lemma NearestCube(rate: int, x: real)
    requires 0 <= rate && RAY as real * x == RatePerSecond(rate) as real
    ensures -0.5 <= BasePowerThree(rate) as real - BasePowerTwo(rate) as real * x <= 0.5
  {
    hide RatePerSecond, BasePowerTwo, BasePowerThree;
    PowersRound(rate);
    NearestAsReal(BasePowerTwo(rate), RatePerSecond(rate), BasePowerThree(rate), x);
  }

  lemma NonNegativeShare(p: int, x: real)
    requires 0 <= p && RAY as real * x == p as real
    ensures 0.0 <= x
  {
  }

  lemma NearestAsReal(a: int, p: int, m: int, x: real)
    requires RAY as real * x == p as real
    requires 2 * RAY * m <= 2 * (a * p) + RAY < 2 * RAY * m + 2 * RAY
    ensures -0.5 <= m as real - a as real * x <= 0.5
  {
    ProductAsReal(a, p);
    RoundedProduct(RAY as real, x, a as real, p as real, m as real);
  }

  /** A product by p = r * x, rounded to the nearest multiple of r, is the product by x within half a unit. */
  lemma RoundedProduct(r: real, x: real, a: real, p: real, m: real)
    requires 0.0 < r && r * x == p
    requires 2.0 * r * m <= 2.0 * (a * p) + r <= 2.0 * r * m + 2.0 * r
    ensures -0.5 <= m - a * x <= 0.5
  {
    assert a * p == r * (a * x);
  }

  /** The rounding of the square enters the cube once more. */
  lemma CubeError(r: real, x: real, p: real, two: real, three: real)
    requires 0.0 <= x && r * x == p && -0.5 <= two - p * x <= 0.5 && -0.5 <= three - two * x <= 0.5
    ensures -0.5 <= two - r * (x * x) <= 0.5
    ensures -(0.5 * (1.0 + x)) <= three - r * (x * x * x) <= 0.5 * (1.0 + x)
  {
    var e := two - p * x;
    RealMono(e, 0.5, x);
    RealMono(-0.5, e, x);
    assert p * x == r * (x * x);
    assert x * e == two * x - r * (x * x * x) by {
      assert x * (p * x) == r * (x * x * x);
      Spread(x, two, -(p * x));
    }
    AddErrors(x, x * e, two * x, r * (x * x * x), three);
  }

  lemma AddErrors(x: real, xe: real, product: real, cube: real, three: real)
    requires -(0.5 * x) <= xe <= 0.5 * x && xe == product - cube && -0.5 <= three - product <= 0.5
    ensures -(0.5 * (1.0 + x)) <= three - cube <= 0.5 * (1.0 + x)
  {
  }

  /** The expansion differs from the code by the weighted rounding errors of its powers. */
  lemma ErrorSum(rate: int, n: nat, x: real)
    requires 0 <= rate && RAY as real * x == RatePerSecond(rate) as real
    ensures CompoundedInterest(rate, n, 0) as real - RAY as real * Truncated(x, n, 3)
         == Choose(n, 2) as real * (BasePowerTwo(rate) as real - RAY as real * (x * x))
          + Choose(n, 3) as real * (BasePowerThree(rate) as real - RAY as real * (x * x * x))
  {
    hide *;
    CompoundedIsExpansion(rate, n, 0);
    CubicWrittenOut(x, n);
    SumAsReal(n, RatePerSecond(rate), Choose(n, 2), BasePowerTwo(rate), Choose(n, 3), BasePowerThree(rate));
    SumOfErrors(RAY as real, x, n as real, Choose(n, 2) as real, Choose(n, 3) as real, RatePerSecond(rate) as real,
                BasePowerTwo(rate) as real, BasePowerThree(rate) as real, Truncated(x, n, 3));
  }

  lemma ProductAsReal(a: int, b: int)
    ensures (a * b) as real == a as real * b as real
  {
  }

  lemma SumAsReal(n: int, p: int, n2: int, two: int, n3: int, three: int)
    ensures (RAY + n * p + n2 * two + n3 * three) as real
         == RAY as real + n as real * p as real + n2 as real * two as real + n3 as real * three as real
  {
    ProductAsReal(n, p);
    ProductAsReal(n2, two);
    ProductAsReal(n3, three);
  }

  lemma WeightedErrors(w: real, e: real, bound: real, w': real, e': real, bound': real, slack: real)
    requires 0.0 <= w && -bound <= e <= bound && 0.0 <= w' && -bound' <= e' <= bound'
    requires slack == w * bound + w' * bound'
    ensures -slack <= w * e + w' * e' <= slack
  {
    RealMono(e, bound, w);
    RealMono(-bound, e, w);
    RealMono(e', bound', w');
    RealMono(-bound', e', w');
  }

  lemma SumOfErrors(r: real, x: real, n: real, n2: real, n3: real, p: real, two: real, three: real, cubic: real)
    requires r * x == p
    requires cubic == 1.0 + n * x + n2 * (x * x) + n3 * (x * x * x)
    ensures r + n * p + n2 * two + n3 * three - r * cubic
         == n2 * (two - r * (x * x)) + n3 * (three - r * (x * x * x))
  {
  }

  /** The charged factor against per-second compounding, from both sides: never above it by more than the
      rounding of the powers, never below it by more than that rounding and the dropped fourth order. */
  lemma CompoundedRefinesPerSecond(rate: int, n: nat, x: real)
    requires 0 <= rate && RAY as real * x == RatePerSecond(rate) as real
    ensures
      var exact := RAY as real * Power(1.0 + x, n);
      var charged := CompoundedInterest(rate, n, 0) as real;
      && charged <= exact + PowerSlack(x, n)
      && exact <= charged + PowerSlack(x, n) + Choose(n, 4) as real * Power(x, 4) * exact
      && (n <= 3 ==> exact <= charged + PowerSlack(x, n))
  {
    hide Truncated, Power, CompoundedInterest, PowerSlack;
    CompoundedNearCubic(rate, n, x);
    TruncatedBelow(x, n, 3);
    TruncatedRemainder(x, n, 3);
    ScaledBounds(RAY as real, Truncated(x, n, 3), Power(1.0 + x, n), Choose(n, 4) as real * Power(x, 4));
  }

  lemma ScaledBounds(r: real, cubic: real, power: real, remainder: real)
    requires 0.0 <= r && cubic <= power <= cubic + remainder * power
    ensures r * cubic <= r * power <= r * cubic + remainder * (r * power)
  {
    RealMono(cubic, power, r);
    RealMono(power, cubic + remainder * power, r);
    assert r * (remainder * power) == remainder * (r * power);
  }
}
