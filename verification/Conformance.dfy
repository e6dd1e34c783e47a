/** The expected rates against the rates of the contracts. Both round, but in a different order; the comparison of
    expected and actual records allows three units. */
module Conformance {
  import opened Divisors
  import opened FixedPoint
  import opened RateStrategy
  import opened Records
  import opened ReserveSteps
  import opened StableAverage
  import opened Tolerance

  // ---------- The variable rate ----------

  /** Up to the optimal utilisation the contract multiplies by the slope before it divides. */
  function ContractVariableRate(s: Strategy, utilization: int): int
    requires s.Valid()
  {
    if utilization > s.optimalUtilizationRate then
      s.baseVariableBorrowRate + s.variableRateSlope1
      + RayMul(s.variableRateSlope2, RayDiv(utilization - s.optimalUtilizationRate, RAY - s.optimalUtilizationRate))
    else
      s.baseVariableBorrowRate + RayDiv(RayMul(utilization, s.variableRateSlope1), s.optimalUtilizationRate)
  }

  /** The expected and the actual variable rate are almost equal for every utilisation, as long as the first slope is
      moderate and the optimal utilisation not too small: slope1 / RAY + RAY / optimal < 6. */
  lemma VariableRateConforms(s: Strategy, utilization: int)
    requires s.Valid() && 0 <= utilization
    requires s.optimalUtilizationRate * s.variableRateSlope1 + RAY * RAY < 6 * RAY * s.optimalUtilizationRate
    ensures AlmostEqual(ContractVariableRate(s, utilization), VariableBorrowRate(s, utilization))
  {
    if utilization <= s.optimalUtilizationRate {
      var optimal, slope := s.optimalUtilizationRate, s.variableRateSlope1;
      var ratio := RayDiv(utilization, optimal);
      var product := RayMul(utilization, slope);
      RayDivRounds(utilization, optimal);
      RayMulRounds(slope, ratio);
      RayMulRounds(utilization, slope);
      RayDivRounds(product, optimal);
      hide *;
      OrdersOfRounding(utilization, slope, optimal, ratio, RayMul(slope, ratio), product, RayDiv(product, optimal));
      AlmostEqualIffWithinThree(s.baseVariableBorrowRate + RayDiv(product, optimal),
                                s.baseVariableBorrowRate + RayMul(slope, ratio));
      VariableRatesWrittenOut(s, utilization);
    } else {
      AlmostEqualIffWithinThree(ContractVariableRate(s, utilization), VariableBorrowRate(s, utilization));
    }
  }

  lemma VariableRatesWrittenOut(s: Strategy, utilization: int)
    requires s.Valid() && utilization <= s.optimalUtilizationRate
    ensures ContractVariableRate(s, utilization)
         == s.baseVariableBorrowRate + RayDiv(RayMul(utilization, s.variableRateSlope1), s.optimalUtilizationRate)
    ensures VariableBorrowRate(s, utilization)
         == s.baseVariableBorrowRate + RayMul(s.variableRateSlope1, RayDiv(utilization, s.optimalUtilizationRate))
  {
  }

  /** Dividing first against multiplying first. */
  lemma OrdersOfRounding(u: int, slope: int, optimal: int, ratio: int, divided: int, product: int, multiplied: int)
    requires 0 <= slope && 0 < optimal
    requires optimal * slope + RAY * RAY < 6 * RAY * optimal
    requires 2 * (optimal * ratio) <= 2 * RAY * u + optimal < 2 * (optimal * ratio) + 2 * optimal
    requires 2 * RAY * divided <= 2 * (slope * ratio) + RAY < 2 * RAY * divided + 2 * RAY
    requires 2 * RAY * product <= 2 * (u * slope) + RAY < 2 * RAY * product + 2 * RAY
    requires 2 * (optimal * multiplied) <= 2 * RAY * product + optimal < 2 * (optimal * multiplied) + 2 * optimal
    ensures -3 <= multiplied - divided <= 3
  {
    BranchBounds(u, slope, optimal, ratio, divided);
    Distribute(optimal, multiplied, divided);
    BetweenRoundings(u * slope, optimal, optimal * slope, optimal * divided, product, optimal * multiplied);
    MulCancel(multiplied - divided, 4, optimal);
    MulCancel(-4, multiplied - divided, optimal);
  }

  lemma BetweenRoundings(exact: int, optimal: int, weight: int, divided: int, product: int, multiplied: int)
    requires weight + RAY * RAY < 6 * RAY * optimal
    requires 2 * RAY * exact - RAY * optimal - weight <= 2 * RAY * divided <= 2 * RAY * exact + RAY * optimal + weight
    requires 2 * RAY * product <= 2 * exact + RAY < 2 * RAY * product + 2 * RAY
    requires 2 * multiplied <= 2 * RAY * product + optimal < 2 * multiplied + 2 * optimal
    ensures -(4 * optimal) < multiplied - divided < 4 * optimal
  {
  }

  /** At the optimal utilisation the two rates are almost equal, whatever the first slope. */
  ghost predicate OptimumConforms(s: Strategy)
    requires s.Valid()
  {
    forall slope: int :: 0 <= slope ==>
      AlmostEqual(ContractVariableRate(s.(variableRateSlope1 := slope), s.optimalUtilizationRate),
                  VariableBorrowRate(s.(variableRateSlope1 := slope), s.optimalUtilizationRate))
  }

  /** They are exactly if the optimum is more than a seventh of a ray. */
  lemma OptimumConformsIff(s: Strategy)
    requires s.Valid()
    ensures OptimumConforms(s) <==> RAY < 7 * s.optimalUtilizationRate
  {
    var optimal := s.optimalUtilizationRate;
    if RAY < 7 * optimal {
      forall slope: int | 0 <= slope
        ensures AlmostEqual(ContractVariableRate(s.(variableRateSlope1 := slope), optimal),
                            VariableBorrowRate(s.(variableRateSlope1 := slope), optimal))
      {
        RatesAtOptimum(s, slope);
        RoundTripWithin(slope, optimal);
      }
    } else {
      var slope := RoundTripGains(optimal);
      RatesAtOptimum(s, slope);
      assert !AlmostEqual(ContractVariableRate(s.(variableRateSlope1 := slope), optimal),
                          VariableBorrowRate(s.(variableRateSlope1 := slope), optimal));
    }
  }

  /** At a given utilisation the two rates are almost equal, whatever the first slope. */
  ghost predicate ConformsAt(s: Strategy, utilization: int)
    requires s.Valid()
  {
    forall slope: int :: 0 <= slope ==>
      AlmostEqual(ContractVariableRate(s.(variableRateSlope1 := slope), utilization),
                  VariableBorrowRate(s.(variableRateSlope1 := slope), utilization))
  }

  /** The share of the optimum that is used is a whole number of rays. */
  predicate ExactShare(s: Strategy, utilization: int)
    requires s.Valid()
  {
    s.optimalUtilizationRate * RayDiv(utilization, s.optimalUtilizationRate) == RAY * utilization
  }

  /** They are beyond the optimum; up to it, they differ for some slope wherever the share is rounded. Where it is not,
      they are almost equal for every optimum of more than a sixth of a ray. */
  lemma ConformsAtIff(s: Strategy, utilization: int)
    requires s.Valid() && 0 <= utilization
    ensures s.optimalUtilizationRate < utilization ==> ConformsAt(s, utilization)
    ensures utilization <= s.optimalUtilizationRate && !ExactShare(s, utilization) ==> !ConformsAt(s, utilization)
    ensures utilization <= s.optimalUtilizationRate && RAY < 6 * s.optimalUtilizationRate ==>
      (ConformsAt(s, utilization) <==> ExactShare(s, utilization))
  {
    var optimal := s.optimalUtilizationRate;
    if utilization <= optimal {
      hide RayMul, RayDiv, AlmostEqual;
      if !ExactShare(s, utilization) {
        var slope := 4 * RAY * optimal;
        VariableRatesWrittenOut(s.(variableRateSlope1 := slope), utilization);
        RoundedShareDiffers(utilization, optimal, s.baseVariableBorrowRate);
        assert !AlmostEqual(ContractVariableRate(s.(variableRateSlope1 := slope), utilization),
                            VariableBorrowRate(s.(variableRateSlope1 := slope), utilization));
      } else if RAY < 6 * optimal {
        forall slope: int | 0 <= slope
          ensures AlmostEqual(ContractVariableRate(s.(variableRateSlope1 := slope), utilization),
                              VariableBorrowRate(s.(variableRateSlope1 := slope), utilization))
        {
          VariableRatesWrittenOut(s.(variableRateSlope1 := slope), utilization);
          ExactShareConforms(utilization, optimal, slope);
          AlmostEqualIffWithinThree(s.baseVariableBorrowRate + RayDiv(RayMul(utilization, slope), optimal),
                                    s.baseVariableBorrowRate + RayMul(slope, RayDiv(utilization, optimal)));
        }
      }
    }
  }

  /** A slope of four optima per ray makes the rounding of the share show undivided. */
  lemma RoundedShareDiffers(u: int, optimal: int, base: int)
    requires 0 <= u && 0 < optimal && optimal * RayDiv(u, optimal) != RAY * u
    ensures
      var slope := 4 * RAY * optimal;
      !AlmostEqual(base + RayDiv(RayMul(u, slope), optimal), base + RayMul(slope, RayDiv(u, optimal)))
  {
    var ratio := RayDiv(u, optimal);
    RayDivRounds(u, optimal);
    hide RayMul, RayDiv;
    WholeProducts(u, optimal);
    WholeProducts(ratio, optimal);
    WholeQuotient(u, optimal);
  }

  /** Four optima per ray times a rate are a whole number. */
  lemma WholeProducts(rate: int, optimal: int)
    requires 0 <= rate && 0 < optimal
    ensures RayMul(rate, 4 * RAY * optimal) == 4 * (optimal * rate) == RayMul(4 * RAY * optimal, rate)
  {
    MulNonNeg(optimal, rate);
    assert rate * (4 * RAY * optimal) == RAY * (4 * (optimal * rate)) == (4 * RAY * optimal) * rate;
    RayMulIs(rate, 4 * RAY * optimal, 4 * (optimal * rate));
    RayMulIs(4 * RAY * optimal, rate, 4 * (optimal * rate));
  }

  lemma WholeQuotient(u: int, optimal: int)
    requires 0 <= u && 0 < optimal
    ensures RayDiv(4 * (optimal * u), optimal) == 4 * (RAY * u)
  {
    MulNonNeg(optimal, u);
    assert optimal * (4 * (RAY * u)) == RAY * (4 * (optimal * u));
    RayDivIs(4 * (optimal * u), optimal, 4 * (RAY * u));
  }

  lemma ExactShareConforms(u: int, optimal: int, slope: int)
    requires 0 <= u && 0 <= slope && 0 < optimal && RAY < 6 * optimal
    requires optimal * RayDiv(u, optimal) == RAY * u
    ensures -3 <= RayDiv(RayMul(u, slope), optimal) - RayMul(slope, RayDiv(u, optimal)) <= 3
  {
    var ratio, product := RayDiv(u, optimal), RayMul(u, slope);
    RayDivRounds(u, optimal);
    RayMulRounds(slope, ratio);
    RayMulRounds(u, slope);
    RayDivRounds(product, optimal);
    hide *;
    ExactOrders(u, slope, optimal, ratio, RayMul(slope, ratio), product, RayDiv(product, optimal));
  }

  lemma ExactOrders(u: int, slope: int, optimal: int, ratio: int, divided: int, product: int, multiplied: int)
    requires 0 <= slope && 0 < optimal && RAY < 6 * optimal && optimal * ratio == RAY * u
    requires 2 * RAY * divided <= 2 * (slope * ratio) + RAY < 2 * RAY * divided + 2 * RAY
    requires 2 * RAY * product <= 2 * (u * slope) + RAY < 2 * RAY * product + 2 * RAY
    requires 2 * (optimal * multiplied) <= 2 * RAY * product + optimal < 2 * (optimal * multiplied) + 2 * optimal
    ensures -3 <= multiplied - divided <= 3
  {
    hide *;
    TimesOptimum(slope * ratio, divided, optimal);
    SameProduct(u, slope, optimal, ratio);
    ExactGap(u * slope, optimal, optimal * divided, product, optimal * multiplied);
    WithinFour(optimal, multiplied, divided);
  }

  lemma TimesOptimum(exact: int, rounded: int, optimal: int)
    requires 0 < optimal && 2 * RAY * rounded <= 2 * exact + RAY < 2 * RAY * rounded + 2 * RAY
    ensures optimal * (2 * exact) - RAY * optimal <= 2 * RAY * (optimal * rounded)
         <= optimal * (2 * exact) + RAY * optimal
  {
    MulMono(2 * RAY * rounded, 2 * exact + RAY, optimal);
    MulMono(2 * exact - RAY, 2 * RAY * rounded, optimal);
    Distribute(optimal, 2 * exact, RAY);
    assert optimal * (2 * RAY * rounded) == 2 * RAY * (optimal * rounded);
  }

  lemma ExactGap(exact: int, optimal: int, divided: int, product: int, multiplied: int)
    requires 0 < optimal && RAY < 6 * optimal
    requires 2 * RAY * exact - RAY * optimal <= 2 * RAY * divided <= 2 * RAY * exact + RAY * optimal
    requires 2 * RAY * product <= 2 * exact + RAY < 2 * RAY * product + 2 * RAY
    requires 2 * multiplied <= 2 * RAY * product + optimal < 2 * multiplied + 2 * optimal
    ensures -4 * optimal < multiplied - divided < 4 * optimal
  {
  }

  lemma SameProduct(u: int, slope: int, optimal: int, ratio: int)
    requires optimal * ratio == RAY * u
    ensures optimal * (2 * (slope * ratio)) == 2 * RAY * (u * slope)
  {
    assert optimal * (2 * (slope * ratio)) == 2 * (slope * (optimal * ratio));
    assert slope * (RAY * u) == RAY * (u * slope);
  }

  lemma RatesAtOptimum(s: Strategy, slope: int)
    requires s.Valid() && 0 <= slope
    ensures
      var steep, optimal := s.(variableRateSlope1 := slope), s.optimalUtilizationRate;
      && VariableBorrowRate(steep, optimal) == s.baseVariableBorrowRate + slope
      && ContractVariableRate(steep, optimal) == s.baseVariableBorrowRate + RayDiv(RayMul(slope, optimal), optimal)
  {
    var steep := s.(variableRateSlope1 := slope);
    CurveMeetsAtOptimum(steep, s.baseVariableBorrowRate, slope, s.variableRateSlope2);
    VariableRatesWrittenOut(steep, s.optimalUtilizationRate);
    RayMulCommutes(slope, s.optimalUtilizationRate);
    hide RayMul, RayDiv;
  }

  /** Scaling up by more than a seventh of a ray and down again stays within the tolerance. */
  lemma RoundTripWithin(amount: int, i: int)
    requires 0 <= amount && 0 < i && RAY < 7 * i
    ensures -3 <= RayDiv(RayMul(amount, i), i) - amount <= 3
  {
    var m := RayMul(amount, i);
    RayMulRounds(amount, i);
    RayDivRounds(m, i);
    var q := RayDiv(m, i);
    hide RayMul, RayDiv;
    Distribute(i, q, amount);
    MulCancel(q - amount, 4, i);
    MulCancel(-4, q - amount, i);
  }

  /** Scaling some amount up by at most a seventh of a ray and down again gains more than the tolerance: the first
      rounding adds three and a half times the factor, or the next step of its grid. */
  lemma RoundTripGains(i: nat) returns (amount: nat)
    requires 0 < i && 7 * i <= RAY
    ensures RayDiv(RayMul(amount, i), i) >= amount + 4
  {
    var j, k := GcdDivides(i, RAY);
    var up: int := (7 * j + 1) / 2;
    GridStep(i, j, k, Gcd(i, RAY));
    hide Gcd, IsTimes;
    var m: nat;
    amount, m := Reach(i, RAY, -up);
    NegatedTimes(up, Gcd(i, RAY));
    GainsAbove(amount, i, m, up * Gcd(i, RAY));
  }

  lemma NegatedTimes(a: int, b: int)
    ensures -a * b == -(a * b)
  {
  }

  lemma GainsAbove(amount: nat, i: nat, m: nat, above: int)
    requires amount * i - m * RAY == -above && 0 < 7 * i <= 2 * above <= RAY
    ensures RayDiv(RayMul(amount, i), i) >= amount + 4
  {
    RayMulIs(amount, i, m);
    RayDivRounds(m, i);
    var q := RayDiv(m, i);
    hide RayMul, RayDiv;
    Distribute(i, q, amount);
    MulCancel(3, q - amount, i);
  }

  lemma GridStep(i: int, j: int, k: int, g: int)
    requires 0 < g && 0 < i == j * g && RAY == k * g && 7 * i <= RAY
    ensures 7 * i <= 2 * (((7 * j + 1) / 2) * g) <= RAY
  {
    var up := (7 * j + 1) / 2;
    assert 7 * j <= 2 * up <= 7 * j + 1;
    MulMono(7 * j, 2 * up, g);
    assert 7 * i < RAY;
    assert 7 * j < k by {
      assert (7 * j) * g < k * g;
      MulCancel(7 * j, k, g);
    }
    MulMono(2 * up, k, g);
    assert (2 * up) * g == 2 * (up * g);
  }

  // ---------- The average stable rate ----------

  /** The contract weighs both rates in ray before it divides, when debt is minted; the rate of one user is computed
      in the same way. */
  function ContractAverageRate(average: int, total: int, amount: int, rate: int): int
    requires total + amount != 0
  {
    RayDiv(RayMul(average, WadToRay(total)) + RayMul(rate, WadToRay(amount)), WadToRay(total + amount))
  }

  /** One weight, rounded to ray and counted in wads. */
  lemma WeightRounds(rate: int, debt: int)
    requires 0 <= rate && 0 <= debt
    ensures
      var weight := RayMul(rate, WadToRay(debt));
      0 <= weight && 2 * WAD * weight <= 2 * (rate * debt) + WAD < 2 * WAD * weight + 2 * WAD
  {
    RayMulRounds(rate, WadToRay(debt));
    WadTimes(debt, rate);
    hide RayMul;
  }

  /** The quotient of the contract, in units of the debt. */
  lemma QuotientRounds(weight: int, debt: int)
    requires 0 <= weight && 0 < debt
    ensures
      var actual := debt * RayDiv(weight, WadToRay(debt));
      2 * actual <= 2 * WAD * weight + debt < 2 * actual + 2 * debt
  {
    RayDivRounds(weight, WadToRay(debt));
    WadTimes(debt, RayDiv(weight, WadToRay(debt)));
    hide RayDiv;
  }

  /** After a borrow the expected and the actual average stable rate differ by less than two units and one wad spread
      over the new total. */
  lemma AverageRateConforms(average: int, total: int, amount: int, rate: int)
    requires 0 <= average && 0 <= total && 0 <= amount && 0 <= rate && 0 < total + amount
    ensures
      var debt := total + amount;
      var gap := ContractAverageRate(average, total, amount, rate) - AverageStableRate(average, total, amount, rate);
      -2 * WAD - debt < 2 * (debt * gap) < 2 * WAD + 3 * debt
  {
    var debt := total + amount;
    var weight := RayMul(average, WadToRay(total)) + RayMul(rate, WadToRay(amount));
    var actual := ContractAverageRate(average, total, amount, rate);
    var expected := AverageStableRate(average, total, amount, rate);
    WeightRounds(average, total);
    WeightRounds(rate, amount);
    QuotientRounds(weight, debt);
    AddedWeight(average, total, amount, rate);
    hide *;
    Distribute(debt, actual, expected);
    RoundedGap(debt, average * total, rate * amount, RayMul(average, WadToRay(total)), RayMul(rate, WadToRay(amount)),
               weight, debt * actual, expected * debt);
  }

  lemma RoundedGap(debt: int, p1: int, p2: int, w1: int, w2: int, weight: int, actual: int, expected: int)
    requires 2 * WAD * w1 <= 2 * p1 + WAD < 2 * WAD * w1 + 2 * WAD
    requires 2 * WAD * w2 <= 2 * p2 + WAD < 2 * WAD * w2 + 2 * WAD
    requires weight == w1 + w2 && p1 + p2 - debt < expected <= p1 + p2
    requires 2 * actual <= 2 * WAD * weight + debt < 2 * actual + 2 * debt
    ensures -2 * WAD - debt < 2 * (actual - expected) < 2 * WAD + 3 * debt
  {
  }

  /** Whatever makes up a total debt, the expected and the actual average are almost equal. */
  ghost predicate AveragesConform(debt: int)
    requires 0 < debt
  {
    forall average: int, total: int, amount: int, rate: int ::
      0 <= average && 0 <= total && 0 <= amount && 0 <= rate && total + amount == debt
      ==> AlmostEqual(ContractAverageRate(average, total, amount, rate),
                      AverageStableRate(average, total, amount, rate))
  }

  /** The averages conform at exactly those total debts; the bound is two fifths of a wad, moved down a little for
      the few debts whose roundings all lie on a coarse grid. */
  predicate ConformingDebt(debt: int)
    requires 0 < debt
  {
    2 * WAD < 5 * debt + 2 * Gcd(debt, WAD)
  }

  lemma AveragesConformIff(debt: int)
    requires 0 < debt
    ensures AveragesConform(debt) <==> ConformingDebt(debt)
    ensures 2 * WAD <= 5 * debt ==> ConformingDebt(debt)
    ensures 7 * debt <= 2 * WAD ==> !ConformingDebt(debt)
    ensures 8 * debt == 3 * WAD ==> ConformingDebt(debt)
  {
    hide RayMul, RayDiv, AverageStableRate;
    if 8 * debt == 3 * WAD {
      GcdIsGreatest(debt, WAD, WAD / 8, 3, 8);
    }
    if ConformingDebt(debt) {
      forall average: int, total: int, amount: int, rate: int
        | 0 <= average && 0 <= total && 0 <= amount && 0 <= rate && total + amount == debt
        ensures AlmostEqual(ContractAverageRate(average, total, amount, rate),
                            AverageStableRate(average, total, amount, rate))
      {
        AverageWithinThree(average, total, amount, rate);
      }
    } else {
      var average, total, amount, rate := WorstAverage(debt);
      assert !AlmostEqual(ContractAverageRate(average, total, amount, rate),
                          AverageStableRate(average, total, amount, rate));
    }
  }

  lemma AverageWithinThree(average: int, total: int, amount: int, rate: int)
    requires 0 <= average && 0 <= total && 0 <= amount && 0 <= rate && 0 < total + amount
    requires ConformingDebt(total + amount)
    ensures -3 <= ContractAverageRate(average, total, amount, rate) - AverageStableRate(average, total, amount, rate)
            <= 3
  {
    hide RayMul, RayDiv, AverageStableRate, Gcd;
    var debt := total + amount;
    var weight := RayMul(average, WadToRay(total)) + RayMul(rate, WadToRay(amount));
    var actual := ContractAverageRate(average, total, amount, rate);
    var expected := AverageStableRate(average, total, amount, rate);
    WeightRounds(average, total);
    WeightRounds(rate, amount);
    QuotientRounds(weight, debt);
    AddedWeight(average, total, amount, rate);
    WeightOnGrid(weight, expected, debt);
    hide *;
    AverageGap(debt, average * total + rate * amount, weight, debt * actual, expected * debt, Gcd(debt, WAD));
    WithinFour(debt, actual, expected);
  }

  /** What the rounded weight exceeds the weight of the expected average by, lies on the grid of debt and wad. */
  lemma WeightOnGrid(weight: int, expected: int, debt: nat)
    requires 0 < debt
    ensures weight * WAD - expected * debt < WAD + debt ==>
      weight * WAD - expected * debt + Gcd(debt, WAD) <= WAD + debt
  {
    var count := DifferenceDivides(WAD, debt, weight, expected);
    var most := DifferenceDivides(WAD, debt, 1, -1);
    GcdSymmetric(WAD, debt);
    hide *;
    MultiplesApart(weight * WAD - expected * debt, count, 1 * WAD - -1 * debt, most, Gcd(debt, WAD));
  }

  lemma WithinFour(debt: int, actual: int, expected: int)
    requires 0 < debt && -4 * debt < debt * actual - expected * debt < 4 * debt
    ensures -3 <= actual - expected <= 3
  {
    Distribute(debt, actual, expected);
    MulCancel(actual - expected, 4, debt);
    MulCancel(-4, actual - expected, debt);
  }

  lemma AverageGap(debt: int, exact: int, weight: int, actual: int, expected: int, g: int)
    requires 0 < debt && g <= debt && 2 * WAD < 5 * debt + 2 * g
    requires exact - WAD < WAD * weight <= exact + WAD && exact - debt < expected <= exact
    requires 2 * actual <= 2 * WAD * weight + debt < 2 * actual + 2 * debt
    requires weight * WAD - expected < WAD + debt ==> weight * WAD - expected + g <= WAD + debt
    ensures -4 * debt < actual - expected < 4 * debt
  {
  }

  const HALF_WAD: int := 500_000_000_000_000_000

  /** Some rate gives an odd debt a weight just halfway between two wads. */
  lemma HalfWeight(debt: nat) returns (rate: nat, wads: nat)
    requires debt % 2 == 1
    ensures rate * debt == HALF_WAD + wads * WAD
  {
    var j, k := GcdDivides(debt, WAD);
    var g := Gcd(debt, WAD);
    hide Gcd;
    OddFactor(j, g);
    EvenFactor(k, g);
    var half := k / 2;
    rate, wads := Reach(debt, WAD, half);
    assert k * g == 2 * (half * g);
  }

  lemma OddFactor(j: int, g: int)
    requires (j * g) % 2 == 1
    ensures g % 2 == 1
  {
    EvenProduct(j, g / 2);
  }

  lemma EvenProduct(j: int, h: int)
    ensures (j * (2 * h)) % 2 == 0
  {
    assert j * (2 * h) == 2 * (j * h);
  }

  lemma EvenFactor(k: int, g: int)
    requires (k * g) % 2 == 0 && g % 2 == 1
    ensures k % 2 == 0
  {
    OddMultiple(k / 2, g);
  }

  lemma OddMultiple(h: int, g: int)
    ensures ((2 * h + 1) * g) % 2 == g % 2
  {
    assert (2 * h + 1) * g == 2 * (h * g) + g;
  }

  /** A weight halfway between two wads is rounded up. */
  lemma HalfWeightRounds(rate: nat, debt: nat, wads: nat)
    requires rate * debt == HALF_WAD + wads * WAD
    ensures RayMul(rate, WadToRay(debt)) == wads + 1
  {
    WadTimes(debt, rate);
    RayMulIs(rate, WadToRay(debt), wads + 1);
  }

  /** An odd part of the debt and a part of one or two units. Both weights lie halfway between two wads, and together
      they miss a multiple of the debt by one grid step. */
  lemma WorstAverage(debt: int) returns (average: nat, total: nat, amount: nat, rate: nat)
    requires 0 < debt && !ConformingDebt(debt)
    ensures total + amount == debt
    ensures ContractAverageRate(average, total, amount, rate) >= AverageStableRate(average, total, amount, rate) + 4
  {
    if debt == 1 {
      average, total, amount, rate := HALF_WAD, 1, 0, 0;
      WorstUnit();
    } else {
      hide Gcd;
      total := if debt % 2 == 0 then 1 else 2;
      amount := debt - total;
      var wads: nat;
      rate, wads := HalfWeight(amount);
      var n: nat, e: nat := Reach(WAD, debt, -1);
      GcdSymmetric(WAD, debt);
      var rest: nat, whole := EnoughWeight(debt, wads, n, e);
      average := SmallPart(total, rest);
      WorstWeights(debt, average, total, amount, rate, rest, wads, whole, Gcd(debt, WAD));
    }
  }

  lemma SmallPart(total: nat, rest: nat) returns (average: nat)
    requires total == 1 || total == 2
    ensures average * total == HALF_WAD + rest * WAD
  {
    if total == 1 {
      average := HALF_WAD + rest * WAD;
    } else {
      average := HALF_WAD / 2 + rest * HALF_WAD;
    }
  }

  /** Adding multiples of the debt leaves a weight besides the one of the odd part. */
  lemma EnoughWeight(debt: nat, wads: nat, n: nat, e: nat) returns (rest: nat, whole: int)
    requires 0 < debt
    ensures (rest + wads + 1) * WAD - whole * debt == n * WAD - e * debt
  {
    MulMono(1, debt, wads + 1);
    rest := n + (wads + 1) * debt - 1 - wads;
    whole := e + (wads + 1) * WAD;
    assert (n + (wads + 1) * debt) * WAD - whole * debt == n * WAD - e * debt;
  }

  lemma WorstWeights(debt: nat, average: nat, total: nat, amount: nat, rate: nat, rest: nat, wads: nat, whole: int,
                     g: int)
    requires debt == total + amount
    requires average * total == HALF_WAD + rest * WAD && rate * amount == HALF_WAD + wads * WAD
    requires (rest + wads + 1) * WAD - whole * debt == -g
    requires 0 < g <= debt && 5 * debt + 2 * g <= 2 * WAD
    ensures ContractAverageRate(average, total, amount, rate) >= AverageStableRate(average, total, amount, rate) + 4
  {
    var all := rest + wads + 1;
    HalfWeightRounds(average, total, rest);
    HalfWeightRounds(rate, amount, wads);
    QuotientRounds(all + 1, debt);
    WorstQuotient(debt, all, whole, g, RayDiv(all + 1, WadToRay(debt)));
    QuotientIs(average * total + rate * amount, debt, whole - 1);
    hide RayMul, RayDiv, TruncDiv;
  }

  lemma WorstQuotient(debt: int, all: int, whole: int, g: int, actual: int)
    requires 0 < g <= debt && 5 * debt + 2 * g <= 2 * WAD
    requires all * WAD - whole * debt == -g
    requires 2 * WAD * (all + 1) + debt < 2 * (debt * actual) + 2 * debt
    ensures debt * (whole - 1) <= all * WAD < debt * (whole - 1) + debt
    ensures whole - 1 + 4 <= actual
  {
    Distribute(debt, whole, 1);
    Distribute(debt, actual, whole - 1);
    MulCancel(3, actual - (whole - 1), debt);
  }

  lemma WorstUnit()
    ensures ContractAverageRate(HALF_WAD, 1, 0, 0) >= AverageStableRate(HALF_WAD, 1, 0, 0) + 4
  {
    HalfWeightRounds(HALF_WAD, 1, 0);
    RayMulIs(0, 0, 0);
    RayDivIs(1, WAD_RAY_RATIO, WAD);
    QuotientIs(HALF_WAD, 1, HALF_WAD);
    hide TruncDiv, RayMul, RayDiv;
  }

  // ---------- Erasing what a repayment leaves ----------

  /** The contract erases the stable debt when the repaid weight reaches the recorded one. */
  predicate ContractErases(average: int, total: int, amount: int, rate: int) {
    total <= amount || RayMul(rate, WadToRay(amount)) >= RayMul(average, WadToRay(total))
  }

  /** The expected record erases it when nothing is left or the average turns negative. */
  predicate ModelErases(average: int, total: int, amount: int, rate: int) {
    total <= amount || AverageStableRate(average, total, -amount, rate) < 0
  }

  /** Whatever the expected record erases, the contract erases. The contract erases more in exactly one case: its
      rounded weights are level although the exact ones still leave a rate that is not negative. */
  lemma ErasingDiffersIff(average: int, total: int, amount: int, rate: int)
    requires 0 <= average && 0 <= total && 0 <= amount && 0 <= rate
    ensures ModelErases(average, total, amount, rate) ==> ContractErases(average, total, amount, rate)
    ensures ContractErases(average, total, amount, rate) != ModelErases(average, total, amount, rate)
       <==> && amount < total
            && RayMul(average, WadToRay(total)) <= RayMul(rate, WadToRay(amount))
            && rate * amount < average * total + (total - amount)
  {
    if amount < total {
      RemovedWeight(average, total, amount, rate);
      WeightRounds(rate, amount);
      WeightRounds(average, total);
      hide AverageStableRate, RayMul, WadToRay;
    }
  }

  /** The same of the step itself: when a stable repayment leaves nothing in the expected record, nothing is left in the
      contract; and exactly when the contract erases what the expected record keeps. */
  lemma RepaymentErasedIff(r: Reserve, u: User, paid: int, t: int)
    requires Sound(r) && r.lastUpdateTimestamp <= t && SoundUser(u, t) && 0 <= paid
    ensures
      var total := TotalStableDebtAt(r, t);
      var erased := ContractErases(r.averageStableBorrowRate, total, paid, u.stableBorrowRate);
      && (StableRepaid(r, u, paid, t) == (0, 0) ==> erased)
      && (erased && StableRepaid(r, u, paid, t) != (0, 0)
          <==> && paid < total
               && RayMul(r.averageStableBorrowRate, WadToRay(total)) <= RayMul(u.stableBorrowRate, WadToRay(paid))
               && u.stableBorrowRate * paid < r.averageStableBorrowRate * total + (total - paid))
  {
    var total := TotalStableDebtAt(r, t);
    DebtsAt(r, t);
    assert StableRepaid(r, u, paid, t) == (0, 0)
      <==> ModelErases(r.averageStableBorrowRate, total, paid, u.stableBorrowRate);
    hide StableRepaid, ModelErases, ContractErases, TotalStableDebtAt, RayMul, WadToRay;
    ErasingDiffersIff(r.averageStableBorrowRate, total, paid, u.stableBorrowRate);
  }
}
