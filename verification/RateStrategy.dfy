/** Utilisation, the kinked rate curve and the rate paid to suppliers. */
module RateStrategy {
  import opened FixedPoint

  /** The parameters of one reserve that the rates depend on. */
  datatype Strategy = Strategy(
    optimalUtilizationRate: int,
    baseVariableBorrowRate: int,
    variableRateSlope1: int,
    variableRateSlope2: int,
    stableRateSlope1: int,
    stableRateSlope2: int,
    reserveFactor: int)
  {
    predicate Valid() {
      && 0 < optimalUtilizationRate < RAY
      && 0 <= baseVariableBorrowRate
      && 0 <= variableRateSlope1 && 0 <= variableRateSlope2
      && 0 <= stableRateSlope1 && 0 <= stableRateSlope2
      && 0 <= reserveFactor <= PERCENTAGE_FACTOR
    }
  }

  datatype Rates = Rates(liquidityRate: int, stableBorrowRate: int, variableBorrowRate: int)

  // ---------- Utilisation ----------

  function UtilizationRate(totalStableDebt: int, totalVariableDebt: int, totalLiquidity: int): int
    requires totalStableDebt == 0 == totalVariableDebt || totalLiquidity != 0
  {
    if totalStableDebt == 0 && totalVariableDebt == 0 then 0
    else RayDiv(totalStableDebt + totalVariableDebt, totalLiquidity)
  }

  /** Utilisation as it is recomputed when a reserve is read back, guarded by the liquidity instead of the debts. */
  function ReadUtilizationRate(available: int, totalStableDebt: int, totalVariableDebt: int): int {
    var totalLiquidity := available + totalStableDebt + totalVariableDebt;
    if totalLiquidity == 0 then 0 else RayDiv(totalStableDebt + totalVariableDebt, totalLiquidity)
  }

  /** The two definitions of utilisation agree although they are guarded differently. */
  lemma UtilizationDefinitionsAgree(available: int, stable: int, variable: int)
    requires 0 <= available && 0 <= stable && 0 <= variable
    ensures stable == 0 == variable || available + stable + variable != 0
    ensures UtilizationRate(stable, variable, available + stable + variable)
         == ReadUtilizationRate(available, stable, variable)
  {
    if 0 < available && stable == 0 == variable {
      RayDivUnit(available);
    }
  }

  /** Utilisation is a fraction of one ray; it rises with the debt and falls with the available liquidity. */
  lemma UtilizationMono(available: int, stable: int, variable: int, available': int, stable': int, variable': int)
    requires 0 <= available' <= available && 0 <= stable && 0 <= variable && 0 <= stable' && 0 <= variable'
    requires stable + variable <= stable' + variable'
    ensures 0 <= ReadUtilizationRate(available, stable, variable)
              <= ReadUtilizationRate(available', stable', variable') <= RAY
  {
    UtilizationRange(available, stable, variable);
    UtilizationRange(available', stable', variable');
    if 0 < stable + variable {
      CrossFractions(stable + variable, available, stable' + variable', available');
      RayDivMono(stable + variable, available + stable + variable,
                 stable' + variable', available' + stable' + variable');
    }
  }

  lemma UtilizationRange(available: int, stable: int, variable: int)
    requires 0 <= available && 0 <= stable && 0 <= variable
    ensures 0 <= ReadUtilizationRate(available, stable, variable) <= RAY
    ensures stable == 0 == variable ==> ReadUtilizationRate(available, stable, variable) == 0
  {
    var debt, liquidity := stable + variable, available + stable + variable;
    if 0 < liquidity {
      hide RayDiv;
      RayDivRounds(debt, liquidity);
      RayDivUnit(liquidity);
      MulMono(debt, liquidity, liquidity);
      RayDivMono(debt, liquidity, liquidity, liquidity);
    }
  }

  /** Utilisation rounds to zero exactly without liquidity, and while the debt is less than half a ray's share of it. */
  lemma UtilizationZeroIff(available: int, stable: int, variable: int)
    requires 0 <= available && 0 <= stable && 0 <= variable
    ensures ReadUtilizationRate(available, stable, variable) == 0
       <==> !(0 < available + stable + variable <= 2 * RAY * (stable + variable))
  {
    var debt, liquidity := stable + variable, available + stable + variable;
    if 0 < liquidity {
      RayDivRounds(debt, liquidity);
      if 2 * RAY * debt < liquidity {
        RayDivIs(debt, liquidity, 0);
      }
    }
  }

  lemma CrossFractions(debt: int, available: int, debt': int, available': int)
    requires 0 <= debt <= debt' && 0 <= available' <= available
    ensures debt * (available' + debt') <= debt' * (available + debt)
  {
    MulMono(debt, debt', available');
    MulMono(available', available, debt');
    Distribute(debt, available', debt');
    Distribute(debt', available, debt);
  }

  // ---------- The kinked curve ----------

  function ExcessUtilizationRatio(s: Strategy, utilization: int): int
    requires s.optimalUtilizationRate != RAY
  {
    RayDiv(utilization - s.optimalUtilizationRate, RAY - s.optimalUtilizationRate)
  }

  /** One kinked curve: slope1 up to the optimal utilisation, slope2 beyond it. */
  function Curve(s: Strategy, start: int, slope1: int, slope2: int, utilization: int): int
    requires s.Valid()
  {
    if utilization > s.optimalUtilizationRate then
      start + slope1 + RayMul(slope2, ExcessUtilizationRatio(s, utilization))
    else
      start + RayMul(slope1, RayDiv(utilization, s.optimalUtilizationRate))
  }

  function StableBorrowRate(s: Strategy, marketStableRate: int, utilization: int): int
    requires s.Valid()
  {
    Curve(s, marketStableRate, s.stableRateSlope1, s.stableRateSlope2, utilization)
  }

  function VariableBorrowRate(s: Strategy, utilization: int): int
    requires s.Valid()
  {
    Curve(s, s.baseVariableBorrowRate, s.variableRateSlope1, s.variableRateSlope2, utilization)
  }

  /** The curve never falls, also not across the kink, and stays between its start and the sum of both slopes. */
  lemma CurveMono(s: Strategy, start: int, slope1: int, slope2: int, u: int, u': int)
    requires s.Valid() && 0 <= slope1 && 0 <= slope2 && 0 <= u <= u'
    ensures start <= Curve(s, start, slope1, slope2, u) <= Curve(s, start, slope1, slope2, u')
    ensures u' <= RAY ==> Curve(s, start, slope1, slope2, u') <= start + slope1 + slope2
  {
    var optimal, excess := s.optimalUtilizationRate, RAY - s.optimalUtilizationRate;
    CurveBranch(optimal, slope1, u, u');
    if optimal < u {
      CurveBranch(excess, slope2, u - optimal, u' - optimal);
    } else if optimal < u' {
      CurveBranch(excess, slope2, 0, u' - optimal);
      CurveBranch(optimal, slope1, u, optimal);
    }
  }

  /** One branch of the curve: a slope applied to the fraction of a span. */
  lemma CurveBranch(span: int, slope: int, u: int, u': int)
    requires 0 < span && 0 <= slope && 0 <= u <= u'
    ensures 0 <= RayMul(slope, RayDiv(u, span)) <= RayMul(slope, RayDiv(u', span))
    ensures u' <= span ==> RayMul(slope, RayDiv(u', span)) <= slope
  {
    hide *;
    RayDivRounds(u, span);
    RayDivRounds(u', span);
    MulMono(u, u', span);
    RayDivMono(u, span, u', span);
    RayMulRounds(slope, RayDiv(u, span));
    RayMulMono(slope, slope, RayDiv(u, span), RayDiv(u', span));
    if u' <= span {
      MulMono(u', span, span);
      RayDivMono(u', span, span, span);
      RayDivUnit(span);
      RayMulScales(slope, RayDiv(u', span));
    }
  }

  /** At the optimal utilisation both branches of the curve give exactly start + slope1. */
  lemma CurveMeetsAtOptimum(s: Strategy, start: int, slope1: int, slope2: int)
    requires s.Valid() && 0 <= slope1 && 0 <= slope2
    ensures Curve(s, start, slope1, slope2, s.optimalUtilizationRate)
         == start + slope1
         == start + slope1 + RayMul(slope2, ExcessUtilizationRatio(s, s.optimalUtilizationRate))
  {
    RayDivUnit(s.optimalUtilizationRate);
    RayDivUnit(RAY - s.optimalUtilizationRate);
    RayMulUnit(slope1);
    RayMulUnit(slope2);
  }

  /** The rise of one branch follows the straight line slope * u / span: off by at most half a unit for its own
      rounding and half a slope per ray for the rounding of the ratio. */
  lemma BranchTracksLine(span: int, slope: int, u: int)
    requires 0 < span && 0 <= slope && 0 <= u
    ensures
      var raised := RayMul(slope, RayDiv(u, span));
      2 * RAY * (u * slope) - RAY * span - span * slope
      <= 2 * RAY * (span * raised)
      <= 2 * RAY * (u * slope) + RAY * span + span * slope
  {
    RayDivRounds(u, span);
    RayMulRounds(slope, RayDiv(u, span));
    hide *;
    BranchBounds(u, slope, span, RayDiv(u, span), RayMul(slope, RayDiv(u, span)));
  }

  lemma BranchBounds(u: int, slope: int, span: int, ratio: int, raised: int)
    requires 0 <= slope && 0 < span
    requires 2 * (span * ratio) <= 2 * RAY * u + span < 2 * (span * ratio) + 2 * span
    requires 2 * RAY * raised <= 2 * (slope * ratio) + RAY < 2 * RAY * raised + 2 * RAY
    ensures 2 * RAY * (u * slope) - RAY * span - span * slope
         <= 2 * RAY * (span * raised)
         <= 2 * RAY * (u * slope) + RAY * span + span * slope
  {
    MulMono(2 * (span * ratio), 2 * RAY * u + span, slope);
    MulMono(2 * RAY * u - span, 2 * (span * ratio), slope);
    MulMono(2 * RAY * raised, 2 * (slope * ratio) + RAY, span);
    MulMono(2 * (slope * ratio) - RAY, 2 * RAY * raised, span);
    Distribute(slope, 2 * RAY * u, span);
    Distribute(span, 2 * (slope * ratio), RAY);
    assert slope * (2 * RAY * u) == 2 * RAY * (u * slope);
    assert span * (2 * (slope * ratio)) == slope * (2 * (span * ratio));
    assert span * (2 * RAY * raised) == 2 * RAY * (span * raised);
  }

  /** Below the optimum both borrow rates follow their first slope from their starts, above it their second slope
      from the sum of start and first slope. */
  predicate OnLines(s: Strategy, market: int, u: int, stableRate: int, variableRate: int) {
    && (u <= s.optimalUtilizationRate ==>
          && Near(s.optimalUtilizationRate, s.stableRateSlope1, u, stableRate - market)
          && Near(s.optimalUtilizationRate, s.variableRateSlope1, u, variableRate - s.baseVariableBorrowRate))
    && (s.optimalUtilizationRate < u ==>
          var excess := u - s.optimalUtilizationRate;
          && Near(RAY - s.optimalUtilizationRate, s.stableRateSlope2, excess,
                  stableRate - market - s.stableRateSlope1)
          && Near(RAY - s.optimalUtilizationRate, s.variableRateSlope2, excess,
                  variableRate - s.baseVariableBorrowRate - s.variableRateSlope1))
  }

  lemma BorrowRatesTrackLines(s: Strategy, market: int, u: int)
    requires s.Valid() && 0 <= u
    ensures OnLines(s, market, u, StableBorrowRate(s, market, u), VariableBorrowRate(s, u))
  {
    hide Near, RayMul, RayDiv;
    var optimal := s.optimalUtilizationRate;
    if u <= optimal {
      BranchIsNear(optimal, s.stableRateSlope1, u);
      BranchIsNear(optimal, s.variableRateSlope1, u);
    } else {
      BranchIsNear(RAY - optimal, s.stableRateSlope2, u - optimal);
      BranchIsNear(RAY - optimal, s.variableRateSlope2, u - optimal);
    }
  }

  /** 2 * RAY * span times the distance of a rise from slope * u / span is at most span * (RAY + slope). */
  predicate Near(span: int, slope: int, u: int, raised: int) {
    -span * (RAY + slope) <= 2 * RAY * (span * raised - u * slope) <= span * (RAY + slope)
  }

  lemma BranchIsNear(span: int, slope: int, u: int)
    requires 0 < span && 0 <= slope && 0 <= u
    ensures Near(span, slope, u, RayMul(slope, RayDiv(u, span)))
  {
    BranchTracksLine(span, slope, u);
    Distribute(span, RAY, slope);
    hide RayMul, RayDiv;
  }

  // ---------- The overall borrow rate and the liquidity rate ----------

  function OverallBorrowRate(totalStableDebt: int, totalVariableDebt: int,
                             variableRate: int, averageStableRate: int): int
  {
    var totalBorrows := totalStableDebt + totalVariableDebt;
    if totalBorrows == 0 then 0
    else
      RayDiv(RayMul(WadToRay(totalVariableDebt), variableRate) + RayMul(WadToRay(totalStableDebt), averageStableRate),
             WadToRay(totalBorrows))
  }

  const WAD: int := 1_000_000_000_000_000_000

  /** Times the debt, the overall rate is the interest on both debts, up to the rounding of two weighted rates in
      ray (one wad each) and of the quotient. */
  lemma OverallNearWeighted(stable: int, variable: int, variableRate: int, averageStableRate: int)
    requires 0 <= stable && 0 <= variable && 0 < stable + variable && 0 <= variableRate && 0 <= averageStableRate
    ensures 0 <= OverallBorrowRate(stable, variable, variableRate, averageStableRate)
    ensures
      var debt := stable + variable;
      var weighted := variable * variableRate + stable * averageStableRate;
      var overall := debt * OverallBorrowRate(stable, variable, variableRate, averageStableRate);
      2 * weighted - 2 * WAD - debt < 2 * overall <= 2 * weighted + 2 * WAD + debt
  {
    var debt := stable + variable;
    var wv := RayMul(WadToRay(variable), variableRate);
    var ws := RayMul(WadToRay(stable), averageStableRate);
    RayMulRounds(WadToRay(variable), variableRate);
    RayMulRounds(WadToRay(stable), averageStableRate);
    RayDivRounds(wv + ws, WadToRay(debt));
    WadTimes(variable, variableRate);
    WadTimes(stable, averageStableRate);
    WadTimes(debt, RayDiv(wv + ws, WadToRay(debt)));
    WeightedSum(debt, variable * variableRate, stable * averageStableRate, wv, ws,
                debt * RayDiv(wv + ws, WadToRay(debt)));
  }

  lemma WadTimes(a: int, b: int)
    ensures WadToRay(a) * b == WAD_RAY_RATIO * (a * b)
  {
  }

  /** The arithmetic of `OverallNearWeighted`, with every product as a plain number. */
  lemma WeightedSum(debt: int, v: int, s: int, wv: int, ws: int, overall: int)
    requires 2 * RAY * wv <= 2 * (WAD_RAY_RATIO * v) + RAY < 2 * RAY * wv + 2 * RAY
    requires 2 * RAY * ws <= 2 * (WAD_RAY_RATIO * s) + RAY < 2 * RAY * ws + 2 * RAY
    requires 2 * (WAD_RAY_RATIO * overall) <= 2 * RAY * (wv + ws) + WAD_RAY_RATIO * debt
                                           < 2 * (WAD_RAY_RATIO * overall) + 2 * (WAD_RAY_RATIO * debt)
    ensures 2 * (v + s) - 2 * WAD - debt < 2 * overall <= 2 * (v + s) + 2 * WAD + debt
  {
  }

  /** The overall rate lies between the smaller and the larger of the two rates, up to half a unit and one wad
      spread over the debt. */
  lemma OverallBetween(stable: int, variable: int, variableRate: int, averageStableRate: int, low: int, high: int)
    requires 0 <= stable && 0 <= variable && 0 < stable + variable
    requires 0 <= low <= variableRate <= high && low <= averageStableRate <= high
    ensures
      var debt := stable + variable;
      var overall := debt * OverallBorrowRate(stable, variable, variableRate, averageStableRate);
      2 * (debt * low) - 2 * WAD - debt < 2 * overall <= 2 * (debt * high) + 2 * WAD + debt
  {
    hide *;
    OverallNearWeighted(stable, variable, variableRate, averageStableRate);
    MulMono(low, variableRate, variable);
    MulMono(low, averageStableRate, stable);
    MulMono(variableRate, high, variable);
    MulMono(averageStableRate, high, stable);
    Distribute(low, stable, variable);
    Distribute(high, stable, variable);
  }

  function LiquidityRate(s: Strategy, overall: int, utilization: int): int {
    PercentMul(RayMul(overall, utilization), PERCENTAGE_FACTOR - s.reserveFactor)
  }

  /** Suppliers are never promised more than what the borrowed fraction earns, nor more than borrowers pay. */
  lemma LiquidityRateBounded(s: Strategy, overall: int, utilization: int)
    requires s.Valid() && 0 <= overall && 0 <= utilization
    ensures 0 <= LiquidityRate(s, overall, utilization) <= RayMul(overall, utilization)
    ensures utilization <= RAY ==> LiquidityRate(s, overall, utilization) <= overall
    ensures utilization == 0 ==> LiquidityRate(s, overall, utilization) == 0
  {
    RayMulRounds(overall, utilization);
    PercentMulShrinks(RayMul(overall, utilization), PERCENTAGE_FACTOR - s.reserveFactor);
    RayMulScales(overall, utilization);
    if utilization == 0 {
      RayMulUnit(overall);
    }
  }

  /** The rate is the share of the overall rate that belongs to the borrowed fraction and is not kept back by the
      reserve factor, up to the rounding of both products. */
  predicate IsShare(s: Strategy, overall: int, utilization: int, rate: int) {
    var share := PERCENTAGE_FACTOR - s.reserveFactor;
    var exact := 2 * ((overall * utilization) * share);
    exact - RAY * (share + PERCENTAGE_FACTOR)
    <= 2 * RAY * PERCENTAGE_FACTOR * rate
    <= exact + RAY * (share + PERCENTAGE_FACTOR)
  }

  lemma LiquidityRateIsShare(s: Strategy, overall: int, utilization: int)
    requires s.Valid() && 0 <= overall && 0 <= utilization
    ensures IsShare(s, overall, utilization, LiquidityRate(s, overall, utilization))
  {
    var share := PERCENTAGE_FACTOR - s.reserveFactor;
    var earned := RayMul(overall, utilization);
    RayMulRounds(overall, utilization);
    PercentMulRounds(earned, share);
    var paid := LiquidityRate(s, overall, utilization);
    hide *;
    ShareBounds(overall * utilization, share, earned, paid);
  }

  lemma ShareBounds(product: int, share: int, earned: int, paid: int)
    requires 0 <= share
    requires 2 * RAY * earned <= 2 * product + RAY < 2 * RAY * earned + 2 * RAY
    requires PERCENTAGE_FACTOR * paid <= HALF_PERCENTAGE + earned * share < PERCENTAGE_FACTOR * paid + PERCENTAGE_FACTOR
    ensures 2 * (product * share) - RAY * (share + PERCENTAGE_FACTOR)
         <= 2 * RAY * PERCENTAGE_FACTOR * paid
         <= 2 * (product * share) + RAY * (share + PERCENTAGE_FACTOR)
  {
    MulMono(2 * RAY * earned, 2 * product + RAY, share);
    MulMono(2 * product - RAY, 2 * RAY * earned, share);
    Distribute(share, 2 * product, RAY);
    assert share * (2 * RAY * earned) == 2 * RAY * (earned * share);
  }

  function InterestRates(s: Strategy, marketStableRate: int, utilization: int,
                         totalStableDebt: int, totalVariableDebt: int, averageStableRate: int): Rates
    requires s.Valid()
  {
    var variable := VariableBorrowRate(s, utilization);
    Rates(LiquidityRate(s, OverallBorrowRate(totalStableDebt, totalVariableDebt, variable, averageStableRate),
                        utilization),
          StableBorrowRate(s, marketStableRate, utilization),
          variable)
  }

  /** All three rates are non-negative, and nothing is paid to suppliers while nothing is borrowed. */
  lemma RatesNonNegative(s: Strategy, marketStableRate: int, utilization: int,
                         stable: int, variable: int, averageStableRate: int)
    requires s.Valid() && 0 <= marketStableRate && 0 <= utilization
    requires 0 <= stable && 0 <= variable && 0 <= averageStableRate
    ensures
      var rates := InterestRates(s, marketStableRate, utilization, stable, variable, averageStableRate);
      && 0 <= rates.liquidityRate && 0 <= rates.stableBorrowRate && 0 <= rates.variableBorrowRate
      && (utilization == 0 ==> rates.liquidityRate == 0)
  {
    CurveMono(s, marketStableRate, s.stableRateSlope1, s.stableRateSlope2, utilization, utilization);
    CurveMono(s, s.baseVariableBorrowRate, s.variableRateSlope1, s.variableRateSlope2, utilization, utilization);
    var rate := VariableBorrowRate(s, utilization);
    if 0 < stable + variable {
      OverallNearWeighted(stable, variable, rate, averageStableRate);
    }
    LiquidityRateBounded(s, OverallBorrowRate(stable, variable, rate, averageStableRate), utilization);
  }

  /** The rates lie on their lines, and suppliers get their share; up to full utilisation the borrow rates stay between
      their starts and the sums of their slopes, and suppliers get no more than borrowers pay on average. */
  lemma RatesBounded(s: Strategy, marketStableRate: int, utilization: int,
                     stable: int, variable: int, averageStableRate: int)
    requires s.Valid()
    ensures
      var rates := InterestRates(s, marketStableRate, utilization, stable, variable, averageStableRate);
      && (0 <= utilization ==>
            OnLines(s, marketStableRate, utilization, rates.stableBorrowRate, rates.variableBorrowRate))
      && (0 <= utilization && 0 <= stable && 0 <= variable && 0 <= averageStableRate ==>
            IsShare(s, OverallBorrowRate(stable, variable, rates.variableBorrowRate, averageStableRate), utilization,
                    rates.liquidityRate))
      && (0 <= utilization && stable == 0 == variable ==> rates.liquidityRate == 0)
      && (0 <= marketStableRate && 0 <= utilization <= RAY
          && 0 <= stable && 0 <= variable && 0 <= averageStableRate ==>
            && marketStableRate <= rates.stableBorrowRate <= marketStableRate + s.stableRateSlope1 + s.stableRateSlope2
            && s.baseVariableBorrowRate <= rates.variableBorrowRate
               <= s.baseVariableBorrowRate + s.variableRateSlope1 + s.variableRateSlope2
            && 0 <= rates.liquidityRate
               <= OverallBorrowRate(stable, variable, rates.variableBorrowRate, averageStableRate))
  {
    hide RayMul, RayDiv, OnLines, Curve, OverallBorrowRate, LiquidityRate, IsShare;
    if 0 <= utilization {
      BorrowRatesTrackLines(s, marketStableRate, utilization);
      CurveMono(s, marketStableRate, s.stableRateSlope1, s.stableRateSlope2, utilization, utilization);
      CurveMono(s, s.baseVariableBorrowRate, s.variableRateSlope1, s.variableRateSlope2, utilization, utilization);
      NothingBorrowed(s, VariableBorrowRate(s, utilization), averageStableRate, utilization);
      if 0 <= stable && 0 <= variable && 0 <= averageStableRate {
        var overall := OverallBorrowRate(stable, variable, VariableBorrowRate(s, utilization), averageStableRate);
        OverallNonNegative(stable, variable, VariableBorrowRate(s, utilization), averageStableRate);
        LiquidityRateBounded(s, overall, utilization);
        LiquidityRateIsShare(s, overall, utilization);
      }
    }
  }

  /** Nobody pays while nobody borrows. */
  lemma NothingBorrowed(s: Strategy, variableRate: int, averageStableRate: int, utilization: int)
    requires s.Valid() && 0 <= utilization
    ensures LiquidityRate(s, OverallBorrowRate(0, 0, variableRate, averageStableRate), utilization) == 0
  {
    hide RayMul;
    RayMulUnit(utilization);
    PercentMulShrinks(0, PERCENTAGE_FACTOR - s.reserveFactor);
  }

  lemma OverallNonNegative(stable: int, variable: int, variableRate: int, averageStableRate: int)
    requires 0 <= stable && 0 <= variable && 0 <= variableRate && 0 <= averageStableRate
    ensures 0 <= OverallBorrowRate(stable, variable, variableRate, averageStableRate)
  {
    if 0 < stable + variable {
      OverallNearWeighted(stable, variable, variableRate, averageStableRate);
    }
  }

  lemma RayMulCommutes(a: int, b: int)
    ensures RayMul(a, b) == RayMul(b, a)
  {
    assert a * b == b * a;
  }

  /** The source raises both borrow rates step by step, branch by branch. */
  method CalcInterestRates(s: Strategy, marketStableRate: int, utilization: int,
                           totalStableDebt: int, totalVariableDebt: int, averageStableRate: int) returns (rates: Rates)
    requires s.Valid()
    ensures rates == InterestRates(s, marketStableRate, utilization, totalStableDebt, totalVariableDebt,
                                   averageStableRate)
    ensures 0 <= utilization ==>
      OnLines(s, marketStableRate, utilization, rates.stableBorrowRate, rates.variableBorrowRate)
    ensures 0 <= utilization && 0 <= totalStableDebt && 0 <= totalVariableDebt && 0 <= averageStableRate ==>
      IsShare(s, OverallBorrowRate(totalStableDebt, totalVariableDebt, rates.variableBorrowRate, averageStableRate),
              utilization, rates.liquidityRate)
    ensures 0 <= utilization && totalStableDebt == 0 == totalVariableDebt ==> rates.liquidityRate == 0
    ensures 0 <= marketStableRate && 0 <= utilization <= RAY
            && 0 <= totalStableDebt && 0 <= totalVariableDebt && 0 <= averageStableRate ==>
      && marketStableRate <= rates.stableBorrowRate <= marketStableRate + s.stableRateSlope1 + s.stableRateSlope2
      && s.baseVariableBorrowRate <= rates.variableBorrowRate
         <= s.baseVariableBorrowRate + s.variableRateSlope1 + s.variableRateSlope2
      && 0 <= rates.liquidityRate
         <= OverallBorrowRate(totalStableDebt, totalVariableDebt, rates.variableBorrowRate, averageStableRate)
  {
    hide RayMul, RayDiv, OnLines, OverallBorrowRate, IsShare;
    var stableBorrowRate := marketStableRate;
    var variableBorrowRate := s.baseVariableBorrowRate;
    var optimalRate := s.optimalUtilizationRate;
    var excessRate := RAY - optimalRate;
    if utilization > optimalRate {
      var excessUtilizationRateRatio := RayDiv(utilization - s.optimalUtilizationRate, excessRate);
      stableBorrowRate := stableBorrowRate + s.stableRateSlope1
                          + RayMul(s.stableRateSlope2, excessUtilizationRateRatio);
      variableBorrowRate := variableBorrowRate + s.variableRateSlope1
                            + RayMul(s.variableRateSlope2, excessUtilizationRateRatio);
    } else {
      stableBorrowRate := stableBorrowRate + RayMul(s.stableRateSlope1, RayDiv(utilization, optimalRate));
      variableBorrowRate := variableBorrowRate + RayMul(RayDiv(utilization, optimalRate), s.variableRateSlope1);
      RayMulCommutes(RayDiv(utilization, optimalRate), s.variableRateSlope1);
    }
    var expectedOverallRate := OverallBorrowRate(totalStableDebt, totalVariableDebt, variableBorrowRate,
                                                 averageStableRate);
    var liquidityRate := PercentMul(RayMul(expectedOverallRate, utilization), PERCENTAGE_FACTOR - s.reserveFactor);
    rates := Rates(liquidityRate, stableBorrowRate, variableBorrowRate);
    RatesBounded(s, marketStableRate, utilization, totalStableDebt, totalVariableDebt, averageStableRate);
  }
}
