/** What is credited to suppliers over a period against what borrowers owe for it. */
module Solvency {
  import opened FixedPoint
  import opened Interest
  import opened RateStrategy

  /** The rounding of one second, in units of 1 / (2 * RAY * ONE_YEAR) of a ray-scaled amount: the truncated rate
      per second on the debt, and the half-up roundings of the overall rate, of the utilisation and of their product. */
  function SolvencySlack(debt: int, totalLiquidity: int, overall: int): int {
    2 * RAY * (ONE_YEAR - 1) * debt + 2 * RAY * WAD + RAY * debt + RAY * totalLiquidity + overall * totalLiquidity
  }

  /** Over n seconds: linear interest on the liquidity, against compounded interest on both debts, with
      `SolvencySlack` for every second. */
  ghost predicate Covered(stable: int, variable: int, totalLiquidity: int,
                          liquidityRate: int, variableRate: int, averageStableRate: int, n: nat)
  {
    var overall := OverallBorrowRate(stable, variable, variableRate, averageStableRate);
    var credited := totalLiquidity * (LinearInterest(liquidityRate, n, 0) - RAY);
    var owed := variable * (CompoundedInterest(variableRate, n, 0) - RAY)
              + stable * (CompoundedInterest(averageStableRate, n, 0) - RAY);
    2 * RAY * ONE_YEAR * credited
    <= 2 * RAY * ONE_YEAR * owed + n * SolvencySlack(stable + variable, totalLiquidity, overall)
  }

  /** The yearly interest promised on the whole liquidity is at most the yearly interest on the debts. */
  lemma PromisedAtMostWeighted(s: Strategy, stable: int, variable: int, totalLiquidity: int,
                               variableRate: int, averageStableRate: int)
    requires s.Valid() && 0 <= stable && 0 <= variable && 0 < totalLiquidity
    requires 0 <= variableRate && 0 <= averageStableRate
    ensures
      var debt := stable + variable;
      var overall := OverallBorrowRate(stable, variable, variableRate, averageStableRate);
      var promised := LiquidityRate(s, overall, UtilizationRate(stable, variable, totalLiquidity));
      && 0 <= overall && 0 <= promised
      && 2 * RAY * (totalLiquidity * promised)
         <= 2 * RAY * (variable * variableRate + stable * averageStableRate)
          + 2 * RAY * WAD + RAY * debt + RAY * totalLiquidity + overall * totalLiquidity
  {
    var debt := stable + variable;
    var overall := OverallBorrowRate(stable, variable, variableRate, averageStableRate);
    var utilization := UtilizationRate(stable, variable, totalLiquidity);
    MulNonNeg(variable, variableRate);
    MulNonNeg(stable, averageStableRate);
    if debt == 0 {
      LiquidityRateBounded(s, overall, utilization);
    } else {
      OverallNearWeighted(stable, variable, variableRate, averageStableRate);
      RayDivRounds(debt, totalLiquidity);
      LiquidityRateBounded(s, overall, utilization);
      RayMulRounds(overall, utilization);
      var promised := LiquidityRate(s, overall, utilization);
      hide *;
      PromiseScaled(overall, utilization, totalLiquidity, debt, promised);
    }
  }

  /** The arithmetic of `PromisedAtMostWeighted`: the rounding inequalities multiplied by the liquidity and the rate. */
  lemma PromiseScaled(overall: int, utilization: int, liquidity: int, debt: int, promised: int)
    requires 0 <= overall && 0 <= liquidity
    requires 2 * RAY * promised <= 2 * (overall * utilization) + RAY
    requires 2 * (liquidity * utilization) <= 2 * RAY * debt + liquidity
    ensures 2 * RAY * (liquidity * promised)
         <= 2 * RAY * (debt * overall) + overall * liquidity + RAY * liquidity
  {
    MulMono(2 * RAY * promised, 2 * (overall * utilization) + RAY, liquidity);
    MulMono(2 * (liquidity * utilization), 2 * RAY * debt + liquidity, overall);
    Distribute(liquidity, 2 * (overall * utilization), RAY);
    Distribute(overall, 2 * RAY * debt, liquidity);
    assert liquidity * (2 * (overall * utilization)) == overall * (2 * (liquidity * utilization));
    assert overall * (2 * RAY * debt) == 2 * RAY * (debt * overall);
  }

  /** Over n seconds a debt owes at least its yearly interest for that time, less one unit per second. */
  lemma OwedAtLeastRate(debt: int, rate: int, n: nat)
    requires 0 <= debt && 0 <= rate
    ensures (debt * rate) * n
         <= ONE_YEAR * (debt * (CompoundedInterest(rate, n, 0) - RAY)) + (ONE_YEAR - 1) * (debt * n)
  {
    var p := RatePerSecond(rate);
    var grown := CompoundedInterest(rate, n, 0) - RAY;
    BasePowers(rate);
    assert n * p <= grown by {
      CompoundedIsExpansion(rate, n, 0);
      MulNonNeg(Choose(n, 2), BasePowerTwo(rate));
      MulNonNeg(Choose(n, 3), BasePowerThree(rate));
    }
    hide *;
    OwedScaled(debt, rate, n, p, grown);
  }

  lemma OwedScaled(debt: int, rate: int, n: int, p: int, grown: int)
    requires 0 <= debt && 0 <= n && n * p <= grown && rate <= ONE_YEAR * p + (ONE_YEAR - 1)
    ensures (debt * rate) * n <= ONE_YEAR * (debt * grown) + (ONE_YEAR - 1) * (debt * n)
  {
    MulNonNeg(debt, n);
    MulMono(rate, ONE_YEAR * p + (ONE_YEAR - 1), debt * n);
    Distribute(debt * n, ONE_YEAR * p, ONE_YEAR - 1);
    MulMono(n * p, grown, debt);
    assert (debt * n) * rate == (debt * rate) * n;
    assert (debt * n) * (ONE_YEAR * p) == ONE_YEAR * (debt * (n * p));
  }

  lemma UtilizationNonNegative(stable: int, variable: int, totalLiquidity: int)
    requires 0 <= stable && 0 <= variable && 0 < totalLiquidity
    ensures 0 <= UtilizationRate(stable, variable, totalLiquidity)
  {
    RayDivRounds(stable + variable, totalLiquidity);
  }

  /** Solvency of one accrual: for every elapsed time, the linear interest credited on the whole liquidity at the
      rate the strategy promises is at most the compounded interest owed on both debts, up to `SolvencySlack` for
      every second. */
  lemma AccrualIsSolvent(s: Strategy, marketStableRate: int, stable: int, variable: int, totalLiquidity: int,
                         averageStableRate: int, n: nat)
    requires s.Valid() && 0 <= stable && 0 <= variable && 0 < totalLiquidity && 0 <= averageStableRate
    ensures
      var rates := InterestRates(s, marketStableRate, UtilizationRate(stable, variable, totalLiquidity),
                                 stable, variable, averageStableRate);
      Covered(stable, variable, totalLiquidity, rates.liquidityRate, rates.variableBorrowRate, averageStableRate, n)
  {
    hide LinearInterest, CompoundedInterest, OverallBorrowRate, SolvencySlack, UtilizationRate, Curve, LiquidityRate;
    var utilization := UtilizationRate(stable, variable, totalLiquidity);
    var rates := InterestRates(s, marketStableRate, utilization, stable, variable, averageStableRate);
    var rate := rates.variableBorrowRate;
    var overall := OverallBorrowRate(stable, variable, rate, averageStableRate);
    var grown := LinearInterest(rates.liquidityRate, n, 0) - RAY;
    UtilizationNonNegative(stable, variable, totalLiquidity);
    CurveMono(s, s.baseVariableBorrowRate, s.variableRateSlope1, s.variableRateSlope2, utilization, utilization);
    PromisedAtMostWeighted(s, stable, variable, totalLiquidity, rate, averageStableRate);
    LinearAtLeastRay(rates.liquidityRate, n, 0);
    OwedAtLeastRate(variable, rate, n);
    OwedAtLeastRate(stable, averageStableRate, n);
    SlackWrittenOut(stable + variable, totalLiquidity, overall);
    var owedVariable := variable * (CompoundedInterest(rate, n, 0) - RAY);
    var owedStable := stable * (CompoundedInterest(averageStableRate, n, 0) - RAY);
    hide InterestRates;
    CreditedAtMostOwed(totalLiquidity, rates.liquidityRate, grown, n, variable * rate, stable * averageStableRate,
                       variable, stable, owedVariable, owedStable, overall * totalLiquidity,
                       SolvencySlack(stable + variable, totalLiquidity, overall));
  }

  lemma SlackWrittenOut(debt: int, totalLiquidity: int, overall: int)
    ensures SolvencySlack(debt, totalLiquidity, overall)
         == 2 * RAY * (ONE_YEAR - 1) * debt + 2 * RAY * WAD + RAY * debt + RAY * totalLiquidity
            + overall * totalLiquidity
  {
  }

  /** The arithmetic of `AccrualIsSolvent`. */
  lemma CreditedAtMostOwed(liquidity: int, promised: int, grown: int, n: int, wv: int, ws: int,
                           variable: int, stable: int, owedVariable: int, owedStable: int, product: int, slack: int)
    requires 0 <= n && 0 <= liquidity && ONE_YEAR * grown <= promised * n
    requires 2 * RAY * (liquidity * promised)
          <= 2 * RAY * (wv + ws) + 2 * RAY * WAD + RAY * (stable + variable) + RAY * liquidity + product
    requires wv * n <= ONE_YEAR * owedVariable + (ONE_YEAR - 1) * (variable * n)
    requires ws * n <= ONE_YEAR * owedStable + (ONE_YEAR - 1) * (stable * n)
    requires slack == 2 * RAY * (ONE_YEAR - 1) * (stable + variable) + 2 * RAY * WAD
                    + RAY * (stable + variable) + RAY * liquidity + product
    ensures 2 * RAY * ONE_YEAR * (liquidity * grown) <= 2 * RAY * ONE_YEAR * (owedVariable + owedStable) + n * slack
  {
    var rest := 2 * RAY * WAD + RAY * (stable + variable) + RAY * liquidity + product;
    MulMono(ONE_YEAR * grown, promised * n, liquidity);
    assert liquidity * (ONE_YEAR * grown) == ONE_YEAR * (liquidity * grown);
    assert liquidity * (promised * n) == (liquidity * promised) * n;
    MulMono(2 * RAY * (liquidity * promised), 2 * RAY * (wv + ws) + rest, n);
    assert (2 * RAY * (liquidity * promised)) * n == 2 * RAY * ((liquidity * promised) * n);
    assert (2 * RAY * (wv + ws) + rest) * n == 2 * RAY * (wv * n + ws * n) + n * rest;
    assert n * slack == 2 * RAY * (ONE_YEAR - 1) * (stable * n + variable * n) + n * rest;
  }
}
