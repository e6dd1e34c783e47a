/** Solvency of a record that is read later than it was made. Its debts have grown since, each at its own rate, while
    the rate paid to suppliers is still the one computed from the debts before. */
module ReadSolvency {
  import opened FixedPoint
  import opened Interest
  import opened RateStrategy
  import opened Records
  import opened ReserveSteps
  import opened ReserveMeaning
  import opened Solvency
  import opened StableAverage
  import opened StepSolvency

  function StableLater(e: Reserve, now: int): int {
    TotalStableDebtAt(e, now)
  }

  function VariableLater(e: Reserve, now: int): int {
    RayMul(e.scaledVariableDebt,
           NormalizedDebt(e.variableBorrowRate, e.variableBorrowIndex, e.lastUpdateTimestamp, now))
  }

  /** By how much the mix of the two debts has moved towards the cheaper one, weighed by the difference of the rates. */
  function MixShift(e: Reserve, now: int): int {
    (e.variableBorrowRate - e.averageStableBorrowRate)
    * (StableLater(e, now) * e.totalVariableDebt - e.totalStableDebt * VariableLater(e, now))
  }

  function OverallBefore(e: Reserve): int {
    OverallBorrowRate(e.totalStableDebt, e.totalVariableDebt, e.variableBorrowRate, e.averageStableBorrowRate)
  }

  /** The slack of one second for a record that is read later, times the debt of the record: the roundings of
      `SolvencySlack`, with those of the overall rate grown like the debt, and the shift of the mix. */
  function LaterSlack(e: Reserve, now: int): int
    requires Sound(e) && e.lastUpdateTimestamp <= now
  {
    var later := Aged(e, now);
    var before, debt := e.totalStableDebt + e.totalVariableDebt, later.totalStableDebt + later.totalVariableDebt;
    before * (2 * RAY * (ONE_YEAR - 1) * debt + OverallBefore(e) * later.totalLiquidity + RAY * later.totalLiquidity)
    + RAY * debt * (2 * WAD + before)
    + 2 * RAY * MixShift(e, now)
  }

  /** Over n seconds: linear interest on the liquidity as it is read, against compounded interest on both debts. */
  ghost predicate CoveredLater(e: Reserve, now: int, n: nat)
    requires Sound(e) && e.lastUpdateTimestamp <= now
  {
    var later := Aged(e, now);
    var before := e.totalStableDebt + e.totalVariableDebt;
    var credited := later.totalLiquidity * (LinearInterest(e.liquidityRate, n, 0) - RAY);
    var owed := later.totalVariableDebt * (CompoundedInterest(e.variableBorrowRate, n, 0) - RAY)
              + later.totalStableDebt * (CompoundedInterest(e.averageStableBorrowRate, n, 0) - RAY);
    before * (2 * RAY * ONE_YEAR * credited) <= before * (2 * RAY * ONE_YEAR * owed) + n * LaterSlack(e, now)
  }

  /** Chebyshev's identity for two debts at two times: the weighted rates differ by exactly the shift of the mix. */
  lemma MixIdentity(s0: int, v0: int, s1: int, v1: int, average: int, rate: int)
    ensures (s1 + v1) * (v0 * rate + s0 * average)
         == (s0 + v0) * (v1 * rate + s1 * average) + (rate - average) * (s1 * v0 - s0 * v1)
  {
    assert (s1 + v1) * (v0 * rate + s0 * average)
        == (s1 * v0) * rate + (s1 * s0) * average + (v1 * v0) * rate + (v1 * s0) * average;
    assert (s0 + v0) * (v1 * rate + s1 * average)
        == (s0 * v1) * rate + (s0 * s1) * average + (v0 * v1) * rate + (v0 * s1) * average;
    Distribute(s1 * v0 - s0 * v1, rate, average);
  }

  lemma LaterRecord(e: Reserve, now: int)
    requires Sound(e) && e.lastUpdateTimestamp <= now
    ensures
      var later := Aged(e, now);
      var debt := StableLater(e, now) + VariableLater(e, now);
      && later.totalStableDebt == StableLater(e, now) && later.totalVariableDebt == VariableLater(e, now)
      && later.totalLiquidity == e.availableLiquidity + debt
      && 0 <= StableLater(e, now) && 0 <= VariableLater(e, now)
      && 0 <= later.utilizationRate
      && 2 * (later.totalLiquidity * later.utilizationRate) <= 2 * RAY * debt + later.totalLiquidity
  {
    AgedDebts(e, now);
    hide RayMul, NormalizedDebt, TotalStableDebt, RayDiv;
    var debt := StableLater(e, now) + VariableLater(e, now);
    if debt != 0 {
      RayDivRounds(debt, e.availableLiquidity + debt);
    }
  }

  /** What the rates of a priced record say about its own debts. */
  lemma PricedPromise(s: Strategy, e: Reserve)
    requires Sound(e) && Priced(s, e)
    ensures
      var before := e.totalStableDebt + e.totalVariableDebt;
      var weighted := e.totalVariableDebt * e.variableBorrowRate + e.totalStableDebt * e.averageStableBorrowRate;
      && 0 <= OverallBefore(e) && e.liquidityRate <= RayMul(OverallBefore(e), e.utilizationRate)
      && 2 * (before * OverallBefore(e)) <= 2 * weighted + 2 * WAD + before
  {
    var before := e.totalStableDebt + e.totalVariableDebt;
    PricedFields(s, e);
    MulNonNeg(e.totalVariableDebt, e.variableBorrowRate);
    MulNonNeg(e.totalStableDebt, e.averageStableBorrowRate);
    if before != 0 {
      OverallNearWeighted(e.totalStableDebt, e.totalVariableDebt, e.variableBorrowRate, e.averageStableBorrowRate);
    }
    hide RayMul, OverallBorrowRate, LiquidityRate, Priced;
    LiquidityRateBounded(s, OverallBefore(e), e.utilizationRate);
  }

  lemma PricedFields(s: Strategy, e: Reserve)
    requires Sound(e) && Priced(s, e)
    ensures e.liquidityRate == LiquidityRate(s, OverallBefore(e), e.utilizationRate)
    ensures e.totalStableDebt + e.totalVariableDebt == 0 ==> OverallBefore(e) == 0
  {
    hide LiquidityRate, UtilizationRate, Curve, RayMul, RayDiv;
  }

  /** The yearly interest promised on the liquidity as it is read, against the yearly interest on the debts as they are
      read, both times the debt of the record. */
  lemma PromisedLater(s: Strategy, e: Reserve, now: int)
    requires Sound(e) && Priced(s, e) && e.lastUpdateTimestamp <= now
    requires e.utilizationRate <= Aged(e, now).utilizationRate
    ensures
      var liquidity := e.availableLiquidity + StableLater(e, now) + VariableLater(e, now);
      var before, debt := e.totalStableDebt + e.totalVariableDebt, StableLater(e, now) + VariableLater(e, now);
      var weighted := VariableLater(e, now) * e.variableBorrowRate + StableLater(e, now) * e.averageStableBorrowRate;
      before * (2 * RAY * (liquidity * e.liquidityRate))
      <= before * (2 * RAY * weighted) + 2 * RAY * MixShift(e, now) + RAY * debt * (2 * WAD + before)
         + before * (OverallBefore(e) * liquidity + RAY * liquidity)
  {
    hide Aged, Priced, RayMul, OverallBefore, StableLater, VariableLater, MixShift;
    var later := Aged(e, now);
    var before, debt := e.totalStableDebt + e.totalVariableDebt, StableLater(e, now) + VariableLater(e, now);
    var overall := OverallBefore(e);
    LaterRecord(e, now);
    PricedPromise(s, e);
    RayMulMono(overall, overall, e.utilizationRate, later.utilizationRate);
    RayMulRounds(overall, later.utilizationRate);
    PromiseScaled(overall, later.utilizationRate, later.totalLiquidity, debt, e.liquidityRate);
    var w0 := e.totalVariableDebt * e.variableBorrowRate + e.totalStableDebt * e.averageStableBorrowRate;
    var w1 := VariableLater(e, now) * e.variableBorrowRate + StableLater(e, now) * e.averageStableBorrowRate;
    MixWeights(e, now);
    PromiseGrown(before, debt, later.totalLiquidity * e.liquidityRate, overall,
                 overall * later.totalLiquidity + RAY * later.totalLiquidity, w0, w1, MixShift(e, now));
  }

  lemma MixWeights(e: Reserve, now: int)
    ensures (StableLater(e, now) + VariableLater(e, now))
            * (e.totalVariableDebt * e.variableBorrowRate + e.totalStableDebt * e.averageStableBorrowRate)
         == (e.totalStableDebt + e.totalVariableDebt)
            * (VariableLater(e, now) * e.variableBorrowRate + StableLater(e, now) * e.averageStableBorrowRate)
            + MixShift(e, now)
  {
    hide StableLater, VariableLater;
    MixIdentity(e.totalStableDebt, e.totalVariableDebt, StableLater(e, now), VariableLater(e, now),
                e.averageStableBorrowRate, e.variableBorrowRate);
  }

  /** The arithmetic of `PromisedLater`. */
  lemma PromiseGrown(before: int, debt: int, promised: int, overall: int, rest: int, w0: int, w1: int, shift: int)
    requires 0 <= before && 0 <= debt
    requires 2 * RAY * promised <= 2 * RAY * (debt * overall) + rest
    requires 2 * (before * overall) <= 2 * w0 + 2 * WAD + before
    requires debt * w0 == before * w1 + shift
    ensures before * (2 * RAY * promised)
         <= before * (2 * RAY * w1) + 2 * RAY * shift + RAY * debt * (2 * WAD + before) + before * rest
  {
    MulMono(2 * RAY * promised, 2 * RAY * (debt * overall) + rest, before);
    Distribute(before, 2 * RAY * (debt * overall), rest);
    MulMono(2 * (before * overall), 2 * w0 + 2 * WAD + before, RAY * debt);
    Distribute(RAY * debt, 2 * w0, 2 * WAD + before);
    assert before * (2 * RAY * (debt * overall)) == (RAY * debt) * (2 * (before * overall));
    assert (RAY * debt) * (2 * w0) == 2 * RAY * (debt * w0);
    assert before * (2 * RAY * w1) == 2 * RAY * (before * w1);
  }

  /** Solvency of a record that is read later: for whatever time passes, what is credited is covered up to rounding
      and the shift of the mix of the two debts. */
  lemma ReadIsCovered(s: Strategy, e: Reserve, now: int, n: nat)
    requires Sound(e) && Priced(s, e) && e.lastUpdateTimestamp <= now
    requires e.utilizationRate <= Aged(e, now).utilizationRate
    ensures CoveredLater(e, now, n)
  {
    hide Aged, Priced, RayMul, OverallBefore, StableLater, VariableLater, LinearInterest, CompoundedInterest,
      LaterSlack, MixShift, CoveredLater;
    var before, debt := e.totalStableDebt + e.totalVariableDebt, StableLater(e, now) + VariableLater(e, now);
    var liquidity := e.availableLiquidity + debt;
    LaterRecord(e, now);
    PromisedLater(s, e, now);
    LinearAtLeastRay(e.liquidityRate, n, 0);
    OwedAtLeastRate(VariableLater(e, now), e.variableBorrowRate, n);
    OwedAtLeastRate(StableLater(e, now), e.averageStableBorrowRate, n);
    LaterWrittenOut(e, now, n);
    CreditedLater(before, liquidity, e.liquidityRate, LinearInterest(e.liquidityRate, n, 0) - RAY, n,
                  VariableLater(e, now), StableLater(e, now), VariableLater(e, now) * e.variableBorrowRate,
                  StableLater(e, now) * e.averageStableBorrowRate,
                  VariableLater(e, now) * (CompoundedInterest(e.variableBorrowRate, n, 0) - RAY),
                  StableLater(e, now) * (CompoundedInterest(e.averageStableBorrowRate, n, 0) - RAY),
                  OverallBefore(e) * liquidity + RAY * liquidity,
                  2 * RAY * MixShift(e, now) + RAY * debt * (2 * WAD + before), LaterSlack(e, now));
  }

  lemma LaterWrittenOut(e: Reserve, now: int, n: nat)
    requires Sound(e) && e.lastUpdateTimestamp <= now
    ensures
      var before, debt := e.totalStableDebt + e.totalVariableDebt, StableLater(e, now) + VariableLater(e, now);
      var liquidity := e.availableLiquidity + debt;
      && LaterSlack(e, now)
         == before * (2 * RAY * (ONE_YEAR - 1) * debt + (OverallBefore(e) * liquidity + RAY * liquidity))
            + (2 * RAY * MixShift(e, now) + RAY * debt * (2 * WAD + before))
      && (before * (2 * RAY * ONE_YEAR * (liquidity * (LinearInterest(e.liquidityRate, n, 0) - RAY)))
          <= before * (2 * RAY * ONE_YEAR
                       * (VariableLater(e, now) * (CompoundedInterest(e.variableBorrowRate, n, 0) - RAY)
                          + StableLater(e, now) * (CompoundedInterest(e.averageStableBorrowRate, n, 0) - RAY)))
             + n * LaterSlack(e, now)
          ==> CoveredLater(e, now, n))
  {
    LaterRecord(e, now);
    hide Aged, RayMul, OverallBefore, StableLater, VariableLater, LinearInterest, CompoundedInterest, MixShift;
  }

  /** The arithmetic of `ReadIsCovered`. */
  lemma CreditedLater(before: int, liquidity: int, promised: int, grown: int, n: int, variable: int, stable: int,
                      wv: int, ws: int, owedVariable: int, owedStable: int, rest: int, fixed: int, slack: int)
    requires 0 <= n && 0 <= liquidity && 0 <= before && ONE_YEAR * grown <= promised * n
    requires before * (2 * RAY * (liquidity * promised)) <= before * (2 * RAY * (wv + ws)) + fixed + before * rest
    requires wv * n <= ONE_YEAR * owedVariable + (ONE_YEAR - 1) * (variable * n)
    requires ws * n <= ONE_YEAR * owedStable + (ONE_YEAR - 1) * (stable * n)
    requires slack == before * (2 * RAY * (ONE_YEAR - 1) * (stable + variable) + rest) + fixed
    ensures before * (2 * RAY * ONE_YEAR * (liquidity * grown))
         <= before * (2 * RAY * ONE_YEAR * (owedVariable + owedStable)) + n * slack
  {
    var credited, due := liquidity * grown, liquidity * promised;
    assert ONE_YEAR * credited <= due * n by {
      MulMono(ONE_YEAR * grown, promised * n, liquidity);
      assert liquidity * (ONE_YEAR * grown) == ONE_YEAR * credited;
      assert liquidity * (promised * n) == due * n;
    }
    CreditedTimes(before, credited, due, n, variable, stable, wv, ws, owedVariable, owedStable, rest, fixed, slack);
  }

  lemma CreditedTimes(before: int, credited: int, due: int, n: int, variable: int, stable: int, wv: int, ws: int,
                      owedVariable: int, owedStable: int, rest: int, fixed: int, slack: int)
    requires 0 <= n && 0 <= before && ONE_YEAR * credited <= due * n
    requires before * (2 * RAY * due) <= before * (2 * RAY * (wv + ws)) + fixed + before * rest
    requires wv * n <= ONE_YEAR * owedVariable + (ONE_YEAR - 1) * (variable * n)
    requires ws * n <= ONE_YEAR * owedStable + (ONE_YEAR - 1) * (stable * n)
    requires slack == before * (2 * RAY * (ONE_YEAR - 1) * (stable + variable) + rest) + fixed
    ensures before * (2 * RAY * ONE_YEAR * credited)
         <= before * (2 * RAY * ONE_YEAR * (owedVariable + owedStable)) + n * slack
  {
    hide *;
    var debt, w := stable + variable, wv + ws;
    TimesSeconds(before, credited, due, n);
    MulMono(before * (2 * RAY * due), before * (2 * RAY * w) + (fixed + before * rest), n);
    Distribute(n, before * (2 * RAY * w), fixed + before * rest);
    OwedTimes(before, wv + ws, n, debt, owedVariable + owedStable, wv * n + ws * n, variable * n + stable * n);
    Distribute(before, 2 * RAY * (ONE_YEAR - 1) * debt, rest);
    Distribute(n, before * (2 * RAY * (ONE_YEAR - 1) * debt), fixed + before * rest);
    assert n * (before * (2 * RAY * due)) == (before * (2 * RAY * due)) * n;
  }

  lemma TimesSeconds(before: int, credited: int, due: int, n: int)
    requires 0 <= before && ONE_YEAR * credited <= due * n
    ensures before * (2 * RAY * ONE_YEAR * credited) <= n * (before * (2 * RAY * due))
  {
    MulMono(2 * RAY * (ONE_YEAR * credited), 2 * RAY * (due * n), before);
    assert before * (2 * RAY * (due * n)) == n * (before * (2 * RAY * due));
  }

  lemma OwedTimes(before: int, w: int, n: int, debt: int, owed: int, wn: int, debtn: int)
    requires 0 <= before && wn <= ONE_YEAR * owed + (ONE_YEAR - 1) * debtn
    requires wn == w * n && debtn == debt * n
    ensures n * (before * (2 * RAY * w))
         <= before * (2 * RAY * ONE_YEAR * owed) + n * (before * (2 * RAY * (ONE_YEAR - 1) * debt))
  {
    MulMono(2 * RAY * wn, 2 * RAY * (ONE_YEAR * owed + (ONE_YEAR - 1) * debtn), before);
    assert n * (before * (2 * RAY * w)) == before * (2 * RAY * wn);
    assert n * (before * (2 * RAY * (ONE_YEAR - 1) * debt)) == before * (2 * RAY * ((ONE_YEAR - 1) * debtn));
    Distribute(before, 2 * RAY * ONE_YEAR * owed, 2 * RAY * ((ONE_YEAR - 1) * debtn));
  }

  // ---------- How far the mix can shift ----------

  /** What the roundings of the variable debt and of the stable one may add to twice their growth, in rays. */
  function VariableRounding(e: Reserve, now: int): int {
    CompoundedInterest(e.variableBorrowRate, now, e.lastUpdateTimestamp) + e.scaledVariableDebt + RAY
  }

  function StaleRounding(e: Reserve, now: int): int
    requires e.totalStableDebtLastUpdated <= e.lastUpdateTimestamp <= now
  {
    CompoundedInterest(e.averageStableBorrowRate, now, e.lastUpdateTimestamp)
    + e.principalStableDebt * SplitSlack(now - e.lastUpdateTimestamp,
                                         e.lastUpdateTimestamp - e.totalStableDebtLastUpdated) + RAY
  }

  lemma NormalizedIsGrown(e: Reserve, now: int)
    requires Sound(e) && e.lastUpdateTimestamp <= now
    ensures RAY <= CompoundedInterest(e.variableBorrowRate, now, e.lastUpdateTimestamp)
    ensures NormalizedDebt(e.variableBorrowRate, e.variableBorrowIndex, e.lastUpdateTimestamp, now)
         == RayMul(CompoundedInterest(e.variableBorrowRate, now, e.lastUpdateTimestamp), e.variableBorrowIndex)
  {
    hide RayMul, CompoundedInterest;
    CompoundedAtLeastRay(e.variableBorrowRate, now, e.lastUpdateTimestamp);
    if e.variableBorrowRate == 0 {
      NothingAccrues(0, now, e.lastUpdateTimestamp);
      GrowsBy(RAY, e.variableBorrowIndex);
    }
  }

  /** The variable debt grows by the factor of its rate, up to half a factor, half the scaled debt and half a unit. */
  lemma VariableGrowth(e: Reserve, now: int)
    requires Sound(e) && e.lastUpdateTimestamp <= now
    requires e.totalVariableDebt == RayMul(e.scaledVariableDebt, e.variableBorrowIndex)
    ensures
      var factor := CompoundedInterest(e.variableBorrowRate, now, e.lastUpdateTimestamp);
      var exact := 2 * (factor * e.totalVariableDebt);
      exact - VariableRounding(e, now) <= 2 * RAY * VariableLater(e, now) <= exact + VariableRounding(e, now)
  {
    hide RayMul, CompoundedInterest, NormalizedDebt;
    var factor := CompoundedInterest(e.variableBorrowRate, now, e.lastUpdateTimestamp);
    var scaled, index := e.scaledVariableDebt, e.variableBorrowIndex;
    NormalizedIsGrown(e, now);
    RayMulRounds(scaled, index);
    RayMulRounds(factor, index);
    RayMulRounds(scaled, RayMul(factor, index));
    GrownTwice(factor, scaled, index, e.totalVariableDebt, RayMul(factor, index), VariableLater(e, now));
  }

  lemma GrownTwice(factor: int, scaled: int, index: int, before: int, grown: int, later: int)
    requires 0 <= factor && 0 <= scaled
    requires 2 * RAY * before <= 2 * (scaled * index) + RAY < 2 * RAY * before + 2 * RAY
    requires 2 * RAY * grown <= 2 * (factor * index) + RAY < 2 * RAY * grown + 2 * RAY
    requires 2 * RAY * later <= 2 * (scaled * grown) + RAY < 2 * RAY * later + 2 * RAY
    ensures 2 * (factor * before) - (factor + scaled + RAY) <= 2 * RAY * later
         <= 2 * (factor * before) + (factor + scaled + RAY)
  {
    MulMono(2 * RAY * grown, 2 * (factor * index) + RAY, scaled);
    MulMono(2 * (factor * index) - RAY, 2 * RAY * grown, scaled);
    MulMono(2 * (scaled * index), 2 * RAY * before + RAY, factor);
    MulMono(2 * RAY * before - RAY, 2 * (scaled * index), factor);
    Distribute(scaled, 2 * (factor * index), RAY);
    Distribute(factor, 2 * RAY * before, RAY);
    assert scaled * (2 * (factor * index)) == factor * (2 * (scaled * index));
    assert scaled * (2 * RAY * grown) == RAY * (2 * (scaled * grown));
    assert factor * (2 * RAY * before) == RAY * (2 * (factor * before));
  }

  /** Stable debt that was touched at the time of the record grows by the factor of its rate, up to half a unit. */
  lemma FreshStableGrowth(e: Reserve, now: int)
    requires Sound(e) && e.lastUpdateTimestamp <= now
    requires e.totalStableDebt == e.principalStableDebt && e.totalStableDebtLastUpdated == e.lastUpdateTimestamp
    ensures
      var exact := 2 * (CompoundedInterest(e.averageStableBorrowRate, now, e.lastUpdateTimestamp) * e.totalStableDebt);
      exact - RAY <= 2 * RAY * StableLater(e, now) <= exact + RAY
  {
    hide RayMul, CompoundedInterest;
    CompoundedAtLeastRay(e.averageStableBorrowRate, now, e.lastUpdateTimestamp);
    RayMulRounds(CompoundedInterest(e.averageStableBorrowRate, now, e.lastUpdateTimestamp), e.totalStableDebt);
  }

  /** Stable debt that was touched before grows by at most the factor of its rate, up to the rounding of the powers:
      the expansion over the whole time is below the product of the expansions over its parts. */
  lemma StaleStableGrowth(e: Reserve, now: int)
    requires Sound(e) && e.lastUpdateTimestamp <= now
    requires e.totalStableDebt == TotalStableDebtAt(e, e.lastUpdateTimestamp)
    ensures
      var factor := CompoundedInterest(e.averageStableBorrowRate, now, e.lastUpdateTimestamp);
      2 * RAY * StableLater(e, now) <= 2 * (factor * e.totalStableDebt) + StaleRounding(e, now)
  {
    hide RayMul, CompoundedInterest, SplitSlack;
    var rate, principal := e.averageStableBorrowRate, e.principalStableDebt;
    var first, last := e.totalStableDebtLastUpdated, e.lastUpdateTimestamp;
    CompoundedShift(rate, last, first);
    CompoundedShift(rate, now, last);
    CompoundedShift(rate, now, first);
    CompoundedAtLeastRay(rate, last, first);
    CompoundedAtLeastRay(rate, now, last);
    CompoundedAtLeastRay(rate, now, first);
    SplitCompounded(rate, now - last, last - first);
    RayMulRounds(CompoundedInterest(rate, last, first), principal);
    RayMulRounds(CompoundedInterest(rate, now, first), principal);
    GrownInParts(CompoundedInterest(rate, now, last), CompoundedInterest(rate, last, first),
                 CompoundedInterest(rate, now, first), principal, SplitSlack(now - last, last - first),
                 e.totalStableDebt, StableLater(e, now));
  }

  lemma GrownInParts(later: int, earlier: int, whole: int, principal: int, slack: int, s0: int, s1: int)
    requires 0 <= later && 0 <= principal
    requires later * earlier >= RAY * whole - HALF_RAY * slack
    requires 2 * RAY * s0 <= 2 * (earlier * principal) + RAY < 2 * RAY * s0 + 2 * RAY
    requires 2 * RAY * s1 <= 2 * (whole * principal) + RAY
    ensures 2 * RAY * s1 <= 2 * (later * s0) + (later + principal * slack + RAY)
  {
    MulMono(RAY * whole - HALF_RAY * slack, later * earlier, principal);
    MulMono(2 * (earlier * principal), 2 * RAY * s0 + RAY, later);
    Distribute(principal, RAY * whole, HALF_RAY * slack);
    Distribute(later, 2 * RAY * s0, RAY);
    assert principal * (RAY * whole) == RAY * (whole * principal);
    assert principal * (HALF_RAY * slack) == HALF_RAY * (principal * slack);
    assert principal * (later * earlier) == later * (earlier * principal);
    assert later * (2 * RAY * s0) == RAY * (2 * (later * s0));
  }

  /** A debt that grows by the smaller factor gains nothing on one that grows by the larger one, but for rounding. */
  lemma Outgrown(x0: int, x1: int, y0: int, y1: int, cx: int, cy: int, ex: int, ey: int)
    requires 0 <= x0 && 0 <= y0 && cx <= cy
    requires 2 * RAY * x1 <= 2 * (cx * x0) + ex && 2 * (cy * y0) - ey <= 2 * RAY * y1
    ensures 2 * RAY * (x1 * y0 - x0 * y1) <= ex * y0 + ey * x0
  {
    MulMono(2 * RAY * x1, 2 * (cx * x0) + ex, y0);
    MulMono(2 * (cy * y0) - ey, 2 * RAY * y1, x0);
    MulNonNeg(x0, y0);
    MulMono(cx, cy, x0 * y0);
    Distribute(y0, 2 * (cx * x0), ex);
    Distribute(x0, 2 * (cy * y0), ey);
    assert (2 * RAY * x1) * y0 == 2 * RAY * (x1 * y0);
    assert x0 * (2 * RAY * y1) == 2 * RAY * (x0 * y1);
    assert (2 * (cx * x0)) * y0 == 2 * (cx * (x0 * y0));
    assert x0 * (2 * (cy * y0)) == 2 * (cy * (x0 * y0));
  }

  lemma ScaledShift(apart: int, gained: int, bound: int)
    requires 0 <= apart && 2 * RAY * gained <= bound
    ensures 2 * RAY * (apart * gained) <= apart * bound
  {
    MulMono(2 * RAY * gained, bound, apart);
  }

  lemma GrowthOrder(rate: int, rate': int, now: int, last: int)
    requires 0 <= rate <= rate' && last <= now
    ensures CompoundedInterest(rate, now, last) <= CompoundedInterest(rate', now, last)
  {
    CompoundedShift(rate, now, last);
    CompoundedShift(rate', now, last);
    CompoundedMono(rate, now - last, rate', now - last);
  }

  /** If both debts grow from the time of the record, the dearer one outgrows the cheaper one: the mix shifts towards
      the cheaper one by rounding only. */
  lemma FreshMixShift(e: Reserve, now: int)
    requires Sound(e) && e.lastUpdateTimestamp <= now
    requires e.totalVariableDebt == RayMul(e.scaledVariableDebt, e.variableBorrowIndex)
    requires e.totalStableDebt == e.principalStableDebt && e.totalStableDebtLastUpdated == e.lastUpdateTimestamp
    ensures 2 * RAY * MixShift(e, now)
         <= Abs(e.variableBorrowRate - e.averageStableBorrowRate)
            * (RAY * e.totalVariableDebt + VariableRounding(e, now) * e.totalStableDebt)
  {
    var t, rate, average := e.lastUpdateTimestamp, e.variableBorrowRate, e.averageStableBorrowRate;
    VariableGrowth(e, now);
    FreshStableGrowth(e, now);
    hide RayMul, CompoundedInterest, StableLater, VariableLater, VariableRounding;
    var s0, s1, v0, v1 := e.totalStableDebt, StableLater(e, now), e.totalVariableDebt, VariableLater(e, now);
    var bound := RAY * v0 + VariableRounding(e, now) * s0;
    if average <= rate {
      GrowthOrder(average, rate, now, t);
      Outgrown(s0, s1, v0, v1, CompoundedInterest(average, now, t), CompoundedInterest(rate, now, t), RAY,
               VariableRounding(e, now));
      ScaledShift(rate - average, s1 * v0 - s0 * v1, bound);
    } else {
      GrowthOrder(rate, average, now, t);
      Outgrown(v0, v1, s0, s1, CompoundedInterest(rate, now, t), CompoundedInterest(average, now, t),
               VariableRounding(e, now), RAY);
      ScaledShift(average - rate, v1 * s0 - v0 * s1, bound);
      OtherWayRound(rate - average, s1 * v0, s0 * v1);
    }
  }

  lemma OtherWayRound(d: int, a: int, b: int)
    ensures d * (a - b) == -d * (b - a)
  {
  }

  /** So it does if the variable debt is the dearer one, however long the stable debt has been growing. */
  lemma DearVariableMixShift(e: Reserve, now: int)
    requires Sound(e) && e.lastUpdateTimestamp <= now && e.averageStableBorrowRate <= e.variableBorrowRate
    requires e.totalVariableDebt == RayMul(e.scaledVariableDebt, e.variableBorrowIndex)
    requires e.totalStableDebt == TotalStableDebtAt(e, e.lastUpdateTimestamp)
    ensures 2 * RAY * MixShift(e, now)
         <= (e.variableBorrowRate - e.averageStableBorrowRate)
            * (StaleRounding(e, now) * e.totalVariableDebt + VariableRounding(e, now) * e.totalStableDebt)
  {
    var t, rate, average := e.lastUpdateTimestamp, e.variableBorrowRate, e.averageStableBorrowRate;
    VariableGrowth(e, now);
    StaleStableGrowth(e, now);
    hide RayMul, CompoundedInterest, StableLater, VariableLater, TotalStableDebtAt, VariableRounding, StaleRounding;
    var s0, s1, v0, v1 := e.totalStableDebt, StableLater(e, now), e.totalVariableDebt, VariableLater(e, now);
    GrowthOrder(average, rate, now, t);
    Outgrown(s0, s1, v0, v1, CompoundedInterest(average, now, t), CompoundedInterest(rate, now, t),
             StaleRounding(e, now), VariableRounding(e, now));
    ScaledShift(rate - average, s1 * v0 - s0 * v1,
                StaleRounding(e, now) * v0 + VariableRounding(e, now) * s0);
  }

  // ---------- Borrows that are read later ----------

  /** A borrow that is read later is covered for whatever time passes, up to rounding and the shift of the mix. */
  lemma LateBorrowIsCovered(s: Strategy, r: Reserve, amount: int, mode: RateMode, t: int, now: int, n: nat)
    requires CanBorrow(s, r, amount, t, now)
    ensures Sound(BorrowSettled(s, r, amount, mode, t)) && BorrowSettled(s, r, amount, mode, t).lastUpdateTimestamp == t
    ensures AfterBorrow(s, r, amount, mode, t, now) == Aged(BorrowSettled(s, r, amount, mode, t), now)
    ensures CoveredLater(BorrowSettled(s, r, amount, mode, t), now, n)
  {
    hide BorrowSettled, Priced, CoveredLater, Aged;
    BorrowSettledSound(s, r, amount, mode, t);
    BorrowPrices(s, r, amount, mode, t);
    BorrowUtilizationGrows(s, r, amount, mode, t, now);
    ReadIsCovered(s, BorrowSettled(s, r, amount, mode, t), now, n);
  }

  /** After a stable borrow the mix shifts by rounding only. */
  lemma LateStableBorrow(s: Strategy, r: Reserve, amount: int, t: int, now: int)
    requires CanBorrow(s, r, amount, t, now)
    ensures
      var e := BorrowSettled(s, r, amount, Stable, t);
      2 * RAY * MixShift(e, now)
      <= Abs(e.variableBorrowRate - e.averageStableBorrowRate)
         * (RAY * e.totalVariableDebt + VariableRounding(e, now) * e.totalStableDebt)
  {
    hide BorrowSettled, MixShift, VariableRounding, RayMul, TotalStableDebtAt, ReadUtilizationRate;
    BorrowSettledSound(s, r, amount, Stable, t);
    BorrowSettledTotals(s, r, amount, Stable, t, now);
    StableBorrowFresh(s, r, amount, t);
    FreshMixShift(BorrowSettled(s, r, amount, Stable, t), now);
  }

  /** So it does after a variable borrow that leaves the variable rate at least the average stable one. */
  lemma LateVariableBorrow(s: Strategy, r: Reserve, amount: int, t: int, now: int)
    requires CanBorrow(s, r, amount, t, now) && Dated(r)
    ensures Sound(BorrowSettled(s, r, amount, Variable, t))
    ensures BorrowSettled(s, r, amount, Variable, t).lastUpdateTimestamp == t
    ensures
      var e := BorrowSettled(s, r, amount, Variable, t);
      e.averageStableBorrowRate <= e.variableBorrowRate ==>
        2 * RAY * MixShift(e, now)
        <= (e.variableBorrowRate - e.averageStableBorrowRate)
           * (StaleRounding(e, now) * e.totalVariableDebt + VariableRounding(e, now) * e.totalStableDebt)
  {
    hide BorrowSettled, MixShift, VariableRounding, StaleRounding, RayMul, TotalStableDebtAt, ReadUtilizationRate;
    var e := BorrowSettled(s, r, amount, Variable, t);
    BorrowSettledSound(s, r, amount, Variable, t);
    BorrowSettledTotals(s, r, amount, Variable, t, now);
    SettledStableDebt(s, r, amount, Variable, t);
    if e.averageStableBorrowRate <= e.variableBorrowRate {
      DearVariableMixShift(e, now);
    }
  }

  lemma StableBorrowFresh(s: Strategy, r: Reserve, amount: int, t: int)
    requires CanBorrow(s, r, amount, t, t)
    ensures
      var e := BorrowSettled(s, r, amount, Stable, t);
      e.totalStableDebt == e.principalStableDebt && e.totalStableDebtLastUpdated == t
  {
    hide RayMul, RayDiv, UtilizationRate, InterestRates, VariableBorrowIndexAt, LiquidityIndexAt, TotalStableDebtAt,
      AverageStableRate;
    DebtsAt(r, t);
  }

  lemma BorrowUtilizationGrows(s: Strategy, r: Reserve, amount: int, mode: RateMode, t: int, now: int)
    requires CanBorrow(s, r, amount, t, now)
    ensures Sound(BorrowSettled(s, r, amount, mode, t)) && BorrowSettled(s, r, amount, mode, t).lastUpdateTimestamp == t
    ensures BorrowSettled(s, r, amount, mode, t).utilizationRate
         <= Aged(BorrowSettled(s, r, amount, mode, t), now).utilizationRate
  {
    hide BorrowSettled, Aged, RayMul, ReadUtilizationRate, TotalStableDebtAt;
    BorrowSettledSound(s, r, amount, mode, t);
    BorrowSettledTotals(s, r, amount, mode, t, now);
    UtilizationGrows(BorrowSettled(s, r, amount, mode, t), now);
  }

  /** The utilisation of a record never falls when it is read later. */
  lemma UtilizationGrows(e: Reserve, now: int)
    requires Sound(e) && e.lastUpdateTimestamp <= now
    requires e.totalStableDebt <= TotalStableDebtAt(e, now)
    requires e.totalVariableDebt == RayMul(e.scaledVariableDebt, e.variableBorrowIndex)
    requires e.utilizationRate == ReadUtilizationRate(e.availableLiquidity, e.totalStableDebt, e.totalVariableDebt)
    ensures e.utilizationRate <= Aged(e, now).utilizationRate
  {
    hide RayMul, UtilizationRate, ReadUtilizationRate, TotalStableDebtAt, NormalizedDebt;
    AgedDebts(e, now);
    var index := NormalizedDebt(e.variableBorrowRate, e.variableBorrowIndex, e.lastUpdateTimestamp, now);
    RayMulMono(e.scaledVariableDebt, e.scaledVariableDebt, e.variableBorrowIndex, index);
    var stable, variable := TotalStableDebtAt(e, now), RayMul(e.scaledVariableDebt, index);
    UtilizationDefinitionsAgree(e.availableLiquidity, stable, variable);
    UtilizationMono(e.availableLiquidity, e.totalStableDebt, e.totalVariableDebt,
                    e.availableLiquidity, stable, variable);
  }

  /** The shift of the mix is promised to the share of the liquidity that was lent and not kept back: what is promised
      on the liquidity as it is read is at least that share of the interest on the debts as they are read and of the
      shift, up to rounding. */
  lemma MixShiftIsPromised(s: Strategy, e: Reserve, now: int)
    requires Sound(e) && Priced(s, e) && e.lastUpdateTimestamp <= now
    requires 0 < e.totalStableDebt + e.totalVariableDebt
    ensures
      var before, debt := e.totalStableDebt + e.totalVariableDebt, StableLater(e, now) + VariableLater(e, now);
      var liquidity := e.availableLiquidity + debt;
      var share, lent := PERCENTAGE_FACTOR - s.reserveFactor, liquidity * e.utilizationRate;
      var weighted := VariableLater(e, now) * e.variableBorrowRate + StableLater(e, now) * e.averageStableBorrowRate;
      2 * RAY * PERCENTAGE_FACTOR * (debt * (before * (liquidity * e.liquidityRate)))
      >= share * lent * (2 * (before * weighted) + 2 * MixShift(e, now) - debt * (2 * WAD + before))
         - RAY * (share + PERCENTAGE_FACTOR) * (debt * (before * liquidity))
  {
    hide Priced, RayMul, OverallBefore, StableLater, VariableLater, MixShift, LiquidityRate;
    var before, debt := e.totalStableDebt + e.totalVariableDebt, StableLater(e, now) + VariableLater(e, now);
    LaterRecord(e, now);
    PricedPromise(s, e);
    PricedFields(s, e);
    PricedValid(s, e);
    OverallAtLeast(e);
    LiquidityRateIsShare(s, OverallBefore(e), e.utilizationRate);
    MixWeights(e, now);
    var w0 := e.totalVariableDebt * e.variableBorrowRate + e.totalStableDebt * e.averageStableBorrowRate;
    var w1 := VariableLater(e, now) * e.variableBorrowRate + StableLater(e, now) * e.averageStableBorrowRate;
    PromiseShared(before, debt, e.availableLiquidity + debt, OverallBefore(e), e.utilizationRate,
                  PERCENTAGE_FACTOR - s.reserveFactor, e.liquidityRate, w0, w1, MixShift(e, now));
  }

  lemma PricedValid(s: Strategy, e: Reserve)
    requires Priced(s, e)
    ensures s.Valid()
  {
  }

  lemma OverallAtLeast(e: Reserve)
    requires Sound(e) && 0 < e.totalStableDebt + e.totalVariableDebt
    ensures
      var before := e.totalStableDebt + e.totalVariableDebt;
      var weighted := e.totalVariableDebt * e.variableBorrowRate + e.totalStableDebt * e.averageStableBorrowRate;
      2 * weighted - 2 * WAD - before <= 2 * (before * OverallBefore(e))
  {
    OverallNearWeighted(e.totalStableDebt, e.totalVariableDebt, e.variableBorrowRate, e.averageStableBorrowRate);
    hide OverallBorrowRate;
  }

  lemma PromiseShared(before: int, debt: int, liquidity: int, overall: int, utilization: int, share: int, promised: int,
                      w0: int, w1: int, shift: int)
    requires 0 <= before && 0 <= debt && 0 <= liquidity && 0 <= utilization && 0 <= share
    requires 2 * ((overall * utilization) * share) - RAY * (share + PERCENTAGE_FACTOR)
          <= 2 * RAY * PERCENTAGE_FACTOR * promised
    requires 2 * w0 - 2 * WAD - before <= 2 * (before * overall)
    requires debt * w0 == before * w1 + shift
    ensures 2 * RAY * PERCENTAGE_FACTOR * (debt * (before * (liquidity * promised)))
         >= (share * (liquidity * utilization)) * (2 * (before * w1) + 2 * shift - debt * (2 * WAD + before))
            - RAY * (share + PERCENTAGE_FACTOR) * (debt * (before * liquidity))
  {
    hide *;
    var k, lent := debt * (before * liquidity), share * (liquidity * utilization);
    MulNonNeg(before, liquidity);
    MulNonNeg(debt, before * liquidity);
    MulNonNeg(liquidity, utilization);
    MulNonNeg(share, liquidity * utilization);
    ScaledPromise(k, (overall * utilization) * share, share + PERCENTAGE_FACTOR, promised);
    InnerFactor(debt, before, liquidity, promised);
    LentFactor(debt, before, liquidity, overall, utilization, share);
    LentShare(before, debt, overall, lent, w0, w1, shift);
  }

  lemma ScaledPromise(k: int, exact: int, rounding: int, promised: int)
    requires 0 <= k && 2 * exact - RAY * rounding <= 2 * RAY * PERCENTAGE_FACTOR * promised
    ensures 2 * (k * exact) - RAY * rounding * k <= 2 * RAY * PERCENTAGE_FACTOR * (k * promised)
  {
    MulMono(2 * exact - RAY * rounding, 2 * RAY * PERCENTAGE_FACTOR * promised, k);
    Distribute(k, 2 * exact, RAY * rounding);
  }

  lemma InnerFactor(a: int, b: int, c: int, d: int)
    ensures (a * (b * c)) * d == a * (b * (c * d))
  {
    assert (b * c) * d == b * (c * d);
  }

  lemma LentFactor(debt: int, before: int, liquidity: int, overall: int, utilization: int, share: int)
    ensures (debt * (before * liquidity)) * ((overall * utilization) * share)
         == (share * (liquidity * utilization)) * (debt * (before * overall))
  {
    var d, u := debt * before, share * utilization;
    assert debt * (before * liquidity) == d * liquidity && debt * (before * overall) == d * overall;
    assert (overall * utilization) * share == u * overall && share * (liquidity * utilization) == u * liquidity;
    assert (d * liquidity) * (u * overall) == (u * liquidity) * (d * overall);
  }

  lemma LentShare(before: int, debt: int, overall: int, lent: int, w0: int, w1: int, shift: int)
    requires 0 <= debt && 0 <= lent
    requires 2 * w0 - 2 * WAD - before <= 2 * (before * overall)
    requires debt * w0 == before * w1 + shift
    ensures lent * (2 * (before * w1) + 2 * shift - debt * (2 * WAD + before))
         <= 2 * (lent * (debt * (before * overall)))
  {
    MulMono(2 * w0 - (2 * WAD + before), 2 * (before * overall), debt);
    Distribute(debt, 2 * w0, 2 * WAD + before);
    MulMono(2 * (before * w1) + 2 * shift - debt * (2 * WAD + before), 2 * (debt * (before * overall)), lent);
    assert lent * (2 * (debt * (before * overall))) == 2 * (lent * (debt * (before * overall)));
  }
}
