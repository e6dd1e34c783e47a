/** The reserve steps in the form of the source: a fresh record filled in field by field, with reassigned amounts. */
module ReserveCalculations {
  import opened FixedPoint
  import opened RateStrategy
  import opened StableAverage
  import opened Records
  import opened ReserveSteps
  import opened ReserveMeaning
  import opened Balances

  /** The record is sound, updated at time t, and no index has fallen. */
  predicate Grown(r: Reserve, e: Reserve, t: int) {
    && Sound(e) && e.lastUpdateTimestamp == t
    && r.liquidityIndex <= e.liquidityIndex && r.variableBorrowIndex <= e.variableBorrowIndex
  }

  /** The liquidity is the sum of its parts, and the utilisation the borrowed fraction of it. */
  predicate WellPriced(e: Reserve) {
    && Balanced(e) == e
    && e.utilizationRate == ReadUtilizationRate(e.availableLiquidity, e.totalStableDebt, e.totalVariableDebt) <= RAY
  }

  lemma SumIsWellPriced(e: Reserve)
    requires Sound(e) && Balanced(e) == e
    requires Priceable(e)
    requires e.utilizationRate == UtilizationRate(e.totalStableDebt, e.totalVariableDebt, e.totalLiquidity)
    ensures WellPriced(e)
  {
    UtilizationDefinitionsAgree(e.availableLiquidity, e.totalStableDebt, e.totalVariableDebt);
    UtilizationRange(e.availableLiquidity, e.totalStableDebt, e.totalVariableDebt);
    assert e.totalLiquidity == e.availableLiquidity + e.totalStableDebt + e.totalVariableDebt;
    hide UtilizationRate, ReadUtilizationRate;
  }

  lemma BorrowKeeps(s: Strategy, r: Reserve, amount: int, mode: RateMode, t: int, now: int)
    requires CanBorrow(s, r, amount, t, now)
    ensures
      var e := AfterBorrow(s, r, amount, mode, t, now);
      Grown(r, e, t) && WellPriced(e) && Readable(e) && e.availableLiquidity == r.availableLiquidity - amount
  {
    hide RayMul, RayDiv, LiquidityIndexAt, VariableBorrowIndexAt, NormalizedDebt, AverageStableRate, InterestRates,
      StableDebtBalance, TotalStableDebt, UtilizationRate, Readable, WellPriced;
    BorrowSound(s, r, amount, mode, t, now);
    BorrowSettledSound(s, r, amount, mode, t);
    IndicesAccrue(r, t);
    SumIsWellPriced(AfterBorrow(s, r, amount, mode, t, now));
  }

  lemma RepayKeeps(s: Strategy, r: Reserve, u: User, amount: int, mode: RateMode, t: int)
    requires CanRepay(s, r, u, amount, mode, t)
    ensures
      var e := AfterRepay(s, r, u, amount, mode, t);
      && Grown(r, e, t) && WellPriced(e)
      && e.availableLiquidity == r.availableLiquidity + RepaidAmount(r, u, amount, mode, t)
      && (mode == Variable ==>
            r.scaledVariableDebt - u.scaledVariableDebt <= e.scaledVariableDebt <= r.scaledVariableDebt)
  {
    hide RayMul, RayDiv, LiquidityIndexAt, VariableBorrowIndexAt, InterestRates, UserStableDebt, VariableDebtBalance,
      TotalStableDebt, UtilizationRate, WellPriced, RepaidAmount, StableRepaid;
    RepaySound(s, r, u, amount, mode, t);
    IndicesAccrue(r, t);
    if mode == Variable {
      RepaidVariable(r, u, RepaidAmount(r, u, amount, mode, t), t);
    }
    SumIsWellPriced(AfterRepay(s, r, u, amount, mode, t));
  }

  method CalcReserveAfterDeposit(s: Strategy, amountDeposited: int, r: Reserve, txTimestamp: int) returns (e: Reserve)
    requires CanDeposit(s, r, amountDeposited, txTimestamp)
    ensures e == AfterDeposit(s, r, amountDeposited, txTimestamp)
    ensures Deposited(s, r, e, amountDeposited, txTimestamp)
    ensures Grown(r, e, txTimestamp) && e.availableLiquidity == r.availableLiquidity + amountDeposited
    ensures e.principalStableDebt == r.principalStableDebt && e.scaledVariableDebt == r.scaledVariableDebt
    ensures r.totalLiquidity == r.availableLiquidity + e.totalStableDebt + e.totalVariableDebt ==> Balanced(e) == e
  {
    hide RayMul, RayDiv, LiquidityIndexAt, VariableBorrowIndexAt, NormalizedDebt, AverageStableRate, InterestRates,
      StableDebtBalance, UserStableDebt, VariableDebtBalance, TotalStableDebt, UtilizationRate, Deposited;
    e := r.(lastUpdateTimestamp := txTimestamp);
    e := e.(totalLiquidity := r.totalLiquidity + amountDeposited);
    e := e.(availableLiquidity := r.availableLiquidity + amountDeposited);
    e := e.(averageStableBorrowRate := r.averageStableBorrowRate);
    e := e.(liquidityIndex := LiquidityIndexAt(r, txTimestamp));
    e := e.(variableBorrowIndex := VariableBorrowIndexAt(r, txTimestamp));
    e := e.(totalStableDebt := TotalStableDebt(r.principalStableDebt, r.averageStableBorrowRate,
                                               r.totalStableDebtLastUpdated, txTimestamp));
    e := e.(totalVariableDebt := RayMul(r.scaledVariableDebt, e.variableBorrowIndex));
    e := e.(scaledVariableDebt := r.scaledVariableDebt);
    e := e.(principalStableDebt := r.principalStableDebt);
    DebtsAt(r, txTimestamp);
    e := e.(utilizationRate := UtilizationRate(e.totalStableDebt, e.totalVariableDebt, e.totalLiquidity));
    var rates := CalcInterestRates(s, r.marketStableRate, e.utilizationRate, e.totalStableDebt, e.totalVariableDebt,
                                   e.averageStableBorrowRate);
    e := e.(liquidityRate := rates.liquidityRate);
    e := e.(stableBorrowRate := rates.stableBorrowRate);
    e := e.(variableBorrowRate := rates.variableBorrowRate);
    DepositSound(s, r, amountDeposited, txTimestamp);
    IndicesAccrue(r, txTimestamp);
    DepositLiquidityGap(s, r, amountDeposited, txTimestamp);
    DepositIs(s, r, amountDeposited, txTimestamp);
  }

  method CalcReserveAfterWithdraw(s: Strategy, amount: int, r: Reserve, u: User, txTimestamp: int) returns (e: Reserve)
    requires CanWithdraw(s, r, u, amount, txTimestamp)
    ensures e == AfterWithdraw(s, r, u, amount, txTimestamp)
    ensures Withdrawn(s, r, u, e, amount, txTimestamp)
    ensures Grown(r, e, txTimestamp) && WellPriced(e)
    ensures e.availableLiquidity == r.availableLiquidity - WithdrawnAmount(r, u, amount, txTimestamp)
    ensures e.principalStableDebt == r.principalStableDebt && e.scaledVariableDebt == r.scaledVariableDebt
  {
    hide RayMul, RayDiv, LiquidityIndexAt, VariableBorrowIndexAt, NormalizedDebt, AverageStableRate, InterestRates,
      StableDebtBalance, UserStableDebt, VariableDebtBalance, TotalStableDebt, UtilizationRate, Withdrawn;
    var amountWithdrawn := amount;
    if amountWithdrawn == MAX_UINT_AMOUNT {
      amountWithdrawn := ATokenBalance(r, u, txTimestamp);
    }
    e := r.(lastUpdateTimestamp := txTimestamp);
    e := e.(availableLiquidity := r.availableLiquidity - amountWithdrawn);
    e := e.(principalStableDebt := r.principalStableDebt);
    e := e.(scaledVariableDebt := r.scaledVariableDebt);
    e := e.(liquidityIndex := LiquidityIndexAt(r, txTimestamp));
    e := e.(variableBorrowIndex := VariableBorrowIndexAt(r, txTimestamp));
    e := e.(totalStableDebt := TotalStableDebt(r.principalStableDebt, r.averageStableBorrowRate,
                                               r.totalStableDebtLastUpdated, txTimestamp));
    e := e.(totalVariableDebt := RayMul(e.scaledVariableDebt, e.variableBorrowIndex));
    e := e.(averageStableBorrowRate := r.averageStableBorrowRate);
    e := e.(totalLiquidity := r.availableLiquidity - amountWithdrawn + e.totalVariableDebt + e.totalStableDebt);
    DebtsAt(r, txTimestamp);
    e := e.(utilizationRate := UtilizationRate(e.totalStableDebt, e.totalVariableDebt, e.totalLiquidity));
    var rates := CalcInterestRates(s, r.marketStableRate, e.utilizationRate, e.totalStableDebt, e.totalVariableDebt,
                                   e.averageStableBorrowRate);
    e := e.(liquidityRate := rates.liquidityRate);
    e := e.(stableBorrowRate := rates.stableBorrowRate);
    e := e.(variableBorrowRate := rates.variableBorrowRate);
    WithdrawSound(s, r, u, amount, txTimestamp);
    IndicesAccrue(r, txTimestamp);
    SumIsWellPriced(e);
    WithdrawIs(s, r, u, amount, txTimestamp);
  }

  method CalcReserveAfterBorrow(s: Strategy, amountBorrowed: int, mode: RateMode, r: Reserve,
                                txTimestamp: int, currentTimestamp: int) returns (e: Reserve)
    requires CanBorrow(s, r, amountBorrowed, txTimestamp, currentTimestamp)
    ensures e == AfterBorrow(s, r, amountBorrowed, mode, txTimestamp, currentTimestamp)
    ensures Settled(s, r, BorrowSettled(s, r, amountBorrowed, mode, txTimestamp), amountBorrowed, mode, txTimestamp)
    ensures Borrowed(s, r, e, amountBorrowed, mode, txTimestamp, currentTimestamp)
    ensures Grown(r, e, txTimestamp) && WellPriced(e) && Readable(e)
    ensures e.availableLiquidity == r.availableLiquidity - amountBorrowed
  {
    hide RayMul, RayDiv, LiquidityIndexAt, VariableBorrowIndexAt, NormalizedDebt, AverageStableRate, InterestRates,
      StableDebtBalance, UserStableDebt, VariableDebtBalance, TotalStableDebt, UtilizationRate, Borrowed, Grown,
      WellPriced;
    ghost var settled := BorrowSettled(s, r, amountBorrowed, mode, txTimestamp);
    DebtsAt(r, txTimestamp);
    BorrowSettledSound(s, r, amountBorrowed, mode, txTimestamp);
    AgedDebts(settled, currentTimestamp);
    e := r;
    e := e.(liquidityIndex := LiquidityIndexAt(r, txTimestamp));
    e := e.(variableBorrowIndex := VariableBorrowIndexAt(r, txTimestamp));
    e := e.(availableLiquidity := r.availableLiquidity - amountBorrowed);
    e := e.(lastUpdateTimestamp := txTimestamp);
    if mode == Stable {
      e := e.(totalStableDebtLastUpdated := txTimestamp);
      e := e.(scaledVariableDebt := r.scaledVariableDebt);
      var variableDebtAfterTx := RayMul(e.scaledVariableDebt, e.variableBorrowIndex);
      var stableDebtUntilTx := TotalStableDebt(r.principalStableDebt, r.averageStableBorrowRate,
                                               r.totalStableDebtLastUpdated, txTimestamp);
      e := e.(principalStableDebt := stableDebtUntilTx + amountBorrowed);
      e := e.(averageStableBorrowRate := AverageStableRate(r.averageStableBorrowRate, stableDebtUntilTx,
                                                           amountBorrowed, r.stableBorrowRate));
      var totalLiquidityAfterTx := e.availableLiquidity + e.principalStableDebt + variableDebtAfterTx;
      var utilizationAfterTx := UtilizationRate(e.principalStableDebt, variableDebtAfterTx, totalLiquidityAfterTx);
      var rates := CalcInterestRates(s, r.marketStableRate, utilizationAfterTx, e.principalStableDebt,
                                     variableDebtAfterTx, e.averageStableBorrowRate);
      e := e.(liquidityRate := rates.liquidityRate);
      e := e.(stableBorrowRate := rates.stableBorrowRate);
      e := e.(variableBorrowRate := rates.variableBorrowRate);
      e := e.(totalStableDebt := TotalStableDebt(e.principalStableDebt, e.averageStableBorrowRate,
                                                 txTimestamp, currentTimestamp));
      e := e.(totalVariableDebt := RayMul(r.scaledVariableDebt,
                                          NormalizedDebt(e.variableBorrowRate, e.variableBorrowIndex,
                                                         txTimestamp, currentTimestamp)));
      e := e.(totalLiquidity := e.availableLiquidity + e.totalVariableDebt + e.totalStableDebt);
      e := e.(utilizationRate := UtilizationRate(e.totalStableDebt, e.totalVariableDebt, e.totalLiquidity));
    } else {
      e := e.(principalStableDebt := r.principalStableDebt);
      var stableDebtAfterTx := StableDebtBalance(r.principalStableDebt, r.averageStableBorrowRate,
                                                 r.totalStableDebtLastUpdated, txTimestamp);
      e := e.(totalStableDebt := TotalStableDebt(r.principalStableDebt, r.averageStableBorrowRate,
                                                 r.totalStableDebtLastUpdated, currentTimestamp));
      e := e.(averageStableBorrowRate := r.averageStableBorrowRate);
      e := e.(scaledVariableDebt := r.scaledVariableDebt + RayDiv(amountBorrowed, e.variableBorrowIndex));
      var variableDebtAfterTx := RayMul(e.scaledVariableDebt, e.variableBorrowIndex);
      BorrowedVariable(r, amountBorrowed, txTimestamp);
      var utilizationAfterTx := UtilizationRate(stableDebtAfterTx, variableDebtAfterTx,
                                                e.availableLiquidity + stableDebtAfterTx + variableDebtAfterTx);
      var rates := CalcInterestRates(s, r.marketStableRate, utilizationAfterTx, stableDebtAfterTx,
                                     variableDebtAfterTx, e.averageStableBorrowRate);
      e := e.(liquidityRate := rates.liquidityRate);
      e := e.(stableBorrowRate := rates.stableBorrowRate);
      e := e.(variableBorrowRate := rates.variableBorrowRate);
      e := e.(totalVariableDebt := RayMul(e.scaledVariableDebt,
                                          NormalizedDebt(e.variableBorrowRate, e.variableBorrowIndex,
                                                         txTimestamp, currentTimestamp)));
      e := e.(totalLiquidity := e.availableLiquidity + e.totalStableDebt + e.totalVariableDebt);
      e := e.(utilizationRate := UtilizationRate(e.totalStableDebt, e.totalVariableDebt, e.totalLiquidity));
    }
    BorrowKeeps(s, r, amountBorrowed, mode, txTimestamp, currentTimestamp);
    BorrowIs(s, r, amountBorrowed, mode, txTimestamp, currentTimestamp);
  }

  method CalcReserveAfterRepay(s: Strategy, amount: int, mode: RateMode, r: Reserve, u: User, txTimestamp: int)
    returns (e: Reserve)
    requires CanRepay(s, r, u, amount, mode, txTimestamp)
    ensures e == AfterRepay(s, r, u, amount, mode, txTimestamp)
    ensures Repaid(s, r, u, e, amount, mode, txTimestamp)
    ensures Grown(r, e, txTimestamp) && WellPriced(e)
    ensures e.availableLiquidity == r.availableLiquidity + RepaidAmount(r, u, amount, mode, txTimestamp)
    ensures mode == Variable ==>
      r.scaledVariableDebt - u.scaledVariableDebt <= e.scaledVariableDebt <= r.scaledVariableDebt
  {
    hide RayMul, RayDiv, LiquidityIndexAt, VariableBorrowIndexAt, NormalizedDebt, AverageStableRate, InterestRates,
      StableDebtBalance, UserStableDebt, VariableDebtBalance, TotalStableDebt, UtilizationRate, Repaid, Grown,
      WellPriced;
    DebtsAt(r, txTimestamp);
    e := r.(lastUpdateTimestamp := txTimestamp);
    var amountRepaid := amount;
    var userStableDebt := UserStableDebt(u, txTimestamp);
    var userVariableDebt := VariableDebtBalance(r, u, txTimestamp);
    if Abs(amountRepaid) == MAX_UINT_AMOUNT {
      if mode == Stable {
        amountRepaid := userStableDebt;
      } else {
        amountRepaid := userVariableDebt;
      }
    }
    e := e.(liquidityIndex := LiquidityIndexAt(r, txTimestamp));
    e := e.(variableBorrowIndex := VariableBorrowIndexAt(r, txTimestamp));
    if mode == Stable {
      e := e.(totalStableDebtLastUpdated := txTimestamp);
      var expectedDebt := TotalStableDebt(r.principalStableDebt, r.averageStableBorrowRate,
                                          r.totalStableDebtLastUpdated, txTimestamp);
      e := e.(principalStableDebt := expectedDebt - amountRepaid, totalStableDebt := expectedDebt - amountRepaid);
      if e.totalStableDebt < 0 {
        e := e.(principalStableDebt := 0, totalStableDebt := 0, averageStableBorrowRate := 0);
      } else {
        e := e.(averageStableBorrowRate := AverageStableRate(r.averageStableBorrowRate, expectedDebt, -amountRepaid,
                                                             u.stableBorrowRate));
        if e.averageStableBorrowRate < 0 {
          e := e.(principalStableDebt := 0, totalStableDebt := 0, averageStableBorrowRate := 0);
        }
      }
      e := e.(scaledVariableDebt := r.scaledVariableDebt);
      e := e.(totalVariableDebt := RayMul(e.scaledVariableDebt, e.variableBorrowIndex));
    } else {
      RepaidVariable(r, u, amountRepaid, txTimestamp);
      e := e.(scaledVariableDebt := r.scaledVariableDebt - RayDiv(amountRepaid, e.variableBorrowIndex));
      e := e.(totalVariableDebt := RayMul(e.scaledVariableDebt, e.variableBorrowIndex));
      e := e.(principalStableDebt := r.principalStableDebt);
      e := e.(totalStableDebt := r.totalStableDebt);
      e := e.(averageStableBorrowRate := r.averageStableBorrowRate);
    }
    e := e.(availableLiquidity := r.availableLiquidity + amountRepaid);
    e := e.(totalLiquidity := e.availableLiquidity + e.totalStableDebt + e.totalVariableDebt);
    e := e.(utilizationRate := UtilizationRate(e.totalStableDebt, e.totalVariableDebt, e.totalLiquidity));
    var rates := CalcInterestRates(s, r.marketStableRate, e.utilizationRate, e.totalStableDebt, e.totalVariableDebt,
                                   e.averageStableBorrowRate);
    e := e.(liquidityRate := rates.liquidityRate);
    e := e.(stableBorrowRate := rates.stableBorrowRate);
    e := e.(variableBorrowRate := rates.variableBorrowRate);
    RepayKeeps(s, r, u, amount, mode, txTimestamp);
    RepayIs(s, r, u, amount, mode, txTimestamp);
  }

  method CalcReserveAfterSwapRateMode(s: Strategy, r: Reserve, u: User, mode: RateMode, txTimestamp: int)
    returns (e: Reserve)
    requires SwapComputes(s, r, u, mode, txTimestamp)
    ensures e == AfterSwap(s, r, u, mode, txTimestamp)
    ensures Swapped(s, r, u, e, mode, txTimestamp)
    ensures CanSwap(s, r, u, mode, txTimestamp) <==> Sound(e)
    ensures CanSwap(s, r, u, mode, txTimestamp) ==> Grown(r, e, txTimestamp) && WellPriced(e)
    ensures e.availableLiquidity == r.availableLiquidity && RAY <= VariableBorrowIndexAt(r, txTimestamp)
    ensures
      var index := VariableBorrowIndexAt(r, txTimestamp);
      var before := TotalStableDebtAt(r, txTimestamp) + RayMul(r.scaledVariableDebt, index);
      var moved := e.totalStableDebt + e.totalVariableDebt - before;
      && (mode == Variable ==> -1 <= moved <= 1)
      && (mode == Stable ==> -Drift(index) <= moved <= Drift(index))
  {
    hide RayMul, RayDiv, LiquidityIndexAt, VariableBorrowIndexAt, NormalizedDebt, AverageStableRate, InterestRates,
      StableDebtBalance, UserStableDebt, VariableDebtBalance, TotalStableDebt, UtilizationRate, Swapped;
    DebtsAt(r, txTimestamp);
    e := r.(lastUpdateTimestamp := txTimestamp, totalStableDebtLastUpdated := txTimestamp);
    var variableDebt := VariableDebtBalance(r, u, txTimestamp);
    var stableDebt := UserStableDebt(u, txTimestamp);
    e := e.(liquidityIndex := LiquidityIndexAt(r, txTimestamp));
    e := e.(variableBorrowIndex := VariableBorrowIndexAt(r, txTimestamp));
    e := e.(availableLiquidity := r.availableLiquidity);
    var stableDebtUntilTx := TotalStableDebt(r.principalStableDebt, r.averageStableBorrowRate,
                                             r.totalStableDebtLastUpdated, txTimestamp);
    if mode == Stable {
      SwappedToVariable(r, u, txTimestamp);
      e := e.(scaledVariableDebt := r.scaledVariableDebt + RayDiv(stableDebt, e.variableBorrowIndex));
      e := e.(totalVariableDebt := RayMul(e.scaledVariableDebt, e.variableBorrowIndex));
      e := e.(principalStableDebt := stableDebtUntilTx - stableDebt, totalStableDebt := stableDebtUntilTx - stableDebt);
      e := e.(averageStableBorrowRate := AverageStableRate(r.averageStableBorrowRate,
                                                           e.principalStableDebt + stableDebt,
                                                           -stableDebt, u.stableBorrowRate));
    } else {
      RepaidAll(r, u, txTimestamp);
      e := e.(principalStableDebt := stableDebtUntilTx + variableDebt,
              totalStableDebt := stableDebtUntilTx + variableDebt);
      e := e.(scaledVariableDebt := r.scaledVariableDebt - RayDiv(variableDebt, e.variableBorrowIndex));
      e := e.(totalVariableDebt := RayMul(e.scaledVariableDebt, e.variableBorrowIndex));
      e := e.(averageStableBorrowRate := AverageStableRate(r.averageStableBorrowRate, r.totalStableDebt,
                                                           variableDebt, r.stableBorrowRate));
    }
    e := e.(totalLiquidity := r.availableLiquidity + e.totalStableDebt + e.totalVariableDebt);
    e := e.(utilizationRate := UtilizationRate(e.totalStableDebt, e.totalVariableDebt, e.totalLiquidity));
    var rates := CalcInterestRates(s, r.marketStableRate, e.utilizationRate, e.totalStableDebt, e.totalVariableDebt,
                                   e.averageStableBorrowRate);
    e := e.(liquidityRate := rates.liquidityRate);
    e := e.(stableBorrowRate := rates.stableBorrowRate);
    e := e.(variableBorrowRate := rates.variableBorrowRate);
    SwapSoundIff(s, r, u, mode, txTimestamp);
    SwapConservesDebt(s, r, u, mode, txTimestamp);
    IndicesAccrue(r, txTimestamp);
    if Sound(e) {
      SumIsWellPriced(e);
    }
    SwapIs(s, r, u, mode, txTimestamp);
  }

  method CalcReserveAfterRebalance(s: Strategy, r: Reserve, u: User, txTimestamp: int) returns (e: Reserve)
    requires RebalanceComputes(s, r, u, txTimestamp)
    ensures e == AfterRebalance(s, r, u, txTimestamp)
    ensures Rebalanced(s, r, u, e, txTimestamp)
    ensures CanRebalance(s, r, u, txTimestamp) <==> Sound(e)
    ensures CanRebalance(s, r, u, txTimestamp) ==> Grown(r, e, txTimestamp) && WellPriced(e)
    ensures e.availableLiquidity == r.availableLiquidity && e.scaledVariableDebt == r.scaledVariableDebt
  {
    hide RayMul, RayDiv, LiquidityIndexAt, VariableBorrowIndexAt, InterestRates, UserStableDebt, TotalStableDebt,
      UtilizationRate, RebalancedAverage, Rebalanced;
    DebtsAt(r, txTimestamp);
    e := r.(lastUpdateTimestamp := txTimestamp, totalStableDebtLastUpdated := txTimestamp);
    var userStableDebt := UserStableDebt(u, txTimestamp);
    e := e.(liquidityIndex := LiquidityIndexAt(r, txTimestamp));
    e := e.(variableBorrowIndex := VariableBorrowIndexAt(r, txTimestamp));
    e := e.(scaledVariableDebt := r.scaledVariableDebt);
    e := e.(totalVariableDebt := RayMul(e.scaledVariableDebt, e.variableBorrowIndex));
    var totalStableDebt := TotalStableDebt(r.principalStableDebt, r.averageStableBorrowRate,
                                           r.totalStableDebtLastUpdated, txTimestamp);
    e := e.(principalStableDebt := totalStableDebt, totalStableDebt := totalStableDebt);
    e := e.(availableLiquidity := r.availableLiquidity);
    e := e.(totalLiquidity := e.availableLiquidity + e.totalStableDebt + e.totalVariableDebt);
    var avgRateBefore := RebalancedAverage(r.averageStableBorrowRate, e.totalStableDebt, -userStableDebt,
                                           u.stableBorrowRate);
    e := e.(averageStableBorrowRate := RebalancedAverage(avgRateBefore, e.totalStableDebt - userStableDebt,
                                                         userStableDebt, r.stableBorrowRate));
    e := e.(utilizationRate := UtilizationRate(e.totalStableDebt, e.totalVariableDebt, e.totalLiquidity));
    var rates := CalcInterestRates(s, r.marketStableRate, e.utilizationRate, e.totalStableDebt, e.totalVariableDebt,
                                   e.averageStableBorrowRate);
    e := e.(liquidityRate := rates.liquidityRate);
    e := e.(stableBorrowRate := rates.stableBorrowRate);
    e := e.(variableBorrowRate := rates.variableBorrowRate);
    RebalanceSoundIff(s, r, u, txTimestamp);
    IndicesAccrue(r, txTimestamp);
    if Sound(e) {
      SumIsWellPriced(e);
    }
    RebalanceIs(s, r, u, txTimestamp);
  }
}
