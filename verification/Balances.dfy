/** What the reserve step and the user step of one action do together. */
module Balances {
  import opened FixedPoint
  import opened IndexTolerance
  import opened RateStrategy
  import opened StableAverage
  import opened Records
  import opened ReserveSteps
  import opened UserSteps
  import opened Tolerance

  // ---------- Supplying and withdrawing ----------

  /** Withdrawing everything leaves neither a scaled nor a current balance, and the collateral flag is off exactly
      if the recorded balance before was not zero. */
  lemma MaxWithdrawLeavesNothing(s: Strategy, r: Reserve, u: User, t: int)
    requires CanWithdraw(s, r, u, MAX_UINT_AMOUNT, t)
    ensures AfterWithdraw(s, r, u, MAX_UINT_AMOUNT, t).liquidityIndex != 0
    ensures
      var e := UserAfterWithdraw(r, AfterWithdraw(s, r, u, MAX_UINT_AMOUNT, t), u, MAX_UINT_AMOUNT, t);
      && e.scaledATokenBalance == 0 == e.currentATokenBalance
      && (e.usageAsCollateralEnabled <==> u.currentATokenBalance == 0)
  {
    hide LiquidityIndexAt, NormalizedIncome, RayMul, RayDiv, Repriced;
    var index := LiquidityIndexAt(r, t);
    DebtsAt(r, t);
    IncomeRoutesAgree(r, t);
    NoDust(u.scaledATokenBalance, index);
    RayDivUnit(index);
  }

  /** The supplier index a step leaves is the one that the balances of the users are computed from. */
  lemma DepositUser(s: Strategy, r: Reserve, u: User, amount: int, t: int)
    requires CanDeposit(s, r, amount, t) && SoundUser(u, t)
    ensures RAY <= AfterDeposit(s, r, amount, t).liquidityIndex == LiquidityIndexAt(r, t)
    ensures
      var index := AfterDeposit(s, r, amount, t).liquidityIndex;
      var e := UserAfterDeposit(r, AfterDeposit(s, r, amount, t), u, amount, t);
      && u.scaledATokenBalance <= e.scaledATokenBalance && amount <= e.currentATokenBalance
      && -Drift(index) <= RayMul(e.scaledATokenBalance, index) - e.currentATokenBalance <= Drift(index)
  {
    hide LiquidityIndexAt, NormalizedIncome, RayMul, RayDiv, Repriced, Drift;
    var index := LiquidityIndexAt(r, t);
    DebtsAt(r, t);
    IncomeRoutesAgree(r, t);
    RayDivUnit(index);
    RayDivRounds(amount, index);
    RayMulRounds(u.scaledATokenBalance, index);
    AddDrift(u.scaledATokenBalance, amount, index);
  }

  lemma WithdrawUser(s: Strategy, r: Reserve, u: User, amount: int, t: int)
    requires CanWithdraw(s, r, u, amount, t)
    ensures RAY <= AfterWithdraw(s, r, u, amount, t).liquidityIndex == LiquidityIndexAt(r, t)
    ensures
      var index := AfterWithdraw(s, r, u, amount, t).liquidityIndex;
      var e := UserAfterWithdraw(r, AfterWithdraw(s, r, u, amount, t), u, amount, t);
      && 0 <= e.scaledATokenBalance <= u.scaledATokenBalance && 0 <= e.currentATokenBalance
      && -Drift(index) <= RayMul(e.scaledATokenBalance, index) - e.currentATokenBalance <= Drift(index)
  {
    hide LiquidityIndexAt, NormalizedIncome, RayMul, RayDiv, Repriced, Drift, WithdrawnAmount;
    var index := LiquidityIndexAt(r, t);
    DebtsAt(r, t);
    IncomeRoutesAgree(r, t);
    RayDivUnit(index);
    TakeDrift(u.scaledATokenBalance, WithdrawnAmount(r, u, amount, t), index);
  }

  /** At a tolerable index, so in particular up to six rays, the scaled balance after any deposit or withdrawal is
      worth the recorded current balance within the tolerance of the comparison. */
  lemma BalancesWithinTolerance(s: Strategy, r: Reserve, u: User, amount: int, t: int)
    requires Timely(s, r, t) && 0 < LiquidityIndexAt(r, t) && Tolerable(LiquidityIndexAt(r, t))
    ensures CanDeposit(s, r, amount, t) && SoundUser(u, t) ==>
      && AfterDeposit(s, r, amount, t).liquidityIndex != 0
      && var e := UserAfterDeposit(r, AfterDeposit(s, r, amount, t), u, amount, t);
         AlmostEqual(RayMul(e.scaledATokenBalance, LiquidityIndexAt(r, t)), e.currentATokenBalance)
    ensures CanWithdraw(s, r, u, amount, t) ==>
      && AfterWithdraw(s, r, u, amount, t).liquidityIndex != 0
      && var e := UserAfterWithdraw(r, AfterWithdraw(s, r, u, amount, t), u, amount, t);
         AlmostEqual(RayMul(e.scaledATokenBalance, LiquidityIndexAt(r, t)), e.currentATokenBalance)
  {
    hide LiquidityIndexAt, NormalizedIncome, RayMul, RayDiv, Repriced, Tolerable, WithdrawnAmount;
    var index := LiquidityIndexAt(r, t);
    DebtsAt(r, t);
    IncomeRoutesAgree(r, t);
    RayDivUnit(index);
    if CanDeposit(s, r, amount, t) && SoundUser(u, t) {
      DepositTolerated(u.scaledATokenBalance, amount, index);
    }
    if CanWithdraw(s, r, u, amount, t) {
      WithdrawalTolerated(u.scaledATokenBalance, WithdrawnAmount(r, u, amount, t), index);
    }
  }

  // ---------- Scaled variable debt of the reserve and of its users ----------

  /** A variable repayment at one timestamp takes the same scaled amount from the user and from the reserve, at most
      the user's; repaying everything takes exactly the user's scaled debt. */
  lemma RepayMovesTogether(s: Strategy, r: Reserve, u: User, amount: int, ownWallet: bool, t: int)
    requires CanRepay(s, r, u, amount, Variable, t)
    ensures RAY <= AfterRepay(s, r, u, amount, Variable, t).variableBorrowIndex
    ensures
      var after := AfterRepay(s, r, u, amount, Variable, t);
      var e := UserAfterRepay(r, after, u, amount, Variable, ownWallet, t, t);
      && r.scaledVariableDebt - after.scaledVariableDebt == u.scaledVariableDebt - e.scaledVariableDebt
      && 0 <= e.scaledVariableDebt <= u.scaledVariableDebt
      && (Abs(amount) == MAX_UINT_AMOUNT ==> e.scaledVariableDebt == 0)
      && 0 <= e.currentVariableDebt
  {
    hide VariableBorrowIndexAt, RayMul, RayDiv, Repriced, VariableDebtBalance, UserStableDebt;
    DebtsAt(r, t);
    RepaidVariable(r, u, RepaidAmount(r, u, amount, Variable, t), t);
    RepaidAll(r, u, t);
    RayMulRounds(u.scaledVariableDebt - RayDiv(RepaidAmount(r, u, amount, Variable, t), VariableBorrowIndexAt(r, t)),
                 VariableBorrowIndexAt(r, t));
  }

  /** A swap in either direction moves the same scaled amount for the user and for the reserve. */
  lemma SwapMovesTogether(s: Strategy, r: Reserve, u: User, mode: RateMode, t: int)
    requires SwapComputes(s, r, u, mode, t)
    ensures mode == Variable ==> 0 < UserStableDebt(u, t) + VariableDebtBalance(r, u, t)
    ensures RAY <= AfterSwap(s, r, u, mode, t).variableBorrowIndex
    ensures
      var after := AfterSwap(s, r, u, mode, t);
      var e := UserAfterSwap(r, after, u, mode, t);
      && r.scaledVariableDebt - after.scaledVariableDebt == u.scaledVariableDebt - e.scaledVariableDebt
      && 0 <= e.scaledVariableDebt && 0 <= e.currentVariableDebt
  {
    hide VariableBorrowIndexAt, RayMul, RayDiv, Repriced, VariableDebtBalance, UserStableDebt, TotalStableDebtAt;
    SwapHasDebt(s, r, u, mode, t);
    DebtsAt(r, t);
    if mode == Variable {
      RepaidAll(r, u, t);
    } else {
      SwappedToVariable(r, u, t);
      RayMulRounds(u.scaledVariableDebt + RayDiv(UserStableDebt(u, t), VariableBorrowIndexAt(r, t)),
                   VariableBorrowIndexAt(r, t));
    }
  }

  /** A variable borrow moves user and reserve by the same scaled amount exactly if the user owed all of the
      reserve's scaled debt before, because the user's new debt is built on the debt of the reserve. */
  lemma BorrowMovesTogetherIff(s: Strategy, r: Reserve, u: User, amount: int, t: int, now: int)
    requires CanBorrow(s, r, amount, t, now)
    ensures RAY <= AfterBorrow(s, r, amount, Variable, t, now).variableBorrowIndex
    ensures
      var after := AfterBorrow(s, r, amount, Variable, t, now);
      var e := UserAfterBorrow(r, after, u, amount, Variable, t, now);
      && e.scaledVariableDebt == after.scaledVariableDebt >= r.scaledVariableDebt
      && (after.scaledVariableDebt - r.scaledVariableDebt == e.scaledVariableDebt - u.scaledVariableDebt
          <==> u.scaledVariableDebt == r.scaledVariableDebt)
  {
    BorrowSettledSound(s, r, amount, Variable, t);
    hide VariableBorrowIndexAt, RayMul, RayDiv, Repriced, VariableDebtBalance, UserStableDebt, ATokenBalance,
      NormalizedDebt, TotalStableDebtAt, StableDebtBalance;
    DebtsAt(r, t);
    BorrowedVariable(r, amount, t);
  }

  // ---------- Swapping the rate mode ----------

  /** A swap touches no liquidity and conserves the debt accrued up to it: within one unit to stable, within the
      drift of the index to variable. */
  lemma SwapConservesDebt(s: Strategy, r: Reserve, u: User, mode: RateMode, t: int)
    requires SwapComputes(s, r, u, mode, t)
    ensures RAY <= VariableBorrowIndexAt(r, t)
    ensures
      var after := AfterSwap(s, r, u, mode, t);
      var before := TotalStableDebtAt(r, t) + RayMul(r.scaledVariableDebt, VariableBorrowIndexAt(r, t));
      var moved := after.totalStableDebt + after.totalVariableDebt - before;
      && after.availableLiquidity == r.availableLiquidity
      && (mode == Variable ==> -1 <= moved <= 1)
      && (mode == Stable ==> -Drift(VariableBorrowIndexAt(r, t)) <= moved <= Drift(VariableBorrowIndexAt(r, t)))
  {
    hide VariableBorrowIndexAt, RayMul, RayDiv, AfterSwap, VariableDebtBalance, UserStableDebt, TotalStableDebtAt,
      Drift;
    RepricedKeepsTotals(s, r, u, mode, t);
    var index := VariableBorrowIndexAt(r, t);
    DebtsAt(r, t);
    if mode == Variable {
      RepaidAll(r, u, t);
      DebtRoutesAgree(r, u, t);
      SplitDrift(r.scaledVariableDebt, u.scaledVariableDebt, index);
    } else {
      SwappedToVariable(r, u, t);
      AddDrift(r.scaledVariableDebt, UserStableDebt(u, t), index);
    }
  }

  lemma RepricedKeepsTotals(s: Strategy, r: Reserve, u: User, mode: RateMode, t: int)
    requires SwapComputes(s, r, u, mode, t)
    ensures
      var after := AfterSwap(s, r, u, mode, t);
      var index := VariableBorrowIndexAt(r, t);
      && RAY <= index
      && after.availableLiquidity == r.availableLiquidity
      && after.totalVariableDebt == RayMul(after.scaledVariableDebt, index)
      && (mode == Stable ==> && after.totalStableDebt == TotalStableDebtAt(r, t) - UserStableDebt(u, t)
                             && after.scaledVariableDebt == r.scaledVariableDebt + RayDiv(UserStableDebt(u, t), index))
      && (mode == Variable ==> && after.totalStableDebt == TotalStableDebtAt(r, t) + VariableDebtBalance(r, u, t)
                               && after.scaledVariableDebt
                                  == r.scaledVariableDebt - RayDiv(VariableDebtBalance(r, u, t), index))
  {
    hide VariableBorrowIndexAt, RayMul, RayDiv, VariableDebtBalance, UserStableDebt, TotalStableDebtAt,
      UtilizationRate, InterestRates;
    DebtsAt(r, t);
  }

  /** The records after a swap to stable, written out. */
  lemma StableRecords(s: Strategy, r: Reserve, u: User, t: int)
    requires SwapComputes(s, r, u, Variable, t)
    ensures 0 < UserStableDebt(u, t) + VariableDebtBalance(r, u, t)
    ensures RAY <= AfterSwap(s, r, u, Variable, t).variableBorrowIndex == VariableBorrowIndexAt(r, t)
    ensures
      var r1 := AfterSwap(s, r, u, Variable, t);
      var u1 := UserAfterSwap(r, r1, u, Variable, t);
      var debt := VariableDebtBalance(r, u, t);
      && r1.lastUpdateTimestamp == t == r1.totalStableDebtLastUpdated
      && r1.principalStableDebt == TotalStableDebtAt(r, t) + debt
      && r1.averageStableBorrowRate
         == AverageStableRate(r.averageStableBorrowRate, r.totalStableDebt, debt, r.stableBorrowRate)
      && r1.scaledVariableDebt == r.scaledVariableDebt - RayDiv(debt, r1.variableBorrowIndex)
      && u1 == u.(principalStableDebt := u.currentStableDebt + debt, currentStableDebt := u.currentStableDebt + debt,
                  stableBorrowRate := UserStableRate(UserStableDebt(u, t), u.stableBorrowRate, debt,
                                                     r.stableBorrowRate),
                  stableRateLastUpdated := t, currentVariableDebt := 0, scaledVariableDebt := 0,
                  currentATokenBalance := u1.currentATokenBalance, liquidityRate := r1.liquidityRate)
      && u1.currentATokenBalance == ATokenBalance(r, u, t)
  {
    hide RayMul, RayDiv, VariableBorrowIndexAt, LiquidityIndexAt, VariableDebtBalance, UserStableDebt,
      TotalStableDebtAt, Repriced, AverageStableRate, UserStableRate, ATokenBalance;
    SwapHasDebt(s, r, u, Variable, t);
    DebtsAt(r, t);
  }

  /** After a swap to stable the whole debt of a user without stable debt is stable, and the same amount has joined
      the stable debt of the reserve; the swap back can be computed. */
  lemma SwappedToStable(s: Strategy, r: Reserve, u: User, t: int)
    requires SwapComputes(s, r, u, Variable, t) && u.currentStableDebt == 0
    ensures 0 < UserStableDebt(u, t) + VariableDebtBalance(r, u, t) && 0 <= VariableDebtBalance(r, u, t)
    ensures RAY <= AfterSwap(s, r, u, Variable, t).variableBorrowIndex == VariableBorrowIndexAt(r, t)
    ensures
      var r1 := AfterSwap(s, r, u, Variable, t);
      var u1 := UserAfterSwap(r, r1, u, Variable, t);
      var debt := VariableDebtBalance(r, u, t);
      && SwapComputes(s, r1, u1, Stable, t)
      && VariableBorrowIndexAt(r1, t) == r1.variableBorrowIndex
      && UserStableDebt(u1, t) == debt && TotalStableDebtAt(r1, t) == TotalStableDebtAt(r, t) + debt
      && u1.stableBorrowRate == UserStableRate(UserStableDebt(u, t), u.stableBorrowRate, debt, r.stableBorrowRate)
      && r1.averageStableBorrowRate
         == AverageStableRate(r.averageStableBorrowRate, r.totalStableDebt, debt, r.stableBorrowRate)
      && r1.scaledVariableDebt == r.scaledVariableDebt - u.scaledVariableDebt && u1.scaledVariableDebt == 0
      && RayDiv(debt, r1.variableBorrowIndex) == u.scaledVariableDebt
  {
    hide AfterSwap, UserAfterSwap, RayMul, RayDiv, VariableBorrowIndexAt, LiquidityIndexAt, VariableDebtBalance,
      UserStableRate, AverageStableRate, TotalStableDebtAt, UserStableDebt;
    StableRecords(s, r, u, t);
    SwapSoundIff(s, r, u, Variable, t);
    RepaidAll(r, u, t);
    SoundStableUser(s, r, u, t);
    DebtsAt(r, t);
    var r1 := AfterSwap(s, r, u, Variable, t);
    ReadAtOnce(r1, UserAfterSwap(r, r1, u, Variable, t), t);
  }

  /** Debts and indices read at the time they were updated are what was recorded. */
  lemma ReadAtOnce(r: Reserve, u: User, t: int)
    requires Sound(r) && r.lastUpdateTimestamp == t == r.totalStableDebtLastUpdated && u.stableRateLastUpdated == t
    ensures UserStableDebt(u, t) == u.principalStableDebt && TotalStableDebtAt(r, t) == r.principalStableDebt
    ensures VariableBorrowIndexAt(r, t) == r.variableBorrowIndex
  {
    hide RayMul, VariableBorrowIndexAt;
    IndicesAccrue(r, t);
    StableDebtGrows(r.principalStableDebt, r.averageStableBorrowRate, t, t, t);
  }

  lemma SoundStableUser(s: Strategy, r: Reserve, u: User, t: int)
    requires SwapComputes(s, r, u, Variable, t)
    ensures 0 < UserStableDebt(u, t) + VariableDebtBalance(r, u, t)
    ensures AfterSwap(s, r, u, Variable, t).variableBorrowIndex != 0
    ensures SoundUser(UserAfterSwap(r, AfterSwap(s, r, u, Variable, t), u, Variable, t), t)
  {
    var debt := VariableDebtBalance(r, u, t);
    StableRecords(s, r, u, t);
    RepaidAll(r, u, t);
    StableDebtGrows(u.principalStableDebt, u.stableBorrowRate, u.stableRateLastUpdated, t, t);
    AddedRate(u.stableBorrowRate, UserStableDebt(u, t), debt, r.stableBorrowRate);
    UserRateIsAverage(UserStableDebt(u, t), u.stableBorrowRate, debt, r.stableBorrowRate);
    DebtsAt(r, t);
    IncomeRoutesAgree(r, t);
    hide AfterSwap, UserAfterSwap, RayMul, RayDiv, VariableBorrowIndexAt, LiquidityIndexAt, VariableDebtBalance,
      UserStableRate, AverageStableRate, UserStableDebt, NormalizedIncome;
    RayMulRounds(u.scaledATokenBalance, NormalizedIncome(r, t));
  }

  /** A user without stable debt who swaps to stable and, at the same time, back to variable owes exactly the same
      scaled debt again, and so does the reserve, whatever average rate is left. */
  lemma SwapRoundTrip(s: Strategy, r: Reserve, u: User, t: int)
    requires SwapComputes(s, r, u, Variable, t) && u.currentStableDebt == 0
    ensures 0 < UserStableDebt(u, t) + VariableDebtBalance(r, u, t)
    ensures RAY <= AfterSwap(s, r, u, Variable, t).variableBorrowIndex
    ensures
      var r1 := AfterSwap(s, r, u, Variable, t);
      var u1 := UserAfterSwap(r, r1, u, Variable, t);
      && SwapComputes(s, r1, u1, Stable, t)
      && var r2 := AfterSwap(s, r1, u1, Stable, t);
         && RAY <= r2.variableBorrowIndex
         && var u2 := UserAfterSwap(r1, r2, u1, Stable, t);
            && u2.scaledVariableDebt == u.scaledVariableDebt && r2.scaledVariableDebt == r.scaledVariableDebt
            && u2.principalStableDebt == 0 == u2.currentStableDebt
            && r2.principalStableDebt == TotalStableDebtAt(r, t)
  {
    SwappedToStable(s, r, u, t);
    var r1 := AfterSwap(s, r, u, Variable, t);
    var u1 := UserAfterSwap(r, r1, u, Variable, t);
    hide RayMul, RayDiv, VariableBorrowIndexAt, LiquidityIndexAt, VariableDebtBalance, UserStableDebt,
      TotalStableDebtAt, Repriced, AverageStableRate;
    SwapMovesTogether(s, r1, u1, Stable, t);
  }

  /** The round trip leaves a negative average rate, and so an unsound reserve, exactly if others owe stable debt and
      the average after the first swap is too low to pay for the user's rate on the user's debt. */
  lemma SwapBackNegativeIff(s: Strategy, r: Reserve, u: User, t: int)
    requires SwapComputes(s, r, u, Variable, t) && u.currentStableDebt == 0
    ensures 0 < UserStableDebt(u, t) + VariableDebtBalance(r, u, t)
    ensures RAY <= AfterSwap(s, r, u, Variable, t).variableBorrowIndex
    ensures
      var r1 := AfterSwap(s, r, u, Variable, t);
      var u1 := UserAfterSwap(r, r1, u, Variable, t);
      var others, debt := TotalStableDebtAt(r, t), VariableDebtBalance(r, u, t);
      && SwapComputes(s, r1, u1, Stable, t)
      && var r2 := AfterSwap(s, r1, u1, Stable, t);
         && (Sound(r2) <==> 0 <= r2.averageStableBorrowRate)
         && (r2.averageStableBorrowRate < 0
             <==> && 0 < others
                  && AverageStableRate(r.averageStableBorrowRate, r.totalStableDebt, debt, r.stableBorrowRate)
                     * (others + debt) + others
                     <= UserStableRate(UserStableDebt(u, t), u.stableBorrowRate, debt, r.stableBorrowRate) * debt)
  {
    hide RayMul, RayDiv, VariableBorrowIndexAt, VariableDebtBalance, UserStableDebt, TotalStableDebtAt,
      AverageStableRate, UserStableRate, AfterSwap, UserAfterSwap;
    SwappedToStable(s, r, u, t);
    DebtsAt(r, t);
    var r1 := AfterSwap(s, r, u, Variable, t);
    var u1 := UserAfterSwap(r, r1, u, Variable, t);
    SwapLeavesRate(s, r1, u1, t);
    SwapBackRate(s, r1, u1, TotalStableDebtAt(r, t), t);
  }

  /** The average rate that a swap to variable leaves beside a given debt of others. */
  lemma SwapBackRate(s: Strategy, r: Reserve, u: User, others: int, t: int)
    requires SwapComputes(s, r, u, Stable, t) && 0 <= others
    requires TotalStableDebtAt(r, t) == others + UserStableDebt(u, t) && 0 <= UserStableDebt(u, t)
    ensures Sound(AfterSwap(s, r, u, Stable, t)) <==> 0 <= SwappedRate(r, u, t)
    ensures SwappedRate(r, u, t) < 0
       <==> && 0 < others
            && r.averageStableBorrowRate * (others + UserStableDebt(u, t)) + others
               <= u.stableBorrowRate * UserStableDebt(u, t)
  {
    hide AfterSwap, UserStableDebt, TotalStableDebtAt, AverageStableRate;
    SwapSoundIff(s, r, u, Stable, t);
    SwapRate(r, u, t);
  }

  /** For a user who owes nothing stable, and while nothing has accrued on the stable debt of the others: exactly if
      the truncation of the first average loses at least one more than the others' rate on their debt. */
  lemma SwapBackNegativeIffRemainder(s: Strategy, r: Reserve, u: User, t: int)
    requires SwapComputes(s, r, u, Variable, t) && u.currentStableDebt == 0 == u.principalStableDebt
    requires TotalStableDebtAt(r, t) == r.totalStableDebt
    ensures 0 < VariableDebtBalance(r, u, t)
    ensures RAY <= AfterSwap(s, r, u, Variable, t).variableBorrowIndex
    ensures
      var r1 := AfterSwap(s, r, u, Variable, t);
      var u1 := UserAfterSwap(r, r1, u, Variable, t);
      var others, debt := r.totalStableDebt, VariableDebtBalance(r, u, t);
      && 0 < UserStableDebt(u, t) + debt
      && SwapComputes(s, r1, u1, Stable, t)
      && (AfterSwap(s, r1, u1, Stable, t).averageStableBorrowRate < 0
          <==> && 0 < others
               && (r.averageStableBorrowRate + 1) * others
                  <= (r.averageStableBorrowRate * others + r.stableBorrowRate * debt) % (others + debt))
  {
    hide RayMul, RayDiv, VariableBorrowIndexAt, LiquidityIndexAt, VariableDebtBalance, TotalStableDebtAt,
      UserStableDebt, AfterSwap, UserAfterSwap, UserStableRate, AverageStableRate;
    var others, debt := r.totalStableDebt, VariableDebtBalance(r, u, t);
    SwapBackNegativeIff(s, r, u, t);
    NoStableDebt(u, t);
    WholeRate(debt, u.stableBorrowRate, r.stableBorrowRate);
    AverageRemainder(r.averageStableBorrowRate, others, debt, r.stableBorrowRate);
  }

  lemma NoStableDebt(u: User, t: int)
    requires SoundUser(u, t) && u.principalStableDebt == 0
    ensures UserStableDebt(u, t) == 0
  {
    StableDebtGrows(0, u.stableBorrowRate, u.stableRateLastUpdated, t, t);
  }

  lemma WholeRate(debt: int, rate: int, newRate: int)
    requires 0 < debt && 0 <= newRate
    ensures UserStableRate(0, rate, debt, newRate) == newRate
  {
    MulNonNeg(debt, newRate);
    QuotientIs(debt * newRate, debt, newRate);
  }

  lemma AverageRemainder(average: int, total: int, debt: int, rate: int)
    requires 0 <= average && 0 <= total && 0 < debt && 0 <= rate
    ensures AverageStableRate(average, total, debt, rate) * (total + debt)
         == average * total + rate * debt - (average * total + rate * debt) % (total + debt)
    ensures AverageStableRate(average, total, debt, rate) * (total + debt) + total <= rate * debt
       <==> (average + 1) * total <= (average * total + rate * debt) % (total + debt)
  {
    var weight, sum := average * total + rate * debt, total + debt;
    MulNonNeg(average, total);
    MulNonNeg(rate, debt);
    assert weight == sum * (weight / sum) + weight % sum;
    QuotientIs(weight, sum, weight / sum);
    Distribute(total, average, 1);
  }

  // ---------- The liquidity as the sum of its parts ----------

  /** A deposit adds to the liquidity recorded before, while the debts move on to the time of the deposit: the recorded
      liquidity is the sum of its parts afterwards exactly if before it was the sum with the debts of that time. */
  lemma DepositLiquidityGap(s: Strategy, r: Reserve, amount: int, t: int)
    requires CanDeposit(s, r, amount, t)
    ensures
      var e := AfterDeposit(s, r, amount, t);
      var due := TotalStableDebtAt(r, t) + RayMul(r.scaledVariableDebt, VariableBorrowIndexAt(r, t));
      && e.totalLiquidity - (e.availableLiquidity + e.totalStableDebt + e.totalVariableDebt)
         == r.totalLiquidity - (r.availableLiquidity + due)
      && (Balanced(e) == e <==> r.totalLiquidity == r.availableLiquidity + due)
      && (Balanced(r) == r ==> (Balanced(e) == e <==> due == r.totalStableDebt + r.totalVariableDebt))
  {
    hide VariableBorrowIndexAt, LiquidityIndexAt, RayMul, TotalStableDebtAt, UtilizationRate, InterestRates;
    DebtsAt(r, t);
    var e := AfterDeposit(s, r, amount, t);
    assert e.totalLiquidity == r.totalLiquidity + amount && e.availableLiquidity == r.availableLiquidity + amount;
    assert Balanced(r) == r <==> r.totalLiquidity == r.availableLiquidity + r.totalStableDebt + r.totalVariableDebt;
  }
}
