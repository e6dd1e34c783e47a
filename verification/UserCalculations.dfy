/** The user steps in the form of the source: a copy of the record overwritten field by field. Each also says what the
    new record means beside the reserve that the same action leaves. */
module UserCalculations {
  import opened FixedPoint
  import opened Interest
  import opened RateStrategy
  import opened StableAverage
  import opened Records
  import opened ReserveSteps
  import opened ReserveMeaning
  import opened UserSteps
  import opened UserMeaning
  import opened Balances
  import opened Market

  /** Reserve and user have lost, or gained, the same scaled debt. */
  predicate MovedTogether(r: Reserve, after: Reserve, u: User, e: User) {
    r.scaledVariableDebt - after.scaledVariableDebt == u.scaledVariableDebt - e.scaledVariableDebt
  }

  method CalcUserAfterDeposit(amountDeposited: int, r: Reserve, after: Reserve, u: User, txTimestamp: int)
    returns (e: User)
    requires after.liquidityIndex != 0
    ensures e == UserAfterDeposit(r, after, u, amountDeposited, txTimestamp)
    ensures forall s: Strategy ::
      CanDeposit(s, r, amountDeposited, txTimestamp) && SoundUser(u, txTimestamp)
      && after == AfterDeposit(s, r, amountDeposited, txTimestamp) ==>
        && Advances(r, after, e, txTimestamp) && UserDeposited(r, after, u, e, amountDeposited, txTimestamp)
        && WithinDrift(RayMul(e.scaledATokenBalance, after.liquidityIndex), e.currentATokenBalance,
                       after.liquidityIndex)
        && u.scaledATokenBalance <= e.scaledATokenBalance && amountDeposited <= e.currentATokenBalance
  {
    hide UserDeposited, AfterDeposit, RayMul, RayDiv;
    e := u;
    e := e.(currentStableDebt := UserStableDebt(u, txTimestamp));
    e := e.(currentVariableDebt := VariableDebtBalance(r, u, txTimestamp));
    e := e.(principalStableDebt := u.principalStableDebt);
    e := e.(liquidityRate := after.liquidityRate);
    e := e.(scaledATokenBalance := ScaledATokenBalance(u, after.liquidityIndex, amountDeposited, 0));
    e := e.(currentATokenBalance := ATokenBalance(r, u, txTimestamp) + amountDeposited);
    if u.currentATokenBalance == 0 {
      e := e.(usageAsCollateralEnabled := true);
    } else {
      e := e.(usageAsCollateralEnabled := u.usageAsCollateralEnabled);
    }
    e := e.(walletBalance := u.walletBalance - amountDeposited);
    var stableDebt := UserStableDebt(u, txTimestamp);
    e := e.(principalStableDebt := stableDebt, currentStableDebt := stableDebt);
    var variableDebt := VariableDebtBalance(r, u, txTimestamp);
    e := e.(principalStableDebt := variableDebt, currentVariableDebt := variableDebt);
    forall s: Strategy
      | CanDeposit(s, r, amountDeposited, txTimestamp) && SoundUser(u, txTimestamp)
        && after == AfterDeposit(s, r, amountDeposited, txTimestamp)
      ensures Advances(r, after, e, txTimestamp) && UserDeposited(r, after, u, e, amountDeposited, txTimestamp)
      ensures WithinDrift(RayMul(e.scaledATokenBalance, after.liquidityIndex), e.currentATokenBalance,
                          after.liquidityIndex)
      ensures u.scaledATokenBalance <= e.scaledATokenBalance && amountDeposited <= e.currentATokenBalance
    {
      DepositUser(s, r, u, amountDeposited, txTimestamp);
      UserDepositIs(s, r, u, amountDeposited, txTimestamp);
      DepositAdvances(s, r, u, amountDeposited, txTimestamp);
    }
  }

  method CalcUserAfterWithdraw(amount: int, r: Reserve, after: Reserve, u: User, txTimestamp: int)
    returns (e: User)
    requires after.liquidityIndex != 0
    ensures e == UserAfterWithdraw(r, after, u, amount, txTimestamp)
    ensures forall s: Strategy ::
      CanWithdraw(s, r, u, amount, txTimestamp) && after == AfterWithdraw(s, r, u, amount, txTimestamp) ==>
        && Advances(r, after, e, txTimestamp) && UserWithdrew(r, after, u, e, amount, txTimestamp)
        && WithinDrift(RayMul(e.scaledATokenBalance, after.liquidityIndex), e.currentATokenBalance,
                       after.liquidityIndex)
        && 0 <= e.scaledATokenBalance <= u.scaledATokenBalance
        && (amount == MAX_UINT_AMOUNT ==> e.scaledATokenBalance == 0 == e.currentATokenBalance)
  {
    hide UserWithdrew, AfterWithdraw, RayMul, RayDiv;
    var amountWithdrawn := amount;
    var aTokenBalance := ATokenBalance(r, u, txTimestamp);
    if amountWithdrawn == MAX_UINT_AMOUNT {
      amountWithdrawn := aTokenBalance;
    }
    e := u;
    e := e.(scaledATokenBalance := ScaledATokenBalance(u, after.liquidityIndex, 0, amountWithdrawn));
    e := e.(currentATokenBalance := aTokenBalance - amountWithdrawn);
    e := e.(currentStableDebt := UserStableDebt(u, txTimestamp));
    e := e.(currentVariableDebt := VariableDebtBalance(r, u, txTimestamp));
    e := e.(liquidityRate := after.liquidityRate);
    if u.currentATokenBalance == 0 {
      e := e.(usageAsCollateralEnabled := true);
    } else if e.currentATokenBalance == 0 {
      e := e.(usageAsCollateralEnabled := false);
    } else {
      e := e.(usageAsCollateralEnabled := u.usageAsCollateralEnabled);
    }
    e := e.(walletBalance := u.walletBalance + amountWithdrawn);
    forall s: Strategy
      | CanWithdraw(s, r, u, amount, txTimestamp) && after == AfterWithdraw(s, r, u, amount, txTimestamp)
      ensures Advances(r, after, e, txTimestamp) && UserWithdrew(r, after, u, e, amount, txTimestamp)
      ensures WithinDrift(RayMul(e.scaledATokenBalance, after.liquidityIndex), e.currentATokenBalance,
                          after.liquidityIndex)
      ensures 0 <= e.scaledATokenBalance <= u.scaledATokenBalance
      ensures amount == MAX_UINT_AMOUNT ==> e.scaledATokenBalance == 0 == e.currentATokenBalance
    {
      WithdrawUser(s, r, u, amount, txTimestamp);
      UserWithdrawIs(s, r, u, amount, txTimestamp);
      WithdrawAdvances(s, r, u, amount, txTimestamp);
      if amount == MAX_UINT_AMOUNT {
        MaxWithdrawLeavesNothing(s, r, u, txTimestamp);
      }
    }
  }

  method CalcUserAfterBorrow(amountBorrowed: int, mode: RateMode, r: Reserve, after: Reserve, u: User,
                             txTimestamp: int, currentTimestamp: int) returns (e: User)
    requires after.variableBorrowIndex != 0
    requires mode == Stable ==> UserStableDebt(u, txTimestamp) + amountBorrowed != 0
    ensures e == UserAfterBorrow(r, after, u, amountBorrowed, mode, txTimestamp, currentTimestamp)
    ensures forall s: Strategy ::
      CanBorrow(s, r, amountBorrowed, txTimestamp, currentTimestamp) && SoundUser(u, txTimestamp) && 0 < amountBorrowed
      && after == AfterBorrow(s, r, amountBorrowed, mode, txTimestamp, currentTimestamp) ==>
        && Advances(r, after, e, txTimestamp)
        && UserBorrowed(r, after, u, e, amountBorrowed, mode, txTimestamp, currentTimestamp)
        && (mode == Variable ==>
              && e.scaledVariableDebt == after.scaledVariableDebt
              && (MovedTogether(r, after, u, e) <==> u.scaledVariableDebt == r.scaledVariableDebt))
        && (mode == Stable ==> && e.principalStableDebt == UserStableDebt(u, txTimestamp) + amountBorrowed
                               && Between(u.stableBorrowRate, e.stableBorrowRate, r.stableBorrowRate))
  {
    hide RayMul, RayDiv, UserStableRate, StableDebtBalance, VariableDebtBalance, ATokenBalance, UserBorrowed,
      AfterBorrow;
    e := u;
    if mode == Stable {
      var stableDebtUntilTx := UserStableDebt(u, txTimestamp);
      e := e.(principalStableDebt := stableDebtUntilTx + amountBorrowed);
      e := e.(stableRateLastUpdated := txTimestamp);
      e := e.(stableBorrowRate := UserStableRate(stableDebtUntilTx, u.stableBorrowRate, amountBorrowed,
                                                 r.stableBorrowRate));
      e := e.(currentStableDebt := StableDebtBalance(e.principalStableDebt, e.stableBorrowRate, txTimestamp,
                                                     currentTimestamp));
      e := e.(scaledVariableDebt := u.scaledVariableDebt);
    } else {
      e := e.(scaledVariableDebt := r.scaledVariableDebt + RayDiv(amountBorrowed, after.variableBorrowIndex));
      e := e.(currentStableDebt := UserStableDebt(u, currentTimestamp));
    }
    e := e.(currentVariableDebt := VariableDebtBalance(after, e, currentTimestamp));
    e := e.(liquidityRate := after.liquidityRate);
    e := e.(usageAsCollateralEnabled := u.usageAsCollateralEnabled);
    e := e.(currentATokenBalance := ATokenBalance(after, u, currentTimestamp));
    e := e.(scaledATokenBalance := u.scaledATokenBalance);
    e := e.(walletBalance := u.walletBalance + amountBorrowed);
    forall s: Strategy
      | CanBorrow(s, r, amountBorrowed, txTimestamp, currentTimestamp) && SoundUser(u, txTimestamp)
        && 0 < amountBorrowed && after == AfterBorrow(s, r, amountBorrowed, mode, txTimestamp, currentTimestamp)
      ensures Advances(r, after, e, txTimestamp)
      ensures UserBorrowed(r, after, u, e, amountBorrowed, mode, txTimestamp, currentTimestamp)
      ensures mode == Variable ==>
        && e.scaledVariableDebt == after.scaledVariableDebt
        && (MovedTogether(r, after, u, e) <==> u.scaledVariableDebt == r.scaledVariableDebt)
      ensures mode == Stable ==> && e.principalStableDebt == UserStableDebt(u, txTimestamp) + amountBorrowed
                                 && Between(u.stableBorrowRate, e.stableBorrowRate, r.stableBorrowRate)
    {
      BorrowAdvances(s, r, u, amountBorrowed, mode, txTimestamp, currentTimestamp);
      UserBorrowIs(s, r, u, amountBorrowed, mode, txTimestamp, currentTimestamp);
      if mode == Variable {
        BorrowMovesTogetherIff(s, r, u, amountBorrowed, txTimestamp, currentTimestamp);
      } else {
        MixedRate(UserStableDebt(u, txTimestamp), u.stableBorrowRate, amountBorrowed, r.stableBorrowRate);
      }
    }
  }

  method CalcUserAfterRepay(amount: int, mode: RateMode, r: Reserve, after: Reserve, u: User, ownWallet: bool,
                            txTimestamp: int, currentTimestamp: int) returns (e: User)
    requires after.variableBorrowIndex != 0
    ensures e == UserAfterRepay(r, after, u, amount, mode, ownWallet, txTimestamp, currentTimestamp)
    ensures forall s: Strategy ::
      CanRepay(s, r, u, amount, mode, txTimestamp) && txTimestamp <= currentTimestamp
      && after == AfterRepay(s, r, u, amount, mode, txTimestamp)
      ==> && UserRepaid(r, after, u, e, amount, mode, ownWallet, txTimestamp, currentTimestamp)
          && (txTimestamp == currentTimestamp && 0 <= txTimestamp ==>
                RepaysTogether(r, after, u, e, amount, mode, txTimestamp))
  {
    hide RayMul, RayDiv, UserStableDebt, VariableDebtBalance, ATokenBalance, RepaysTogether, AfterRepay, CanRepay,
      UserRepaid;
    var variableDebt := VariableDebtBalance(r, u, currentTimestamp);
    var stableDebt := UserStableDebt(u, currentTimestamp);
    var totalRepaid := amount;
    if Abs(totalRepaid) == MAX_UINT_AMOUNT {
      totalRepaid := if mode == Stable then stableDebt else variableDebt;
    }
    e := u;
    if mode == Stable {
      e := e.(scaledVariableDebt := u.scaledVariableDebt);
      e := e.(currentVariableDebt := variableDebt);
      e := e.(principalStableDebt := stableDebt - totalRepaid, currentStableDebt := stableDebt - totalRepaid);
      if e.currentStableDebt == 0 {
        e := e.(stableBorrowRate := 0, stableRateLastUpdated := 0);
      } else {
        e := e.(stableBorrowRate := u.stableBorrowRate);
        e := e.(stableRateLastUpdated := txTimestamp);
      }
    } else {
      e := e.(currentStableDebt := u.principalStableDebt);
      e := e.(principalStableDebt := stableDebt);
      e := e.(scaledVariableDebt := u.scaledVariableDebt - RayDiv(totalRepaid, after.variableBorrowIndex));
      e := e.(currentVariableDebt := RayMul(e.scaledVariableDebt, after.variableBorrowIndex));
    }
    e := e.(liquidityRate := after.liquidityRate);
    e := e.(usageAsCollateralEnabled := u.usageAsCollateralEnabled);
    e := e.(currentATokenBalance := ATokenBalance(r, u, txTimestamp));
    e := e.(scaledATokenBalance := u.scaledATokenBalance);
    if ownWallet {
      e := e.(walletBalance := u.walletBalance - totalRepaid);
    } else {
      e := e.(walletBalance := u.walletBalance);
    }
    forall s: Strategy
      | CanRepay(s, r, u, amount, mode, txTimestamp) && txTimestamp <= currentTimestamp
        && after == AfterRepay(s, r, u, amount, mode, txTimestamp)
      ensures UserRepaid(r, after, u, e, amount, mode, ownWallet, txTimestamp, currentTimestamp)
      ensures txTimestamp == currentTimestamp && 0 <= txTimestamp ==>
        RepaysTogether(r, after, u, e, amount, mode, txTimestamp)
    {
      UserRepayIs(s, r, u, amount, mode, ownWallet, txTimestamp, currentTimestamp);
      if txTimestamp == currentTimestamp && 0 <= txTimestamp {
        RepayMeans(s, r, u, amount, mode, ownWallet, txTimestamp);
      }
    }
  }

  /** What a repayment at time t does to user and reserve. */
  predicate RepaysTogether(r: Reserve, after: Reserve, u: User, e: User, amount: int, mode: RateMode, t: int) {
    && Advances(r, after, e, t)
    && (mode == Variable ==> && MovedTogether(r, after, u, e) && e.scaledVariableDebt <= u.scaledVariableDebt
                             && (Abs(amount) == MAX_UINT_AMOUNT ==> e.scaledVariableDebt == 0))
    && (mode == Stable ==> e.principalStableDebt == UserStableDebt(u, t) - RepaidAmount(r, u, amount, mode, t))
  }

  lemma RepayMeans(s: Strategy, r: Reserve, u: User, amount: int, mode: RateMode, ownWallet: bool, t: int)
    requires CanRepay(s, r, u, amount, mode, t) && 0 <= t
    ensures RAY <= AfterRepay(s, r, u, amount, mode, t).variableBorrowIndex
    ensures
      var after := AfterRepay(s, r, u, amount, mode, t);
      RepaysTogether(r, after, u, UserAfterRepay(r, after, u, amount, mode, ownWallet, t, t), amount, mode, t)
  {
    hide AfterRepay, RayMul, RayDiv, UserStableDebt, VariableDebtBalance, ATokenBalance, RepaidAmount;
    RepayAdvances(s, r, u, amount, mode, ownWallet, t);
    if mode == Variable {
      RepayMovesTogether(s, r, u, amount, ownWallet, t);
    }
  }

  method CalcUserAfterSwapRateMode(r: Reserve, after: Reserve, u: User, mode: RateMode, txTimestamp: int)
    returns (e: User)
    requires after.variableBorrowIndex != 0
    requires mode == Variable ==> UserStableDebt(u, txTimestamp) + VariableDebtBalance(r, u, txTimestamp) != 0
    ensures e == UserAfterSwap(r, after, u, mode, txTimestamp)
    ensures forall s: Strategy ::
      SwapComputes(s, r, u, mode, txTimestamp) && after == AfterSwap(s, r, u, mode, txTimestamp) ==>
        && MovedTogether(r, after, u, e) && UserSwapped(r, after, u, e, mode, txTimestamp)
        && (mode == Stable ==> e.principalStableDebt == 0)
        && (mode == Variable ==> e.scaledVariableDebt == 0)
        && (CanSwap(s, r, u, mode, txTimestamp) && 0 <= txTimestamp ==> Advances(r, after, e, txTimestamp))
  {
    hide RayMul, RayDiv, UserStableRate, UserStableDebt, VariableDebtBalance, ATokenBalance, UserSwapped, AfterSwap;
    e := u;
    var stableDebtBalance := UserStableDebt(u, txTimestamp);
    var variableDebtBalance := VariableDebtBalance(r, u, txTimestamp);
    e := e.(currentATokenBalance := ATokenBalance(r, u, txTimestamp));
    if mode == Stable {
      e := e.(currentStableDebt := 0, principalStableDebt := 0);
      e := e.(stableBorrowRate := 0);
      e := e.(scaledVariableDebt := u.scaledVariableDebt + RayDiv(stableDebtBalance, after.variableBorrowIndex));
      e := e.(currentVariableDebt := RayMul(e.scaledVariableDebt, after.variableBorrowIndex));
      e := e.(stableRateLastUpdated := 0);
    } else {
      e := e.(principalStableDebt := u.currentStableDebt + variableDebtBalance,
              currentStableDebt := u.currentStableDebt + variableDebtBalance);
      e := e.(stableBorrowRate := UserStableRate(stableDebtBalance, u.stableBorrowRate, variableDebtBalance,
                                                 r.stableBorrowRate));
      e := e.(stableRateLastUpdated := txTimestamp);
      e := e.(currentVariableDebt := 0, scaledVariableDebt := 0);
    }
    e := e.(liquidityRate := after.liquidityRate);
    forall s: Strategy
      | SwapComputes(s, r, u, mode, txTimestamp) && after == AfterSwap(s, r, u, mode, txTimestamp)
      ensures MovedTogether(r, after, u, e) && UserSwapped(r, after, u, e, mode, txTimestamp)
      ensures CanSwap(s, r, u, mode, txTimestamp) && 0 <= txTimestamp ==> Advances(r, after, e, txTimestamp)
    {
      SwapMovesTogether(s, r, u, mode, txTimestamp);
      UserSwapIs(s, r, u, mode, txTimestamp);
      if CanSwap(s, r, u, mode, txTimestamp) && 0 <= txTimestamp {
        SwapAdvances(s, r, u, mode, txTimestamp);
      }
    }
  }

  method CalcUserAfterRebalance(r: Reserve, after: Reserve, u: User, txTimestamp: int) returns (e: User)
    ensures e == UserAfterRebalance(r, after, u, txTimestamp)
    ensures forall s: Strategy ::
      CanRebalance(s, r, u, txTimestamp) && after == AfterRebalance(s, r, u, txTimestamp) ==>
        && Advances(r, after, e, txTimestamp) && MovedTogether(r, after, u, e)
        && UserRebalanced(r, after, u, e, txTimestamp)
        && e.principalStableDebt == UserStableDebt(u, txTimestamp) == UserStableDebt(e, txTimestamp)
  {
    hide RayMul, UserStableDebt, VariableDebtBalance, ATokenBalance, AfterRebalance, UserRebalanced;
    e := u;
    e := e.(principalStableDebt := u.principalStableDebt);
    var stableDebt := UserStableDebt(u, txTimestamp);
    e := e.(currentStableDebt := stableDebt, principalStableDebt := stableDebt);
    e := e.(currentVariableDebt := VariableDebtBalance(r, u, txTimestamp));
    e := e.(stableRateLastUpdated := txTimestamp);
    e := e.(stableBorrowRate := after.averageStableBorrowRate);
    e := e.(liquidityRate := after.liquidityRate);
    e := e.(currentATokenBalance := ATokenBalance(r, u, txTimestamp));
    forall s: Strategy | CanRebalance(s, r, u, txTimestamp) && after == AfterRebalance(s, r, u, txTimestamp)
      ensures Advances(r, after, e, txTimestamp) && MovedTogether(r, after, u, e)
      ensures UserRebalanced(r, after, u, e, txTimestamp)
      ensures e.principalStableDebt == UserStableDebt(u, txTimestamp) == UserStableDebt(e, txTimestamp)
    {
      RebalanceAdvances(s, r, u, txTimestamp);
      RebalancedTogether(s, r, u, txTimestamp);
      UserRebalanceIs(s, r, u, txTimestamp);
    }
  }

  lemma RebalancedTogether(s: Strategy, r: Reserve, u: User, t: int)
    requires CanRebalance(s, r, u, t)
    ensures
      var after := AfterRebalance(s, r, u, t);
      var e := UserAfterRebalance(r, after, u, t);
      MovedTogether(r, after, u, e) && UserStableDebt(e, t) == UserStableDebt(u, t)
  {
    hide RayMul, Repriced, RebalancedRate, LiquidityIndexAt, VariableBorrowIndexAt, VariableDebtBalance,
      ATokenBalance, TotalStableDebt, CompoundedInterest;
  }

  predicate Between(a: int, x: int, b: int) {
    a <= x <= b || b <= x <= a
  }

  lemma MixedRate(balance: int, rate: int, amount: int, newRate: int)
    requires 0 <= balance && 0 <= rate && 0 < amount && 0 <= newRate
    ensures Between(rate, UserStableRate(balance, rate, amount, newRate), newRate)
  {
    UserRateIsAverage(balance, rate, amount, newRate);
    if rate <= newRate {
      AddLiesBetween(rate, balance, amount, newRate, rate, newRate);
    } else {
      AddLiesBetween(rate, balance, amount, newRate, newRate, rate);
    }
  }
}
