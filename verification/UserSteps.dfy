/** The user record after each action, as functions of the records before it and of the reserve after it. */
module UserSteps {
  import opened FixedPoint
  import opened StableAverage
  import opened Records
  import opened ReserveSteps

  // ---------- The steps ----------

  /** The deposit record keeps the current variable debt in place of the principal stable debt. */
  function UserAfterDeposit(r: Reserve, after: Reserve, u: User, amount: int, t: int): User
    requires after.liquidityIndex != 0
  {
    u.(currentStableDebt := UserStableDebt(u, t),
       currentVariableDebt := VariableDebtBalance(r, u, t),
       principalStableDebt := VariableDebtBalance(r, u, t),
       liquidityRate := after.liquidityRate,
       scaledATokenBalance := ScaledATokenBalance(u, after.liquidityIndex, amount, 0),
       currentATokenBalance := ATokenBalance(r, u, t) + amount,
       usageAsCollateralEnabled := u.currentATokenBalance == 0 || u.usageAsCollateralEnabled,
       walletBalance := u.walletBalance - amount)
  }

  function ScaledATokenBalance(u: User, index: int, amountAdded: int, amountTaken: int): int
    requires index != 0
  {
    u.scaledATokenBalance + RayDiv(amountAdded, index) - RayDiv(amountTaken, index)
  }

  /** A balance that was recorded as zero turns the collateral flag on, whatever is withdrawn. */
  function UserAfterWithdraw(r: Reserve, after: Reserve, u: User, amount: int, t: int): User
    requires after.liquidityIndex != 0
  {
    var taken := WithdrawnAmount(r, u, amount, t);
    var left := ATokenBalance(r, u, t) - taken;
    u.(scaledATokenBalance := ScaledATokenBalance(u, after.liquidityIndex, 0, taken),
       currentATokenBalance := left,
       currentStableDebt := UserStableDebt(u, t),
       currentVariableDebt := VariableDebtBalance(r, u, t),
       liquidityRate := after.liquidityRate,
       usageAsCollateralEnabled := u.currentATokenBalance == 0 || (left != 0 && u.usageAsCollateralEnabled),
       walletBalance := u.walletBalance + taken)
  }

  /** The scaled variable debt after a borrow is built on the scaled debt of the whole reserve. */
  function UserAfterBorrow(r: Reserve, after: Reserve, u: User, amount: int, mode: RateMode, t: int, now: int): User
    requires after.variableBorrowIndex != 0
    requires mode == Stable ==> UserStableDebt(u, t) + amount != 0
  {
    var e :=
      match mode
      case Stable =>
        var until := UserStableDebt(u, t);
        var rate := UserStableRate(until, u.stableBorrowRate, amount, r.stableBorrowRate);
        u.(principalStableDebt := until + amount,
           stableRateLastUpdated := t,
           stableBorrowRate := rate,
           currentStableDebt := StableDebtBalance(until + amount, rate, t, now))
      case Variable =>
        u.(scaledVariableDebt := r.scaledVariableDebt + RayDiv(amount, after.variableBorrowIndex),
           currentStableDebt := UserStableDebt(u, now));
    e.(currentVariableDebt := VariableDebtBalance(after, e, now),
       liquidityRate := after.liquidityRate,
       currentATokenBalance := ATokenBalance(after, u, now),
       walletBalance := u.walletBalance + amount)
  }

  /** A variable repayment exchanges the current and the principal stable debt. */
  function UserAfterRepay(r: Reserve, after: Reserve, u: User, amount: int, mode: RateMode, ownWallet: bool,
                          t: int, now: int): User
    requires after.variableBorrowIndex != 0
  {
    var variableDebt, stableDebt := VariableDebtBalance(r, u, now), UserStableDebt(u, now);
    var paid := RepaidAmount(r, u, amount, mode, now);
    var e :=
      match mode
      case Stable =>
        u.(currentVariableDebt := variableDebt,
           principalStableDebt := stableDebt - paid,
           currentStableDebt := stableDebt - paid,
           stableBorrowRate := if stableDebt == paid then 0 else u.stableBorrowRate,
           stableRateLastUpdated := if stableDebt == paid then 0 else t)
      case Variable =>
        var scaled := u.scaledVariableDebt - RayDiv(paid, after.variableBorrowIndex);
        u.(currentStableDebt := u.principalStableDebt,
           principalStableDebt := stableDebt,
           scaledVariableDebt := scaled,
           currentVariableDebt := RayMul(scaled, after.variableBorrowIndex));
    e.(liquidityRate := after.liquidityRate,
       currentATokenBalance := ATokenBalance(r, u, t),
       walletBalance := if ownWallet then u.walletBalance - paid else u.walletBalance)
  }

  function UserAfterSwap(r: Reserve, after: Reserve, u: User, mode: RateMode, t: int): User
    requires after.variableBorrowIndex != 0
    requires mode == Variable ==> UserStableDebt(u, t) + VariableDebtBalance(r, u, t) != 0
  {
    var stable, variable := UserStableDebt(u, t), VariableDebtBalance(r, u, t);
    var e :=
      match mode
      case Stable =>
        var scaled := u.scaledVariableDebt + RayDiv(stable, after.variableBorrowIndex);
        u.(currentStableDebt := 0,
           principalStableDebt := 0,
           stableBorrowRate := 0,
           scaledVariableDebt := scaled,
           currentVariableDebt := RayMul(scaled, after.variableBorrowIndex),
           stableRateLastUpdated := 0)
      case Variable =>
        u.(principalStableDebt := u.currentStableDebt + variable,
           currentStableDebt := u.currentStableDebt + variable,
           stableBorrowRate := UserStableRate(stable, u.stableBorrowRate, variable, r.stableBorrowRate),
           stableRateLastUpdated := t,
           currentVariableDebt := 0,
           scaledVariableDebt := 0);
    e.(currentATokenBalance := ATokenBalance(r, u, t), liquidityRate := after.liquidityRate)
  }

  function UserAfterRebalance(r: Reserve, after: Reserve, u: User, t: int): User {
    u.(principalStableDebt := UserStableDebt(u, t),
       currentStableDebt := UserStableDebt(u, t),
       currentVariableDebt := VariableDebtBalance(r, u, t),
       stableRateLastUpdated := t,
       stableBorrowRate := after.averageStableBorrowRate,
       liquidityRate := after.liquidityRate,
       currentATokenBalance := ATokenBalance(r, u, t))
  }

  function UserAfterSetUseAsCollateral(u: User, useAsCollateral: bool): User {
    u.(usageAsCollateralEnabled := useAsCollateral)
  }

  /** A user as read back: the current balances and debts have moved on, nothing else. */
  function UserRead(r: Reserve, u: User, now: int): User {
    u.(currentATokenBalance := ATokenBalance(r, u, now),
       currentStableDebt := UserStableDebt(u, now),
       currentVariableDebt := VariableDebtBalance(r, u, now))
  }
}
