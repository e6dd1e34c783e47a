/** What the user record after each step says beside the reserve that the same step leaves: how it differs from the
    record as it would have been read just before, and what reading it at once, and its stable debt later on, shows. */
module UserMeaning {
  import opened FixedPoint
  import opened Interest
  import opened RateStrategy
  import opened StableAverage
  import opened Records
  import opened ReserveSteps
  import opened ReserveMeaning
  import opened UserSteps
  import opened Balances

  // ---------- Stable debt later on ----------

  /** The stable debt compounds at the rate from time t on; time zero stands for no time. */
  ghost predicate GrowsFrom(e: User, debt: int, rate: int, t: int) {
    && (t != 0 ==> forall now: int :: t <= now ==>
          UserStableDebt(e, now) == RayMul(debt, CompoundedInterest(rate, now, t)))
    && (t == 0 ==> forall now: int :: UserStableDebt(e, now) == debt)
  }

  ghost predicate OwesNothingStable(e: User) {
    e.stableBorrowRate == 0 == e.stableRateLastUpdated && forall now: int :: UserStableDebt(e, now) == 0
  }

  /** The stable debt is at all times what it would have been. */
  ghost predicate GrowsOn(u: User, e: User) {
    && (forall now: int :: UserStableDebt(e, now) == UserStableDebt(u, now))
    && e.stableBorrowRate == u.stableBorrowRate
  }

  lemma GrowthFrom(e: User, debt: int, rate: int, t: int)
    requires 0 <= debt == e.principalStableDebt && rate == e.stableBorrowRate && t == e.stableRateLastUpdated
    ensures GrowsFrom(e, debt, rate, t)
  {
    hide RayMul, CompoundedInterest;
    RayMulUnit(debt);
    forall now: int | t <= now && t != 0
      ensures UserStableDebt(e, now) == RayMul(debt, CompoundedInterest(rate, now, t))
    {
      if rate == 0 || now == t {
        NothingAccrues(rate, now, t);
      }
    }
  }

  // ---------- Reading at once ----------

  /** At the time of its step a record is worth what its scaled amounts are at the indices of the reserve. */
  lemma WorthAtOnce(after: Reserve, t: int)
    requires after.lastUpdateTimestamp == t && 0 <= after.liquidityIndex && 0 <= after.variableBorrowIndex
    ensures forall x: User :: ATokenBalance(after, x, t) == RayMul(x.scaledATokenBalance, after.liquidityIndex)
    ensures forall x: User ::
      VariableDebtBalance(after, x, t) == RayMul(x.scaledVariableDebt, after.variableBorrowIndex)
  {
    hide RayMul, LinearInterest, CompoundedInterest;
    NothingAccrues(after.liquidityRate, t, t);
    NothingAccrues(after.variableBorrowRate, t, t);
    GrowsBy(RAY, after.liquidityIndex);
    GrowsBy(RAY, after.variableBorrowIndex);
  }

  /** Beside the new reserve the record reads, at the given time, as it was recorded. */
  predicate ReadsAs(after: Reserve, e: User, now: int) {
    UserRead(after, e, now) == e
  }

  // ---------- Deposits and withdrawals ----------

  /** The amount leaves the wallet and joins the balance, and the scaled balance follows within the drift. The debts are
      those that were due; the variable one also takes the place of the principal of the stable one. A balance that was
      recorded as zero becomes collateral. */
  ghost predicate UserDeposited(r: Reserve, after: Reserve, u: User, e: User, amount: int, t: int) {
    && UsersUnmoved(r, after, t)
    && e == UserRead(r, u, t).(walletBalance := u.walletBalance - amount, liquidityRate := after.liquidityRate,
                               scaledATokenBalance := e.scaledATokenBalance,
                               currentATokenBalance := ATokenBalance(after, u, t) + amount,
                               principalStableDebt := e.currentVariableDebt,
                               usageAsCollateralEnabled := u.currentATokenBalance == 0 || u.usageAsCollateralEnabled)
    && u.scaledATokenBalance <= e.scaledATokenBalance
    && WithinDrift(ATokenBalance(after, e, t), e.currentATokenBalance, after.liquidityIndex)
  }

  lemma UserDepositIs(s: Strategy, r: Reserve, u: User, amount: int, t: int)
    requires CanDeposit(s, r, amount, t) && SoundUser(u, t)
    ensures RAY <= AfterDeposit(s, r, amount, t).liquidityIndex
    ensures
      var after := AfterDeposit(s, r, amount, t);
      UserDeposited(r, after, u, UserAfterDeposit(r, after, u, amount, t), amount, t)
  {
    var after := AfterDeposit(s, r, amount, t);
    DepositIs(s, r, amount, t);
    DepositSound(s, r, amount, t);
    DepositUser(s, r, u, amount, t);
    hide AfterDeposit, ATokenBalance, VariableDebtBalance, UserStableDebt, ScaledATokenBalance, Aged, OnCurve,
      SharesIncome, Accrues, RayMul;
    WorthAtOnce(after, t);
  }

  /** The amount, or the whole balance, leaves the balance and joins the wallet, and the scaled balance follows within
      the drift; with the whole balance nothing is left. The debts are those that were due. A balance that was recorded
      as zero becomes collateral, any other that is left at zero does not stay it. */
  ghost predicate UserWithdrew(r: Reserve, after: Reserve, u: User, e: User, amount: int, t: int) {
    var taken := if amount == MAX_UINT_AMOUNT then ATokenBalance(after, u, t) else amount;
    && UsersUnmoved(r, after, t) && GrowsOn(u, e)
    && e == UserRead(r, u, t).(walletBalance := u.walletBalance + taken, liquidityRate := after.liquidityRate,
                               scaledATokenBalance := e.scaledATokenBalance,
                               currentATokenBalance := ATokenBalance(after, u, t) - taken,
                               usageAsCollateralEnabled := e.usageAsCollateralEnabled)
    && 0 <= e.scaledATokenBalance <= u.scaledATokenBalance
    && WithinDrift(ATokenBalance(after, e, t), e.currentATokenBalance, after.liquidityIndex)
    && (amount == MAX_UINT_AMOUNT ==> e.scaledATokenBalance == 0 == e.currentATokenBalance)
    && (u.currentATokenBalance == 0 ==> e.usageAsCollateralEnabled)
    && (u.currentATokenBalance != 0 && e.currentATokenBalance == 0 ==> !e.usageAsCollateralEnabled)
    && (u.currentATokenBalance != 0 && e.currentATokenBalance != 0 ==>
          e.usageAsCollateralEnabled == u.usageAsCollateralEnabled)
  }

  lemma UserWithdrawIs(s: Strategy, r: Reserve, u: User, amount: int, t: int)
    requires CanWithdraw(s, r, u, amount, t)
    ensures RAY <= AfterWithdraw(s, r, u, amount, t).liquidityIndex
    ensures
      var after := AfterWithdraw(s, r, u, amount, t);
      UserWithdrew(r, after, u, UserAfterWithdraw(r, after, u, amount, t), amount, t)
  {
    var after := AfterWithdraw(s, r, u, amount, t);
    WithdrawIs(s, r, u, amount, t);
    WithdrawSound(s, r, u, amount, t);
    WithdrawUser(s, r, u, amount, t);
    if amount == MAX_UINT_AMOUNT {
      MaxWithdrawLeavesNothing(s, r, u, t);
    }
    hide AfterWithdraw, ATokenBalance, VariableDebtBalance, ScaledATokenBalance, Aged, OnCurve, SharesIncome, Accrues,
      RayMul;
    WorthAtOnce(after, t);
  }

  // ---------- Borrows ----------

  /** The amount joins the wallet, and read beside the new reserve the record is as recorded. A stable borrow adds the
      amount to the debt that was due, which grows from then on at the mean of both rates. A variable borrow leaves
      the stable debt alone and records the variable debt of the whole reserve: for the only borrower, and read at once,
      the amount more than was due, up to the drift. */
  ghost predicate UserBorrowed(r: Reserve, after: Reserve, u: User, e: User, amount: int, mode: RateMode, t: int,
                               now: int) {
    && UsersUnmoved(r, after, t) && ReadsAs(after, e, now)
    && e.walletBalance == u.walletBalance + amount && e.liquidityRate == after.liquidityRate
    && e.scaledATokenBalance == u.scaledATokenBalance && e.usageAsCollateralEnabled == u.usageAsCollateralEnabled
    && match mode
       case Stable =>
         && e.principalStableDebt == UserStableDebt(u, t) + amount
         && GrowsFrom(e, UserStableDebt(u, t) + amount, e.stableBorrowRate, t)
         && AddsWeight(u.stableBorrowRate, UserStableDebt(u, t), amount, r.stableBorrowRate, e.stableBorrowRate)
         && e.scaledVariableDebt == u.scaledVariableDebt
       case Variable =>
         && GrowsOn(u, e) && e.principalStableDebt == u.principalStableDebt
         && e.scaledVariableDebt == after.scaledVariableDebt && e.currentVariableDebt == after.totalVariableDebt
         && (u.scaledVariableDebt == r.scaledVariableDebt && now == t ==>
               WithinDrift(e.currentVariableDebt, VariableDebtBalance(r, u, t) + amount, after.variableBorrowIndex))
  }

  lemma LateBorrowRecord(s: Strategy, r: Reserve, amount: int, mode: RateMode, t: int, now: int)
    requires CanBorrow(s, r, amount, t, now)
    ensures
      var after := AfterBorrow(s, r, amount, mode, t, now);
      && UsersUnmoved(r, after, t) && after.lastUpdateTimestamp == t
      && RAY <= after.liquidityIndex && RAY <= after.variableBorrowIndex
      && (mode == Variable ==>
            && after.scaledVariableDebt == r.scaledVariableDebt + RayDiv(amount, after.variableBorrowIndex)
            && after.totalVariableDebt
               == RayMul(after.scaledVariableDebt,
                         NormalizedDebt(after.variableBorrowRate, after.variableBorrowIndex, t, now)))
  {
    hide BorrowSettled, RayMul, RayDiv, NormalizedDebt, TotalStableDebt, UtilizationRate, LiquidityIndexAt,
      VariableBorrowIndexAt, UsersUnmoved, Priced;
    DebtsAt(r, t);
    BorrowRecord(s, r, amount, mode, t);
    BorrowSettledSound(s, r, amount, mode, t);
    AccruesAt(r, AfterBorrow(s, r, amount, mode, t, now), t);
  }

  lemma UserBorrowIs(s: Strategy, r: Reserve, u: User, amount: int, mode: RateMode, t: int, now: int)
    requires CanBorrow(s, r, amount, t, now) && SoundUser(u, t) && 0 < amount
    ensures RAY <= AfterBorrow(s, r, amount, mode, t, now).variableBorrowIndex && 0 <= UserStableDebt(u, t)
    ensures
      var after := AfterBorrow(s, r, amount, mode, t, now);
      UserBorrowed(r, after, u, UserAfterBorrow(r, after, u, amount, mode, t, now), amount, mode, t, now)
  {
    hide AfterBorrow, RayMul, RayDiv, ATokenBalance, VariableDebtBalance, UserStableRate, UsersUnmoved,
      CompoundedInterest, AddsWeight, GrowsFrom, WithinDrift;
    var after := AfterBorrow(s, r, amount, mode, t, now);
    LateBorrowRecord(s, r, amount, mode, t, now);
    UserOwes(u, t);
    if mode == Stable {
      var e := UserAfterBorrow(r, after, u, amount, mode, t, now);
      AverageAddsWeight(u.stableBorrowRate, UserStableDebt(u, t), amount, r.stableBorrowRate);
      GrowthFrom(e, UserStableDebt(u, t) + amount, e.stableBorrowRate, t);
      BorrowerReadsStable(r, after, u, amount, t, now);
    } else {
      BorrowerReadsVariable(s, r, u, amount, t, now);
    }
  }

  lemma UserOwes(u: User, t: int)
    requires SoundUser(u, t)
    ensures 0 <= u.principalStableDebt <= UserStableDebt(u, t)
  {
    StableDebtGrows(u.principalStableDebt, u.stableBorrowRate, u.stableRateLastUpdated, t, t);
  }

  lemma BorrowerReadsStable(r: Reserve, after: Reserve, u: User, amount: int, t: int, now: int)
    requires after.variableBorrowIndex != 0 && UserStableDebt(u, t) + amount != 0
    ensures ReadsAs(after, UserAfterBorrow(r, after, u, amount, Stable, t, now), now)
  {
    hide RayMul, RayDiv, UserStableRate, CompoundedInterest, NormalizedDebt, NormalizedIncome;
  }

  lemma BorrowerReadsVariable(s: Strategy, r: Reserve, u: User, amount: int, t: int, now: int)
    requires CanBorrow(s, r, amount, t, now) && SoundUser(u, t)
    ensures RAY <= AfterBorrow(s, r, amount, Variable, t, now).variableBorrowIndex
    ensures
      var after := AfterBorrow(s, r, amount, Variable, t, now);
      var e := UserAfterBorrow(r, after, u, amount, Variable, t, now);
      && ReadsAs(after, e, now)
      && e.scaledVariableDebt == after.scaledVariableDebt && e.currentVariableDebt == after.totalVariableDebt
      && (u.scaledVariableDebt == r.scaledVariableDebt && now == t ==>
            WithinDrift(e.currentVariableDebt, VariableDebtBalance(r, u, t) + amount, after.variableBorrowIndex))
  {
    var after := AfterBorrow(s, r, amount, Variable, t, now);
    hide AfterBorrow, RayMul, RayDiv, CompoundedInterest, NormalizedIncome, Drift, NormalizedDebt;
    LateBorrowRecord(s, r, amount, Variable, t, now);
    WorthAtOnce(after, t);
    AddDrift(r.scaledVariableDebt, amount, after.variableBorrowIndex);
    var e := UserAfterBorrow(r, after, u, amount, Variable, t, now);
    assert VariableDebtBalance(after, e, now) == after.totalVariableDebt;
  }

  // ---------- Repayments ----------

  /** The amount, or with the largest amount in either sign the whole debt at the current time, is paid from the user's
      own wallet or by somebody else. A stable repayment leaves the rest, growing from the time of the transaction on at
      the same rate, or no rate and no time. A variable repayment takes the amount off the variable debt up to the
      drift; it exchanges the principal and the current amount of the stable debt. */
  ghost predicate UserRepaid(r: Reserve, after: Reserve, u: User, e: User, amount: int, mode: RateMode,
                             ownWallet: bool, t: int, now: int) {
    var everything := amount == MAX_UINT_AMOUNT || amount == -MAX_UINT_AMOUNT;
    var paid :=
      if !everything then amount
      else if mode == Stable then UserStableDebt(u, now)
      else VariableDebtBalance(r, u, now);
    && UsersUnmoved(r, after, t)
    && e.walletBalance == (if ownWallet then u.walletBalance - paid else u.walletBalance)
    && e.liquidityRate == after.liquidityRate && e.usageAsCollateralEnabled == u.usageAsCollateralEnabled
    && e.scaledATokenBalance == u.scaledATokenBalance && e.currentATokenBalance == ATokenBalance(after, e, t)
    && match mode
       case Stable =>
         var left := UserStableDebt(u, now) - paid;
         && e.currentStableDebt == left == e.principalStableDebt
         && (left == 0 ==> OwesNothingStable(e))
         && (left != 0 ==> GrowsFrom(e, left, u.stableBorrowRate, t) && e.stableBorrowRate == u.stableBorrowRate)
         && e.scaledVariableDebt == u.scaledVariableDebt && e.currentVariableDebt == VariableDebtBalance(r, u, now)
         && (u.scaledVariableDebt <= r.scaledVariableDebt && now == t ==> ReadsAs(after, e, t))
       case Variable =>
         && e.currentStableDebt == u.principalStableDebt && e.principalStableDebt == UserStableDebt(u, now)
         && e.stableBorrowRate == u.stableBorrowRate && e.stableRateLastUpdated == u.stableRateLastUpdated
         && e.currentVariableDebt == VariableDebtBalance(after, e, t)
         && (now == t || !everything ==>
               && 0 <= e.scaledVariableDebt <= u.scaledVariableDebt
               && WithinDrift(e.currentVariableDebt, VariableDebtBalance(r, u, t) - paid, after.variableBorrowIndex))
         && (now == t && everything ==> e.scaledVariableDebt == 0 == e.currentVariableDebt)
  }

  lemma UserRepayIs(s: Strategy, r: Reserve, u: User, amount: int, mode: RateMode, ownWallet: bool, t: int, now: int)
    requires CanRepay(s, r, u, amount, mode, t) && t <= now
    ensures RAY <= AfterRepay(s, r, u, amount, mode, t).variableBorrowIndex
    ensures
      var after := AfterRepay(s, r, u, amount, mode, t);
      UserRepaid(r, after, u, UserAfterRepay(r, after, u, amount, mode, ownWallet, t, now), amount, mode, ownWallet, t,
                 now)
  {
    hide AfterRepay, UserRepaid;
    if mode == Stable {
      UserStableRepayIs(s, r, u, amount, ownWallet, t, now);
    } else {
      UserVariableRepayIs(s, r, u, amount, ownWallet, t, now);
    }
  }

  /** The reserve after a repayment, as far as the user sees it. */
  lemma RepaidReserve(s: Strategy, r: Reserve, u: User, amount: int, mode: RateMode, t: int)
    requires CanRepay(s, r, u, amount, mode, t)
    ensures
      var after := AfterRepay(s, r, u, amount, mode, t);
      && UsersUnmoved(r, after, t) && after.lastUpdateTimestamp == t
      && RAY <= after.liquidityIndex && RAY <= after.variableBorrowIndex == VariableBorrowIndexAt(r, t)
  {
    hide AfterRepay, UsersUnmoved, LiquidityIndexAt, VariableBorrowIndexAt, RepaidAmount, RayMul, RayDiv,
      StableRepaid;
    RepayRecord(s, r, u, amount, mode, t);
    DebtsAt(r, t);
    AccruesAt(r, AfterRepay(s, r, u, amount, mode, t), t);
  }

  lemma UserStableRepayIs(s: Strategy, r: Reserve, u: User, amount: int, ownWallet: bool, t: int, now: int)
    requires CanRepay(s, r, u, amount, Stable, t) && t <= now
    ensures RAY <= AfterRepay(s, r, u, amount, Stable, t).variableBorrowIndex
    ensures
      var after := AfterRepay(s, r, u, amount, Stable, t);
      UserRepaid(r, after, u, UserAfterRepay(r, after, u, amount, Stable, ownWallet, t, now), amount, Stable, ownWallet,
                 t, now)
  {
    var after := AfterRepay(s, r, u, amount, Stable, t);
    RepaidReserve(s, r, u, amount, Stable, t);
    UserDebtMono(u, t, now);
    var e := UserAfterRepay(r, after, u, amount, Stable, ownWallet, t, now);
    GrowthFrom(e, e.principalStableDebt, e.stableBorrowRate, e.stableRateLastUpdated);
    PrincipalAtOnce(e, t);
    hide AfterRepay, RayMul, RayDiv, ATokenBalance, VariableDebtBalance, StableDebtBalance, CompoundedInterest;
  }

  lemma UserDebtMono(u: User, t: int, now: int)
    requires SoundUser(u, t) && t <= now
    ensures 0 <= UserStableDebt(u, t) <= UserStableDebt(u, now)
  {
    hide RayMul, CompoundedInterest;
    var last, rate := u.stableRateLastUpdated, u.stableBorrowRate;
    StableDebtGrows(u.principalStableDebt, rate, last, t, now);
    StableDebtGrows(u.principalStableDebt, rate, last, now, now);
    RayMulCommutes(u.principalStableDebt, CompoundedInterest(rate, t, last));
    RayMulCommutes(u.principalStableDebt, CompoundedInterest(rate, now, last));
  }

  /** A principal that was touched at time t, or never, is the debt at time t. */
  lemma PrincipalAtOnce(e: User, t: int)
    requires e.stableRateLastUpdated == t || e.stableBorrowRate == 0
    ensures UserStableDebt(e, t) == e.principalStableDebt
  {
  }

  lemma UserVariableRepayIs(s: Strategy, r: Reserve, u: User, amount: int, ownWallet: bool, t: int, now: int)
    requires CanRepay(s, r, u, amount, Variable, t) && t <= now
    ensures RAY <= AfterRepay(s, r, u, amount, Variable, t).variableBorrowIndex
    ensures
      var after := AfterRepay(s, r, u, amount, Variable, t);
      UserRepaid(r, after, u, UserAfterRepay(r, after, u, amount, Variable, ownWallet, t, now), amount, Variable,
                 ownWallet, t, now)
  {
    var after := AfterRepay(s, r, u, amount, Variable, t);
    hide AfterRepay, RayMul, RayDiv, ATokenBalance, VariableDebtBalance, StableDebtBalance, WithinDrift,
      VariableBorrowIndexAt;
    RepaidReserve(s, r, u, amount, Variable, t);
    WorthAtOnce(after, t);
    UserRepayMoves(r, u, RepaidAmount(r, u, amount, Variable, t), t);
  }

  /** What a variable repayment takes from the scaled debt of its user. */
  lemma UserRepayMoves(r: Reserve, u: User, paid: int, t: int)
    requires Sound(r) && r.lastUpdateTimestamp <= t
    requires 0 <= u.scaledVariableDebt <= r.scaledVariableDebt && 0 <= paid <= VariableDebtBalance(r, u, t)
    ensures
      var index := VariableBorrowIndexAt(r, t);
      && RAY <= index && RayMul(0, index) == 0
      && 0 <= RayDiv(paid, index) <= u.scaledVariableDebt
      && WithinDrift(RayMul(u.scaledVariableDebt - RayDiv(paid, index), index), VariableDebtBalance(r, u, t) - paid,
                     index)
      && (paid == VariableDebtBalance(r, u, t) ==> RayDiv(paid, index) == u.scaledVariableDebt)
  {
    hide RayMul, RayDiv, VariableDebtBalance, Drift, VariableBorrowIndexAt;
    RepaidVariable(r, u, paid, t);
    RepaidAll(r, u, t);
    DebtRoutesAgree(r, u, t);
    TakeDrift(u.scaledVariableDebt, paid, VariableBorrowIndexAt(r, t));
    RayMulUnit(VariableBorrowIndexAt(r, t));
  }

  // ---------- Swaps and rebalancing ----------

  /** Nothing but the debts and what is read back changes, and read beside the new reserve the record is as recorded. To
      variable, no stable debt is left, and the variable debt is what was due of both, up to the drift; to stable, no
      variable debt is left, and the stable debt is the recorded one and the variable one that was due, growing from
      then on at the mean of both rates. */
  ghost predicate UserSwapped(r: Reserve, after: Reserve, u: User, e: User, mode: RateMode, t: int) {
    && UsersUnmoved(r, after, t) && ReadsAs(after, e, t)
    && e.walletBalance == u.walletBalance && e.liquidityRate == after.liquidityRate
    && e.scaledATokenBalance == u.scaledATokenBalance && e.usageAsCollateralEnabled == u.usageAsCollateralEnabled
    && match mode
       case Stable =>
         && e.principalStableDebt == 0 && OwesNothingStable(e)
         && WithinDrift(e.currentVariableDebt, VariableDebtBalance(after, u, t) + UserStableDebt(u, t),
                        after.variableBorrowIndex)
       case Variable =>
         var debt := u.currentStableDebt + VariableDebtBalance(r, u, t);
         && e.scaledVariableDebt == 0 == e.currentVariableDebt
         && e.principalStableDebt == debt && GrowsFrom(e, debt, e.stableBorrowRate, t)
         && AddsWeight(u.stableBorrowRate, UserStableDebt(u, t), VariableDebtBalance(r, u, t), r.stableBorrowRate,
                       e.stableBorrowRate)
  }

  lemma SwappedReserve(s: Strategy, r: Reserve, u: User, mode: RateMode, t: int)
    requires SwapComputes(s, r, u, mode, t)
    ensures
      var after := AfterSwap(s, r, u, mode, t);
      && UsersUnmoved(r, after, t) && after.lastUpdateTimestamp == t
      && RAY <= after.liquidityIndex && RAY <= after.variableBorrowIndex == VariableBorrowIndexAt(r, t)
  {
    hide AfterSwap, UsersUnmoved, LiquidityIndexAt, VariableBorrowIndexAt, RayMul, RayDiv, UserStableDebt,
      VariableDebtBalance, AverageStableRate;
    SwapRecord(s, r, u, mode, t);
    DebtsAt(r, t);
    AccruesAt(r, AfterSwap(s, r, u, mode, t), t);
  }

  lemma UserSwapIs(s: Strategy, r: Reserve, u: User, mode: RateMode, t: int)
    requires SwapComputes(s, r, u, mode, t)
    ensures mode == Variable ==> 0 < UserStableDebt(u, t) + VariableDebtBalance(r, u, t)
    ensures RAY <= AfterSwap(s, r, u, mode, t).variableBorrowIndex
    ensures
      var after := AfterSwap(s, r, u, mode, t);
      UserSwapped(r, after, u, UserAfterSwap(r, after, u, mode, t), mode, t)
  {
    hide AfterSwap, UserSwapped, UserAfterSwap;
    if mode == Stable {
      UserSwapToVariableIs(s, r, u, t);
    } else {
      UserSwapToStableIs(s, r, u, t);
    }
  }

  lemma UserSwapToVariableIs(s: Strategy, r: Reserve, u: User, t: int)
    requires SwapComputes(s, r, u, Stable, t)
    ensures RAY <= AfterSwap(s, r, u, Stable, t).variableBorrowIndex
    ensures
      var after := AfterSwap(s, r, u, Stable, t);
      UserSwapped(r, after, u, UserAfterSwap(r, after, u, Stable, t), Stable, t)
  {
    var after := AfterSwap(s, r, u, Stable, t);
    hide AfterSwap, RayMul, RayDiv, ATokenBalance, VariableDebtBalance, CompoundedInterest, Drift,
      VariableBorrowIndexAt;
    SwappedReserve(s, r, u, Stable, t);
    WorthAtOnce(after, t);
    UserOwes(u, t);
    AddDrift(u.scaledVariableDebt, UserStableDebt(u, t), after.variableBorrowIndex);
  }

  lemma UserSwapToStableIs(s: Strategy, r: Reserve, u: User, t: int)
    requires SwapComputes(s, r, u, Variable, t)
    ensures 0 < UserStableDebt(u, t) + VariableDebtBalance(r, u, t)
    ensures RAY <= AfterSwap(s, r, u, Variable, t).variableBorrowIndex
    ensures
      var after := AfterSwap(s, r, u, Variable, t);
      UserSwapped(r, after, u, UserAfterSwap(r, after, u, Variable, t), Variable, t)
  {
    var after := AfterSwap(s, r, u, Variable, t);
    SwapHasDebt(s, r, u, Variable, t);
    RepaidAll(r, u, t);
    var e := UserAfterSwap(r, after, u, Variable, t);
    hide AfterSwap, RayMul, RayDiv, ATokenBalance, VariableDebtBalance, StableDebtBalance, CompoundedInterest,
      VariableBorrowIndexAt, UserStableRate, AddsWeight, GrowsFrom, UsersUnmoved;
    SwappedReserve(s, r, u, Variable, t);
    WorthAtOnce(after, t);
    RayMulUnit(after.variableBorrowIndex);
    UserOwes(u, t);
    AverageAddsWeight(u.stableBorrowRate, UserStableDebt(u, t), VariableDebtBalance(r, u, t), r.stableBorrowRate);
    GrowthFrom(e, e.principalStableDebt, e.stableBorrowRate, t);
    PrincipalAtOnce(e, t);
    SameBalance(r, after, u, e, t);
  }

  /** Users with the same scaled balance have the same balance. */
  lemma SameBalance(r: Reserve, after: Reserve, u: User, e: User, t: int)
    requires UsersUnmoved(r, after, t) && e.scaledATokenBalance == u.scaledATokenBalance
    ensures ATokenBalance(after, e, t) == ATokenBalance(r, u, t)
  {
    assert ATokenBalance(after, e, t) == ATokenBalance(r, e, t);
  }

  /** The stable debt that was due becomes the principal and grows from then on at the average rate of the reserve. */
  ghost predicate UserRebalanced(r: Reserve, after: Reserve, u: User, e: User, t: int) {
    && UsersUnmoved(r, after, t)
    && e.walletBalance == u.walletBalance && e.liquidityRate == after.liquidityRate
    && e.scaledATokenBalance == u.scaledATokenBalance && e.usageAsCollateralEnabled == u.usageAsCollateralEnabled
    && e.scaledVariableDebt == u.scaledVariableDebt && e.currentVariableDebt == VariableDebtBalance(r, u, t)
    && e.currentStableDebt == UserStableDebt(u, t) == e.principalStableDebt
    && e.stableBorrowRate == after.averageStableBorrowRate
    && GrowsFrom(e, UserStableDebt(u, t), after.averageStableBorrowRate, t)
    && e.currentATokenBalance == ATokenBalance(after, e, t)
    && (u.scaledVariableDebt <= r.scaledVariableDebt ==> ReadsAs(after, e, t))
  }

  lemma UserRebalanceIs(s: Strategy, r: Reserve, u: User, t: int)
    requires RebalanceComputes(s, r, u, t)
    ensures
      var after := AfterRebalance(s, r, u, t);
      UserRebalanced(r, after, u, UserAfterRebalance(r, after, u, t), t)
  {
    var after := AfterRebalance(s, r, u, t);
    var e := UserAfterRebalance(r, after, u, t);
    RebalanceIs(s, r, u, t);
    UserOwes(u, t);
    GrowthFrom(e, UserStableDebt(u, t), e.stableBorrowRate, t);
    PrincipalAtOnce(e, t);
    hide AfterRebalance, RayMul, ATokenBalance, VariableDebtBalance, StableDebtBalance, CompoundedInterest, Aged,
      OnCurve, SharesIncome, Accrues, MixedTwice;
  }

  // ---------- Reading a user ----------

  /** The record e is the record u as it is read at a time: its balance with all income, its debts with all interest,
      the stable one unless it has no time to grow from; nothing else changes. */
  predicate UserIsRead(r: Reserve, u: User, e: User, now: int) {
    && e == u.(currentATokenBalance := e.currentATokenBalance, currentStableDebt := e.currentStableDebt,
               currentVariableDebt := e.currentVariableDebt)
    && e.currentATokenBalance
       == RayMul(u.scaledATokenBalance,
                 RayMul(LinearInterest(r.liquidityRate, now, r.lastUpdateTimestamp), r.liquidityIndex))
    && e.currentVariableDebt
       == RayMul(u.scaledVariableDebt,
                 RayMul(CompoundedInterest(r.variableBorrowRate, now, r.lastUpdateTimestamp), r.variableBorrowIndex))
    && (u.stableRateLastUpdated == 0 ==> e.currentStableDebt == u.principalStableDebt)
    && (u.stableRateLastUpdated != 0 ==>
          e.currentStableDebt
          == RayMul(u.principalStableDebt, CompoundedInterest(u.stableBorrowRate, now, u.stableRateLastUpdated)))
  }

  lemma UserReadIs(r: Reserve, u: User, now: int)
    requires Sound(r) && r.lastUpdateTimestamp <= now && SoundUser(u, now)
    ensures UserIsRead(r, u, UserRead(r, u, now), now)
  {
    hide RayMul, LinearInterest, CompoundedInterest;
    if r.liquidityRate == 0 {
      NothingAccrues(0, now, r.lastUpdateTimestamp);
      GrowsBy(RAY, r.liquidityIndex);
    }
    if r.variableBorrowRate == 0 {
      NothingAccrues(0, now, r.lastUpdateTimestamp);
      GrowsBy(RAY, r.variableBorrowIndex);
    }
    GrowthFrom(u, u.principalStableDebt, u.stableBorrowRate, u.stableRateLastUpdated);
  }
}
