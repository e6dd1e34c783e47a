/** What the reserve record after each step says, apart from the order in which the step fills it: the rates that it
    charges and pays, how it differs from the record as it would have been read just before, and what reading it again
    shows. */
module ReserveMeaning {
  import opened FixedPoint
  import opened Interest
  import opened RateStrategy
  import opened StableAverage
  import opened Records
  import opened ReserveSteps

  // ---------- Rates ----------

  /** The rates and the utilisation of the record are those of its own totals. */
  predicate Priced(s: Strategy, r: Reserve) {
    s.Valid() && Priceable(r) && Repriced(s, r) == r
  }

  /** The utilisation is the borrowed fraction of the liquidity, rounded half up. */
  predicate Utilized(e: Reserve) {
    var debt := e.totalStableDebt + e.totalVariableDebt;
    && (debt == 0 ==> e.utilizationRate == 0)
    && (debt != 0 ==> 2 * (e.totalLiquidity * e.utilizationRate) <= 2 * RAY * debt + e.totalLiquidity
                      < 2 * (e.totalLiquidity * e.utilizationRate) + 2 * e.totalLiquidity)
  }

  /** At the utilisation of the record both borrow rates lie on the lines of their slopes, and while no more is borrowed
      than there is, between their starts and the sums of their slopes. */
  predicate OnCurve(s: Strategy, e: Reserve) {
    && Utilized(e)
    && OnLines(s, e.marketStableRate, e.utilizationRate, e.stableBorrowRate, e.variableBorrowRate)
    && (e.utilizationRate <= RAY ==>
          && e.marketStableRate <= e.stableBorrowRate <= e.marketStableRate + s.stableRateSlope1 + s.stableRateSlope2
          && s.baseVariableBorrowRate <= e.variableBorrowRate
             <= s.baseVariableBorrowRate + s.variableRateSlope1 + s.variableRateSlope2)
  }

  /** Suppliers get the borrowed and not retained share of the overall rate on both debts, up to rounding. */
  predicate SharesIncome(s: Strategy, e: Reserve) {
    IsShare(s, OverallBorrowRate(e.totalStableDebt, e.totalVariableDebt, e.variableBorrowRate,
                                 e.averageStableBorrowRate),
            e.utilizationRate, e.liquidityRate)
  }

  lemma PricedRates(s: Strategy, e: Reserve)
    requires Priced(s, e)
    ensures e.utilizationRate == UtilizationRate(e.totalStableDebt, e.totalVariableDebt, e.totalLiquidity)
    ensures
      var rates := InterestRates(s, e.marketStableRate, e.utilizationRate, e.totalStableDebt, e.totalVariableDebt,
                                 e.averageStableBorrowRate);
      && e.liquidityRate == rates.liquidityRate
      && e.stableBorrowRate == rates.stableBorrowRate && e.variableBorrowRate == rates.variableBorrowRate
  {
    hide InterestRates, UtilizationRate;
  }

  lemma PricedUtilization(s: Strategy, e: Reserve)
    requires Priced(s, e)
    requires 0 <= e.totalStableDebt && 0 <= e.totalVariableDebt
    requires e.totalStableDebt == 0 == e.totalVariableDebt || 0 < e.totalLiquidity
    ensures Utilized(e) && 0 <= e.utilizationRate
  {
    PricedRates(s, e);
    hide Priced, RayDiv;
    if !(e.totalStableDebt == 0 == e.totalVariableDebt) {
      RayDivRounds(e.totalStableDebt + e.totalVariableDebt, e.totalLiquidity);
    }
  }

  /** A priced record charges by the curve, and pays suppliers their share. */
  lemma PricedOnCurve(s: Strategy, e: Reserve)
    requires Priced(s, e)
    requires 0 <= e.totalStableDebt && 0 <= e.totalVariableDebt && 0 <= e.marketStableRate
    requires e.totalStableDebt == 0 == e.totalVariableDebt || 0 < e.totalLiquidity
    ensures OnCurve(s, e)
    ensures 0 <= e.averageStableBorrowRate ==> SharesIncome(s, e)
  {
    PricedRates(s, e);
    PricedUtilization(s, e);
    hide Priced, Utilized, OnLines, Curve, OverallBorrowRate, LiquidityRate;
    var u := e.utilizationRate;
    BorrowRatesTrackLines(s, e.marketStableRate, u);
    CurveMono(s, e.marketStableRate, s.stableRateSlope1, s.stableRateSlope2, u, u);
    CurveMono(s, s.baseVariableBorrowRate, s.variableRateSlope1, s.variableRateSlope2, u, u);
    if 0 <= e.averageStableBorrowRate {
      OverallNonNegative(e.totalStableDebt, e.totalVariableDebt, e.variableBorrowRate, e.averageStableBorrowRate);
      LiquidityRateIsShare(s, OverallBorrowRate(e.totalStableDebt, e.totalVariableDebt, e.variableBorrowRate,
                                                e.averageStableBorrowRate), u);
    }
  }

  // ---------- Time passes ----------

  /** The step is made at time t: the supplier index grows by linear interest, the variable index by compounded
      interest unless nobody owes. */
  predicate Accrues(r: Reserve, e: Reserve, t: int) {
    && e.lastUpdateTimestamp == t && e.marketStableRate == r.marketStableRate
    && e.liquidityIndex == RayMul(LinearInterest(r.liquidityRate, t, r.lastUpdateTimestamp), r.liquidityIndex)
    && (r.scaledVariableDebt == 0 ==> e.variableBorrowIndex == r.variableBorrowIndex)
    && (r.scaledVariableDebt != 0 ==>
          e.variableBorrowIndex
          == RayMul(CompoundedInterest(r.variableBorrowRate, t, r.lastUpdateTimestamp), r.variableBorrowIndex))
  }

  /** No user's balance or variable debt is moved by somebody's step. */
  ghost predicate UsersUnmoved(r: Reserve, e: Reserve, t: int) {
    && (forall x: User :: ATokenBalance(e, x, t) == ATokenBalance(r, x, t))
    && (forall x: User :: 0 <= x.scaledVariableDebt <= r.scaledVariableDebt ==>
          VariableDebtBalance(e, x, t) == VariableDebtBalance(r, x, t)
          == RayMul(x.scaledVariableDebt, e.variableBorrowIndex))
  }

  lemma AccruesAt(r: Reserve, e: Reserve, t: int)
    requires Sound(r) && r.lastUpdateTimestamp <= t == e.lastUpdateTimestamp
    requires e.marketStableRate == r.marketStableRate
    requires e.liquidityIndex == LiquidityIndexAt(r, t) && e.variableBorrowIndex == VariableBorrowIndexAt(r, t)
    ensures Accrues(r, e, t) && UsersUnmoved(r, e, t)
  {
    hide RayMul, LinearInterest, CompoundedInterest;
    IncomeRoutesAgree(r, t);
    IndicesAccrue(r, t);
    NothingAccrues(e.liquidityRate, t, t);
    NothingAccrues(e.variableBorrowRate, t, t);
    GrowsBy(RAY, e.liquidityIndex);
    GrowsBy(RAY, e.variableBorrowIndex);
    IndexAccrues(r, t);
    forall x: User | 0 <= x.scaledVariableDebt <= r.scaledVariableDebt
      ensures VariableDebtBalance(e, x, t) == VariableDebtBalance(r, x, t)
           == RayMul(x.scaledVariableDebt, e.variableBorrowIndex)
    {
      DebtRoutesAgree(r, x, t);
    }
  }

  lemma IndexAccrues(r: Reserve, t: int)
    requires Sound(r) && r.lastUpdateTimestamp <= t
    ensures LiquidityIndexAt(r, t)
         == RayMul(LinearInterest(r.liquidityRate, t, r.lastUpdateTimestamp), r.liquidityIndex)
  {
    hide RayMul, LinearInterest;
    if r.utilizationRate == 0 {
      NothingAccrues(0, t, r.lastUpdateTimestamp);
      GrowsBy(RAY, r.liquidityIndex);
    }
  }

  // ---------- Reading a record ----------

  /** The record e is the record r as it is read at a time: debts with all interest, liquidity as the sum of its parts,
      utilisation as the borrowed fraction; nothing else changes. */
  predicate IsRead(r: Reserve, e: Reserve, now: int) {
    && e == r.(totalStableDebt := e.totalStableDebt, totalVariableDebt := e.totalVariableDebt,
               totalLiquidity := e.totalLiquidity, utilizationRate := e.utilizationRate)
    && e.totalStableDebt
       == RayMul(CompoundedInterest(r.averageStableBorrowRate, now, r.totalStableDebtLastUpdated),
                 r.principalStableDebt)
    && e.totalVariableDebt
       == RayMul(r.scaledVariableDebt,
                 RayMul(CompoundedInterest(r.variableBorrowRate, now, r.lastUpdateTimestamp), r.variableBorrowIndex))
    && e.totalLiquidity == e.availableLiquidity + e.totalStableDebt + e.totalVariableDebt
    && Utilized(e)
  }

  /** Reading leaves the guards of the source without effect. */
  lemma AgedIsRead(r: Reserve, now: int)
    requires Sound(r) && r.lastUpdateTimestamp <= now
    ensures IsRead(r, Aged(r, now), now)
  {
    var index := NormalizedDebt(r.variableBorrowRate, r.variableBorrowIndex, r.lastUpdateTimestamp, now);
    var factor := CompoundedInterest(r.variableBorrowRate, now, r.lastUpdateTimestamp);
    AgedDebts(r, now);
    assert index == RayMul(factor, r.variableBorrowIndex) by {
      if r.variableBorrowRate == 0 {
        NothingAccrues(0, now, r.lastUpdateTimestamp);
        GrowsBy(RAY, r.variableBorrowIndex);
      }
    }
    hide RayMul, RayDiv, CompoundedInterest, NormalizedDebt;
    var e := Aged(r, now);
    if !(e.totalStableDebt == 0 == e.totalVariableDebt) {
      RayDivRounds(e.totalStableDebt + e.totalVariableDebt, e.totalLiquidity);
    }
  }

  /** The debts as they are read at the time of a step. */
  lemma DueDebts(r: Reserve, t: int)
    requires Sound(r) && r.lastUpdateTimestamp <= t
    ensures Aged(r, t).totalStableDebt == TotalStableDebtAt(r, t)
    ensures Aged(r, t).totalVariableDebt == RayMul(r.scaledVariableDebt, VariableBorrowIndexAt(r, t))
  {
    hide RayMul, CompoundedInterest, VariableBorrowIndexAt, UtilizationRate;
    AgedDebts(r, t);
    DebtRoutesAgree(r, User(0, 0, 0, 0, 0, r.scaledVariableDebt, 0, 0, 0, false, 0), t);
  }

  /** Read at its own time, the record is what was recorded. */
  predicate ReadsBack(e: Reserve) {
    Sound(e) && Aged(e, e.lastUpdateTimestamp) == e
  }

  lemma PricedReadsBack(s: Strategy, e: Reserve)
    requires Sound(e) && Priced(s, e)
    requires e.totalLiquidity == e.availableLiquidity + e.totalStableDebt + e.totalVariableDebt
    requires e.totalVariableDebt == RayMul(e.scaledVariableDebt, e.variableBorrowIndex)
    ensures ReadsBack(e) <==> e.totalStableDebt == TotalStableDebtAt(e, e.lastUpdateTimestamp)
  {
    PricedRates(s, e);
    NormalizedAtOnce(e);
    AgedDebts(e, e.lastUpdateTimestamp);
    hide RayMul, UtilizationRate, TotalStableDebt, Priced;
  }

  lemma SettledReadsBack(s: Strategy, e: Reserve)
    requires Priced(s, e) && SettlesStableDebt(e, e.lastUpdateTimestamp)
    requires e.totalLiquidity == e.availableLiquidity + e.totalStableDebt + e.totalVariableDebt
    requires e.totalVariableDebt == RayMul(e.scaledVariableDebt, e.variableBorrowIndex)
    ensures Sound(e) ==> ReadsBack(e)
  {
    hide Priced, RayMul, TotalStableDebt, Aged;
    if Sound(e) {
      var t := e.lastUpdateTimestamp;
      StableDebtGrows(e.principalStableDebt, e.averageStableBorrowRate, t, t, t);
      PricedReadsBack(s, e);
    }
  }

  /** Both records owe stable debt that grows in the same way. */
  predicate KeepsStableDebt(r: Reserve, e: Reserve) {
    && e.principalStableDebt == r.principalStableDebt && e.averageStableBorrowRate == r.averageStableBorrowRate
    && e.totalStableDebtLastUpdated == r.totalStableDebtLastUpdated
  }

  /** The recorded stable debt is a principal that grows from time t. */
  predicate SettlesStableDebt(e: Reserve, t: int) {
    e.principalStableDebt == e.totalStableDebt && e.totalStableDebtLastUpdated == t
  }

  /** Two amounts behind the same scaled debt agree up to the drift of the index. */
  predicate WithinDrift(x: int, y: int, index: int) {
    RAY <= index && -Drift(index) <= x - y <= Drift(index)
  }

  // ---------- What every step does ----------

  /** The step accrues to time t, moves no user, and leaves rates that follow from its totals. */
  ghost predicate StepsTo(s: Strategy, r: Reserve, e: Reserve, t: int) {
    && Accrues(r, e, t) && UsersUnmoved(r, e, t)
    && OnCurve(s, e) && (0 <= e.averageStableBorrowRate ==> SharesIncome(s, e))
  }

  lemma StepIs(s: Strategy, r: Reserve, e: Reserve, t: int)
    requires Sound(r) && r.lastUpdateTimestamp <= t == e.lastUpdateTimestamp
    requires e.marketStableRate == r.marketStableRate
    requires e.liquidityIndex == LiquidityIndexAt(r, t) && e.variableBorrowIndex == VariableBorrowIndexAt(r, t)
    requires Priced(s, e)
    requires 0 <= e.totalStableDebt && 0 <= e.totalVariableDebt
    requires e.totalStableDebt == 0 == e.totalVariableDebt || 0 < e.totalLiquidity
    ensures StepsTo(s, r, e, t)
  {
    hide Priced, LiquidityIndexAt, VariableBorrowIndexAt, Accrues, UsersUnmoved, OnCurve, SharesIncome;
    AccruesAt(r, e, t);
    PricedOnCurve(s, e);
  }

  // ---------- Deposits and withdrawals ----------

  /** The amount comes in and both debts are those that were due. */
  ghost predicate Deposited(s: Strategy, r: Reserve, e: Reserve, amount: int, t: int)
    requires Sound(r) && r.lastUpdateTimestamp <= t
  {
    var before := Aged(r, t);
    && StepsTo(s, r, e, t) && KeepsStableDebt(r, e)
    && e.availableLiquidity == r.availableLiquidity + amount && e.totalLiquidity == r.totalLiquidity + amount
    && e.totalStableDebt == before.totalStableDebt
    && e.totalVariableDebt == before.totalVariableDebt && e.scaledVariableDebt == r.scaledVariableDebt
    && (ReadsBack(e) <==> e.totalLiquidity == e.availableLiquidity + e.totalStableDebt + e.totalVariableDebt)
  }

  lemma DepositIs(s: Strategy, r: Reserve, amount: int, t: int)
    requires CanDeposit(s, r, amount, t)
    ensures Deposited(s, r, AfterDeposit(s, r, amount, t), amount, t)
  {
    var e := AfterDeposit(s, r, amount, t);
    DepositRecord(s, r, amount, t);
    DepositSound(s, r, amount, t);
    DueDebts(r, t);
    DebtsAt(r, t);
    hide AfterDeposit, Priced, RayMul, LiquidityIndexAt, VariableBorrowIndexAt, TotalStableDebt, StepsTo;
    StepIs(s, r, e, t);
    hide Aged;
    if ReadsBack(e) {
      AgedIsBalanced(e);
    } else if e.totalLiquidity == e.availableLiquidity + e.totalStableDebt + e.totalVariableDebt {
      PricedReadsBack(s, e);
    }
  }

  lemma AgedIsBalanced(e: Reserve)
    requires ReadsBack(e)
    ensures e.totalLiquidity == e.availableLiquidity + e.totalStableDebt + e.totalVariableDebt
  {
    hide RayMul, TotalStableDebt, NormalizedDebt, UtilizationRate;
  }

  lemma DepositRecord(s: Strategy, r: Reserve, amount: int, t: int)
    requires CanDeposit(s, r, amount, t)
    ensures
      var e := AfterDeposit(s, r, amount, t);
      && Priced(s, e)
      && e.lastUpdateTimestamp == t && e.marketStableRate == r.marketStableRate && KeepsStableDebt(r, e)
      && e.liquidityIndex == LiquidityIndexAt(r, t) && e.variableBorrowIndex == VariableBorrowIndexAt(r, t)
      && e.availableLiquidity == r.availableLiquidity + amount && e.totalLiquidity == r.totalLiquidity + amount
      && e.totalStableDebt == TotalStableDebtAt(r, t) == TotalStableDebtAt(e, t)
      && e.scaledVariableDebt == r.scaledVariableDebt
      && e.totalVariableDebt == RayMul(r.scaledVariableDebt, VariableBorrowIndexAt(r, t))
  {
    hide RayMul, UtilizationRate, InterestRates, LiquidityIndexAt, VariableBorrowIndexAt, TotalStableDebt;
    DebtsAt(r, t);
  }

  /** The amount, or with the largest amount the whole balance at the new index, goes out; both debts are those that
      were due. */
  ghost predicate Withdrawn(s: Strategy, r: Reserve, u: User, e: Reserve, amount: int, t: int)
    requires Sound(r) && r.lastUpdateTimestamp <= t
  {
    var before := Aged(r, t);
    var taken := if amount == MAX_UINT_AMOUNT then RayMul(u.scaledATokenBalance, e.liquidityIndex) else amount;
    && StepsTo(s, r, e, t) && KeepsStableDebt(r, e) && ReadsBack(e)
    && e.availableLiquidity == r.availableLiquidity - taken
    && e.totalStableDebt == before.totalStableDebt
    && e.totalVariableDebt == before.totalVariableDebt && e.scaledVariableDebt == r.scaledVariableDebt
  }

  lemma WithdrawIs(s: Strategy, r: Reserve, u: User, amount: int, t: int)
    requires CanWithdraw(s, r, u, amount, t)
    ensures Withdrawn(s, r, u, AfterWithdraw(s, r, u, amount, t), amount, t)
  {
    var e := AfterWithdraw(s, r, u, amount, t);
    WithdrawRecord(s, r, u, amount, t);
    WithdrawSound(s, r, u, amount, t);
    DueDebts(r, t);
    IncomeRoutesAgree(r, t);
    DebtsAt(r, t);
    hide AfterWithdraw, Priced, RayMul, LiquidityIndexAt, VariableBorrowIndexAt, NormalizedIncome, TotalStableDebt,
      StepsTo;
    StepIs(s, r, e, t);
    hide Aged;
    PricedReadsBack(s, e);
  }

  lemma WithdrawRecord(s: Strategy, r: Reserve, u: User, amount: int, t: int)
    requires CanWithdraw(s, r, u, amount, t)
    ensures
      var e := AfterWithdraw(s, r, u, amount, t);
      && Priced(s, e)
      && e.totalLiquidity == e.availableLiquidity + e.totalStableDebt + e.totalVariableDebt
      && e.lastUpdateTimestamp == t && e.marketStableRate == r.marketStableRate && KeepsStableDebt(r, e)
      && e.liquidityIndex == LiquidityIndexAt(r, t) && e.variableBorrowIndex == VariableBorrowIndexAt(r, t)
      && e.availableLiquidity == r.availableLiquidity - WithdrawnAmount(r, u, amount, t)
      && e.totalStableDebt == TotalStableDebtAt(r, t) == TotalStableDebtAt(e, t)
      && e.scaledVariableDebt == r.scaledVariableDebt
      && e.totalVariableDebt == RayMul(r.scaledVariableDebt, VariableBorrowIndexAt(r, t))
  {
    hide RayMul, UtilizationRate, InterestRates, LiquidityIndexAt, VariableBorrowIndexAt, TotalStableDebt,
      WithdrawnAmount;
    DebtsAt(r, t);
  }

  // ---------- Borrows ----------

  /** Right after a borrow the amount has gone out. A stable borrow adds it to the stable debt that was due, at the
      rate of the reserve; a variable borrow to the variable one, up to the drift of the index. */
  ghost predicate Settled(s: Strategy, r: Reserve, e: Reserve, amount: int, mode: RateMode, t: int)
    requires Sound(r) && r.lastUpdateTimestamp <= t
  {
    var before := Aged(r, t);
    && StepsTo(s, r, e, t)
    && e.availableLiquidity == r.availableLiquidity - amount
    && e.totalLiquidity == e.availableLiquidity + e.totalStableDebt + e.totalVariableDebt
    && (ReadsBack(e) <==> mode == Stable || e.totalStableDebt == before.totalStableDebt)
    && match mode
       case Stable =>
         && e.totalStableDebt == before.totalStableDebt + amount && SettlesStableDebt(e, t)
         && AddsWeight(r.averageStableBorrowRate, before.totalStableDebt, amount, r.stableBorrowRate,
                       e.averageStableBorrowRate)
         && e.totalVariableDebt == before.totalVariableDebt && e.scaledVariableDebt == r.scaledVariableDebt
       case Variable =>
         && KeepsStableDebt(r, e) && r.principalStableDebt <= e.totalStableDebt <= before.totalStableDebt
         && (r.totalStableDebtLastUpdated != 0 ==> e.totalStableDebt == before.totalStableDebt)
         && WithinDrift(e.totalVariableDebt, before.totalVariableDebt + amount, e.variableBorrowIndex)
         && e.totalVariableDebt == RayMul(e.scaledVariableDebt, e.variableBorrowIndex)
  }

  /** A borrow leaves what is right after it, as it is read at the current time. */
  ghost predicate Borrowed(s: Strategy, r: Reserve, e: Reserve, amount: int, mode: RateMode, t: int, now: int)
    requires Sound(r) && r.lastUpdateTimestamp <= t
  {
    exists settled :: Settled(s, r, settled, amount, mode, t) && IsRead(settled, e, now)
  }

  lemma BorrowIs(s: Strategy, r: Reserve, amount: int, mode: RateMode, t: int, now: int)
    requires CanBorrow(s, r, amount, t, now)
    ensures Settled(s, r, BorrowSettled(s, r, amount, mode, t), amount, mode, t)
    ensures Borrowed(s, r, AfterBorrow(s, r, amount, mode, t, now), amount, mode, t, now)
  {
    hide Settled, IsRead, BorrowSettled, Aged;
    BorrowSettledSound(s, r, amount, mode, t);
    if mode == Stable {
      StableBorrowIs(s, r, amount, t);
    } else {
      VariableBorrowIs(s, r, amount, t);
    }
    BorrowRecord(s, r, amount, mode, t);
    AgedIsRead(BorrowSettled(s, r, amount, mode, t), now);
  }

  lemma BorrowRecord(s: Strategy, r: Reserve, amount: int, mode: RateMode, t: int)
    requires CanBorrow(s, r, amount, t, t)
    ensures
      var e := BorrowSettled(s, r, amount, mode, t);
      && Priced(s, e)
      && e.totalLiquidity == e.availableLiquidity + e.totalStableDebt + e.totalVariableDebt
      && e.lastUpdateTimestamp == t && e.marketStableRate == r.marketStableRate
      && e.liquidityIndex == LiquidityIndexAt(r, t) && RAY <= e.variableBorrowIndex == VariableBorrowIndexAt(r, t)
      && e.availableLiquidity == r.availableLiquidity - amount
      && e.totalVariableDebt == RayMul(e.scaledVariableDebt, e.variableBorrowIndex)
      && match mode
         case Stable =>
           && e.totalStableDebt == TotalStableDebtAt(r, t) + amount && SettlesStableDebt(e, t)
           && e.averageStableBorrowRate
              == AverageStableRate(r.averageStableBorrowRate, TotalStableDebtAt(r, t), amount, r.stableBorrowRate)
           && e.scaledVariableDebt == r.scaledVariableDebt
         case Variable =>
           && KeepsStableDebt(r, e)
           && e.totalStableDebt == StableDebtBalance(r.principalStableDebt, r.averageStableBorrowRate,
                                                     r.totalStableDebtLastUpdated, t)
           && e.scaledVariableDebt == r.scaledVariableDebt + RayDiv(amount, e.variableBorrowIndex)
  {
    hide RayMul, RayDiv, UtilizationRate, InterestRates, LiquidityIndexAt, VariableBorrowIndexAt, TotalStableDebt,
      StableDebtBalance, AverageStableRate;
    DebtsAt(r, t);
    BorrowedVariable(r, amount, t);
  }

  lemma StableBorrowIs(s: Strategy, r: Reserve, amount: int, t: int)
    requires CanBorrow(s, r, amount, t, t)
    ensures Settled(s, r, BorrowSettled(s, r, amount, Stable, t), amount, Stable, t)
  {
    var e := BorrowSettled(s, r, amount, Stable, t);
    BorrowRecord(s, r, amount, Stable, t);
    BorrowSettledSound(s, r, amount, Stable, t);
    DueDebts(r, t);
    DebtsAt(r, t);
    AverageAddsWeight(r.averageStableBorrowRate, TotalStableDebtAt(r, t), amount, r.stableBorrowRate);
    StableDebtGrows(e.principalStableDebt, e.averageStableBorrowRate, t, t, t);
    hide BorrowSettled, Priced, RayMul, LiquidityIndexAt, VariableBorrowIndexAt, TotalStableDebt, StepsTo,
      AverageStableRate, AddsWeight;
    StepIs(s, r, e, t);
    hide Aged;
    PricedReadsBack(s, e);
  }

  lemma VariableBorrowIs(s: Strategy, r: Reserve, amount: int, t: int)
    requires CanBorrow(s, r, amount, t, t)
    ensures Settled(s, r, BorrowSettled(s, r, amount, Variable, t), amount, Variable, t)
  {
    var e := BorrowSettled(s, r, amount, Variable, t);
    hide BorrowSettled, Priced, RayMul, RayDiv, LiquidityIndexAt, VariableBorrowIndexAt, TotalStableDebt, StepsTo,
      StableDebtBalance, WithinDrift, Aged, NormalizedDebt, ReadsBack;
    BorrowRecord(s, r, amount, Variable, t);
    BorrowSettledSound(s, r, amount, Variable, t);
    VariableBorrowMoves(s, r, amount, t);
    DueDebts(r, t);
    StepIs(s, r, e, t);
    PricedReadsBack(s, e);
  }

  lemma VariableBorrowMoves(s: Strategy, r: Reserve, amount: int, t: int)
    requires CanBorrow(s, r, amount, t, t)
    ensures
      var index, total := VariableBorrowIndexAt(r, t), TotalStableDebtAt(r, t);
      var recorded := StableDebtBalance(r.principalStableDebt, r.averageStableBorrowRate,
                                        r.totalStableDebtLastUpdated, t);
      && RAY <= index
      && WithinDrift(RayMul(r.scaledVariableDebt + RayDiv(amount, index), index),
                     RayMul(r.scaledVariableDebt, index) + amount, index)
      && r.principalStableDebt <= recorded <= total
      && (r.totalStableDebtLastUpdated != 0 ==> recorded == total)
  {
    hide RayMul, RayDiv, VariableBorrowIndexAt, TotalStableDebt, StableDebtBalance, CompoundedInterest, Drift;
    DebtsAt(r, t);
    StableDebtGrows(r.principalStableDebt, r.averageStableBorrowRate, r.totalStableDebtLastUpdated, t, t);
    StableRoutesAgreeIff(r.principalStableDebt, r.averageStableBorrowRate, r.totalStableDebtLastUpdated, t);
    AddDrift(r.scaledVariableDebt, amount, VariableBorrowIndexAt(r, t));
  }

  // ---------- Repayments ----------

  /** Taking an amount from a stable debt leaves nothing, or no rate that is not negative. */
  predicate Erased(r: Reserve, u: User, total: int, paid: int) {
    var rest, weight := total - paid, r.averageStableBorrowRate * total - u.stableBorrowRate * paid;
    rest <= 0 || weight <= -rest
  }

  /** The debt and the rate after taking an amount from a stable debt at the rate of the user. */
  predicate Taken(r: Reserve, u: User, total: int, paid: int, debt: int, rate: int) {
    && (Erased(r, u, total, paid) ==> debt == 0 == rate)
    && (!Erased(r, u, total, paid) ==>
          debt == total - paid && LeavesWeight(r.averageStableBorrowRate, total, paid, u.stableBorrowRate, rate))
  }

  /** The amount, or with the largest amount in either sign the whole debt, comes back. A stable repayment takes it from
      the stable debt that was due, at the rate of the user, and erases what would be negative or without a rate; a
      variable one from the variable debt, up to the drift of the index, and carries the recorded stable debt over. */
  ghost predicate Repaid(s: Strategy, r: Reserve, u: User, e: Reserve, amount: int, mode: RateMode, t: int)
    requires Sound(r) && r.lastUpdateTimestamp <= t
  {
    var before := Aged(r, t);
    var paid :=
      if amount != MAX_UINT_AMOUNT && amount != -MAX_UINT_AMOUNT then amount
      else if mode == Stable then UserStableDebt(u, t)
      else RayMul(u.scaledVariableDebt, e.variableBorrowIndex);
    && StepsTo(s, r, e, t)
    && e.availableLiquidity == r.availableLiquidity + paid
    && e.totalLiquidity == e.availableLiquidity + e.totalStableDebt + e.totalVariableDebt
    && (ReadsBack(e) <==> mode == Stable || r.totalStableDebt == before.totalStableDebt)
    && match mode
       case Stable =>
         && SettlesStableDebt(e, t)
         && Taken(r, u, before.totalStableDebt, paid, e.totalStableDebt, e.averageStableBorrowRate)
         && e.totalVariableDebt == before.totalVariableDebt && e.scaledVariableDebt == r.scaledVariableDebt
       case Variable =>
         && KeepsStableDebt(r, e) && e.totalStableDebt == r.totalStableDebt
         && WithinDrift(e.totalVariableDebt, before.totalVariableDebt - paid, e.variableBorrowIndex)
         && e.totalVariableDebt == RayMul(e.scaledVariableDebt, e.variableBorrowIndex)
         && r.scaledVariableDebt - u.scaledVariableDebt <= e.scaledVariableDebt <= r.scaledVariableDebt
         && (amount == MAX_UINT_AMOUNT || amount == -MAX_UINT_AMOUNT ==>
               e.scaledVariableDebt == r.scaledVariableDebt - u.scaledVariableDebt)
  }

  lemma RepayIs(s: Strategy, r: Reserve, u: User, amount: int, mode: RateMode, t: int)
    requires CanRepay(s, r, u, amount, mode, t)
    ensures Repaid(s, r, u, AfterRepay(s, r, u, amount, mode, t), amount, mode, t)
  {
    hide Repaid, AfterRepay;
    if mode == Stable {
      StableRepayIs(s, r, u, amount, t);
    } else {
      VariableRepayIs(s, r, u, amount, t);
    }
  }

  lemma RepayRecord(s: Strategy, r: Reserve, u: User, amount: int, mode: RateMode, t: int)
    requires CanRepay(s, r, u, amount, mode, t)
    ensures
      var e := AfterRepay(s, r, u, amount, mode, t);
      var paid := RepaidAmount(r, u, amount, mode, t);
      && Priced(s, e)
      && e.totalLiquidity == e.availableLiquidity + e.totalStableDebt + e.totalVariableDebt
      && e.lastUpdateTimestamp == t && e.marketStableRate == r.marketStableRate
      && e.liquidityIndex == LiquidityIndexAt(r, t) && RAY <= e.variableBorrowIndex == VariableBorrowIndexAt(r, t)
      && e.availableLiquidity == r.availableLiquidity + paid
      && e.totalVariableDebt == RayMul(e.scaledVariableDebt, e.variableBorrowIndex)
      && match mode
         case Stable =>
           && SettlesStableDebt(e, t)
           && e.totalStableDebt == StableRepaid(r, u, paid, t).0
           && e.averageStableBorrowRate == StableRepaid(r, u, paid, t).1
           && e.scaledVariableDebt == r.scaledVariableDebt
         case Variable =>
           && KeepsStableDebt(r, e) && e.totalStableDebt == r.totalStableDebt
           && e.scaledVariableDebt == r.scaledVariableDebt - RayDiv(paid, e.variableBorrowIndex)
  {
    hide RayMul, RayDiv, UtilizationRate, InterestRates, LiquidityIndexAt, VariableBorrowIndexAt, TotalStableDebt,
      StableRepaid, RepaidAmount, UserStableDebt, VariableDebtBalance;
    DebtsAt(r, t);
    if mode == Stable {
      StableRepaidSound(r, u, RepaidAmount(r, u, amount, mode, t), t);
    } else {
      RepaidVariable(r, u, RepaidAmount(r, u, amount, mode, t), t);
    }
  }

  lemma StableRepayIs(s: Strategy, r: Reserve, u: User, amount: int, t: int)
    requires CanRepay(s, r, u, amount, Stable, t)
    ensures Repaid(s, r, u, AfterRepay(s, r, u, amount, Stable, t), amount, Stable, t)
  {
    var e := AfterRepay(s, r, u, amount, Stable, t);
    hide AfterRepay, Priced, RayMul, LiquidityIndexAt, VariableBorrowIndexAt, TotalStableDebt, StepsTo, Erased, Taken,
      UserStableDebt, Aged, ReadsBack, SoundTotals, StableRepaid;
    RepayRecord(s, r, u, amount, Stable, t);
    RepaySound(s, r, u, amount, Stable, t);
    StableRepaidMeans(r, u, RepaidAmount(r, u, amount, Stable, t), t);
    DueDebts(r, t);
    DebtsAt(r, t);
    StepIs(s, r, e, t);
    SettledReadsBack(s, e);
  }

  lemma StableRepaidMeans(r: Reserve, u: User, paid: int, t: int)
    requires 0 <= paid
    ensures var (debt, rate) := StableRepaid(r, u, paid, t);
      Taken(r, u, TotalStableDebtAt(r, t), paid, debt, rate)
  {
    hide TotalStableDebt, LeavesWeight, AverageStableRate;
    var total := TotalStableDebtAt(r, t);
    if paid <= total {
      AverageLeavesWeight(r.averageStableBorrowRate, total, paid, u.stableBorrowRate);
      NothingLeft(r.averageStableBorrowRate, total, u.stableBorrowRate);
    }
  }

  lemma NothingLeft(average: int, total: int, rate: int)
    ensures AverageStableRate(average, total, -total, rate) == 0
  {
  }

  lemma VariableRepayIs(s: Strategy, r: Reserve, u: User, amount: int, t: int)
    requires CanRepay(s, r, u, amount, Variable, t)
    ensures Repaid(s, r, u, AfterRepay(s, r, u, amount, Variable, t), amount, Variable, t)
  {
    var e := AfterRepay(s, r, u, amount, Variable, t);
    hide AfterRepay, Priced, RayMul, LiquidityIndexAt, VariableBorrowIndexAt, TotalStableDebt, StepsTo,
      VariableDebtBalance, WithinDrift, Aged, NormalizedDebt, ReadsBack, RayDiv;
    RepayRecord(s, r, u, amount, Variable, t);
    RepaySound(s, r, u, amount, Variable, t);
    VariableRepayTotals(s, r, u, amount, t);
    StepIs(s, r, e, t);
    DueDebts(r, t);
    PricedReadsBack(s, e);
  }

  lemma VariableRepayTotals(s: Strategy, r: Reserve, u: User, amount: int, t: int)
    requires CanRepay(s, r, u, amount, Variable, t)
    ensures
      var e, paid := AfterRepay(s, r, u, amount, Variable, t), RepaidAmount(r, u, amount, Variable, t);
      && paid == (if amount != MAX_UINT_AMOUNT && amount != -MAX_UINT_AMOUNT then amount
                  else RayMul(u.scaledVariableDebt, e.variableBorrowIndex))
      && WithinDrift(e.totalVariableDebt, Aged(r, t).totalVariableDebt - paid, e.variableBorrowIndex)
      && r.scaledVariableDebt - u.scaledVariableDebt <= e.scaledVariableDebt <= r.scaledVariableDebt
      && (amount == MAX_UINT_AMOUNT || amount == -MAX_UINT_AMOUNT ==>
            e.scaledVariableDebt == r.scaledVariableDebt - u.scaledVariableDebt)
  {
    hide AfterRepay, Priced, RayMul, RayDiv, LiquidityIndexAt, VariableBorrowIndexAt, TotalStableDebt,
      VariableDebtBalance, WithinDrift, Aged, NormalizedDebt, RepaidAmount;
    RepayRecord(s, r, u, amount, Variable, t);
    DueDebts(r, t);
    VariableRepayMoves(s, r, u, amount, t);
  }

  /** The amount repaid, and what it takes from the scaled debt. */
  lemma VariableRepayMoves(s: Strategy, r: Reserve, u: User, amount: int, t: int)
    requires CanRepay(s, r, u, amount, Variable, t)
    ensures
      var index := VariableBorrowIndexAt(r, t);
      var paid := RepaidAmount(r, u, amount, Variable, t);
      && RAY <= index
      && paid == (if amount != MAX_UINT_AMOUNT && amount != -MAX_UINT_AMOUNT then amount
                  else RayMul(u.scaledVariableDebt, index))
      && WithinDrift(RayMul(r.scaledVariableDebt - RayDiv(paid, index), index),
                     RayMul(r.scaledVariableDebt, index) - paid, index)
      && 0 <= RayDiv(paid, index) <= u.scaledVariableDebt
      && (amount == MAX_UINT_AMOUNT || amount == -MAX_UINT_AMOUNT ==> RayDiv(paid, index) == u.scaledVariableDebt)
  {
    hide RayMul, RayDiv, VariableBorrowIndexAt, VariableDebtBalance, Drift, UserStableDebt;
    var index, paid := VariableBorrowIndexAt(r, t), RepaidAmount(r, u, amount, Variable, t);
    DebtRoutesAgree(r, u, t);
    RepaidAll(r, u, t);
    RepaidVariable(r, u, paid, t);
    RayMulMono(u.scaledVariableDebt, r.scaledVariableDebt, index, index);
    TakeDrift(r.scaledVariableDebt, paid, index);
  }

  // ---------- Swaps ----------

  /** No cash moves. The stable debt of the user leaves the stable debt that was due, at the rate of the user, and joins
      the variable debt up to the drift of the index; or the variable debt of the user leaves the variable debt up to
      one unit and joins the stable debt, at the rate of the reserve. */
  ghost predicate Swapped(s: Strategy, r: Reserve, u: User, e: Reserve, mode: RateMode, t: int)
    requires Sound(r) && r.lastUpdateTimestamp <= t
  {
    var before := Aged(r, t);
    && StepsTo(s, r, e, t) && SettlesStableDebt(e, t)
    && e.availableLiquidity == r.availableLiquidity
    && e.totalLiquidity == e.availableLiquidity + e.totalStableDebt + e.totalVariableDebt
    && e.totalVariableDebt == RayMul(e.scaledVariableDebt, e.variableBorrowIndex)
    && (Sound(e) ==> ReadsBack(e))
    && match mode
       case Stable =>
         var debt := UserStableDebt(u, t);
         && e.totalStableDebt == before.totalStableDebt - debt
         && LeavesWeight(r.averageStableBorrowRate, before.totalStableDebt, debt, u.stableBorrowRate,
                         e.averageStableBorrowRate)
         && WithinDrift(e.totalVariableDebt, before.totalVariableDebt + debt, e.variableBorrowIndex)
       case Variable =>
         var debt := RayMul(u.scaledVariableDebt, e.variableBorrowIndex);
         && e.totalStableDebt == before.totalStableDebt + debt
         && AddsWeight(r.averageStableBorrowRate, r.totalStableDebt, debt, r.stableBorrowRate,
                       e.averageStableBorrowRate)
         && e.scaledVariableDebt == r.scaledVariableDebt - u.scaledVariableDebt
         && -1 <= e.totalVariableDebt - (before.totalVariableDebt - debt) <= 1
  }

  lemma SwapIs(s: Strategy, r: Reserve, u: User, mode: RateMode, t: int)
    requires SwapComputes(s, r, u, mode, t)
    ensures Swapped(s, r, u, AfterSwap(s, r, u, mode, t), mode, t)
  {
    hide Swapped, AfterSwap;
    if mode == Stable {
      SwapToVariableIs(s, r, u, t);
    } else {
      SwapToStableIs(s, r, u, t);
    }
  }

  lemma SwapToVariableIs(s: Strategy, r: Reserve, u: User, t: int)
    requires SwapComputes(s, r, u, Stable, t)
    ensures Swapped(s, r, u, AfterSwap(s, r, u, Stable, t), Stable, t)
  {
    var e := AfterSwap(s, r, u, Stable, t);
    hide AfterSwap, Priced, RayMul, RayDiv, LiquidityIndexAt, VariableBorrowIndexAt, TotalStableDebt,
      VariableDebtBalance, UserStableDebt, WithinDrift, Aged, NormalizedDebt, AddsWeight, LeavesWeight,
      AverageStableRate, SoundTotals, Repriced, StepsTo, ReadsBack;
    SwapRecord(s, r, u, Stable, t);
    StepIs(s, r, e, t);
    SettledReadsBack(s, e);
    SwapToVariableTotals(s, r, u, t);
  }

  lemma SwapToVariableTotals(s: Strategy, r: Reserve, u: User, t: int)
    requires SwapComputes(s, r, u, Stable, t)
    ensures
      var e, before := AfterSwap(s, r, u, Stable, t), Aged(r, t);
      var debt := UserStableDebt(u, t);
      && e.totalStableDebt == before.totalStableDebt - debt
      && LeavesWeight(r.averageStableBorrowRate, before.totalStableDebt, debt, u.stableBorrowRate,
                      e.averageStableBorrowRate)
      && WithinDrift(e.totalVariableDebt, before.totalVariableDebt + debt, e.variableBorrowIndex)
  {
    hide AfterSwap, Priced, RayMul, RayDiv, LiquidityIndexAt, VariableBorrowIndexAt, TotalStableDebt,
      VariableDebtBalance, UserStableDebt, WithinDrift, Aged, NormalizedDebt, AddsWeight, LeavesWeight,
      AverageStableRate, SoundTotals, Repriced;
    SwapRecord(s, r, u, Stable, t);
    DueDebts(r, t);
    SwapToVariableMoves(s, r, u, t);
  }

  lemma SwapToStableIs(s: Strategy, r: Reserve, u: User, t: int)
    requires SwapComputes(s, r, u, Variable, t)
    ensures Swapped(s, r, u, AfterSwap(s, r, u, Variable, t), Variable, t)
  {
    var e := AfterSwap(s, r, u, Variable, t);
    hide AfterSwap, Priced, RayMul, RayDiv, LiquidityIndexAt, VariableBorrowIndexAt, TotalStableDebt,
      VariableDebtBalance, UserStableDebt, WithinDrift, Aged, NormalizedDebt, AddsWeight, LeavesWeight,
      AverageStableRate, SoundTotals, Repriced, StepsTo, ReadsBack;
    SwapRecord(s, r, u, Variable, t);
    StepIs(s, r, e, t);
    SettledReadsBack(s, e);
    SwapToStableTotals(s, r, u, t);
  }

  lemma SwapToStableTotals(s: Strategy, r: Reserve, u: User, t: int)
    requires SwapComputes(s, r, u, Variable, t)
    ensures
      var e, before := AfterSwap(s, r, u, Variable, t), Aged(r, t);
      var debt := RayMul(u.scaledVariableDebt, e.variableBorrowIndex);
      && e.totalStableDebt == before.totalStableDebt + debt
      && AddsWeight(r.averageStableBorrowRate, r.totalStableDebt, debt, r.stableBorrowRate, e.averageStableBorrowRate)
      && e.scaledVariableDebt == r.scaledVariableDebt - u.scaledVariableDebt
      && -1 <= e.totalVariableDebt - (before.totalVariableDebt - debt) <= 1
  {
    hide AfterSwap, Priced, RayMul, RayDiv, LiquidityIndexAt, VariableBorrowIndexAt, TotalStableDebt,
      VariableDebtBalance, UserStableDebt, WithinDrift, Aged, NormalizedDebt, AddsWeight, LeavesWeight,
      AverageStableRate, SoundTotals, Repriced;
    SwapRecord(s, r, u, Variable, t);
    DueDebts(r, t);
    SwapToStableMoves(s, r, u, t);
  }

  lemma SwapRecord(s: Strategy, r: Reserve, u: User, mode: RateMode, t: int)
    requires SwapComputes(s, r, u, mode, t)
    ensures
      var e := AfterSwap(s, r, u, mode, t);
      && Priced(s, e)
      && e.totalLiquidity == e.availableLiquidity + e.totalStableDebt + e.totalVariableDebt
      && e.lastUpdateTimestamp == t && e.marketStableRate == r.marketStableRate && SettlesStableDebt(e, t)
      && e.liquidityIndex == LiquidityIndexAt(r, t) && RAY <= e.variableBorrowIndex == VariableBorrowIndexAt(r, t)
      && e.availableLiquidity == r.availableLiquidity
      && e.totalVariableDebt == RayMul(e.scaledVariableDebt, e.variableBorrowIndex)
      && 0 <= e.totalStableDebt && 0 <= e.totalVariableDebt
      && match mode
         case Stable =>
           && e.totalStableDebt == TotalStableDebtAt(r, t) - UserStableDebt(u, t)
           && e.averageStableBorrowRate
              == AverageStableRate(r.averageStableBorrowRate, TotalStableDebtAt(r, t), -UserStableDebt(u, t),
                                   u.stableBorrowRate)
           && e.scaledVariableDebt == r.scaledVariableDebt + RayDiv(UserStableDebt(u, t), e.variableBorrowIndex)
         case Variable =>
           && e.totalStableDebt == TotalStableDebtAt(r, t) + VariableDebtBalance(r, u, t)
           && e.averageStableBorrowRate
              == AverageStableRate(r.averageStableBorrowRate, r.totalStableDebt, VariableDebtBalance(r, u, t),
                                   r.stableBorrowRate)
           && e.scaledVariableDebt == r.scaledVariableDebt - RayDiv(VariableDebtBalance(r, u, t), e.variableBorrowIndex)
  {
    hide RayMul, RayDiv, UtilizationRate, InterestRates, LiquidityIndexAt, VariableBorrowIndexAt, TotalStableDebt,
      UserStableDebt, VariableDebtBalance, AverageStableRate;
    DebtsAt(r, t);
    if mode == Stable {
      SwappedToVariable(r, u, t);
    } else {
      RepaidAll(r, u, t);
    }
  }

  lemma SwapToVariableMoves(s: Strategy, r: Reserve, u: User, t: int)
    requires SwapComputes(s, r, u, Stable, t)
    ensures
      var index, total, debt := VariableBorrowIndexAt(r, t), TotalStableDebtAt(r, t), UserStableDebt(u, t);
      && RAY <= index
      && LeavesWeight(r.averageStableBorrowRate, total, debt, u.stableBorrowRate,
                      AverageStableRate(r.averageStableBorrowRate, total, -debt, u.stableBorrowRate))
      && WithinDrift(RayMul(r.scaledVariableDebt + RayDiv(debt, index), index),
                     RayMul(r.scaledVariableDebt, index) + debt, index)
  {
    hide RayMul, RayDiv, VariableBorrowIndexAt, UserStableDebt, Drift, AverageStableRate, LeavesWeight,
      TotalStableDebt;
    SwappedToVariable(r, u, t);
    AverageLeavesWeight(r.averageStableBorrowRate, TotalStableDebtAt(r, t), UserStableDebt(u, t), u.stableBorrowRate);
    AddDrift(r.scaledVariableDebt, UserStableDebt(u, t), VariableBorrowIndexAt(r, t));
  }

  lemma SwapToStableMoves(s: Strategy, r: Reserve, u: User, t: int)
    requires SwapComputes(s, r, u, Variable, t)
    ensures
      var index, debt := VariableBorrowIndexAt(r, t), VariableDebtBalance(r, u, t);
      && RAY <= index
      && debt == RayMul(u.scaledVariableDebt, index) && RayDiv(debt, index) == u.scaledVariableDebt
      && AddsWeight(r.averageStableBorrowRate, r.totalStableDebt, debt, r.stableBorrowRate,
                    AverageStableRate(r.averageStableBorrowRate, r.totalStableDebt, debt, r.stableBorrowRate))
      && -1 <= RayMul(r.scaledVariableDebt - u.scaledVariableDebt, index)
               - (RayMul(r.scaledVariableDebt, index) - debt) <= 1
  {
    hide RayMul, RayDiv, VariableBorrowIndexAt, VariableDebtBalance, AverageStableRate, AddsWeight, TotalStableDebt;
    RepaidAll(r, u, t);
    DebtRoutesAgree(r, u, t);
    AverageAddsWeight(r.averageStableBorrowRate, r.totalStableDebt, VariableDebtBalance(r, u, t), r.stableBorrowRate);
    SplitDrift(r.scaledVariableDebt, u.scaledVariableDebt, VariableBorrowIndexAt(r, t));
  }

  // ---------- Rebalancing ----------

  /** A mean of two rates, where the total counts in wad and the change in ray, up to one and a half units, and three
      rays spread over the sum. */
  predicate MixesUnits(average: int, total: int, change: int, rate: int, mixed: int) {
    var sum := total + WAD_RAY_RATIO * change;
    var weight := average * total + rate * (WAD_RAY_RATIO * change);
    && (sum == 0 ==> mixed == 0)
    && (sum != 0 ==> 2 * Abs(sum * mixed - weight) <= 3 * Abs(sum) + 6 * RAY)
  }

  lemma RebalancedMixes(average: int, total: int, change: int, rate: int)
    ensures MixesUnits(average, total, change, rate, RebalancedAverage(average, total, change, rate))
  {
    hide RayMul, RayDiv;
    var sum := total + WadToRay(change);
    if sum != 0 {
      var a, b := RayMul(average, total), RayMul(rate, WadToRay(change));
      RayMulNear(average, total);
      RayMulNear(rate, WadToRay(change));
      RayDivNear(a + b, sum);
      assert WadToRay(change) == WAD_RAY_RATIO * change;
      hide *;
      MixedBounds(sum, a, b, average * total, rate * WadToRay(change),
                  sum * RebalancedAverage(average, total, change, rate));
    }
  }

  lemma MixedBounds(sum: int, a: int, b: int, v: int, w: int, product: int)
    requires Abs(RAY * a - (HALF_RAY + v)) < RAY && Abs(RAY * b - (HALF_RAY + w)) < RAY
    requires 2 * Abs(product - (a + b) * RAY) <= 3 * Abs(sum)
    ensures 2 * Abs(product - (v + w)) <= 3 * Abs(sum) + 6 * RAY
  {
  }

  /** No cash and no debt moves; the average takes the debt of the user out at the rate of the user and puts it back at
      the rate of the reserve, mixing units both times. */
  ghost predicate Rebalanced(s: Strategy, r: Reserve, u: User, e: Reserve, t: int)
    requires Sound(r) && r.lastUpdateTimestamp <= t
  {
    var before, debt := Aged(r, t), UserStableDebt(u, t);
    && StepsTo(s, r, e, t) && SettlesStableDebt(e, t)
    && e.availableLiquidity == r.availableLiquidity
    && e.totalLiquidity == e.availableLiquidity + e.totalStableDebt + e.totalVariableDebt
    && e.totalStableDebt == before.totalStableDebt
    && e.totalVariableDebt == before.totalVariableDebt && e.scaledVariableDebt == r.scaledVariableDebt
    && (Sound(e) ==> ReadsBack(e))
    && exists without: int ::
         MixedTwice(r, u, before.totalStableDebt, debt, without, e.averageStableBorrowRate)
  }

  predicate MixedTwice(r: Reserve, u: User, total: int, debt: int, without: int, mixed: int) {
    && MixesUnits(r.averageStableBorrowRate, total, -debt, u.stableBorrowRate, without)
    && MixesUnits(without, total - debt, debt, r.stableBorrowRate, mixed)
  }

  lemma RebalancedMixesTwice(r: Reserve, u: User, t: int)
    ensures exists without: int ::
      MixedTwice(r, u, TotalStableDebtAt(r, t), UserStableDebt(u, t), without, RebalancedRate(r, u, t))
  {
    hide RebalancedAverage, MixesUnits, TotalStableDebt, UserStableDebt;
    var total, debt := TotalStableDebtAt(r, t), UserStableDebt(u, t);
    var without := RebalancedAverage(r.averageStableBorrowRate, total, -debt, u.stableBorrowRate);
    RebalancedMixes(r.averageStableBorrowRate, total, -debt, u.stableBorrowRate);
    RebalancedMixes(without, total - debt, debt, r.stableBorrowRate);
    assert MixedTwice(r, u, total, debt, without, RebalancedRate(r, u, t));
  }

  lemma RebalanceIs(s: Strategy, r: Reserve, u: User, t: int)
    requires RebalanceComputes(s, r, u, t)
    ensures Rebalanced(s, r, u, AfterRebalance(s, r, u, t), t)
  {
    var e := AfterRebalance(s, r, u, t);
    hide AfterRebalance, Priced, RayMul, LiquidityIndexAt, VariableBorrowIndexAt, TotalStableDebt, StepsTo,
      UserStableDebt, Aged, NormalizedDebt, MixedTwice, RebalancedRate, ReadsBack, SoundTotals;
    RebalanceRecord(s, r, u, t);
    DueDebts(r, t);
    DebtsAt(r, t);
    RebalancedMixesTwice(r, u, t);
    StepIs(s, r, e, t);
    SettledReadsBack(s, e);
  }

  lemma RebalanceRecord(s: Strategy, r: Reserve, u: User, t: int)
    requires RebalanceComputes(s, r, u, t)
    ensures
      var e := AfterRebalance(s, r, u, t);
      && Priced(s, e)
      && e.totalLiquidity == e.availableLiquidity + e.totalStableDebt + e.totalVariableDebt
      && e.lastUpdateTimestamp == t && e.marketStableRate == r.marketStableRate && SettlesStableDebt(e, t)
      && e.liquidityIndex == LiquidityIndexAt(r, t) && e.variableBorrowIndex == VariableBorrowIndexAt(r, t)
      && e.availableLiquidity == r.availableLiquidity
      && e.totalStableDebt == TotalStableDebtAt(r, t)
      && e.scaledVariableDebt == r.scaledVariableDebt
      && e.totalVariableDebt == RayMul(r.scaledVariableDebt, VariableBorrowIndexAt(r, t))
      && e.averageStableBorrowRate == RebalancedRate(r, u, t)
  {
    hide RayMul, UtilizationRate, InterestRates, LiquidityIndexAt, VariableBorrowIndexAt, TotalStableDebt,
      RebalancedRate;
    DebtsAt(r, t);
  }
}
