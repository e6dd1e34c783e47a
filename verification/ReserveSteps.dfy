/** The reserve record after each action. Every step is a function of the records before it.

    A step leaves a few fields to be read back from the chain before the next action. They are filled in here:
    the market's stable rate is kept, the reserve was last updated by the step, and the stable debt was last
    updated by the step if it touched that debt. */
module ReserveSteps {
  import opened FixedPoint
  import opened Interest
  import opened RateStrategy
  import opened StableAverage
  import opened Records

  const MAX_UINT_AMOUNT: int :=
    115792089237316195423570985008687907853269984665640564039457584007913129639935

  // ---------- Amounts ----------

  /** The largest amount stands for the whole balance. */
  function WithdrawnAmount(r: Reserve, u: User, amount: int, t: int): int {
    if amount == MAX_UINT_AMOUNT then ATokenBalance(r, u, t) else amount
  }

  function RepaidAmount(r: Reserve, u: User, amount: int, mode: RateMode, t: int): int {
    if Abs(amount) == MAX_UINT_AMOUNT then
      (if mode == Stable then UserStableDebt(u, t) else VariableDebtBalance(r, u, t))
    else amount
  }

  // ---------- What the market demands of each action ----------

  predicate Timely(s: Strategy, r: Reserve, t: int) {
    s.Valid() && Sound(r) && r.lastUpdateTimestamp <= t
  }

  predicate CanDeposit(s: Strategy, r: Reserve, amount: int, t: int) {
    Timely(s, r, t) && 0 <= amount
  }

  predicate CanWithdraw(s: Strategy, r: Reserve, u: User, amount: int, t: int) {
    && Timely(s, r, t) && SoundUser(u, t)
    && 0 <= WithdrawnAmount(r, u, amount, t) <= ATokenBalance(r, u, t)
    && WithdrawnAmount(r, u, amount, t) <= r.availableLiquidity
  }

  predicate CanBorrow(s: Strategy, r: Reserve, amount: int, t: int, now: int) {
    Timely(s, r, t) && t <= now && 0 <= amount <= r.availableLiquidity
  }

  predicate CanRepay(s: Strategy, r: Reserve, u: User, amount: int, mode: RateMode, t: int) {
    && Timely(s, r, t) && SoundUser(u, t)
    && 0 <= RepaidAmount(r, u, amount, mode, t)
    && (mode == Stable ==> RepaidAmount(r, u, amount, mode, t) <= UserStableDebt(u, t))
    && (mode == Variable ==> && RepaidAmount(r, u, amount, mode, t) <= VariableDebtBalance(r, u, t)
                             && u.scaledVariableDebt <= r.scaledVariableDebt)
  }

  /** What a swap needs to be computed: to variable, the user's stable debt must be part of the reserve's; to stable,
      the user must owe something, or there is no rate to compute. */
  predicate SwapComputes(s: Strategy, r: Reserve, u: User, mode: RateMode, t: int) {
    && Timely(s, r, t) && SoundUser(u, t)
    && (mode == Stable ==> UserStableDebt(u, t) <= TotalStableDebtAt(r, t))
    && (mode == Variable ==> && u.scaledVariableDebt <= r.scaledVariableDebt
                             && 0 < u.principalStableDebt + u.scaledVariableDebt)
  }

  /** A swap has no clamps: to variable, the weight of the user's stable debt must be part of the reserve's, too. */
  predicate CanSwap(s: Strategy, r: Reserve, u: User, mode: RateMode, t: int) {
    && SwapComputes(s, r, u, mode, t)
    && (mode == Stable ==>
          var total, debt := TotalStableDebtAt(r, t), UserStableDebt(u, t);
          debt < total ==> u.stableBorrowRate * debt < r.averageStableBorrowRate * total + (total - debt))
  }

  /** What a rebalancing needs to be computed. */
  predicate RebalanceComputes(s: Strategy, r: Reserve, u: User, t: int) {
    Timely(s, r, t) && SoundUser(u, t)
  }

  /** The average that a rebalancing computes mixes units, so it may turn negative, or stay without any debt. */
  predicate CanRebalance(s: Strategy, r: Reserve, u: User, t: int) {
    && RebalanceComputes(s, r, u, t)
    && 0 <= RebalancedRate(r, u, t)
    && (r.principalStableDebt == 0 ==> RebalancedRate(r, u, t) == 0)
  }

  // ---------- Parts that the steps share ----------

  /** The record at the time of the step, before anything moves. */
  function Accrued(r: Reserve, t: int): Reserve {
    r.(liquidityIndex := LiquidityIndexAt(r, t), variableBorrowIndex := VariableBorrowIndexAt(r, t),
       lastUpdateTimestamp := t)
  }

  /** Division by the total liquidity only happens when something is borrowed. */
  predicate Priceable(e: Reserve) {
    e.totalStableDebt == 0 == e.totalVariableDebt || e.totalLiquidity != 0
  }

  /** Utilisation and rates that follow from the totals of the record; nothing else changes. */
  function Repriced(s: Strategy, e: Reserve): (p: Reserve)
    requires s.Valid() && Priceable(e)
    ensures p == e.(utilizationRate := p.utilizationRate, liquidityRate := p.liquidityRate,
                    stableBorrowRate := p.stableBorrowRate, variableBorrowRate := p.variableBorrowRate)
  {
    var utilization := UtilizationRate(e.totalStableDebt, e.totalVariableDebt, e.totalLiquidity);
    var rates := InterestRates(s, e.marketStableRate, utilization, e.totalStableDebt, e.totalVariableDebt,
                               e.averageStableBorrowRate);
    e.(utilizationRate := utilization, liquidityRate := rates.liquidityRate,
       stableBorrowRate := rates.stableBorrowRate, variableBorrowRate := rates.variableBorrowRate)
  }

  /** The record whose liquidity is the sum of its parts. */
  function Balanced(e: Reserve): Reserve {
    e.(totalLiquidity := e.availableLiquidity + e.totalStableDebt + e.totalVariableDebt)
  }

  // ---------- The steps ----------

  function AfterDeposit(s: Strategy, r: Reserve, amount: int, t: int): Reserve
    requires CanDeposit(s, r, amount, t)
  {
    var e := Accrued(r, t);
    DebtsAt(r, t);
    Repriced(s, e.(totalLiquidity := r.totalLiquidity + amount,
                   availableLiquidity := r.availableLiquidity + amount,
                   totalStableDebt := TotalStableDebtAt(r, t),
                   totalVariableDebt := RayMul(r.scaledVariableDebt, e.variableBorrowIndex)))
  }

  function AfterWithdraw(s: Strategy, r: Reserve, u: User, amount: int, t: int): Reserve
    requires CanWithdraw(s, r, u, amount, t)
  {
    var e := Accrued(r, t);
    DebtsAt(r, t);
    Repriced(s, Balanced(e.(availableLiquidity := r.availableLiquidity - WithdrawnAmount(r, u, amount, t),
                            totalStableDebt := TotalStableDebtAt(r, t),
                            totalVariableDebt := RayMul(r.scaledVariableDebt, e.variableBorrowIndex))))
  }

  /** The record right after a borrow: the amount has left, and one of the two debts has grown by it. */
  function BorrowSettled(s: Strategy, r: Reserve, amount: int, mode: RateMode, t: int): Reserve
    requires CanBorrow(s, r, amount, t, t)
  {
    var e := Accrued(r, t).(availableLiquidity := r.availableLiquidity - amount);
    var index := e.variableBorrowIndex;
    DebtsAt(r, t);
    match mode
    case Stable =>
      var before := TotalStableDebtAt(r, t);
      Repriced(s, Balanced(e.(
        principalStableDebt := before + amount,
        totalStableDebt := before + amount,
        totalVariableDebt := RayMul(r.scaledVariableDebt, index),
        averageStableBorrowRate := AverageStableRate(r.averageStableBorrowRate, before, amount, r.stableBorrowRate),
        totalStableDebtLastUpdated := t)))
    case Variable =>
      var scaled := r.scaledVariableDebt + RayDiv(amount, index);
      BorrowedVariable(r, amount, t);
      Repriced(s, Balanced(e.(
        scaledVariableDebt := scaled,
        totalStableDebt := StableDebtBalance(r.principalStableDebt, r.averageStableBorrowRate,
                                             r.totalStableDebtLastUpdated, t),
        totalVariableDebt := RayMul(scaled, index))))
  }

  /** The record as it is read at a later time: debts, liquidity and utilisation move on, rates and indices do not. */
  function Aged(e: Reserve, now: int): Reserve
    requires Sound(e) && e.lastUpdateTimestamp <= now
  {
    var stable := TotalStableDebtAt(e, now);
    var variable := RayMul(e.scaledVariableDebt,
                           NormalizedDebt(e.variableBorrowRate, e.variableBorrowIndex, e.lastUpdateTimestamp, now));
    AgedDebts(e, now);
    e.(totalStableDebt := stable,
       totalVariableDebt := variable,
       totalLiquidity := e.availableLiquidity + stable + variable,
       utilizationRate := UtilizationRate(stable, variable, e.availableLiquidity + stable + variable))
  }

  function AfterBorrow(s: Strategy, r: Reserve, amount: int, mode: RateMode, t: int, now: int): Reserve
    requires CanBorrow(s, r, amount, t, now)
  {
    BorrowSettledSound(s, r, amount, mode, t);
    Aged(BorrowSettled(s, r, amount, mode, t), now)
  }

  /** Repaying may take more from the recorded total than is left, or leave a total without a rate to go with it,
      because users and reserve round separately; what is left is erased then. */
  function StableRepaid(r: Reserve, u: User, paid: int, t: int): (debtAndRate: (int, int)) {
    var before := TotalStableDebtAt(r, t);
    var rate := AverageStableRate(r.averageStableBorrowRate, before, -paid, u.stableBorrowRate);
    if before - paid < 0 || rate < 0 then (0, 0) else (before - paid, rate)
  }

  function AfterRepay(s: Strategy, r: Reserve, u: User, amount: int, mode: RateMode, t: int): Reserve
    requires CanRepay(s, r, u, amount, mode, t)
  {
    var paid := RepaidAmount(r, u, amount, mode, t);
    var e := Accrued(r, t).(availableLiquidity := r.availableLiquidity + paid);
    DebtsAt(r, t);
    match mode
    case Stable =>
      var (debt, rate) := StableRepaid(r, u, paid, t);
      Repriced(s, Balanced(e.(
        principalStableDebt := debt,
        totalStableDebt := debt,
        averageStableBorrowRate := rate,
        totalVariableDebt := RayMul(r.scaledVariableDebt, e.variableBorrowIndex),
        totalStableDebtLastUpdated := t)))
    case Variable =>
      var scaled := r.scaledVariableDebt - RayDiv(paid, e.variableBorrowIndex);
      RepaidVariable(r, u, paid, t);
      Repriced(s, Balanced(e.(
        scaledVariableDebt := scaled,
        totalVariableDebt := RayMul(scaled, e.variableBorrowIndex))))
  }

  function AfterSwap(s: Strategy, r: Reserve, u: User, mode: RateMode, t: int): Reserve
    requires SwapComputes(s, r, u, mode, t)
  {
    var e := Accrued(r, t).(totalStableDebtLastUpdated := t);
    var index := e.variableBorrowIndex;
    var stable, variable := UserStableDebt(u, t), VariableDebtBalance(r, u, t);
    var before := TotalStableDebtAt(r, t);
    DebtsAt(r, t);
    match mode
    case Stable =>
      var scaled := r.scaledVariableDebt + RayDiv(stable, index);
      SwappedToVariable(r, u, t);
      Repriced(s, Balanced(e.(
        scaledVariableDebt := scaled,
        totalVariableDebt := RayMul(scaled, index),
        principalStableDebt := before - stable,
        totalStableDebt := before - stable,
        averageStableBorrowRate := AverageStableRate(r.averageStableBorrowRate, before, -stable, u.stableBorrowRate))))
    case Variable =>
      var scaled := r.scaledVariableDebt - RayDiv(variable, index);
      RepaidAll(r, u, t);
      Repriced(s, Balanced(e.(
        scaledVariableDebt := scaled,
        totalVariableDebt := RayMul(scaled, index),
        principalStableDebt := before + variable,
        totalStableDebt := before + variable,
        averageStableBorrowRate := AverageStableRate(r.averageStableBorrowRate, r.totalStableDebt, variable,
                                                     r.stableBorrowRate))))
  }

  /** One step of the rebalanced average: the total counts in wad, the change in ray. */
  function RebalancedAverage(average: int, total: int, change: int, rate: int): int {
    var sum := total + WadToRay(change);
    if sum == 0 then 0
    else RayDiv(RayMul(average, total) + RayMul(rate, WadToRay(change)), sum)
  }

  /** The user's debt is taken out at its old rate and put back at the current one. */
  function RebalancedRate(r: Reserve, u: User, t: int): int {
    var total, debt := TotalStableDebtAt(r, t), UserStableDebt(u, t);
    RebalancedAverage(RebalancedAverage(r.averageStableBorrowRate, total, -debt, u.stableBorrowRate),
                      total - debt, debt, r.stableBorrowRate)
  }

  function AfterRebalance(s: Strategy, r: Reserve, u: User, t: int): Reserve
    requires RebalanceComputes(s, r, u, t)
  {
    var e := Accrued(r, t);
    DebtsAt(r, t);
    Repriced(s, Balanced(e.(
      totalVariableDebt := RayMul(r.scaledVariableDebt, e.variableBorrowIndex),
      principalStableDebt := TotalStableDebtAt(r, t),
      totalStableDebt := TotalStableDebtAt(r, t),
      totalStableDebtLastUpdated := t,
      averageStableBorrowRate := RebalancedRate(r, u, t))))
  }

  // ---------- Debts at the time of a step ----------

  /** The current amount behind a scaled debt covers it, and vanishes only with it. */
  lemma ScaledCovers(scaled: int, index: int)
    requires 0 <= scaled && RAY <= index
    ensures scaled <= RayMul(scaled, index)
    ensures scaled == 0 ==> RayMul(scaled, index) == 0
  {
    GrowsBy(index, scaled);
  }

  lemma DebtsAt(r: Reserve, t: int)
    requires Sound(r) && r.lastUpdateTimestamp <= t
    ensures RAY <= LiquidityIndexAt(r, t) && RAY <= VariableBorrowIndexAt(r, t)
    ensures r.principalStableDebt <= TotalStableDebtAt(r, t)
    ensures r.principalStableDebt == 0 ==> TotalStableDebtAt(r, t) == 0
    ensures r.scaledVariableDebt <= RayMul(r.scaledVariableDebt, VariableBorrowIndexAt(r, t))
    ensures r.scaledVariableDebt == 0 ==> RayMul(r.scaledVariableDebt, VariableBorrowIndexAt(r, t)) == 0
  {
    IndicesAccrue(r, t);
    StableDebtGrows(r.principalStableDebt, r.averageStableBorrowRate, r.totalStableDebtLastUpdated, t, t);
    ScaledCovers(r.scaledVariableDebt, VariableBorrowIndexAt(r, t));
  }

  lemma BorrowedVariable(r: Reserve, amount: int, t: int)
    requires Sound(r) && r.lastUpdateTimestamp <= t && 0 <= amount
    ensures RAY <= VariableBorrowIndexAt(r, t)
    ensures
      var index := VariableBorrowIndexAt(r, t);
      var scaled := r.scaledVariableDebt + RayDiv(amount, index);
      && 0 <= RayDiv(amount, index)
      && scaled <= RayMul(scaled, index) && (scaled == 0 ==> RayMul(scaled, index) == 0)
    ensures
      var stable := StableDebtBalance(r.principalStableDebt, r.averageStableBorrowRate,
                                      r.totalStableDebtLastUpdated, t);
      r.principalStableDebt <= stable <= TotalStableDebtAt(r, t)
  {
    hide RayMul, RayDiv, VariableBorrowIndexAt, LiquidityIndexAt, StableDebtBalance, TotalStableDebt,
      VariableDebtBalance;
    var index := VariableBorrowIndexAt(r, t);
    IndicesAccrue(r, t);
    RayDivRounds(amount, index);
    ScaledCovers(r.scaledVariableDebt + RayDiv(amount, index), index);
    StableDebtGrows(r.principalStableDebt, r.averageStableBorrowRate, r.totalStableDebtLastUpdated, t, t);
  }

  /** Repaying at most the user's debt removes at most the user's scaled debt. */
  lemma RepaidVariable(r: Reserve, u: User, paid: int, t: int)
    requires Sound(r) && r.lastUpdateTimestamp <= t
    requires 0 <= u.scaledVariableDebt <= r.scaledVariableDebt && 0 <= paid <= VariableDebtBalance(r, u, t)
    ensures RAY <= VariableBorrowIndexAt(r, t)
    ensures
      var index := VariableBorrowIndexAt(r, t);
      var scaled := r.scaledVariableDebt - RayDiv(paid, index);
      && 0 <= RayDiv(paid, index) <= u.scaledVariableDebt
      && scaled <= RayMul(scaled, index) && (scaled == 0 ==> RayMul(scaled, index) == 0)
  {
    hide RayMul, RayDiv, VariableBorrowIndexAt, LiquidityIndexAt, StableDebtBalance, TotalStableDebt,
      VariableDebtBalance;
    var index := VariableBorrowIndexAt(r, t);
    IndicesAccrue(r, t);
    DebtRoutesAgree(r, u, t);
    NoOverdraw(paid, u.scaledVariableDebt, index);
    ScaledCovers(r.scaledVariableDebt - RayDiv(paid, index), index);
  }

  /** Repaying everything removes exactly the user's scaled debt. */
  lemma RepaidAll(r: Reserve, u: User, t: int)
    requires Sound(r) && r.lastUpdateTimestamp <= t
    requires 0 <= u.scaledVariableDebt <= r.scaledVariableDebt
    ensures RAY <= VariableBorrowIndexAt(r, t)
    ensures 0 <= VariableDebtBalance(r, u, t)
    ensures
      var index := VariableBorrowIndexAt(r, t);
      var scaled := r.scaledVariableDebt - RayDiv(VariableDebtBalance(r, u, t), index);
      && RayDiv(VariableDebtBalance(r, u, t), index) == u.scaledVariableDebt
      && scaled <= RayMul(scaled, index) && (scaled == 0 ==> RayMul(scaled, index) == 0)
  {
    hide RayMul, RayDiv, VariableBorrowIndexAt, LiquidityIndexAt, StableDebtBalance, TotalStableDebt,
      VariableDebtBalance;
    var index := VariableBorrowIndexAt(r, t);
    IndicesAccrue(r, t);
    DebtRoutesAgree(r, u, t);
    RayMulRounds(u.scaledVariableDebt, index);
    NoDust(u.scaledVariableDebt, index);
    ScaledCovers(r.scaledVariableDebt - u.scaledVariableDebt, index);
  }

  lemma SwappedToVariable(r: Reserve, u: User, t: int)
    requires Sound(r) && r.lastUpdateTimestamp <= t && SoundUser(u, t)
    ensures RAY <= VariableBorrowIndexAt(r, t)
    ensures 0 <= UserStableDebt(u, t)
    ensures
      var index := VariableBorrowIndexAt(r, t);
      var scaled := r.scaledVariableDebt + RayDiv(UserStableDebt(u, t), index);
      && 0 <= RayDiv(UserStableDebt(u, t), index)
      && scaled <= RayMul(scaled, index) && (scaled == 0 ==> RayMul(scaled, index) == 0)
  {
    hide RayMul, RayDiv, VariableBorrowIndexAt, LiquidityIndexAt, StableDebtBalance, TotalStableDebt,
      VariableDebtBalance;
    StableDebtGrows(u.principalStableDebt, u.stableBorrowRate, u.stableRateLastUpdated, t, t);
    BorrowedVariable(r, UserStableDebt(u, t), t);
  }

  /** A user who owes anything owes something at the time of the swap. */
  lemma SwapHasDebt(s: Strategy, r: Reserve, u: User, mode: RateMode, t: int)
    requires SwapComputes(s, r, u, mode, t)
    ensures mode == Variable ==> 0 < UserStableDebt(u, t) + VariableDebtBalance(r, u, t)
  {
    if mode == Variable {
      hide RayMul, VariableBorrowIndexAt, StableDebtBalance, VariableDebtBalance;
      StableDebtGrows(u.principalStableDebt, u.stableBorrowRate, u.stableRateLastUpdated, t, t);
      IndicesAccrue(r, t);
      DebtRoutesAgree(r, u, t);
      ScaledCovers(u.scaledVariableDebt, VariableBorrowIndexAt(r, t));
    }
  }

  lemma AgedDebts(e: Reserve, now: int)
    requires Sound(e) && e.lastUpdateTimestamp <= now
    ensures
      var stable := TotalStableDebtAt(e, now);
      var index := NormalizedDebt(e.variableBorrowRate, e.variableBorrowIndex, e.lastUpdateTimestamp, now);
      var variable := RayMul(e.scaledVariableDebt, index);
      && e.principalStableDebt <= stable && (e.principalStableDebt == 0 ==> stable == 0)
      && e.scaledVariableDebt <= variable && (e.scaledVariableDebt == 0 ==> variable == 0)
      && e.variableBorrowIndex <= index
  {
    var factor := CompoundedInterest(e.variableBorrowRate, now, e.lastUpdateTimestamp);
    StableDebtGrows(e.principalStableDebt, e.averageStableBorrowRate, e.totalStableDebtLastUpdated, now, now);
    CompoundedAtLeastRay(e.variableBorrowRate, now, e.lastUpdateTimestamp);
    GrowsBy(factor, e.variableBorrowIndex);
    ScaledCovers(e.scaledVariableDebt,
                 NormalizedDebt(e.variableBorrowRate, e.variableBorrowIndex, e.lastUpdateTimestamp, now));
  }

  // ---------- Every step keeps the reserve sound ----------

  /** Sound totals are all that a record needs before its rates are set. */
  lemma RepricedSound(s: Strategy, e: Reserve)
    requires s.Valid() && SoundTotals(e)
    ensures Priceable(e) && Sound(Repriced(s, e))
  {
    var utilization := UtilizationRate(e.totalStableDebt, e.totalVariableDebt, e.totalLiquidity);
    if !(e.totalStableDebt == 0 == e.totalVariableDebt) {
      RayDivRounds(e.totalStableDebt + e.totalVariableDebt, e.totalLiquidity);
    }
    RatesNonNegative(s, e.marketStableRate, utilization, e.totalStableDebt, e.totalVariableDebt,
                     e.averageStableBorrowRate);
  }

  lemma DepositSound(s: Strategy, r: Reserve, amount: int, t: int)
    requires CanDeposit(s, r, amount, t)
    ensures Sound(AfterDeposit(s, r, amount, t))
  {
    hide Repriced, RayMul, LiquidityIndexAt, VariableBorrowIndexAt, TotalStableDebtAt;
    var e := Accrued(r, t);
    DebtsAt(r, t);
    RepricedSound(s, e.(totalLiquidity := r.totalLiquidity + amount,
                        availableLiquidity := r.availableLiquidity + amount,
                        totalStableDebt := TotalStableDebtAt(r, t),
                        totalVariableDebt := RayMul(r.scaledVariableDebt, e.variableBorrowIndex)));
  }

  lemma WithdrawSound(s: Strategy, r: Reserve, u: User, amount: int, t: int)
    requires CanWithdraw(s, r, u, amount, t)
    ensures Sound(AfterWithdraw(s, r, u, amount, t))
  {
    hide Repriced, RayMul, LiquidityIndexAt, VariableBorrowIndexAt, TotalStableDebtAt, WithdrawnAmount, ATokenBalance;
    var e := Accrued(r, t);
    DebtsAt(r, t);
    RepricedSound(s, Balanced(e.(availableLiquidity := r.availableLiquidity - WithdrawnAmount(r, u, amount, t),
                                 totalStableDebt := TotalStableDebtAt(r, t),
                                 totalVariableDebt := RayMul(r.scaledVariableDebt, e.variableBorrowIndex))));
  }

  lemma BorrowSettledSound(s: Strategy, r: Reserve, amount: int, mode: RateMode, t: int)
    requires CanBorrow(s, r, amount, t, t)
    ensures Sound(BorrowSettled(s, r, amount, mode, t))
  {
    hide Repriced, RayMul, RayDiv, LiquidityIndexAt, VariableBorrowIndexAt, TotalStableDebtAt, AverageStableRate,
      StableDebtBalance;
    var e := Accrued(r, t).(availableLiquidity := r.availableLiquidity - amount);
    var index, before := e.variableBorrowIndex, TotalStableDebtAt(r, t);
    DebtsAt(r, t);
    if mode == Stable {
      AddedRate(r.averageStableBorrowRate, before, amount, r.stableBorrowRate);
      RepricedSound(s, Balanced(e.(
        principalStableDebt := before + amount,
        totalStableDebt := before + amount,
        totalVariableDebt := RayMul(r.scaledVariableDebt, index),
        averageStableBorrowRate := AverageStableRate(r.averageStableBorrowRate, before, amount, r.stableBorrowRate),
        totalStableDebtLastUpdated := t)));
    } else {
      var scaled := r.scaledVariableDebt + RayDiv(amount, index);
      BorrowedVariable(r, amount, t);
      RepricedSound(s, Balanced(e.(
        scaledVariableDebt := scaled,
        totalStableDebt := StableDebtBalance(r.principalStableDebt, r.averageStableBorrowRate,
                                             r.totalStableDebtLastUpdated, t),
        totalVariableDebt := RayMul(scaled, index))));
    }
  }

  lemma AddedRate(average: int, total: int, amount: int, rate: int)
    requires 0 <= average && 0 <= total && 0 <= amount && 0 <= rate
    ensures 0 <= AverageStableRate(average, total, amount, rate)
    ensures total + amount == 0 ==> AverageStableRate(average, total, amount, rate) == 0
  {
    if 0 < total + amount {
      AddedWeight(average, total, amount, rate);
    }
  }

  /** Suppliers earn nothing if the debts at the time of the last update amount to no utilisation. */
  predicate Readable(e: Reserve) {
    ReadUtilizationRate(e.availableLiquidity, TotalStableDebtAt(e, e.lastUpdateTimestamp),
                        RayMul(e.scaledVariableDebt, e.variableBorrowIndex)) == 0
    ==> e.liquidityRate == 0
  }

  /** Reading a readable record later leaves it sound: the debts have grown, and so has the utilisation. */
  lemma AgedSound(e: Reserve, now: int)
    requires Sound(e) && e.lastUpdateTimestamp <= now && Readable(e)
    ensures Sound(Aged(e, now)) && Readable(Aged(e, now))
  {
    hide RayMul, TotalStableDebt, NormalizedDebt, ReadUtilizationRate, UtilizationRate;
    var t := e.lastUpdateTimestamp;
    var index := NormalizedDebt(e.variableBorrowRate, e.variableBorrowIndex, t, now);
    var stable, variable := TotalStableDebtAt(e, now), RayMul(e.scaledVariableDebt, index);
    AgedDebts(e, now);
    RayMulRounds(e.scaledVariableDebt, e.variableBorrowIndex);
    RayMulMono(e.scaledVariableDebt, e.scaledVariableDebt, e.variableBorrowIndex, index);
    StableDebtGrows(e.principalStableDebt, e.averageStableBorrowRate, e.totalStableDebtLastUpdated, t, now);
    UtilizationDefinitionsAgree(e.availableLiquidity, stable, variable);
    UtilizationMono(e.availableLiquidity, TotalStableDebtAt(e, t), RayMul(e.scaledVariableDebt, e.variableBorrowIndex),
                    e.availableLiquidity, stable, variable);
  }

  /** Read at once, a sound record stays sound exactly if suppliers earn nothing, or the debts at its own time are at
      least half a ray's share of the liquidity, so that the utilisation does not round to zero. */
  lemma ReadSoundIff(e: Reserve)
    requires Sound(e)
    ensures Sound(Aged(e, e.lastUpdateTimestamp)) <==> Readable(e)
    ensures
      var debts := TotalStableDebtAt(e, e.lastUpdateTimestamp) + RayMul(e.scaledVariableDebt, e.variableBorrowIndex);
      Readable(e) <==> e.liquidityRate == 0 || 0 < e.availableLiquidity + debts <= 2 * RAY * debts
  {
    hide RayMul, TotalStableDebt, ReadUtilizationRate, UtilizationRate;
    AgedDebts(e, e.lastUpdateTimestamp);
    NormalizedAtOnce(e);
    UtilizationDefinitionsAgree(e.availableLiquidity, TotalStableDebtAt(e, e.lastUpdateTimestamp),
                                RayMul(e.scaledVariableDebt, e.variableBorrowIndex));
    UtilizationRange(e.availableLiquidity, TotalStableDebtAt(e, e.lastUpdateTimestamp),
                     RayMul(e.scaledVariableDebt, e.variableBorrowIndex));
    UtilizationZeroIff(e.availableLiquidity, TotalStableDebtAt(e, e.lastUpdateTimestamp),
                       RayMul(e.scaledVariableDebt, e.variableBorrowIndex));
  }

  lemma NormalizedAtOnce(e: Reserve)
    requires Sound(e)
    ensures NormalizedDebt(e.variableBorrowRate, e.variableBorrowIndex, e.lastUpdateTimestamp, e.lastUpdateTimestamp)
         == e.variableBorrowIndex
  {
    NothingAccrues(e.variableBorrowRate, e.lastUpdateTimestamp, e.lastUpdateTimestamp);
    GrowsBy(RAY, e.variableBorrowIndex);
  }

  /** A record is readable whose utilisation was computed from the sum of its parts and from debts that are at most
      those of the time of its last update. */
  lemma PricedReadable(e: Reserve)
    requires Sound(e)
    requires e.totalStableDebt <= TotalStableDebtAt(e, e.lastUpdateTimestamp)
    requires e.totalVariableDebt <= RayMul(e.scaledVariableDebt, e.variableBorrowIndex)
    requires e.utilizationRate == ReadUtilizationRate(e.availableLiquidity, e.totalStableDebt, e.totalVariableDebt)
    ensures Readable(e)
  {
    hide RayMul, TotalStableDebtAt, ReadUtilizationRate;
    UtilizationMono(e.availableLiquidity, e.totalStableDebt, e.totalVariableDebt,
                    e.availableLiquidity, TotalStableDebtAt(e, e.lastUpdateTimestamp),
                    RayMul(e.scaledVariableDebt, e.variableBorrowIndex));
  }

  lemma BorrowSound(s: Strategy, r: Reserve, amount: int, mode: RateMode, t: int, now: int)
    requires CanBorrow(s, r, amount, t, now)
    ensures Sound(AfterBorrow(s, r, amount, mode, t, now)) && Readable(AfterBorrow(s, r, amount, mode, t, now))
  {
    var e := BorrowSettled(s, r, amount, mode, t);
    BorrowSettledSound(s, r, amount, mode, t);
    BorrowSettledTotals(s, r, amount, mode, t, t);
    hide BorrowSettled, RayMul, TotalStableDebtAt, ReadUtilizationRate, Aged, Readable;
    PricedReadable(e);
    AgedSound(e, now);
  }

  /** Right after a borrow the debts are at most what they are read as later, and the utilisation is theirs. */
  lemma BorrowSettledTotals(s: Strategy, r: Reserve, amount: int, mode: RateMode, t: int, now: int)
    requires CanBorrow(s, r, amount, t, now)
    ensures
      var e := BorrowSettled(s, r, amount, mode, t);
      && e.lastUpdateTimestamp == t
      && e.totalStableDebt <= TotalStableDebtAt(e, now)
      && e.totalVariableDebt == RayMul(e.scaledVariableDebt, e.variableBorrowIndex)
      && e.utilizationRate == ReadUtilizationRate(e.availableLiquidity, e.totalStableDebt, e.totalVariableDebt)
  {
    hide RayMul, RayDiv, VariableBorrowIndexAt, LiquidityIndexAt, StableDebtBalance, TotalStableDebt, UtilizationRate,
      ReadUtilizationRate, InterestRates, AverageStableRate;
    var e := BorrowSettled(s, r, amount, mode, t);
    BorrowSettledSound(s, r, amount, mode, t);
    UtilizationDefinitionsAgree(e.availableLiquidity, e.totalStableDebt, e.totalVariableDebt);
    StableDebtGrows(r.principalStableDebt, r.averageStableBorrowRate, r.totalStableDebtLastUpdated, t, now);
    StableDebtGrows(e.principalStableDebt, e.averageStableBorrowRate, t, t, now);
  }

  /** The clamps of a stable repayment: nothing negative is left, and no rate without debt. */
  lemma StableRepaidSound(r: Reserve, u: User, paid: int, t: int)
    ensures var (debt, rate) := StableRepaid(r, u, paid, t);
      0 <= debt && 0 <= rate && (debt == 0 ==> rate == 0)
  {
  }

  lemma RepaySound(s: Strategy, r: Reserve, u: User, amount: int, mode: RateMode, t: int)
    requires CanRepay(s, r, u, amount, mode, t)
    ensures Sound(AfterRepay(s, r, u, amount, mode, t))
  {
    var paid := RepaidAmount(r, u, amount, mode, t);
    var e := Accrued(r, t).(availableLiquidity := r.availableLiquidity + paid);
    hide Repriced, RayMul, LiquidityIndexAt, VariableBorrowIndexAt, TotalStableDebtAt, StableRepaid, RayDiv,
      RepaidAmount, UserStableDebt, VariableDebtBalance;
    DebtsAt(r, t);
    if mode == Stable {
      var (debt, rate) := StableRepaid(r, u, paid, t);
      StableRepaidSound(r, u, paid, t);
      RepricedSound(s, Balanced(e.(
        principalStableDebt := debt,
        totalStableDebt := debt,
        averageStableBorrowRate := rate,
        totalVariableDebt := RayMul(r.scaledVariableDebt, e.variableBorrowIndex),
        totalStableDebtLastUpdated := t)));
    } else {
      var scaled := r.scaledVariableDebt - RayDiv(paid, e.variableBorrowIndex);
      RepaidVariable(r, u, paid, t);
      RepricedSound(s, Balanced(e.(
        scaledVariableDebt := scaled,
        totalVariableDebt := RayMul(scaled, e.variableBorrowIndex))));
    }
  }

  /** A swap keeps the reserve sound exactly if its demands are met. */
  lemma SwapSoundIff(s: Strategy, r: Reserve, u: User, mode: RateMode, t: int)
    requires SwapComputes(s, r, u, mode, t)
    ensures Sound(AfterSwap(s, r, u, mode, t)) <==> CanSwap(s, r, u, mode, t)
  {
    hide Repriced, RayMul, RayDiv, LiquidityIndexAt, VariableBorrowIndexAt, TotalStableDebtAt, AverageStableRate,
      UserStableDebt, VariableDebtBalance;
    var e := Accrued(r, t).(totalStableDebtLastUpdated := t);
    var index, before := e.variableBorrowIndex, TotalStableDebtAt(r, t);
    DebtsAt(r, t);
    if mode == Stable {
      var debt := UserStableDebt(u, t);
      SwappedToVariable(r, u, t);
      SwapRate(r, u, t);
      if CanSwap(s, r, u, mode, t) {
        var scaled := r.scaledVariableDebt + RayDiv(debt, index);
        RepricedSound(s, Balanced(e.(
          scaledVariableDebt := scaled,
          totalVariableDebt := RayMul(scaled, index),
          principalStableDebt := before - debt,
          totalStableDebt := before - debt,
          averageStableBorrowRate := AverageStableRate(r.averageStableBorrowRate, before, -debt, u.stableBorrowRate))));
      }
    } else {
      var debt := VariableDebtBalance(r, u, t);
      RepaidAll(r, u, t);
      AddedRate(r.averageStableBorrowRate, r.totalStableDebt, debt, r.stableBorrowRate);
      var scaled := r.scaledVariableDebt - RayDiv(debt, index);
      RepricedSound(s, Balanced(e.(
        scaledVariableDebt := scaled,
        totalVariableDebt := RayMul(scaled, index),
        principalStableDebt := before + debt,
        totalStableDebt := before + debt,
        averageStableBorrowRate := AverageStableRate(r.averageStableBorrowRate, r.totalStableDebt, debt,
                                                     r.stableBorrowRate))));
    }
  }

  /** A rebalancing keeps the reserve sound exactly if its average is not negative, and zero without debt. */
  lemma RebalanceSoundIff(s: Strategy, r: Reserve, u: User, t: int)
    requires RebalanceComputes(s, r, u, t)
    ensures Sound(AfterRebalance(s, r, u, t)) <==> CanRebalance(s, r, u, t)
  {
    hide Repriced, RayMul, LiquidityIndexAt, VariableBorrowIndexAt, TotalStableDebtAt, RebalancedRate;
    var e := Accrued(r, t);
    DebtsAt(r, t);
    if CanRebalance(s, r, u, t) {
      RepricedSound(s, Balanced(e.(
        totalVariableDebt := RayMul(r.scaledVariableDebt, e.variableBorrowIndex),
        principalStableDebt := TotalStableDebtAt(r, t),
        totalStableDebt := TotalStableDebtAt(r, t),
        totalStableDebtLastUpdated := t,
        averageStableBorrowRate := RebalancedRate(r, u, t))));
    }
  }

  /** The average rate that a swap to variable leaves. */
  function SwappedRate(r: Reserve, u: User, t: int): int {
    AverageStableRate(r.averageStableBorrowRate, TotalStableDebtAt(r, t), -UserStableDebt(u, t), u.stableBorrowRate)
  }

  lemma SwapLeavesRate(s: Strategy, r: Reserve, u: User, t: int)
    requires SwapComputes(s, r, u, Stable, t)
    ensures
      var e := AfterSwap(s, r, u, Stable, t);
      && e.averageStableBorrowRate == SwappedRate(r, u, t)
      && e.principalStableDebt == TotalStableDebtAt(r, t) - UserStableDebt(u, t)
      && e.totalStableDebtLastUpdated == t == e.lastUpdateTimestamp
  {
    hide RayMul, RayDiv, LiquidityIndexAt, VariableBorrowIndexAt, TotalStableDebtAt, AverageStableRate,
      UserStableDebt, VariableDebtBalance, UtilizationRate, InterestRates;
  }

  /** A swap to variable that leaves some stable debt has a negative average rate exactly when the weight of the
      swapped debt exceeds the weight of the total by at least what is left. */
  lemma SwapRateNegativeIff(r: Reserve, u: User, t: int)
    requires 0 <= UserStableDebt(u, t) < TotalStableDebtAt(r, t)
    ensures
      var total, debt := TotalStableDebtAt(r, t), UserStableDebt(u, t);
      SwappedRate(r, u, t) < 0
      <==> r.averageStableBorrowRate * total + (total - debt) <= u.stableBorrowRate * debt
  {
    RemovedWeight(r.averageStableBorrowRate, TotalStableDebtAt(r, t), UserStableDebt(u, t), u.stableBorrowRate);
  }

  /** A concrete reserve and user, both sound, whose swap would leave a negative average rate: five of ten units owed
      at a rate of three, while the reserve has recorded an average of zero. */
  lemma SwapRateCanBeNegative()
    ensures
      var r := Reserve(10, 0, 10, 0, 10, 0, 0, 0, 0, 0, RAY, RAY, RAY, 0, 1, 1);
      var u := User(0, 0, 5, 0, 5, 0, 0, 3, 1, false, 0);
      Sound(r) && SoundUser(u, 1) && SwappedRate(r, u, 1) == -3
  {
    RayMulUnit(10);
  }

  lemma SwapRate(r: Reserve, u: User, t: int)
    requires Sound(r) && SoundUser(u, t) && 0 <= UserStableDebt(u, t) <= TotalStableDebtAt(r, t)
    ensures
      var total, debt := TotalStableDebtAt(r, t), UserStableDebt(u, t);
      0 <= SwappedRate(r, u, t)
      <==> (debt < total ==> u.stableBorrowRate * debt < r.averageStableBorrowRate * total + (total - debt))
    ensures UserStableDebt(u, t) == TotalStableDebtAt(r, t) ==> SwappedRate(r, u, t) == 0
  {
    if UserStableDebt(u, t) < TotalStableDebtAt(r, t) {
      SwapRateNegativeIff(r, u, t);
    }
  }
}
