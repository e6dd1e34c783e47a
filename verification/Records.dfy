/** The records of one reserve and of one user in it, and the balances derived from them. */
module Records {
  import opened FixedPoint
  import opened Interest

  datatype Reserve = Reserve(
    totalLiquidity: int,
    availableLiquidity: int,
    totalStableDebt: int,
    totalVariableDebt: int,
    principalStableDebt: int,
    scaledVariableDebt: int,
    averageStableBorrowRate: int,
    variableBorrowRate: int,
    stableBorrowRate: int,
    liquidityRate: int,
    utilizationRate: int,
    liquidityIndex: int,
    variableBorrowIndex: int,
    marketStableRate: int,
    lastUpdateTimestamp: int,
    totalStableDebtLastUpdated: int)

  datatype User = User(
    scaledATokenBalance: int,
    currentATokenBalance: int,
    currentStableDebt: int,
    currentVariableDebt: int,
    principalStableDebt: int,
    scaledVariableDebt: int,
    liquidityRate: int,
    stableBorrowRate: int,
    stableRateLastUpdated: int,
    usageAsCollateralEnabled: bool,
    walletBalance: int)

  datatype RateMode = Stable | Variable

  // ---------- Indices and balances ----------

  function LiquidityIndexAt(r: Reserve, t: int): int {
    if r.utilizationRate == 0 then r.liquidityIndex
    else RayMul(LinearInterest(r.liquidityRate, t, r.lastUpdateTimestamp), r.liquidityIndex)
  }

  function VariableBorrowIndexAt(r: Reserve, t: int): int {
    if r.totalVariableDebt == 0 then r.variableBorrowIndex
    else RayMul(CompoundedInterest(r.variableBorrowRate, t, r.lastUpdateTimestamp), r.variableBorrowIndex)
  }

  function NormalizedIncome(r: Reserve, t: int): int {
    if r.liquidityRate == 0 then r.liquidityIndex
    else RayMul(LinearInterest(r.liquidityRate, t, r.lastUpdateTimestamp), r.liquidityIndex)
  }

  function NormalizedDebt(rate: int, index: int, last: int, now: int): int {
    if rate == 0 then index
    else RayMul(CompoundedInterest(rate, now, last), index)
  }

  function ATokenBalance(r: Reserve, u: User, t: int): int {
    RayMul(u.scaledATokenBalance, NormalizedIncome(r, t))
  }

  function VariableDebtBalance(r: Reserve, u: User, t: int): int {
    RayMul(u.scaledVariableDebt, NormalizedDebt(r.variableBorrowRate, r.variableBorrowIndex, r.lastUpdateTimestamp, t))
  }

  function StableDebtBalance(principal: int, rate: int, last: int, now: int): int {
    if rate == 0 || now == last || last == 0 then principal
    else RayMul(principal, CompoundedInterest(rate, now, last))
  }

  function UserStableDebt(u: User, t: int): int {
    StableDebtBalance(u.principalStableDebt, u.stableBorrowRate, u.stableRateLastUpdated, t)
  }

  function TotalStableDebt(principal: int, average: int, last: int, now: int): int {
    RayMul(CompoundedInterest(average, now, last), principal)
  }

  function TotalStableDebtAt(r: Reserve, t: int): int {
    TotalStableDebt(r.principalStableDebt, r.averageStableBorrowRate, r.totalStableDebtLastUpdated, t)
  }

  // ---------- What every reachable reserve satisfies ----------

  /** Indices of at least one ray, nothing negative, and current debts and liquidity that cover the principal and
      scaled ones. */
  predicate SoundTotals(r: Reserve) {
    && RAY <= r.liquidityIndex && RAY <= r.variableBorrowIndex
    && 0 <= r.availableLiquidity
    && 0 <= r.principalStableDebt <= r.totalStableDebt
    && 0 <= r.scaledVariableDebt <= r.totalVariableDebt
    && (r.principalStableDebt == 0 ==> r.totalStableDebt == 0 == r.averageStableBorrowRate)
    && (r.scaledVariableDebt == 0 ==> r.totalVariableDebt == 0)
    && r.availableLiquidity + r.principalStableDebt + r.scaledVariableDebt <= r.totalLiquidity
    && 0 <= r.averageStableBorrowRate && 0 <= r.marketStableRate
    && r.totalStableDebtLastUpdated <= r.lastUpdateTimestamp
  }

  /** Sound totals, non-negative rates, and no supplier income without utilisation. */
  predicate Sound(r: Reserve) {
    && SoundTotals(r)
    && 0 <= r.variableBorrowRate && 0 <= r.stableBorrowRate && 0 <= r.liquidityRate && 0 <= r.utilizationRate
    && (r.utilizationRate == 0 ==> r.liquidityRate == 0)
  }

  /** A user record without negative entries, not newer than time t. */
  predicate SoundUser(u: User, t: int) {
    && 0 <= u.scaledATokenBalance && 0 <= u.currentATokenBalance
    && 0 <= u.currentStableDebt && 0 <= u.currentVariableDebt
    && 0 <= u.principalStableDebt && 0 <= u.scaledVariableDebt
    && 0 <= u.stableBorrowRate && u.stableRateLastUpdated <= t
  }

  // ---------- Accrual ----------

  /** Neither index ever falls; and at the time of the last update both are what they are. */
  lemma IndicesAccrue(r: Reserve, t: int)
    requires Sound(r) && r.lastUpdateTimestamp <= t
    ensures r.liquidityIndex <= LiquidityIndexAt(r, t) && r.variableBorrowIndex <= VariableBorrowIndexAt(r, t)
    ensures t == r.lastUpdateTimestamp ==> LiquidityIndexAt(r, t) == r.liquidityIndex
    ensures t == r.lastUpdateTimestamp ==> VariableBorrowIndexAt(r, t) == r.variableBorrowIndex
  {
    hide RayMul, LinearInterest, CompoundedInterest;
    LinearAtLeastRay(r.liquidityRate, t, r.lastUpdateTimestamp);
    CompoundedAtLeastRay(r.variableBorrowRate, t, r.lastUpdateTimestamp);
    GrowsBy(LinearInterest(r.liquidityRate, t, r.lastUpdateTimestamp), r.liquidityIndex);
    GrowsBy(CompoundedInterest(r.variableBorrowRate, t, r.lastUpdateTimestamp), r.variableBorrowIndex);
    if t == r.lastUpdateTimestamp {
      NothingAccrues(r.liquidityRate, t, t);
      NothingAccrues(r.variableBorrowRate, t, t);
    }
  }

  lemma GrowsBy(factor: int, amount: int)
    requires RAY <= factor && 0 <= amount
    ensures amount <= RayMul(factor, amount) == RayMul(amount, factor)
    ensures factor == RAY ==> RayMul(factor, amount) == amount
    ensures amount == 0 ==> RayMul(factor, amount) == 0
    ensures RAY < factor && RAY <= amount ==> amount < RayMul(factor, amount)
  {
    RayMulScales(amount, factor);
    RayMulUnit(factor);
    RayMulUnit(amount);
    assert factor * amount == amount * factor;
    if RAY < factor && RAY <= amount {
      RayMulRounds(amount, factor);
      MulMono(RAY + 1, factor, amount);
      Distribute(amount, RAY, 1);
    }
  }

  /** The debt of all stable borrowers, and of one, never falls below its principal and grows with time. */
  lemma StableDebtGrows(principal: int, rate: int, last: int, now: int, later: int)
    requires 0 <= principal && 0 <= rate && last <= now <= later
    ensures principal <= TotalStableDebt(principal, rate, last, now) <= TotalStableDebt(principal, rate, last, later)
    ensures principal <= StableDebtBalance(principal, rate, last, now) <= TotalStableDebt(principal, rate, last, now)
    ensures principal == 0 ==> TotalStableDebt(principal, rate, last, later) == 0
    ensures now == last ==> TotalStableDebt(principal, rate, last, now) == principal
  {
    hide RayMul, CompoundedInterest;
    CompoundedShift(rate, now, last);
    CompoundedShift(rate, later, last);
    CompoundedMono(rate, now - last, rate, later - last);
    GrowsBy(CompoundedInterest(rate, now, last), principal);
    GrowsBy(CompoundedInterest(rate, later, last), principal);
    RayMulMono(CompoundedInterest(rate, now, last), CompoundedInterest(rate, later, last), principal, principal);
    NothingAccrues(rate, last, last);
  }

  // ---------- The two routes to each index ----------

  /** The index of the reserve, guarded by its utilisation, is the index behind every supplier balance, guarded
      by the liquidity rate, exactly unless an unused reserve has earned at least one unit of income. */
  lemma IncomeRoutesAgreeIff(r: Reserve, t: int)
    requires RAY <= r.liquidityIndex && 0 <= r.liquidityRate && r.lastUpdateTimestamp <= t
    ensures LiquidityIndexAt(r, t) == NormalizedIncome(r, t)
       <==> !(r.utilizationRate == 0 && ONE_YEAR <= r.liquidityRate * (t - r.lastUpdateTimestamp))
  {
    var factor := LinearInterest(r.liquidityRate, t, r.lastUpdateTimestamp);
    LinearAtLeastRay(r.liquidityRate, t, r.lastUpdateTimestamp);
    assert RAY <= factor && (RAY < factor <==> ONE_YEAR <= r.liquidityRate * (t - r.lastUpdateTimestamp));
    GrowsBy(factor, r.liquidityIndex);
  }

  /** On a sound reserve both routes to the supplier index agree. */
  lemma IncomeRoutesAgree(r: Reserve, t: int)
    requires Sound(r) && r.lastUpdateTimestamp <= t
    ensures NormalizedIncome(r, t) == LiquidityIndexAt(r, t)
  {
    IncomeRoutesAgreeIff(r, t);
  }

  /** On a sound reserve the debt of a user is the same from the normalised debt and from the new index of the
      reserve, whenever the user's scaled debt is part of the reserve's. */
  lemma DebtRoutesAgree(r: Reserve, u: User, t: int)
    requires Sound(r) && r.lastUpdateTimestamp <= t
    requires 0 <= u.scaledVariableDebt <= r.scaledVariableDebt
    ensures VariableDebtBalance(r, u, t) == RayMul(u.scaledVariableDebt, VariableBorrowIndexAt(r, t))
  {
    var factor := CompoundedInterest(r.variableBorrowRate, t, r.lastUpdateTimestamp);
    hide RayMul, CompoundedInterest;
    if r.totalVariableDebt == 0 {
      assert u.scaledVariableDebt == 0;
      CompoundedAtLeastRay(r.variableBorrowRate, t, r.lastUpdateTimestamp);
      GrowsBy(factor, r.variableBorrowIndex);
      RayMulUnit(RayMul(factor, r.variableBorrowIndex));
      RayMulUnit(r.variableBorrowIndex);
    } else if r.variableBorrowRate == 0 {
      NothingAccrues(0, t, r.lastUpdateTimestamp);
      GrowsBy(factor, r.variableBorrowIndex);
    }
  }

  /** The stable debt of one user, guarded against a missing rate or time, is what the reserve's total grows to from
      the same principal, rate and time, exactly unless a debt that was last touched at the missing time has earned
      at least half a unit. */
  lemma StableRoutesAgreeIff(principal: int, rate: int, last: int, now: int)
    requires 0 <= principal && 0 <= rate && last <= now
    ensures StableDebtBalance(principal, rate, last, now) == TotalStableDebt(principal, rate, last, now)
       <==> !(rate != 0 && last == 0 != now && RAY <= 2 * (principal * (CompoundedInterest(rate, now, 0) - RAY)))
  {
    var factor := CompoundedInterest(rate, now, last);
    hide RayMul, CompoundedInterest;
    CompoundedAtLeastRay(rate, now, last);
    assert factor * principal == principal * factor;
    if rate == 0 || now == last {
      NothingAccrues(rate, now, last);
      RayMulUnit(principal);
    } else {
      RayMulRounds(factor, principal);
      Distribute(principal, factor, RAY);
      RayMulSame(principal, factor);
    }
  }

  lemma RayMulSame(amount: int, factor: int)
    requires 0 <= amount && RAY <= factor
    ensures RayMul(factor, amount) == RayMul(amount, factor)
    ensures RayMul(factor, amount) == amount <==> 2 * (amount * (factor - RAY)) < RAY
  {
    assert factor * amount == amount * factor;
    RayMulRounds(factor, amount);
    Distribute(amount, factor, RAY);
    if 2 * (amount * (factor - RAY)) < RAY {
      MulNonNeg(amount, factor - RAY);
      RayMulIs(factor, amount, amount);
    }
  }
}
