/** What the users can claim against what the reserve owns, over whole runs. */
module MarketSolvency {
  import opened FixedPoint
  import opened Interest
  import opened RateStrategy
  import opened StableAverage
  import opened Solvency
  import opened Records
  import opened ReserveSteps
  import opened UserSteps
  import opened Balances
  import opened Market
  import opened Conservation
  import opened StepSolvency
  import opened ReadSolvency
  import opened StableTracking

  /** What a user's scaled balance is worth at an index. */
  function Claim(index: int): User -> int {
    (u: User) => RayMul(u.scaledATokenBalance, index)
  }

  function Claims(m: State, t: int): int {
    SumOf(Claim(LiquidityIndexAt(m.reserve, t)), m.users)
  }

  /** The liquidity at hand and both debts, accrued to time t. */
  function Assets(r: Reserve, t: int): int {
    r.availableLiquidity + TotalStableDebtAt(r, t) + RayMul(r.scaledVariableDebt, VariableBorrowIndexAt(r, t))
  }

  function Surplus(m: State, t: int): int {
    Assets(m.reserve, t) - Claims(m, t)
  }

  // ---------- One action at its own time ----------

  /** Actions that make a new record of the reserve. */
  predicate MovesDebtOrCash(a: Action) {
    a.Deposit? || a.Withdraw? || a.Borrow? || a.Repay? || a.Swap? || a.Rebalance?
  }

  /** What the reserve may lose by an action: roundings of scaled amounts, and what a stable repayment erases. */
  function ActionLoss(s: Strategy, m: State, a: Action): int
    requires SoundState(m)
  {
    if !Enabled(s, m, a) then 0
    else
      var r := m.reserve;
      match a
      case Deposit(_, _, t) => IndexDrift(LiquidityIndexAt(r, t))
      case Withdraw(_, _, t) => IndexDrift(LiquidityIndexAt(r, t))
      case Borrow(_, _, Variable, t, _) => IndexDrift(VariableBorrowIndexAt(r, t))
      case Repay(_, _, Variable, _, t) => IndexDrift(VariableBorrowIndexAt(r, t))
      case Repay(who, amount, Stable, _, t) =>
        var paid := RepaidAmount(r, m.users[who], amount, Stable, t);
        if Erases(r, m.users[who], paid, t) then TotalStableDebtAt(r, t) - paid else 0
      case Swap(_, Stable, t) => IndexDrift(VariableBorrowIndexAt(r, t))
      case Swap(_, Variable, _) => 1
      case _ => 0
  }

  function IndexDrift(index: int): int {
    if index < 0 then 0 else Drift(index)
  }

  /** A step's record, read at the time of the step. */
  lemma AssetsAtOnce(e: Reserve, t: int)
    requires Sound(e) && e.lastUpdateTimestamp == t
    ensures Assets(e, t) == e.availableLiquidity + TotalStableDebtAt(e, t)
                            + RayMul(e.scaledVariableDebt, e.variableBorrowIndex)
    ensures LiquidityIndexAt(e, t) == e.liquidityIndex
    ensures e.totalStableDebtLastUpdated == t ==> TotalStableDebtAt(e, t) == e.principalStableDebt
  {
    hide RayMul, LiquidityIndexAt, VariableBorrowIndexAt, TotalStableDebtAt;
    IndicesAccrue(e, t);
    if e.totalStableDebtLastUpdated == t {
      StableReadAtOnce(e, t);
    }
  }

  lemma SupplyAssets(s: Strategy, r: Reserve, u: User, amount: int, t: int)
    ensures CanDeposit(s, r, amount, t) ==>
      && Assets(AfterDeposit(s, r, amount, t), t) == Assets(r, t) + amount
      && LiquidityIndexAt(AfterDeposit(s, r, amount, t), t) == LiquidityIndexAt(r, t)
    ensures CanWithdraw(s, r, u, amount, t) ==>
      && Assets(AfterWithdraw(s, r, u, amount, t), t) == Assets(r, t) - WithdrawnAmount(r, u, amount, t)
      && LiquidityIndexAt(AfterWithdraw(s, r, u, amount, t), t) == LiquidityIndexAt(r, t)
  {
    hide RayMul, LiquidityIndexAt, VariableBorrowIndexAt, TotalStableDebt, UtilizationRate, InterestRates,
      WithdrawnAmount, ATokenBalance;
    if CanDeposit(s, r, amount, t) {
      DepositSound(s, r, amount, t);
      AssetsAtOnce(AfterDeposit(s, r, amount, t), t);
    }
    if CanWithdraw(s, r, u, amount, t) {
      WithdrawSound(s, r, u, amount, t);
      AssetsAtOnce(AfterWithdraw(s, r, u, amount, t), t);
    }
  }

  lemma BorrowAssets(s: Strategy, r: Reserve, amount: int, mode: RateMode, t: int, now: int)
    requires CanBorrow(s, r, amount, t, now)
    ensures
      var e := AfterBorrow(s, r, amount, mode, t, now);
      var index := VariableBorrowIndexAt(r, t);
      && RAY <= index
      && (mode == Stable ==> Assets(e, t) == Assets(r, t))
      && (mode == Variable ==> -Drift(index) <= Assets(e, t) - Assets(r, t) <= Drift(index))
      && LiquidityIndexAt(e, t) == LiquidityIndexAt(r, t)
  {
    hide RayMul, RayDiv, LiquidityIndexAt, VariableBorrowIndexAt, TotalStableDebt, UtilizationRate, InterestRates,
      AverageStableRate, NormalizedDebt, StableDebtBalance, Drift;
    BorrowSound(s, r, amount, mode, t, now);
    BorrowSettledSound(s, r, amount, mode, t);
    DebtsAt(r, t);
    AssetsAtOnce(AfterBorrow(s, r, amount, mode, t, now), t);
    AddDrift(r.scaledVariableDebt, amount, VariableBorrowIndexAt(r, t));
  }

  lemma StableRepayAssets(s: Strategy, r: Reserve, u: User, amount: int, t: int)
    requires CanRepay(s, r, u, amount, Stable, t)
    ensures
      var e, paid := AfterRepay(s, r, u, amount, Stable, t), RepaidAmount(r, u, amount, Stable, t);
      && Assets(e, t) == Assets(r, t) - (if Erases(r, u, paid, t) then TotalStableDebtAt(r, t) - paid else 0)
      && LiquidityIndexAt(e, t) == LiquidityIndexAt(r, t)
  {
    hide RayMul, RayDiv, LiquidityIndexAt, VariableBorrowIndexAt, TotalStableDebt, UtilizationRate, InterestRates,
      AverageStableRate, UserStableDebt, VariableDebtBalance, RepaidAmount, CanRepay;
    RepaySound(s, r, u, amount, Stable, t);
    AssetsAtOnce(AfterRepay(s, r, u, amount, Stable, t), t);
  }

  lemma VariableRepayAssets(s: Strategy, r: Reserve, u: User, amount: int, t: int)
    requires CanRepay(s, r, u, amount, Variable, t)
    ensures
      var e, index := AfterRepay(s, r, u, amount, Variable, t), VariableBorrowIndexAt(r, t);
      && RAY <= index
      && -Drift(index) <= Assets(e, t) - Assets(r, t) <= Drift(index)
      && LiquidityIndexAt(e, t) == LiquidityIndexAt(r, t)
  {
    RepaySound(s, r, u, amount, Variable, t);
    RepaidDrift(r, u, RepaidAmount(r, u, amount, Variable, t), t);
    hide RayMul, RayDiv, LiquidityIndexAt, VariableBorrowIndexAt, TotalStableDebt, UtilizationRate, InterestRates,
      UserStableDebt, VariableDebtBalance, Drift, RepaidAmount, CanRepay;
    AssetsAtOnce(AfterRepay(s, r, u, amount, Variable, t), t);
  }

  lemma RepaidDrift(r: Reserve, u: User, paid: int, t: int)
    requires Sound(r) && r.lastUpdateTimestamp <= t
    requires 0 <= u.scaledVariableDebt <= r.scaledVariableDebt && 0 <= paid <= VariableDebtBalance(r, u, t)
    ensures RAY <= VariableBorrowIndexAt(r, t)
    ensures
      var index := VariableBorrowIndexAt(r, t);
      -Drift(index)
      <= RayMul(r.scaledVariableDebt - RayDiv(paid, index), index) - (RayMul(r.scaledVariableDebt, index) - paid)
      <= Drift(index)
  {
    hide RayMul, RayDiv, VariableBorrowIndexAt, VariableDebtBalance, Drift;
    DebtsAt(r, t);
    DebtRoutesAgree(r, u, t);
    RayMulMono(u.scaledVariableDebt, r.scaledVariableDebt, VariableBorrowIndexAt(r, t), VariableBorrowIndexAt(r, t));
    TakeDrift(r.scaledVariableDebt, paid, VariableBorrowIndexAt(r, t));
  }

  lemma SwapAssets(s: Strategy, r: Reserve, u: User, mode: RateMode, t: int)
    requires CanSwap(s, r, u, mode, t)
    ensures
      var e := AfterSwap(s, r, u, mode, t);
      var index := VariableBorrowIndexAt(r, t);
      && RAY <= index
      && (mode == Stable ==> -Drift(index) <= Assets(e, t) - Assets(r, t) <= Drift(index))
      && (mode == Variable ==> -1 <= Assets(e, t) - Assets(r, t) <= 1)
      && LiquidityIndexAt(e, t) == LiquidityIndexAt(r, t)
  {
    hide RayMul, LiquidityIndexAt, VariableBorrowIndexAt, TotalStableDebtAt, AfterSwap, Drift, CanSwap;
    SwapNeeds(s, r, u, mode, t);
    SwapSoundIff(s, r, u, mode, t);
    SwapConservesDebt(s, r, u, mode, t);
    SwapFields(s, r, u, mode, t);
    AssetsAtOnce(AfterSwap(s, r, u, mode, t), t);
  }

  lemma SwapNeeds(s: Strategy, r: Reserve, u: User, mode: RateMode, t: int)
    requires CanSwap(s, r, u, mode, t)
    ensures SwapComputes(s, r, u, mode, t)
  {
    hide SwapComputes;
  }

  lemma SwapFields(s: Strategy, r: Reserve, u: User, mode: RateMode, t: int)
    requires SwapComputes(s, r, u, mode, t)
    ensures
      var e := AfterSwap(s, r, u, mode, t);
      && e.lastUpdateTimestamp == t == e.totalStableDebtLastUpdated && e.principalStableDebt == e.totalStableDebt
      && e.totalVariableDebt == RayMul(e.scaledVariableDebt, e.variableBorrowIndex)
      && e.liquidityIndex == LiquidityIndexAt(r, t)
  {
    hide RayMul, RayDiv, LiquidityIndexAt, VariableBorrowIndexAt, TotalStableDebtAt, UtilizationRate, InterestRates,
      AverageStableRate, UserStableDebt, VariableDebtBalance;
  }

  lemma RebalanceAssets(s: Strategy, r: Reserve, u: User, t: int)
    requires CanRebalance(s, r, u, t)
    ensures
      var e := AfterRebalance(s, r, u, t);
      Assets(e, t) == Assets(r, t) && LiquidityIndexAt(e, t) == LiquidityIndexAt(r, t)
  {
    RebalanceSoundIff(s, r, u, t);
    hide RayMul, LiquidityIndexAt, VariableBorrowIndexAt, TotalStableDebt, UtilizationRate, InterestRates,
      RebalancedRate;
    AssetsAtOnce(AfterRebalance(s, r, u, t), t);
  }

  // ---------- The claims at the time of an action ----------

  /** A deposit or a withdrawal moves the claims by the amount, up to the drift of the index; nothing else does. */
  lemma ClaimsMove(s: Strategy, m: State, a: Action)
    requires SoundState(m) && Enabled(s, m, a)
    requires MovesDebtOrCash(a)
    ensures
      var n, index := Apply(s, m, a), LiquidityIndexAt(m.reserve, a.t);
      var u := m.users[a.who];
      var amount := if a.Deposit? then a.amount
                    else if a.Withdraw? then -WithdrawnAmount(m.reserve, u, a.amount, a.t) else 0;
      var moved := SumOf(Claim(index), n.users) - (SumOf(Claim(index), m.users) + amount);
      && RAY <= index
      && (a.Deposit? || a.Withdraw? ==> -Drift(index) <= moved <= Drift(index))
      && (!a.Deposit? && !a.Withdraw? ==> moved == 0)
  {
    hide Apply, RayMul, RayDiv, SumOf, LiquidityIndexAt, Drift, WithdrawnAmount;
    var n, index := Apply(s, m, a), LiquidityIndexAt(m.reserve, a.t);
    SuppliedUser(s, m, a);
    SuppliedClaim(s, m, a);
    SumUpdate(Claim(index), m.users, a.who, n.users[a.who]);
  }

  lemma SuppliedClaim(s: Strategy, m: State, a: Action)
    requires SoundState(m) && Enabled(s, m, a)
    requires MovesDebtOrCash(a)
    ensures RAY <= LiquidityIndexAt(m.reserve, a.t)
    ensures
      var u, index := m.users[a.who], LiquidityIndexAt(m.reserve, a.t);
      && (a.Deposit? ==>
            -Drift(index) <= RayMul(u.scaledATokenBalance + RayDiv(a.amount, index), index)
                             - (RayMul(u.scaledATokenBalance, index) + a.amount) <= Drift(index))
      && (a.Withdraw? ==>
            var taken := WithdrawnAmount(m.reserve, u, a.amount, a.t);
            -Drift(index) <= RayMul(u.scaledATokenBalance - RayDiv(taken, index), index)
                             - (RayMul(u.scaledATokenBalance, index) - taken) <= Drift(index))
  {
    hide Apply, RayMul, RayDiv, SumOf, LiquidityIndexAt, Drift, WithdrawnAmount, NormalizedIncome;
    DebtsAt(m.reserve, a.t);
    if a.Deposit? {
      AddDrift(m.users[a.who].scaledATokenBalance, a.amount, LiquidityIndexAt(m.reserve, a.t));
    } else if a.Withdraw? {
      IncomeRoutesAgree(m.reserve, a.t);
      TakeDrift(m.users[a.who].scaledATokenBalance, WithdrawnAmount(m.reserve, m.users[a.who], a.amount, a.t),
                LiquidityIndexAt(m.reserve, a.t));
    }
  }

  lemma SuppliedUser(s: Strategy, m: State, a: Action)
    requires SoundState(m) && Enabled(s, m, a)
    requires MovesDebtOrCash(a)
    ensures
      var n, index := Apply(s, m, a), LiquidityIndexAt(m.reserve, a.t);
      && RAY <= index && |n.users| == |m.users| && n.users == m.users[a.who := n.users[a.who]]
      && n.users[a.who].scaledATokenBalance
         == m.users[a.who].scaledATokenBalance
            + (if a.Deposit? then RayDiv(a.amount, index)
               else if a.Withdraw? then -RayDiv(WithdrawnAmount(m.reserve, m.users[a.who], a.amount, a.t), index)
               else 0)
  {
    hide RayMul, RayDiv, LiquidityIndexAt, VariableBorrowIndexAt, Repriced, TotalStableDebtAt, UserStableDebt,
      VariableDebtBalance, ATokenBalance, RepaidAmount, WithdrawnAmount, StableRepaid, AfterBorrow, AfterRepay,
      AfterSwap, AfterRebalance, RebalancedRate;
    DebtsAt(m.reserve, a.t);
    RayDivUnit(LiquidityIndexAt(m.reserve, a.t));
  }

  /** Every action keeps the surplus at its own time, up to its loss; what is read or chosen besides keeps it at any
      later time. */
  lemma ActionKeepsSurplus(s: Strategy, m: State, a: Action)
    requires SoundState(m) && Enabled(s, m, a)
    requires MovesDebtOrCash(a)
    ensures Surplus(Apply(s, m, a), a.t) >= Surplus(m, a.t) - ActionLoss(s, m, a)
  {
    var r, u := m.reserve, m.users[a.who];
    ClaimsMove(s, m, a);
    hide AfterDeposit, AfterWithdraw, AfterBorrow, AfterRepay, AfterSwap, AfterRebalance, UserAfterRebalance,
      UserAfterDeposit, UserAfterWithdraw, UserAfterBorrow, UserAfterRepay, UserAfterSwap, Assets, LiquidityIndexAt,
      VariableBorrowIndexAt, SumOf, Drift, RepaidAmount, WithdrawnAmount, UserStableDebt, VariableDebtBalance,
      TotalStableDebtAt, ATokenBalance, Erases, RayMul;
    match a {
      case Deposit(_, amount, t) => SupplyAssets(s, r, u, amount, t);
      case Withdraw(_, amount, t) => SupplyAssets(s, r, u, amount, t);
      case Borrow(_, amount, mode, t, now) => BorrowAssets(s, r, amount, mode, t, now);
      case Repay(_, amount, Stable, _, t) => StableRepayAssets(s, r, u, amount, t);
      case Repay(_, amount, Variable, _, t) => VariableRepayAssets(s, r, u, amount, t);
      case Swap(_, mode, t) => SwapAssets(s, r, u, mode, t);
      case Rebalance(_, t) => RebalanceAssets(s, r, u, t);
    }
  }

  // ---------- Accrual between two actions ----------

  /** The recorded debts are those of the last update, or less. */
  predicate SettledDebts(r: Reserve) {
    && r.totalVariableDebt == RayMul(r.scaledVariableDebt, r.variableBorrowIndex)
    && r.totalStableDebt <= TotalStableDebtAt(r, r.lastUpdateTimestamp)
  }

  function Supplied(u: User): int { u.scaledATokenBalance }

  /** What the stable debt may earn short of its rate on the recorded debt, in rays: the terms that its expansion over
      the whole time since it was touched drops against the expansions over the time before and after the last update,
      and the roundings of powers and debts. */
  function StableLack(r: Reserve, t: int): int
    requires r.totalStableDebtLastUpdated <= r.lastUpdateTimestamp <= t
  {
    var n, m := t - r.lastUpdateTimestamp, r.lastUpdateTimestamp - r.totalStableDebtLastUpdated;
    LackOf(r.principalStableDebt * Dropped(r.averageStableBorrowRate, n, m), r.principalStableDebt * SplitSlack(n, m),
           CompoundedInterest(r.averageStableBorrowRate, t, r.lastUpdateTimestamp))
  }

  function LackOf(dropped: int, slack: int, factor: int): int {
    (2 * dropped + RAY * slack + RAY * factor + RAY * RAY) / (2 * RAY)
  }

  /** Over the time from the last update up to t, the stable debt earns the factor of its rate, up to what it lacks. */
  lemma StableEarns(r: Reserve, t: int)
    requires Sound(r) && r.lastUpdateTimestamp <= t && SettledDebts(r)
    ensures
      var last := r.lastUpdateTimestamp;
      r.totalStableDebt * (CompoundedInterest(r.averageStableBorrowRate, t, last) - RAY)
      - RAY * (TotalStableDebtAt(r, t) - TotalStableDebtAt(r, last))
      <= StableLack(r, t)
  {
    hide RayMul, CompoundedInterest, SplitSlack, Dropped, LackOf;
    var rate, principal := r.averageStableBorrowRate, r.principalStableDebt;
    var first, last := r.totalStableDebtLastUpdated, r.lastUpdateTimestamp;
    CompoundedShift(rate, last, first);
    CompoundedShift(rate, t, last);
    CompoundedShift(rate, t, first);
    CompoundedAtLeastRay(rate, last, first);
    CompoundedAtLeastRay(rate, t, last);
    CompoundedAtLeastRay(rate, t, first);
    SplitCompounded(rate, t - last, last - first);
    RayMulRounds(CompoundedInterest(rate, last, first), principal);
    RayMulRounds(CompoundedInterest(rate, t, first), principal);
    EarnedInParts(CompoundedInterest(rate, t, last), CompoundedInterest(rate, last, first),
                  CompoundedInterest(rate, t, first), principal, SplitSlack(t - last, last - first),
                  Dropped(rate, t - last, last - first), r.totalStableDebt, TotalStableDebtAt(r, last),
                  TotalStableDebtAt(r, t));
  }

  lemma EarnedInParts(later: int, earlier: int, whole: int, principal: int, slack: int, dropped: int,
                      recorded: int, s0: int, s1: int)
    requires RAY <= later && 0 <= principal && recorded <= s0
    requires later * earlier <= RAY * whole + HALF_RAY * slack + dropped
    requires 2 * RAY * s0 <= 2 * (earlier * principal) + RAY
    requires 2 * (whole * principal) + RAY < 2 * RAY * s1 + 2 * RAY
    ensures recorded * (later - RAY) - RAY * (s1 - s0) <= LackOf(principal * dropped, principal * slack, later)
  {
    MulMono(recorded, s0, later - RAY);
    Distribute(s0, later, RAY);
    MulMono(2 * RAY * s0, 2 * (earlier * principal) + RAY, later);
    MulMono(later * earlier, RAY * whole + HALF_RAY * slack + dropped, principal);
    Distribute(later, 2 * (earlier * principal), RAY);
    SplitSum(RAY * whole, HALF_RAY * slack, dropped, principal);
    assert later * (2 * RAY * s0) == 2 * RAY * (s0 * later);
    assert later * (2 * (earlier * principal)) == 2 * ((later * earlier) * principal);
    assert (RAY * whole) * principal == RAY * (whole * principal);
    assert (HALF_RAY * slack) * principal == HALF_RAY * (principal * slack);
    AtMostLack(recorded * (later - RAY) - RAY * (s1 - s0), principal * dropped, principal * slack, later);
  }

  lemma AtMostLack(lacking: int, dropped: int, slack: int, factor: int)
    requires 2 * RAY * lacking <= 2 * dropped + RAY * slack + RAY * factor + RAY * RAY
    ensures lacking <= LackOf(dropped, slack, factor)
  {
  }

  /** What users can claim beyond the liquidity that the rate of the suppliers was computed from. */
  function ClaimsBeyond(m: State): int {
    var beyond := Claims(m, m.reserve.lastUpdateTimestamp) - m.reserve.totalLiquidity;
    if beyond < 0 then 0 else beyond
  }

  /** What the reserve may lose while time passes up to t: the slack of every second; the roundings of the variable
      debt and of every user's claim; what is credited on claims beyond the liquidity; and what lacks in stable
      interest. */
  function AccrualLoss(m: State, t: int): int
    requires m.reserve.totalStableDebtLastUpdated <= m.reserve.lastUpdateTimestamp <= t
  {
    var r, last := m.reserve, m.reserve.lastUpdateTimestamp;
    var factor := LinearInterest(r.liquidityRate, t, last);
    var overall := OverallBorrowRate(r.totalStableDebt, r.totalVariableDebt, r.variableBorrowRate,
                                     r.averageStableBorrowRate);
    LossOf((t - last) * SolvencySlack(r.totalStableDebt + r.totalVariableDebt, r.totalLiquidity, overall),
           VariableRounding(r, t) + |m.users| * (factor + RAY) + SumOf(Supplied, m.users)
           + 2 * StableLack(r, t) + 2 * ((factor - RAY) * ClaimsBeyond(m)))
  }

  function LossOf(slack: int, rounding: int): int {
    (slack + RAY * ONE_YEAR * rounding) / (2 * RAY * RAY * ONE_YEAR)
  }

  lemma ClaimGrows(scaled: int, index: int, factor: int)
    requires 0 <= scaled && 0 <= index && 0 <= factor
    ensures 2 * RAY * RayMul(scaled, RayMul(factor, index))
         <= 2 * (factor * RayMul(scaled, index)) + (factor + scaled + RAY)
  {
    hide RayMul;
    RayMulRounds(scaled, index);
    RayMulRounds(factor, index);
    RayMulRounds(scaled, RayMul(factor, index));
    GrownTwice(factor, scaled, index, RayMul(scaled, index), RayMul(factor, index),
               RayMul(scaled, RayMul(factor, index)));
  }

  /** All claims together grow by the factor of the supplier index, up to the roundings of every claim. */
  lemma {:induction false} ClaimsGrow(users: seq<User>, index: int, factor: int)
    requires 0 <= index && 0 <= factor && forall i :: 0 <= i < |users| ==> 0 <= users[i].scaledATokenBalance
    ensures 2 * RAY * SumOf(Claim(RayMul(factor, index)), users)
         <= 2 * (factor * SumOf(Claim(index), users)) + |users| * (factor + RAY) + SumOf(Supplied, users)
  {
    hide RayMul;
    if users == [] {
    } else {
      var k := |users| - 1;
      ClaimsGrow(users[..k], index, factor);
      ClaimGrows(users[k].scaledATokenBalance, index, factor);
      Distribute(factor, SumOf(Claim(index), users[..k]), RayMul(users[k].scaledATokenBalance, index));
      Distribute(factor + RAY, k, 1);
    }
  }

  lemma IndexGrows(r: Reserve, t: int)
    requires Sound(r) && r.lastUpdateTimestamp <= t
    ensures RAY <= LinearInterest(r.liquidityRate, t, r.lastUpdateTimestamp)
    ensures LiquidityIndexAt(r, r.lastUpdateTimestamp) == r.liquidityIndex
    ensures LiquidityIndexAt(r, t)
         == RayMul(LinearInterest(r.liquidityRate, t, r.lastUpdateTimestamp), r.liquidityIndex)
  {
    hide RayMul, LinearInterest, LiquidityIndexAt;
    LinearAtLeastRay(r.liquidityRate, t, r.lastUpdateTimestamp);
    IndicesAccrue(r, r.lastUpdateTimestamp);
    IncomeRoutesAgree(r, t);
    if r.liquidityRate == 0 {
      NothingAccrues(0, t, r.lastUpdateTimestamp);
      GrowsBy(RAY, r.liquidityIndex);
    }
  }

  /** The variable debt of the reserve by its own index and by the normalised debt. */
  lemma VariableRoutes(r: Reserve, t: int)
    requires Sound(r) && r.lastUpdateTimestamp <= t
    ensures RayMul(r.scaledVariableDebt, VariableBorrowIndexAt(r, t)) == VariableLater(r, t)
    ensures VariableBorrowIndexAt(r, r.lastUpdateTimestamp) == r.variableBorrowIndex
  {
    hide RayMul, VariableBorrowIndexAt, LiquidityIndexAt, NormalizedDebt;
    DebtRoutesAgree(r, User(0, 0, 0, 0, 0, r.scaledVariableDebt, 0, 0, 0, false, 0), t);
    IndicesAccrue(r, r.lastUpdateTimestamp);
  }

  /** Solvency of the record, over the time that passes up to t. */
  lemma CoveredUpTo(r: Reserve, t: int)
    requires r.lastUpdateTimestamp <= t && Solvent(r)
    ensures
      var last := r.lastUpdateTimestamp;
      var overall := OverallBorrowRate(r.totalStableDebt, r.totalVariableDebt, r.variableBorrowRate,
                                       r.averageStableBorrowRate);
      2 * RAY * ONE_YEAR * (r.totalLiquidity * (LinearInterest(r.liquidityRate, t, last) - RAY))
      <= 2 * RAY * ONE_YEAR
         * (r.totalVariableDebt * (CompoundedInterest(r.variableBorrowRate, t, last) - RAY)
            + r.totalStableDebt * (CompoundedInterest(r.averageStableBorrowRate, t, last) - RAY))
         + (t - last) * SolvencySlack(r.totalStableDebt + r.totalVariableDebt, r.totalLiquidity, overall)
  {
    var n: nat := t - r.lastUpdateTimestamp;
    assert CoveredAfter(r, n);
    CompoundedShift(r.liquidityRate, t, r.lastUpdateTimestamp);
    CompoundedShift(r.variableBorrowRate, t, r.lastUpdateTimestamp);
    CompoundedShift(r.averageStableBorrowRate, t, r.lastUpdateTimestamp);
    hide LinearInterest, CompoundedInterest, OverallBorrowRate, SolvencySlack;
  }

  /** While time passes, the surplus falls by at most the loss of the accrual. */
  lemma AccrualKeepsSurplus(m: State, t: int)
    requires SoundState(m) && m.reserve.lastUpdateTimestamp <= t && Solvent(m.reserve) && SettledDebts(m.reserve)
    ensures Surplus(m, t) >= Surplus(m, m.reserve.lastUpdateTimestamp) - AccrualLoss(m, t)
  {
    hide RayMul, LinearInterest, CompoundedInterest, Solvent, LiquidityIndexAt, VariableBorrowIndexAt,
      TotalStableDebtAt, VariableLater, SumOf, SolvencySlack, OverallBorrowRate, LossOf, VariableRounding, StableLack;
    var r, last := m.reserve, m.reserve.lastUpdateTimestamp;
    var factor := LinearInterest(r.liquidityRate, t, last);
    IndexGrows(r, t);
    ClaimsGrow(m.users, r.liquidityIndex, factor);
    VariableRoutes(r, t);
    VariableGrowth(r, t);
    CoveredUpTo(r, t);
    StableEarns(r, t);
    var overall := OverallBorrowRate(r.totalStableDebt, r.totalVariableDebt, r.variableBorrowRate,
                                     r.averageStableBorrowRate);
    AccrualArithmetic(
      Claims(m, last), Claims(m, t), factor, |m.users| * (factor + RAY) + SumOf(Supplied, m.users),
      r.totalLiquidity, ClaimsBeyond(m),
      r.totalVariableDebt, VariableLater(r, t), CompoundedInterest(r.variableBorrowRate, t, last),
      VariableRounding(r, t),
      TotalStableDebtAt(r, last), TotalStableDebtAt(r, t),
      r.totalStableDebt * (CompoundedInterest(r.averageStableBorrowRate, t, last) - RAY), StableLack(r, t),
      (t - last) * SolvencySlack(r.totalStableDebt + r.totalVariableDebt, r.totalLiquidity, overall));
  }

  lemma AccrualArithmetic(c0: int, c1: int, factor: int, claims: int, liquidity: int, beyond: int,
                          v0: int, v1: int, grown: int, rounding: int, s0: int, s1: int, due: int, short: int,
                          slack: int)
    requires RAY <= factor && c0 <= liquidity + beyond
    requires 2 * RAY * c1 <= 2 * (factor * c0) + claims
    requires 2 * (grown * v0) - rounding <= 2 * RAY * v1
    requires due - RAY * (s1 - s0) <= short
    requires 2 * RAY * ONE_YEAR * (liquidity * (factor - RAY))
          <= 2 * RAY * ONE_YEAR * (v0 * (grown - RAY) + due) + slack
    ensures (c1 - c0) - (v1 - v0) - (s1 - s0)
         <= LossOf(slack, rounding + claims + 2 * short + 2 * ((factor - RAY) * beyond))
  {
    Distribute(c0, factor, RAY);
    Distribute(v0, grown, RAY);
    MulMono(c0, liquidity + beyond, factor - RAY);
    Distribute(factor - RAY, liquidity, beyond);
    var more := rounding + claims + 2 * short + 2 * ((factor - RAY) * beyond);
    AtMostLoss((c1 - c0) - (v1 - v0) - (s1 - s0), slack, more);
  }

  lemma AtMostLoss(lost: int, slack: int, rounding: int)
    requires 2 * RAY * RAY * ONE_YEAR * lost <= slack + RAY * ONE_YEAR * rounding
    ensures lost <= LossOf(slack, rounding)
  {
  }

  // ---------- Runs ----------

  /** When an action starts, as far as it has a time. */
  function StartOf(a: Action, clock: int): int {
    match a
    case SetUseAsCollateral(_, _) => clock
    case SetMarketRate(_) => clock
    case Read(now) => now
    case _ => a.t
  }

  /** When its records have been read, as far as it has a time. */
  function EndOf(a: Action, clock: int): int {
    if a.Borrow? then a.now else StartOf(a, clock)
  }

  /** The clock after actions in order. */
  function ClockAfter(clock: int, actions: seq<Action>): int
    decreases |actions|
  {
    if actions == [] then clock
    else EndOf(actions[|actions| - 1], ClockAfter(clock, actions[..|actions| - 1]))
  }

  /** No action starts before the records of the one before it have been read. */
  predicate InOrder(clock: int, actions: seq<Action>)
    decreases |actions|
  {
    actions == [] ||
    var k := |actions| - 1;
    && InOrder(clock, actions[..k])
    && ClockAfter(clock, actions[..k]) <= StartOf(actions[k], ClockAfter(clock, actions[..k]))
       <= EndOf(actions[k], ClockAfter(clock, actions[..k]))
  }

  /** The reserve was updated, and its recorded stable debt read, no later than the clock shows. */
  predicate UpToDate(r: Reserve, clock: int) {
    r.lastUpdateTimestamp <= clock && r.totalStableDebt <= TotalStableDebtAt(r, clock)
  }

  lemma UpToDateLater(r: Reserve, clock: int, t: int)
    requires Sound(r) && UpToDate(r, clock) && clock <= t
    ensures UpToDate(r, t)
  {
    hide TotalStableDebt;
    StableDebtGrows(r.principalStableDebt, r.averageStableBorrowRate, r.totalStableDebtLastUpdated, clock, t);
  }

  /** Reading a record changes neither assets nor claims. */
  lemma ReadKeepsSurplus(e: Reserve, r: Reserve, users: seq<User>, t: int)
    requires ReadSince(e, r) && Sound(r) && r.lastUpdateTimestamp <= t
    ensures Sound(e) && e.lastUpdateTimestamp == r.lastUpdateTimestamp
    ensures Surplus(State(r, users), t) == Surplus(State(e, users), t)
  {
    if r != e {
      var now: int :| e.lastUpdateTimestamp <= now && r == Aged(e, now);
      AgedKeepsTime(e, now);
      AgedAssets(e, now, t);
    }
    hide Assets, SumOf, LiquidityIndexAt, Aged;
  }

  lemma AgedAssets(e: Reserve, now: int, t: int)
    requires Sound(e) && e.lastUpdateTimestamp <= now && e.lastUpdateTimestamp <= t && Sound(Aged(e, now))
    ensures Assets(Aged(e, now), t) == Assets(e, t)
    ensures LiquidityIndexAt(Aged(e, now), t) == LiquidityIndexAt(e, t)
  {
    var r := Aged(e, now);
    hide RayMul, TotalStableDebt, UtilizationRate, LinearInterest, CompoundedInterest, LiquidityIndexAt,
      VariableBorrowIndexAt;
    IncomeRoutesAgree(e, t);
    IncomeRoutesAgree(r, t);
    VariableRoutes(e, t);
    VariableRoutes(r, t);
  }

  lemma StepTime(s: Strategy, m: State, a: Action)
    requires SoundState(m) && Enabled(s, m, a)
    ensures MovesDebtOrCash(a) ==> Apply(s, m, a).reserve.lastUpdateTimestamp == a.t
    ensures !MovesDebtOrCash(a) ==> Apply(s, m, a).reserve.lastUpdateTimestamp == m.reserve.lastUpdateTimestamp
  {
    hide RayMul, RayDiv, LiquidityIndexAt, VariableBorrowIndexAt, Repriced, TotalStableDebtAt, UserStableDebt,
      VariableDebtBalance, ATokenBalance, RepaidAmount, WithdrawnAmount, StableRepaid, StableDebtBalance,
      NormalizedDebt, UtilizationRate, RebalancedRate;
    if a.Borrow? {
      BorrowSettledSound(s, m.reserve, a.amount, a.mode, a.t);
    }
  }

  /** The record of the last update keeps the debts of its own time. */
  lemma StepSettles(s: Strategy, m: State, e: Reserve, a: Action, clock: int)
    requires SoundState(m) && SettledDebts(e) && UpToDate(m.reserve, clock) && clock <= StartOf(a, clock)
    ensures SettledDebts(NextUpdate(s, m, e, a))
  {
    hide RayMul, TotalStableDebt, BorrowSettled, Apply;
    if Enabled(s, m, a) {
      StepTime(s, m, a);
      if a.Borrow? {
        BorrowSettledTotals(s, m.reserve, a.amount, a.mode, a.t, a.t);
      } else if MovesDebtOrCash(a) {
        UpToDateLater(m.reserve, clock, a.t);
        RecordedDebts(s, m, a);
      }
    }
  }

  /** The recorded stable debt never runs ahead of the clock. */
  lemma StepUpToDate(s: Strategy, m: State, a: Action, clock: int)
    requires SoundState(m) && UpToDate(m.reserve, clock) && clock <= StartOf(a, clock) <= EndOf(a, clock)
    ensures UpToDate(Apply(s, m, a).reserve, EndOf(a, clock))
  {
    if !Enabled(s, m, a) {
      UpToDateLater(m.reserve, clock, EndOf(a, clock));
    } else if a.Borrow? {
      LateBorrowUpToDate(s, m.reserve, a.amount, a.mode, a.t, a.now);
      hide AfterBorrow, UpToDate;
    } else if MovesDebtOrCash(a) {
      hide RayMul, TotalStableDebt, Apply;
      StepTime(s, m, a);
      UpToDateLater(m.reserve, clock, a.t);
      RecordedDebts(s, m, a);
    } else {
      hide RayMul, TotalStableDebt, UtilizationRate, NormalizedDebt;
    }
  }

  lemma LateBorrowUpToDate(s: Strategy, r: Reserve, amount: int, mode: RateMode, t: int, now: int)
    requires CanBorrow(s, r, amount, t, now)
    ensures UpToDate(AfterBorrow(s, r, amount, mode, t, now), now)
  {
    hide BorrowSettled, RayMul, TotalStableDebt, UtilizationRate, NormalizedDebt, ReadUtilizationRate;
    BorrowSettledSound(s, r, amount, mode, t);
    BorrowSettledTotals(s, r, amount, mode, t, now);
  }

  /** What the reserve may lose by an action and by the time before it, in terms of the record of the last update. */
  function StepLoss(s: Strategy, m: State, e: Reserve, a: Action): int
    requires SoundState(m) && e.totalStableDebtLastUpdated <= e.lastUpdateTimestamp == m.reserve.lastUpdateTimestamp
  {
    if Enabled(s, m, a) && MovesDebtOrCash(a) then AccrualLoss(State(e, m.users), a.t) + ActionLoss(s, m, a) else 0
  }

  /** Every action keeps the surplus since the last update, up to the loss of the action and of the accrual before. */
  lemma StepKeepsSurplus(s: Strategy, m: State, e: Reserve, a: Action)
    requires SoundState(m) && Solvent(e) && SettledDebts(e) && ReadSince(e, m.reserve)
    ensures Sound(e) && e.lastUpdateTimestamp == m.reserve.lastUpdateTimestamp
    ensures
      var n := Apply(s, m, a);
      Surplus(n, n.reserve.lastUpdateTimestamp)
      >= Surplus(m, m.reserve.lastUpdateTimestamp) - StepLoss(s, m, e, a)
  {
    hide Solvent, SettledDebts, Surplus, AccrualLoss, ActionLoss, ReadSince;
    var last := m.reserve.lastUpdateTimestamp;
    ReadKeepsSurplus(e, m.reserve, m.users, last);
    if Enabled(s, m, a) && MovesDebtOrCash(a) {
      hide Apply;
      ReadKeepsSurplus(e, m.reserve, m.users, a.t);
      AccrualKeepsSurplus(State(e, m.users), a.t);
      ActionKeepsSurplus(s, m, a);
      StepTime(s, m, a);
    } else {
      QuietKeepsSurplus(s, m, a);
    }
  }

  lemma MarketRateKeepsAssets(r: Reserve, rate: int, t: int)
    ensures
      var e := r.(marketStableRate := rate);
      Assets(e, t) == Assets(r, t) && LiquidityIndexAt(e, t) == LiquidityIndexAt(r, t)
  {
    hide RayMul, LinearInterest, CompoundedInterest;
  }

  lemma QuietKeepsSurplus(s: Strategy, m: State, a: Action)
    requires SoundState(m) && !(Enabled(s, m, a) && MovesDebtOrCash(a))
    ensures
      var n := Apply(s, m, a);
      Surplus(n, n.reserve.lastUpdateTimestamp) == Surplus(m, m.reserve.lastUpdateTimestamp)
  {
    hide Assets, LiquidityIndexAt, SumOf, RayMul, Aged, UserStableDebt, VariableDebtBalance, ATokenBalance;
    var n, t := Apply(s, m, a), m.reserve.lastUpdateTimestamp;
    if Enabled(s, m, a) {
      if a.SetMarketRate? {
        MarketRateKeepsAssets(m.reserve, a.rate, t);
      } else if a.Read? {
        AgedSound(m.reserve, a.now);
        AgedKeepsTime(m.reserve, a.now);
        AgedAssets(m.reserve, a.now, t);
      }
      SumSame(Claim(LiquidityIndexAt(m.reserve, t)), n.users, m.users);
    }
  }

  /** The losses of a run's steps. */
  function RunLoss(s: Strategy, m: State, actions: seq<Action>): int
    requires SoundState(m) && Solvent(m.reserve)
    decreases |actions|
  {
    if actions == [] then 0
    else
      var k := |actions| - 1;
      LastUpdateIsRead(s, m, actions[..k]);
      RunLoss(s, m, actions[..k])
      + StepLoss(s, Run(s, m, actions[..k]), LastUpdate(s, m, actions[..k]), actions[k])
  }

  lemma LastUpdateIsRead(s: Strategy, m: State, actions: seq<Action>)
    requires SoundState(m) && Solvent(m.reserve)
    ensures
      var e, n := LastUpdate(s, m, actions), Run(s, m, actions);
      && Solvent(e) && ReadSince(e, n.reserve) && Sound(e)
      && e.totalStableDebtLastUpdated <= e.lastUpdateTimestamp == n.reserve.lastUpdateTimestamp
  {
    hide Solvent, ReadSince, Run, LastUpdate, Surplus;
    RunStaysSolvent(s, m, actions);
    var n := Run(s, m, actions);
    ReadKeepsSurplus(LastUpdate(s, m, actions), n.reserve, n.users, n.reserve.lastUpdateTimestamp);
  }

  /** Over every run in order of time, with whatever is read in between, the users' claims stay covered by the assets of
      the reserve as they were before, up to the losses of the steps. */
  lemma {:induction false} RunKeepsSurplus(s: Strategy, m: State, actions: seq<Action>, clock: int)
    requires SoundState(m) && Solvent(m.reserve) && SettledDebts(m.reserve)
    requires UpToDate(m.reserve, clock) && InOrder(clock, actions)
    ensures
      var n := Run(s, m, actions);
      && SettledDebts(LastUpdate(s, m, actions)) && UpToDate(n.reserve, ClockAfter(clock, actions))
      && Surplus(n, n.reserve.lastUpdateTimestamp)
         >= Surplus(m, m.reserve.lastUpdateTimestamp) - RunLoss(s, m, actions)
    decreases |actions|
  {
    hide Apply, NextUpdate, Solvent, SettledDebts, UpToDate, StartOf, EndOf, ReadSince, Surplus, StepLoss;
    if actions != [] {
      var k := |actions| - 1;
      var before, e := Run(s, m, actions[..k]), LastUpdate(s, m, actions[..k]);
      RunKeepsSurplus(s, m, actions[..k], clock);
      LastUpdateIsRead(s, m, actions[..k]);
      StepSettles(s, before, e, actions[k], ClockAfter(clock, actions[..k]));
      StepUpToDate(s, before, actions[k], ClockAfter(clock, actions[..k]));
      StepKeepsSurplus(s, before, e, actions[k]);
    }
  }

  /** A fresh market owes nothing and owns nothing: after every run in order from it, the claims exceed the assets by
      the losses at most. */
  lemma FreshMarketCovered(s: Strategy, rate: int, t: int, users: seq<User>, actions: seq<Action>)
    requires 0 <= rate && 0 <= t && InOrder(t, actions)
    requires forall i :: 0 <= i < |users| ==> SoundUser(users[i], t) && users[i].scaledATokenBalance == 0
    ensures SoundState(State(FreshReserve(rate, t), users)) && Solvent(FreshReserve(rate, t))
    ensures
      var m := State(FreshReserve(rate, t), users);
      var n := Run(s, m, actions);
      Claims(n, n.reserve.lastUpdateTimestamp)
      <= Assets(n.reserve, n.reserve.lastUpdateTimestamp) + RunLoss(s, m, actions)
  {
    var m := State(FreshReserve(rate, t), users);
    FreshMarketSound(rate, t, users);
    FreshReserveIsSolvent(rate, t);
    FreshSurplus(rate, t, users);
    hide FreshReserve, Solvent, Assets, Claims, Run, RunLoss, SoundState, UpToDate, InOrder, SettledDebts;
    RunKeepsSurplus(s, m, actions, t);
  }

  lemma FreshSurplus(rate: int, t: int, users: seq<User>)
    requires 0 <= rate && 0 <= t
    requires forall i :: 0 <= i < |users| ==> users[i].scaledATokenBalance == 0
    ensures
      var m := State(FreshReserve(rate, t), users);
      && SettledDebts(m.reserve) && UpToDate(m.reserve, t) && m.reserve.lastUpdateTimestamp == t && Surplus(m, t) == 0
  {
    var r := FreshReserve(rate, t);
    CompoundedAtLeastRay(0, t, 0);
    RayMulUnit(CompoundedInterest(0, t, 0));
    RayMulUnit(RAY);
    NoClaims(users, LiquidityIndexAt(r, t));
  }

  lemma {:induction false} NoClaims(users: seq<User>, index: int)
    requires RAY <= index && forall i :: 0 <= i < |users| ==> users[i].scaledATokenBalance == 0
    ensures SumOf(Claim(index), users) == 0
  {
    RayMulUnit(index);
    if users != [] {
      NoClaims(users[..|users| - 1], index);
    }
  }
}
