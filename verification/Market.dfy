/** The market as a state machine: one reserve, its users, and runs of actions on them. An action whose demands are
    not met reverts and leaves everything as it is. */
module Market {
  import opened FixedPoint
  import opened Interest
  import opened RateStrategy
  import opened StableAverage
  import opened Records
  import opened ReserveSteps
  import opened UserSteps
  import opened Balances

  datatype State = State(reserve: Reserve, users: seq<User>)

  datatype Action =
    | Deposit(who: nat, amount: int, t: int)
    | Withdraw(who: nat, amount: int, t: int)
    | Borrow(who: nat, amount: int, mode: RateMode, t: int, now: int)
    | Repay(who: nat, amount: int, mode: RateMode, ownWallet: bool, t: int)
    | Swap(who: nat, mode: RateMode, t: int)
    | Rebalance(who: nat, t: int)
    | SetUseAsCollateral(who: nat, useAsCollateral: bool)
    | SetMarketRate(rate: int)
    | Read(now: int)

  predicate Enabled(s: Strategy, m: State, a: Action) {
    match a
    case Deposit(who, amount, t) => who < |m.users| && CanDeposit(s, m.reserve, amount, t)
    case Withdraw(who, amount, t) => who < |m.users| && CanWithdraw(s, m.reserve, m.users[who], amount, t)
    case Borrow(who, amount, mode, t, now) => who < |m.users| && CanBorrow(s, m.reserve, amount, t, now) && 0 < amount
    case Repay(who, amount, mode, _, t) => who < |m.users| && CanRepay(s, m.reserve, m.users[who], amount, mode, t)
    case Swap(who, mode, t) => who < |m.users| && CanSwap(s, m.reserve, m.users[who], mode, t)
    case Rebalance(who, t) => who < |m.users| && CanRebalance(s, m.reserve, m.users[who], t)
    case SetUseAsCollateral(who, _) => who < |m.users|
    case SetMarketRate(rate) => 0 <= rate
    case Read(now) => m.reserve.lastUpdateTimestamp <= now && Readable(m.reserve)
  }

  /** Sound records, none newer than the reserve. */
  predicate SoundState(m: State) {
    && Sound(m.reserve) && 0 <= m.reserve.lastUpdateTimestamp
    && forall i :: 0 <= i < |m.users| ==> SoundUser(m.users[i], m.reserve.lastUpdateTimestamp)
  }

  /** A reserve as the pool initialises it: both indices at one ray, nothing else. */
  function FreshReserve(marketStableRate: int, t: int): Reserve {
    Reserve(0, 0, 0, 0, 0, 0, 0, 0, 0, 0, 0, RAY, RAY, marketStableRate, t, 0)
  }

  /** The records after an enabled action. */
  function Apply(s: Strategy, m: State, a: Action): State
    requires SoundState(m)
  {
    if !Enabled(s, m, a) then m
    else
      var r := m.reserve;
      match a
      case Deposit(who, amount, t) =>
        var after := AfterDeposit(s, r, amount, t);
        DepositSound(s, r, amount, t);
        State(after, m.users[who := UserAfterDeposit(r, after, m.users[who], amount, t)])
      case Withdraw(who, amount, t) =>
        var after := AfterWithdraw(s, r, m.users[who], amount, t);
        WithdrawSound(s, r, m.users[who], amount, t);
        State(after, m.users[who := UserAfterWithdraw(r, after, m.users[who], amount, t)])
      case Borrow(who, amount, mode, t, now) =>
        var after := AfterBorrow(s, r, amount, mode, t, now);
        BorrowSound(s, r, amount, mode, t, now);
        UserDebtNonNegative(m.users[who], r.lastUpdateTimestamp, t);
        State(after, m.users[who := UserAfterBorrow(r, after, m.users[who], amount, mode, t, now)])
      case Repay(who, amount, mode, ownWallet, t) =>
        var after := AfterRepay(s, r, m.users[who], amount, mode, t);
        RepaySound(s, r, m.users[who], amount, mode, t);
        State(after, m.users[who := UserAfterRepay(r, after, m.users[who], amount, mode, ownWallet, t, t)])
      case Swap(who, mode, t) =>
        var after := AfterSwap(s, r, m.users[who], mode, t);
        SwapSoundIff(s, r, m.users[who], mode, t);
        SwapHasDebt(s, r, m.users[who], mode, t);
        State(after, m.users[who := UserAfterSwap(r, after, m.users[who], mode, t)])
      case Rebalance(who, t) =>
        var after := AfterRebalance(s, r, m.users[who], t);
        RebalanceSoundIff(s, r, m.users[who], t);
        State(after, m.users[who := UserAfterRebalance(r, after, m.users[who], t)])
      case SetUseAsCollateral(who, useAsCollateral) =>
        State(r, m.users[who := UserAfterSetUseAsCollateral(m.users[who], useAsCollateral)])
      case SetMarketRate(rate) => State(r.(marketStableRate := rate), m.users)
      case Read(now) => State(Aged(r, now), UsersRead(r, m.users, now))
  }

  function UsersRead(r: Reserve, users: seq<User>, now: int): seq<User> {
    seq(|users|, i requires 0 <= i < |users| => UserRead(r, users[i], now))
  }

  // ---------- One action ----------

  lemma UserDebtNonNegative(u: User, last: int, t: int)
    requires SoundUser(u, last) && last <= t
    ensures SoundUser(u, t) && 0 <= u.principalStableDebt <= UserStableDebt(u, t)
  {
    StableDebtGrows(u.principalStableDebt, u.stableBorrowRate, u.stableRateLastUpdated, t, t);
  }

  lemma UserBalancesNonNegative(r: Reserve, u: User, t: int)
    requires Sound(r) && r.lastUpdateTimestamp <= t && SoundUser(u, t)
    ensures 0 <= VariableDebtBalance(r, u, t) && 0 <= ATokenBalance(r, u, t) && 0 <= UserStableDebt(u, t)
  {
    hide RayMul, LinearInterest, CompoundedInterest, UserStableDebt;
    UserDebtNonNegative(u, t, t);
    LinearAtLeastRay(r.liquidityRate, t, r.lastUpdateTimestamp);
    CompoundedAtLeastRay(r.variableBorrowRate, t, r.lastUpdateTimestamp);
    GrowsBy(LinearInterest(r.liquidityRate, t, r.lastUpdateTimestamp), r.liquidityIndex);
    GrowsBy(CompoundedInterest(r.variableBorrowRate, t, r.lastUpdateTimestamp), r.variableBorrowIndex);
    RayMulRounds(u.scaledVariableDebt,
                 NormalizedDebt(r.variableBorrowRate, r.variableBorrowIndex, r.lastUpdateTimestamp, t));
    RayMulRounds(u.scaledATokenBalance, NormalizedIncome(r, t));
  }

  /** What an action leaves behind: a sound reserve whose indices have not fallen, updated at the time of the action,
      and a sound user. */
  predicate Advances(r: Reserve, after: Reserve, e: User, t: int) {
    && Sound(after) && after.lastUpdateTimestamp == t
    && r.liquidityIndex <= after.liquidityIndex && r.variableBorrowIndex <= after.variableBorrowIndex
    && SoundUser(e, t)
  }

  lemma DepositAdvances(s: Strategy, r: Reserve, u: User, amount: int, t: int)
    requires CanDeposit(s, r, amount, t) && SoundUser(u, t)
    ensures RAY <= AfterDeposit(s, r, amount, t).liquidityIndex
    ensures
      var after := AfterDeposit(s, r, amount, t);
      Advances(r, after, UserAfterDeposit(r, after, u, amount, t), t)
  {
    DepositSound(s, r, amount, t);
    IndicesAccrue(r, t);
    UserBalancesNonNegative(r, u, t);
    DepositUser(s, r, u, amount, t);
    hide RayMul, RayDiv, LiquidityIndexAt, VariableBorrowIndexAt, VariableDebtBalance, ATokenBalance, UserStableDebt,
      Repriced, TotalStableDebtAt, ScaledATokenBalance;
  }

  lemma WithdrawAdvances(s: Strategy, r: Reserve, u: User, amount: int, t: int)
    requires CanWithdraw(s, r, u, amount, t)
    ensures RAY <= AfterWithdraw(s, r, u, amount, t).liquidityIndex
    ensures
      var after := AfterWithdraw(s, r, u, amount, t);
      Advances(r, after, UserAfterWithdraw(r, after, u, amount, t), t)
  {
    WithdrawSound(s, r, u, amount, t);
    IndicesAccrue(r, t);
    UserBalancesNonNegative(r, u, t);
    WithdrawUser(s, r, u, amount, t);
    hide RayMul, RayDiv, LiquidityIndexAt, VariableBorrowIndexAt, VariableDebtBalance, ATokenBalance, UserStableDebt,
      Repriced, TotalStableDebtAt, ScaledATokenBalance, WithdrawnAmount;
  }

  lemma BorrowAdvances(s: Strategy, r: Reserve, u: User, amount: int, mode: RateMode, t: int, now: int)
    requires CanBorrow(s, r, amount, t, now) && SoundUser(u, t) && 0 < amount
    ensures RAY <= AfterBorrow(s, r, amount, mode, t, now).variableBorrowIndex && 0 <= UserStableDebt(u, t)
    ensures
      var after := AfterBorrow(s, r, amount, mode, t, now);
      Advances(r, after, UserAfterBorrow(r, after, u, amount, mode, t, now), t)
  {
    hide RayMul, RayDiv, LiquidityIndexAt, VariableBorrowIndexAt, VariableDebtBalance, ATokenBalance, UserStableDebt,
      Repriced, TotalStableDebtAt, StableDebtBalance, UserStableRate, NormalizedDebt, AverageStableRate,
      UtilizationRate;
    BorrowSound(s, r, amount, mode, t, now);
    BorrowSettledSound(s, r, amount, mode, t);
    IndicesAccrue(r, t);
    DebtsAt(r, t);
    BorrowedVariable(r, amount, t);
    UserDebtNonNegative(u, t, t);
    UserDebtNonNegative(u, t, now);
    var after := AfterBorrow(s, r, amount, mode, t, now);
    var e := UserAfterBorrow(r, after, u, amount, mode, t, now);
    if mode == Stable {
      var until := UserStableDebt(u, t);
      UserRateIsAverage(until, u.stableBorrowRate, amount, r.stableBorrowRate);
      AddedRate(u.stableBorrowRate, until, amount, r.stableBorrowRate);
      StableDebtGrows(until + amount, e.stableBorrowRate, t, now, now);
    }
    BorrowerBalances(after, u, e, now);
  }

  /** Only the scaled variable debt and the reserve enter the variable debt of the new record. */
  lemma BorrowerBalances(after: Reserve, u: User, e: User, now: int)
    requires Sound(after) && after.lastUpdateTimestamp <= now
    requires 0 <= u.scaledATokenBalance && 0 <= e.scaledVariableDebt
    ensures 0 <= ATokenBalance(after, u, now)
    ensures forall x: User :: x.scaledVariableDebt == e.scaledVariableDebt ==> 0 <= VariableDebtBalance(after, x, now)
  {
    var plain := User(u.scaledATokenBalance, 0, 0, 0, 0, e.scaledVariableDebt, 0, 0, now, false, 0);
    UserBalancesNonNegative(after, plain, now);
    hide RayMul, NormalizedDebt;
  }

  lemma RepayAdvances(s: Strategy, r: Reserve, u: User, amount: int, mode: RateMode, ownWallet: bool, t: int)
    requires CanRepay(s, r, u, amount, mode, t) && 0 <= t
    ensures RAY <= AfterRepay(s, r, u, amount, mode, t).variableBorrowIndex
    ensures
      var after := AfterRepay(s, r, u, amount, mode, t);
      Advances(r, after, UserAfterRepay(r, after, u, amount, mode, ownWallet, t, t), t)
  {
    RepaySound(s, r, u, amount, mode, t);
    IndicesAccrue(r, t);
    UserBalancesNonNegative(r, u, t);
    if mode == Variable {
      RepayMovesTogether(s, r, u, amount, ownWallet, t);
    }
    hide RayMul, RayDiv, LiquidityIndexAt, VariableBorrowIndexAt, VariableDebtBalance, ATokenBalance, UserStableDebt,
      Repriced, TotalStableDebtAt, RepaidAmount, StableRepaid;
  }

  lemma SwapAdvances(s: Strategy, r: Reserve, u: User, mode: RateMode, t: int)
    requires CanSwap(s, r, u, mode, t) && 0 <= t
    ensures mode == Variable ==> 0 < UserStableDebt(u, t) + VariableDebtBalance(r, u, t)
    ensures RAY <= AfterSwap(s, r, u, mode, t).variableBorrowIndex
    ensures
      var after := AfterSwap(s, r, u, mode, t);
      Advances(r, after, UserAfterSwap(r, after, u, mode, t), t)
  {
    SwapSoundIff(s, r, u, mode, t);
    IndicesAccrue(r, t);
    UserBalancesNonNegative(r, u, t);
    SwapMovesTogether(s, r, u, mode, t);
    hide RayMul, RayDiv, LiquidityIndexAt, VariableBorrowIndexAt, VariableDebtBalance, ATokenBalance, UserStableDebt,
      Repriced, TotalStableDebtAt, UserStableRate, AverageStableRate;
    if mode == Variable {
      UserRateIsAverage(UserStableDebt(u, t), u.stableBorrowRate, VariableDebtBalance(r, u, t), r.stableBorrowRate);
      AddedRate(u.stableBorrowRate, UserStableDebt(u, t), VariableDebtBalance(r, u, t), r.stableBorrowRate);
    }
  }

  lemma RebalanceAdvances(s: Strategy, r: Reserve, u: User, t: int)
    requires CanRebalance(s, r, u, t)
    ensures
      var after := AfterRebalance(s, r, u, t);
      Advances(r, after, UserAfterRebalance(r, after, u, t), t)
  {
    RebalanceSoundIff(s, r, u, t);
    IndicesAccrue(r, t);
    UserBalancesNonNegative(r, u, t);
    hide RayMul, RayDiv, LiquidityIndexAt, VariableBorrowIndexAt, VariableDebtBalance, ATokenBalance, UserStableDebt,
      Repriced, TotalStableDebtAt, RebalancedRate;
  }

  lemma ReadAdvances(m: State, now: int)
    requires SoundState(m) && m.reserve.lastUpdateTimestamp <= now && Readable(m.reserve)
    ensures Sound(Aged(m.reserve, now))
    ensures forall i :: 0 <= i < |m.users| ==>
      SoundUser(UserRead(m.reserve, m.users[i], now), m.reserve.lastUpdateTimestamp)
  {
    AgedSound(m.reserve, now);
    hide Aged, UserStableDebt, VariableDebtBalance, ATokenBalance;
    forall i | 0 <= i < |m.users|
      ensures SoundUser(UserRead(m.reserve, m.users[i], now), m.reserve.lastUpdateTimestamp)
    {
      UserBalancesNonNegative(m.reserve, m.users[i], now);
    }
  }

  /** Every action, enabled or not, keeps the market sound and never lowers an index. */
  lemma StepSound(s: Strategy, m: State, a: Action)
    requires SoundState(m)
    ensures
      var n := Apply(s, m, a);
      && SoundState(n) && |n.users| == |m.users|
      && m.reserve.liquidityIndex <= n.reserve.liquidityIndex
      && m.reserve.variableBorrowIndex <= n.reserve.variableBorrowIndex
      && m.reserve.lastUpdateTimestamp <= n.reserve.lastUpdateTimestamp
  {
    hide AfterDeposit, AfterWithdraw, AfterBorrow, AfterRepay, AfterSwap, AfterRebalance, UserAfterRebalance,
      UserAfterDeposit, UserAfterWithdraw, UserAfterBorrow, UserAfterRepay, UserAfterSwap, UserStableDebt,
      VariableDebtBalance, RepaidAmount, WithdrawnAmount, ATokenBalance, TotalStableDebtAt;
    if Enabled(s, m, a) {
      var r := m.reserve;
      var t :=
        match a
        case SetMarketRate(_) => r.lastUpdateTimestamp
        case Read(_) => r.lastUpdateTimestamp
        case SetUseAsCollateral(_, _) => r.lastUpdateTimestamp
        case _ => a.t;
      OthersStaySound(m, t);
      match a {
        case Deposit(who, amount, t) => DepositAdvances(s, r, m.users[who], amount, t);
        case Withdraw(who, amount, t) => WithdrawAdvances(s, r, m.users[who], amount, t);
        case Borrow(who, amount, mode, t, now) => BorrowAdvances(s, r, m.users[who], amount, mode, t, now);
        case Repay(who, amount, mode, ownWallet, t) => RepayAdvances(s, r, m.users[who], amount, mode, ownWallet, t);
        case Swap(who, mode, t) => SwapAdvances(s, r, m.users[who], mode, t);
        case Rebalance(who, t) => RebalanceAdvances(s, r, m.users[who], t);
        case SetUseAsCollateral(who, useAsCollateral) =>
        case SetMarketRate(rate) =>
        case Read(now) => ReadAdvances(m, now);
      }
    }
  }

  lemma OthersStaySound(m: State, t: int)
    requires SoundState(m) && m.reserve.lastUpdateTimestamp <= t
    ensures forall i :: 0 <= i < |m.users| ==> SoundUser(m.users[i], t)
  {
  }

  // ---------- Runs ----------

  function Run(s: Strategy, m: State, actions: seq<Action>): State
    requires SoundState(m)
    ensures SoundState(Run(s, m, actions))
    decreases |actions|
  {
    if actions == [] then m
    else
      var before := Run(s, m, actions[..|actions| - 1]);
      StepSound(s, before, actions[|actions| - 1]);
      Apply(s, before, actions[|actions| - 1])
  }

  /** Running some actions and then others is running all of them, and a run of one action applies it. */
  lemma {:induction false} RunComposes(s: Strategy, m: State, first: seq<Action>, second: seq<Action>)
    requires SoundState(m)
    ensures Run(s, m, first + second) == Run(s, Run(s, m, first), second)
    ensures |second| == 1 ==> Run(s, m, second) == Apply(s, m, second[0])
    decreases |second|
  {
    hide Apply, SoundState;
    if second == [] {
      assert first + second == first;
    } else {
      var k := |second| - 1;
      RunComposes(s, m, first, second[..k]);
      assert (first + second)[..|first + second| - 1] == first + second[..k];
    }
  }

  /** Over every run, whatever its actions, the market stays sound and neither index nor the clock ever falls. */
  lemma {:induction false} RunSound(s: Strategy, m: State, actions: seq<Action>)
    requires SoundState(m)
    ensures
      var n := Run(s, m, actions);
      && SoundState(n) && |n.users| == |m.users|
      && m.reserve.liquidityIndex <= n.reserve.liquidityIndex
      && m.reserve.variableBorrowIndex <= n.reserve.variableBorrowIndex
      && m.reserve.lastUpdateTimestamp <= n.reserve.lastUpdateTimestamp
    decreases |actions|
  {
    if actions == [] {
    } else {
      var k := |actions| - 1;
      RunSound(s, m, actions[..k]);
      StepSound(s, Run(s, m, actions[..k]), actions[k]);
    }
  }

  /** A freshly initialised market is sound, so everything proved of sound markets holds in every market reachable
      from it. It has no liquidity and no debt, and scaled amounts are worth themselves at any later time. */
  lemma FreshMarketSound(marketStableRate: int, t: int, users: seq<User>)
    requires 0 <= marketStableRate && 0 <= t
    requires forall i :: 0 <= i < |users| ==> SoundUser(users[i], t)
    ensures SoundState(State(FreshReserve(marketStableRate, t), users))
    ensures
      var r := FreshReserve(marketStableRate, t);
      && r.lastUpdateTimestamp == t && r.marketStableRate == marketStableRate
      && r.totalLiquidity == 0 == r.principalStableDebt && r.scaledVariableDebt == 0
      && forall u: User, later: int :: t <= later && 0 <= u.scaledATokenBalance && 0 <= u.scaledVariableDebt ==>
           && ATokenBalance(r, u, later) == u.scaledATokenBalance
           && VariableDebtBalance(r, u, later) == u.scaledVariableDebt
  {
    forall u: User, later: int | t <= later && 0 <= u.scaledATokenBalance && 0 <= u.scaledVariableDebt
      ensures ATokenBalance(FreshReserve(marketStableRate, t), u, later) == u.scaledATokenBalance
      ensures VariableDebtBalance(FreshReserve(marketStableRate, t), u, later) == u.scaledVariableDebt
    {
      RayMulUnit(u.scaledATokenBalance);
      RayMulUnit(u.scaledVariableDebt);
    }
  }
}
