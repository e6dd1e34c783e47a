/** The average stable rate of the reserve against the stable rates of its users, at one timestamp. */
module StableTracking {
  import opened FixedPoint
  import opened Interest
  import opened RateStrategy
  import opened StableAverage
  import opened Records
  import opened ReserveSteps
  import opened UserSteps
  import opened Market
  import opened Conservation

  /** A user's stable rate times the stable debt accrued to time t. */
  function Weight(t: int): User -> int {
    (u: User) => u.stableBorrowRate * UserStableDebt(u, t)
  }

  /** The average rate times the total debt accrued to time t. */
  function ReserveWeight(r: Reserve, t: int): int {
    r.averageStableBorrowRate * TotalStableDebtAt(r, t)
  }

  /** How far the reserve's weight is above the weights of all users together. */
  function RateDrift(m: State, t: int): int {
    ReserveWeight(m.reserve, t) - SumOf(Weight(t), m.users)
  }

  /** What an action does to the stable debt of its user and of the reserve. It adds an amount at the reserve's stable
      rate, where a swap builds the new average and the new debt on recorded debts instead of accrued ones; it removes
      an amount at the user's own rate; it overwrites the user's principal; it gives both a new rate; or it keeps
      all. */
  datatype Change =
    | Adds(amount: int, recorded: int, current: int)
    | Removes(amount: int)
    | Overwrites(principal: int)
    | Rerates(rate: int)
    | Keeps

  function ChangeOf(s: Strategy, m: State, a: Action): Change {
    if !Enabled(s, m, a) then Keeps
    else
      var r := m.reserve;
      match a
      case Deposit(who, _, t) => Overwrites(VariableDebtBalance(r, m.users[who], t))
      case Borrow(who, amount, Stable, t, _) => Adds(amount, TotalStableDebtAt(r, t), UserStableDebt(m.users[who], t))
      case Repay(who, amount, Stable, _, t) => Removes(RepaidAmount(r, m.users[who], amount, Stable, t))
      case Repay(who, _, Variable, _, t) => Overwrites(UserStableDebt(m.users[who], t))
      case Swap(who, Variable, t) =>
        Adds(VariableDebtBalance(r, m.users[who], t), r.totalStableDebt, m.users[who].currentStableDebt)
      case Swap(who, Stable, t) => Removes(UserStableDebt(m.users[who], t))
      case Rebalance(who, t) => Rerates(RebalancedRate(r, m.users[who], t))
      case _ => Keeps
  }

  /** Whatever moves stable debt or its rate happens at time t. */
  predicate AtTime(a: Action, t: int) {
    match a
    case Borrow(_, _, Stable, t', _) => t' == t
    case Repay(_, _, Stable, _, t') => t' == t
    case Swap(_, _, t') => t' == t
    case Rebalance(_, t') => t' == t
    case _ => true
  }

  /** Removing an amount leaves no average: nothing is left, or only a negative rate would be. */
  predicate Erases(r: Reserve, u: User, amount: int, t: int) {
    var total := TotalStableDebtAt(r, t);
    total <= amount || AverageStableRate(r.averageStableBorrowRate, total, -amount, u.stableBorrowRate) < 0
  }

  /** By how much a truncated average times a debt may fall short of the exact weight: less than the debt. */
  function Short(debt: int): int {
    if debt == 0 then 0 else debt - 1
  }

  // ---------- One action ----------

  predicate Added(m: State, n: State, who: nat, c: Change, t: int)
    requires who < |m.users| == |n.users| && c.Adds?
  {
    var r, r', u, e := m.reserve, n.reserve, m.users[who], n.users[who];
    && n.users == m.users[who := e]
    && 0 <= c.amount && 0 <= c.recorded
    && 0 <= UserStableDebt(u, t) && 0 < UserStableDebt(u, t) + c.amount
    && TotalStableDebtAt(r', t) == TotalStableDebtAt(r, t) + c.amount
    && r'.averageStableBorrowRate
       == AverageStableRate(r.averageStableBorrowRate, c.recorded, c.amount, r.stableBorrowRate)
    && UserStableDebt(e, t) == c.current + c.amount
    && e.stableBorrowRate
       == UserStableRate(UserStableDebt(u, t), u.stableBorrowRate, c.amount, r.stableBorrowRate)
  }

  predicate Removed(m: State, n: State, who: nat, amount: int, t: int)
    requires who < |m.users| == |n.users|
  {
    var r, r', u, e := m.reserve, n.reserve, m.users[who], n.users[who];
    && n.users == m.users[who := e]
    && 0 <= amount
    && Weight(t)(e) == u.stableBorrowRate * (UserStableDebt(u, t) - amount)
    && (Erases(r, u, amount, t) ==> r'.averageStableBorrowRate == 0)
    && (!Erases(r, u, amount, t) ==>
          && TotalStableDebtAt(r', t) == TotalStableDebtAt(r, t) - amount
          && r'.averageStableBorrowRate
             == AverageStableRate(r.averageStableBorrowRate, TotalStableDebtAt(r, t), -amount, u.stableBorrowRate))
  }

  predicate Kept(m: State, n: State, t: int) {
    && ReserveWeight(n.reserve, t) == ReserveWeight(m.reserve, t)
    && |n.users| == |m.users|
    && forall i :: 0 <= i < |m.users| ==> Weight(t)(n.users[i]) == Weight(t)(m.users[i])
  }

  predicate Overwritten(m: State, n: State, who: nat, principal: int, t: int)
    requires who < |m.users| == |n.users|
  {
    var u, e := m.users[who], n.users[who];
    && n.users == m.users[who := e]
    && ReserveWeight(n.reserve, t) == ReserveWeight(m.reserve, t)
    && Weight(t)(e)
       == u.stableBorrowRate * StableDebtBalance(principal, u.stableBorrowRate, u.stableRateLastUpdated, t)
  }

  predicate Rerated(m: State, n: State, who: nat, rate: int, t: int)
    requires who < |m.users| == |n.users|
  {
    && n.users == m.users[who := n.users[who]]
    && ReserveWeight(n.reserve, t) == rate * TotalStableDebtAt(m.reserve, t)
    && Weight(t)(n.users[who]) == rate * UserStableDebt(m.users[who], t)
  }

  lemma BorrowAdds(s: Strategy, m: State, a: Action)
    requires SoundState(m) && Enabled(s, m, a) && a.Borrow? && a.mode == Stable
    ensures |Apply(s, m, a).users| == |m.users| && Added(m, Apply(s, m, a), a.who, ChangeOf(s, m, a), a.t)
  {
    hide AfterBorrow, UserAfterBorrow, UserStableRate, AverageStableRate, UserStableDebt, TotalStableDebtAt;
    var r, u := m.reserve, m.users[a.who];
    UserDebtNonNegative(u, r.lastUpdateTimestamp, a.t);
    DebtsAt(r, a.t);
    BorrowSound(s, r, a.amount, Stable, a.t, a.now);
    BorrowedReserve(s, r, a.amount, a.t, a.now);
    BorrowedUser(r, AfterBorrow(s, r, a.amount, Stable, a.t, a.now), u, a.amount, a.t, a.now);
    StableReadAtOnce(AfterBorrow(s, r, a.amount, Stable, a.t, a.now), a.t);
  }

  lemma BorrowedReserve(s: Strategy, r: Reserve, amount: int, t: int, now: int)
    requires CanBorrow(s, r, amount, t, now)
    ensures
      var e := AfterBorrow(s, r, amount, Stable, t, now);
      && e.principalStableDebt == TotalStableDebtAt(r, t) + amount && e.totalStableDebtLastUpdated == t
      && e.averageStableBorrowRate
         == AverageStableRate(r.averageStableBorrowRate, TotalStableDebtAt(r, t), amount, r.stableBorrowRate)
  {
    BorrowSettledSound(s, r, amount, Stable, t);
    hide RayMul, RayDiv, LiquidityIndexAt, VariableBorrowIndexAt, TotalStableDebt, UtilizationRate, InterestRates,
      AverageStableRate, NormalizedDebt;
  }

  lemma BorrowedUser(r: Reserve, after: Reserve, u: User, amount: int, t: int, now: int)
    requires after.variableBorrowIndex != 0 && UserStableDebt(u, t) + amount != 0
    ensures
      var e := UserAfterBorrow(r, after, u, amount, Stable, t, now);
      && UserStableDebt(e, t) == UserStableDebt(u, t) + amount
      && e.stableBorrowRate == UserStableRate(UserStableDebt(u, t), u.stableBorrowRate, amount, r.stableBorrowRate)
  {
    hide RayMul, UserStableRate, VariableDebtBalance, ATokenBalance, CompoundedInterest;
  }

  lemma SwapAdds(s: Strategy, m: State, a: Action)
    requires SoundState(m) && Enabled(s, m, a) && a.Swap? && a.mode == Variable
    ensures |Apply(s, m, a).users| == |m.users|
    ensures Added(m, Apply(s, m, a), a.who, ChangeOf(s, m, a), a.t)
  {
    SwapHasDebt(s, m.reserve, m.users[a.who], a.mode, a.t);
    RepaidAll(m.reserve, m.users[a.who], a.t);
    StepSound(s, m, a);
    UserDebtNonNegative(m.users[a.who], m.reserve.lastUpdateTimestamp, a.t);
    hide RayMul, RayDiv, Repriced, UserStableRate, AverageStableRate, VariableDebtBalance, ATokenBalance,
      LiquidityIndexAt, VariableBorrowIndexAt;
    var n := Apply(s, m, a);
    StableDebtGrows(n.reserve.principalStableDebt, n.reserve.averageStableBorrowRate, a.t, a.t, a.t);
    hide TotalStableDebt;
  }

  lemma RepayRemoves(s: Strategy, m: State, a: Action)
    requires SoundState(m) && Enabled(s, m, a) && a.Repay? && a.mode == Stable
    ensures |Apply(s, m, a).users| == |m.users|
    ensures Removed(m, Apply(s, m, a), a.who, RepaidAmount(m.reserve, m.users[a.who], a.amount, Stable, a.t), a.t)
  {
    hide AfterRepay, UserAfterRepay, AverageStableRate, Weight, UserStableDebt, Erases, TotalStableDebtAt,
      RepaidAmount;
    var r, u, e := m.reserve, m.users[a.who], AfterRepay(s, m.reserve, m.users[a.who], a.amount, Stable, a.t);
    RepaidUser(s, m, a);
    RepaidReserve(s, r, u, a.amount, a.t);
    RepaySound(s, r, u, a.amount, Stable, a.t);
    StableReadAtOnce(e, a.t);
  }

  lemma RepaidReserve(s: Strategy, r: Reserve, u: User, amount: int, t: int)
    requires CanRepay(s, r, u, amount, Stable, t)
    ensures
      var e, paid := AfterRepay(s, r, u, amount, Stable, t), RepaidAmount(r, u, amount, Stable, t);
      && e.totalStableDebtLastUpdated == t
      && (Erases(r, u, paid, t) ==> e.averageStableBorrowRate == 0)
      && (!Erases(r, u, paid, t) ==>
            && e.principalStableDebt == TotalStableDebtAt(r, t) - paid
            && e.averageStableBorrowRate
               == AverageStableRate(r.averageStableBorrowRate, TotalStableDebtAt(r, t), -paid, u.stableBorrowRate))
  {
    hide RayMul, RayDiv, LiquidityIndexAt, VariableBorrowIndexAt, TotalStableDebtAt, UserStableDebt, RepaidAmount,
      VariableDebtBalance, UtilizationRate, InterestRates, CanRepay;
  }

  lemma RepaidUser(s: Strategy, m: State, a: Action)
    requires SoundState(m) && Enabled(s, m, a) && a.Repay? && a.mode == Stable
    ensures
      var n, u := Apply(s, m, a), m.users[a.who];
      && |n.users| == |m.users| && n.users == m.users[a.who := n.users[a.who]]
      && Weight(a.t)(n.users[a.who])
         == u.stableBorrowRate * (UserStableDebt(u, a.t) - RepaidAmount(m.reserve, u, a.amount, Stable, a.t))
  {
    hide RayMul, RayDiv, AfterRepay, VariableDebtBalance, ATokenBalance, RepaidAmount, CompoundedInterest;
  }

  lemma SwapRemoves(s: Strategy, m: State, a: Action)
    requires SoundState(m) && Enabled(s, m, a) && a.Swap? && a.mode == Stable
    ensures |Apply(s, m, a).users| == |m.users|
    ensures Removed(m, Apply(s, m, a), a.who, UserStableDebt(m.users[a.who], a.t), a.t)
  {
    hide AfterSwap, UserAfterSwap, AverageStableRate, Weight, UserStableDebt, Erases, TotalStableDebtAt;
    var r, u := m.reserve, m.users[a.who];
    UserDebtNonNegative(u, r.lastUpdateTimestamp, a.t);
    SwapErases(s, r, u, a.t);
    var e := AfterSwap(s, r, u, Stable, a.t);
    SwappedUser(s, m, a);
    SwapLeavesRate(s, r, u, a.t);
    SwapSoundIff(s, r, u, Stable, a.t);
    StableReadAtOnce(e, a.t);
  }

  lemma StableReadAtOnce(e: Reserve, t: int)
    requires Sound(e) && e.totalStableDebtLastUpdated == t
    ensures TotalStableDebtAt(e, t) == e.principalStableDebt
  {
    StableDebtGrows(e.principalStableDebt, e.averageStableBorrowRate, t, t, t);
  }

  lemma SwapErases(s: Strategy, r: Reserve, u: User, t: int)
    requires CanSwap(s, r, u, Stable, t) && 0 <= UserStableDebt(u, t)
    ensures SwapComputes(s, r, u, Stable, t)
    ensures Erases(r, u, UserStableDebt(u, t), t) <==> UserStableDebt(u, t) == TotalStableDebtAt(r, t)
    ensures Erases(r, u, UserStableDebt(u, t), t) ==> SwappedRate(r, u, t) == 0
  {
    SwapRate(r, u, t);
    hide AverageStableRate, UserStableDebt, TotalStableDebtAt;
  }

  lemma SwappedUser(s: Strategy, m: State, a: Action)
    requires SoundState(m) && Enabled(s, m, a) && a.Swap? && a.mode == Stable
    ensures
      var n := Apply(s, m, a);
      && |n.users| == |m.users| && n.users == m.users[a.who := n.users[a.who]]
      && Weight(a.t)(n.users[a.who]) == 0
  {
    hide RayMul, RayDiv, AfterSwap, VariableDebtBalance, ATokenBalance, CompoundedInterest;
  }

  lemma OthersKeep(s: Strategy, m: State, a: Action, t: int)
    requires SoundState(m) && ChangeOf(s, m, a).Keeps?
    ensures Kept(m, Apply(s, m, a), t)
  {
    hide RayMul, RayDiv, Repriced, AverageStableRate, VariableDebtBalance, ATokenBalance, RepaidAmount,
      LiquidityIndexAt, VariableBorrowIndexAt, StableDebtBalance, TotalStableDebt, WithdrawnAmount;
    if Enabled(s, m, a) && a.Borrow? {
      BorrowSettledSound(s, m.reserve, a.amount, a.mode, a.t);
    }
  }

  lemma DepositOverwrites(s: Strategy, m: State, a: Action, t: int)
    requires SoundState(m) && Enabled(s, m, a) && a.Deposit?
    ensures |Apply(s, m, a).users| == |m.users|
    ensures Overwritten(m, Apply(s, m, a), a.who, VariableDebtBalance(m.reserve, m.users[a.who], a.t), t)
  {
    hide RayMul, RayDiv, Repriced, VariableDebtBalance, ATokenBalance, LiquidityIndexAt, VariableBorrowIndexAt,
      TotalStableDebt, ScaledATokenBalance, CompoundedInterest;
  }

  lemma RepayOverwrites(s: Strategy, m: State, a: Action, t: int)
    requires SoundState(m) && Enabled(s, m, a) && a.Repay? && a.mode == Variable
    ensures |Apply(s, m, a).users| == |m.users|
    ensures Overwritten(m, Apply(s, m, a), a.who, UserStableDebt(m.users[a.who], a.t), t)
  {
    hide RayMul, RayDiv, Repriced, VariableDebtBalance, ATokenBalance, LiquidityIndexAt, VariableBorrowIndexAt,
      TotalStableDebt, RepaidAmount, CompoundedInterest;
  }

  lemma RebalanceRerates(s: Strategy, m: State, a: Action)
    requires SoundState(m) && Enabled(s, m, a) && a.Rebalance?
    ensures |Apply(s, m, a).users| == |m.users|
    ensures Rerated(m, Apply(s, m, a), a.who, RebalancedRate(m.reserve, m.users[a.who], a.t), a.t)
  {
    hide RayMul, RayDiv, RebalancedRate, VariableDebtBalance, ATokenBalance, UserStableDebt, TotalStableDebtAt,
      LiquidityIndexAt, VariableBorrowIndexAt, UtilizationRate, InterestRates;
    RebalanceSoundIff(s, m.reserve, m.users[a.who], a.t);
    StableReadAtOnce(AfterRebalance(s, m.reserve, m.users[a.who], a.t), a.t);
    RebalancedUser(s, m, a);
  }

  lemma RebalancedUser(s: Strategy, m: State, a: Action)
    requires SoundState(m) && Enabled(s, m, a) && a.Rebalance?
    ensures |Apply(s, m, a).users| == |m.users|
    ensures UserStableDebt(Apply(s, m, a).users[a.who], a.t) == UserStableDebt(m.users[a.who], a.t)
  {
    hide AfterRebalance, VariableDebtBalance, ATokenBalance, RayMul, CompoundedInterest;
  }

  /** The new average times the new total, where the average was built on a recorded debt instead of the total. */
  lemma AddedReserveWeight(m: State, n: State, who: nat, c: Change, t: int)
    requires SoundState(m) && m.reserve.lastUpdateTimestamp <= t
    requires who < |m.users| == |n.users| && c.Adds? && Added(m, n, who, c, t)
    ensures
      var r, r' := m.reserve, n.reserve;
      var added := r.stableBorrowRate * c.amount;
      var stale := (r'.averageStableBorrowRate - r.averageStableBorrowRate) * (TotalStableDebtAt(r, t) - c.recorded);
      added - Short(c.recorded + c.amount) <= ReserveWeight(r', t) - ReserveWeight(r, t) - stale <= added
  {
    var r := m.reserve;
    if 0 < c.recorded + c.amount {
      AddedWeight(r.averageStableBorrowRate, c.recorded, c.amount, r.stableBorrowRate);
    }
    hide AverageStableRate, UserStableRate, TotalStableDebtAt, UserStableDebt;
    StaleWeight(r.averageStableBorrowRate, n.reserve.averageStableBorrowRate, TotalStableDebtAt(r, t), c.recorded,
                c.amount);
  }

  lemma StaleWeight(average: int, newAverage: int, total: int, recorded: int, amount: int)
    ensures newAverage * (total + amount) - average * total - (newAverage - average) * (total - recorded)
         == newAverage * (recorded + amount) - average * recorded
  {
    Distribute(newAverage, total, amount);
    Distribute(newAverage, recorded, amount);
    assert (newAverage - average) * (total - recorded)
        == newAverage * total - newAverage * recorded - average * total + average * recorded;
  }

  lemma AddedUserWeight(m: State, n: State, who: nat, c: Change, t: int)
    requires SoundState(m)
    requires who < |m.users| == |n.users| && c.Adds? && Added(m, n, who, c, t)
    ensures
      var u, e := m.users[who], n.users[who];
      var added := m.reserve.stableBorrowRate * c.amount;
      var stale := e.stableBorrowRate * (c.current - UserStableDebt(u, t));
      added - Short(UserStableDebt(u, t) + c.amount) <= Weight(t)(e) - Weight(t)(u) - stale <= added
  {
    var r, u, e := m.reserve, m.users[who], n.users[who];
    hide AverageStableRate, UserStableRate, TotalStableDebtAt, UserStableDebt;
    UserRateIsAverage(UserStableDebt(u, t), u.stableBorrowRate, c.amount, r.stableBorrowRate);
    AddedWeight(u.stableBorrowRate, UserStableDebt(u, t), c.amount, r.stableBorrowRate);
    Distribute(e.stableBorrowRate, c.current, UserStableDebt(u, t));
    Distribute(e.stableBorrowRate, c.current, c.amount);
    Distribute(e.stableBorrowRate, UserStableDebt(u, t), c.amount);
  }

  /** What building on recorded debts instead of accrued ones moves the drift by; nothing if they are the same. */
  function StaleDrift(r: Reserve, u: User, c: Change, t: int): int
    requires c.Adds?
  {
    var average := AverageStableRate(r.averageStableBorrowRate, c.recorded, c.amount, r.stableBorrowRate);
    var rate := AverageStableRate(u.stableBorrowRate, UserStableDebt(u, t), c.amount, r.stableBorrowRate);
    (average - r.averageStableBorrowRate) * (TotalStableDebtAt(r, t) - c.recorded)
    - rate * (c.current - UserStableDebt(u, t))
  }

  /** Added debt adds the same weight to the reserve and to the user, each short of it by less than its new debt. */
  lemma AddedDrift(m: State, n: State, who: nat, c: Change, t: int)
    requires SoundState(m) && m.reserve.lastUpdateTimestamp <= t
    requires who < |m.users| == |n.users| && c.Adds? && Added(m, n, who, c, t)
    ensures
      var stale := StaleDrift(m.reserve, m.users[who], c, t);
      -Short(c.recorded + c.amount) + stale <= RateDrift(n, t) - RateDrift(m, t)
      <= Short(UserStableDebt(m.users[who], t) + c.amount) + stale
  {
    AddedReserveWeight(m, n, who, c, t);
    AddedUserWeight(m, n, who, c, t);
    SumUpdate(Weight(t), m.users, who, n.users[who]);
    hide ReserveWeight, Weight, TotalStableDebtAt, UserStableDebt, SumOf, AverageStableRate, UserStableRate;
    UserRateIsAverage(UserStableDebt(m.users[who], t), m.users[who].stableBorrowRate, c.amount,
                      m.reserve.stableBorrowRate);
  }

  /** Removed debt takes its weight from the user exactly, and from the reserve within less than what is left; if
      nothing is left, the whole weight of the reserve goes. */
  lemma RemovedDrift(m: State, n: State, who: nat, amount: int, t: int)
    requires who < |m.users| == |n.users| && Removed(m, n, who, amount, t)
    ensures
      var moved := RateDrift(n, t) - RateDrift(m, t);
      var rest := TotalStableDebtAt(m.reserve, t) - amount;
      && (Erases(m.reserve, m.users[who], amount, t)
          ==> moved == m.users[who].stableBorrowRate * amount - ReserveWeight(m.reserve, t))
      && (!Erases(m.reserve, m.users[who], amount, t) ==> -Short(rest) <= moved <= Short(rest))
  {
    var r, u := m.reserve, m.users[who];
    var total := TotalStableDebtAt(r, t);
    SumUpdate(Weight(t), m.users, who, n.users[who]);
    Distribute(u.stableBorrowRate, UserStableDebt(u, t), amount);
    hide AverageStableRate, TotalStableDebtAt, UserStableDebt, SumOf;
    if !Erases(r, u, amount, t) {
      RemovedWeight(r.averageStableBorrowRate, total, amount, u.stableBorrowRate);
      RestWeight(total - amount, r.averageStableBorrowRate * total, u.stableBorrowRate * amount,
                 n.reserve.averageStableBorrowRate);
    }
  }

  lemma RestWeight(rest: int, weight: int, removed: int, rate: int)
    requires 0 < rest && 0 <= rate
    requires 0 <= weight - removed ==> weight - removed - rest < rate * rest <= weight - removed
    requires weight - removed < 0 ==> weight - removed <= rate * rest < weight - removed + rest
    ensures -rest < rate * rest - weight + removed < rest
  {
  }

  /** How far one action may move the drift, evaluated at time t, down and up. */
  function StepLow(s: Strategy, m: State, a: Action, t: int): int {
    match ChangeOf(s, m, a)
    case Adds(amount, recorded, current) =>
      -Short(recorded + amount) + StaleDrift(m.reserve, m.users[a.who], Adds(amount, recorded, current), t)
    case Removes(amount) =>
      if Erases(m.reserve, m.users[a.who], amount, t) then ErasedWeight(m, a, amount, t)
      else -Short(TotalStableDebtAt(m.reserve, t) - amount)
    case Overwrites(principal) => OverwrittenWeight(m.users[a.who], principal, t)
    case Rerates(rate) => ReratedWeight(m.reserve, m.users[a.who], rate, t)
    case Keeps => 0
  }

  function StepHigh(s: Strategy, m: State, a: Action, t: int): int {
    match ChangeOf(s, m, a)
    case Adds(amount, recorded, current) =>
      Short(UserStableDebt(m.users[a.who], t) + amount)
      + StaleDrift(m.reserve, m.users[a.who], Adds(amount, recorded, current), t)
    case Removes(amount) =>
      if Erases(m.reserve, m.users[a.who], amount, t) then ErasedWeight(m, a, amount, t)
      else Short(TotalStableDebtAt(m.reserve, t) - amount)
    case Overwrites(principal) => OverwrittenWeight(m.users[a.who], principal, t)
    case Rerates(rate) => ReratedWeight(m.reserve, m.users[a.who], rate, t)
    case Keeps => 0
  }

  /** What the user's removed debt weighs more than the whole debt of the reserve. */
  function ErasedWeight(m: State, a: Action, amount: int, t: int): int
    requires (a.Repay? || a.Swap?) && a.who < |m.users|
  {
    m.users[a.who].stableBorrowRate * amount - ReserveWeight(m.reserve, t)
  }

  /** What a user's debt weighs more before its principal is overwritten. */
  function OverwrittenWeight(u: User, principal: int, t: int): int {
    Weight(t)(u) - u.stableBorrowRate * StableDebtBalance(principal, u.stableBorrowRate, u.stableRateLastUpdated, t)
  }

  /** What a new rate adds to the weight of the reserve more than to the weight of the user. */
  function ReratedWeight(r: Reserve, u: User, rate: int, t: int): int {
    rate * TotalStableDebtAt(r, t) - ReserveWeight(r, t) - (rate * UserStableDebt(u, t) - Weight(t)(u))
  }

  /** Debt that an action adds moves the drift down by less than the reserve's new stable debt and up by less than the
      user's; debt that it removes, by less than what is left, or by exactly the difference of the weights if the
      average is erased. Overwriting a principal and rerating move it exactly by what they change, and all other
      actions do not move it. */
  lemma StepTracks(s: Strategy, m: State, a: Action, t: int)
    requires SoundState(m) && AtTime(a, t)
    ensures StepLow(s, m, a, t) <= RateDrift(Apply(s, m, a), t) - RateDrift(m, t) <= StepHigh(s, m, a, t)
  {
    match ChangeOf(s, m, a) {
      case Adds(_, _, _) => AddsTracks(s, m, a, t);
      case Removes(_) => RemovesTracks(s, m, a, t);
      case Overwrites(_) => OverwritesTracks(s, m, a, t);
      case Rerates(_) => ReratesTracks(s, m, a, t);
      case Keeps =>
        OthersKeep(s, m, a, t);
        SumSame(Weight(t), Apply(s, m, a).users, m.users);
        hide Apply, ReserveWeight, SumOf;
    }
  }

  lemma AddsTracks(s: Strategy, m: State, a: Action, t: int)
    requires SoundState(m) && AtTime(a, t) && ChangeOf(s, m, a).Adds?
    ensures StepLow(s, m, a, t) <= RateDrift(Apply(s, m, a), t) - RateDrift(m, t) <= StepHigh(s, m, a, t)
  {
    hide Apply, RateDrift, Added, VariableDebtBalance, TotalStableDebtAt, UserStableDebt, StaleDrift;
    if a.Borrow? {
      BorrowAdds(s, m, a);
    } else {
      SwapAdds(s, m, a);
    }
    AddedDrift(m, Apply(s, m, a), a.who, ChangeOf(s, m, a), t);
  }

  lemma RemovesTracks(s: Strategy, m: State, a: Action, t: int)
    requires SoundState(m) && AtTime(a, t) && ChangeOf(s, m, a).Removes?
    ensures StepLow(s, m, a, t) <= RateDrift(Apply(s, m, a), t) - RateDrift(m, t) <= StepHigh(s, m, a, t)
  {
    hide Apply, RateDrift, Removed, Erases, RepaidAmount, TotalStableDebtAt, UserStableDebt;
    if a.Repay? {
      RepayRemoves(s, m, a);
    } else {
      SwapRemoves(s, m, a);
    }
    RemovedDrift(m, Apply(s, m, a), a.who, ChangeOf(s, m, a).amount, t);
  }

  lemma OverwritesTracks(s: Strategy, m: State, a: Action, t: int)
    requires SoundState(m) && ChangeOf(s, m, a).Overwrites?
    ensures StepLow(s, m, a, t) == RateDrift(Apply(s, m, a), t) - RateDrift(m, t) == StepHigh(s, m, a, t)
  {
    hide Apply, VariableDebtBalance, UserStableDebt, StableDebtBalance, ReserveWeight, SumOf, Weight;
    if a.Deposit? {
      DepositOverwrites(s, m, a, t);
    } else {
      RepayOverwrites(s, m, a, t);
    }
    SumUpdate(Weight(t), m.users, a.who, Apply(s, m, a).users[a.who]);
  }

  lemma ReratesTracks(s: Strategy, m: State, a: Action, t: int)
    requires SoundState(m) && AtTime(a, t) && ChangeOf(s, m, a).Rerates?
    ensures StepLow(s, m, a, t) == RateDrift(Apply(s, m, a), t) - RateDrift(m, t) == StepHigh(s, m, a, t)
  {
    hide Apply, RebalancedRate, UserStableDebt, TotalStableDebtAt, ReserveWeight, SumOf, Weight;
    RebalanceRerates(s, m, a);
    SumUpdate(Weight(t), m.users, a.who, Apply(s, m, a).users[a.who]);
  }

  // ---------- Runs at one timestamp ----------

  /** A bound of every step at time t, summed over a run. */
  function RunBound(bound: (Strategy, State, Action, int) -> int, s: Strategy, m: State, actions: seq<Action>,
                    t: int): int
    requires SoundState(m)
    decreases |actions|
  {
    if actions == [] then 0
    else
      var k := |actions| - 1;
      RunBound(bound, s, m, actions[..k], t) + bound(s, Run(s, m, actions[..k]), actions[k], t)
  }

  /** Over every run that moves stable debt at one timestamp only, the average drifts from the rates of the users by at
      most the sums of the steps' bounds. */
  lemma {:induction false} RunTracks(s: Strategy, m: State, actions: seq<Action>, t: int)
    requires SoundState(m) && forall i :: 0 <= i < |actions| ==> AtTime(actions[i], t)
    ensures RunBound(StepLow, s, m, actions, t)
         <= RateDrift(Run(s, m, actions), t) - RateDrift(m, t)
         <= RunBound(StepHigh, s, m, actions, t)
    decreases |actions|
  {
    hide RateDrift, StepLow, StepHigh, Apply, AtTime;
    if actions != [] {
      var k := |actions| - 1;
      RunTracks(s, m, actions[..k], t);
      StepTracks(s, Run(s, m, actions[..k]), actions[k], t);
    }
  }

  /** A stable repayment of the whole recorded debt moves the drift by the whole difference between the user's rate and
      the average, so it stays what it was exactly if the two rates were the same. */
  lemma EmptyingRepayDrift(s: Strategy, m: State, a: Action)
    requires SoundState(m) && Enabled(s, m, a) && a.Repay? && a.mode == Stable
    requires 0 < TotalStableDebtAt(m.reserve, a.t) == RepaidAmount(m.reserve, m.users[a.who], a.amount, Stable, a.t)
    ensures
      var moved := RateDrift(Apply(s, m, a), a.t) - RateDrift(m, a.t);
      var gap := m.users[a.who].stableBorrowRate - m.reserve.averageStableBorrowRate;
      moved == gap * TotalStableDebtAt(m.reserve, a.t) && (moved == 0 <==> gap == 0)
  {
    var total := TotalStableDebtAt(m.reserve, a.t);
    StepTracks(s, m, a, a.t);
    hide Apply, TotalStableDebtAt, UserStableDebt, RepaidAmount, RateDrift;
    Distribute(total, m.users[a.who].stableBorrowRate, m.reserve.averageStableBorrowRate);
    var gap := m.users[a.who].stableBorrowRate - m.reserve.averageStableBorrowRate;
    if gap < 0 {
      MulMono(gap, -1, total);
    } else if 0 < gap {
      MulMono(1, gap, total);
    }
  }
}
