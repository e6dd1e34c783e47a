/** The scenario engine: the actions of a story, carried out one by one with the field-by-field calculations. */
module Stories {
  import opened RateStrategy
  import opened Records
  import opened ReserveSteps
  import opened ReserveMeaning
  import opened ReserveCalculations
  import opened UserSteps
  import opened UserMeaning
  import opened UserCalculations
  import opened Market
  import opened Conservation
  import opened StepSolvency

  /** Only the given user and the reserve change. */
  predicate OnlyUser(m: State, n: State, who: nat) {
    who < |m.users| == |n.users| && n.users == m.users[who := n.users[who]]
  }

  /** What an action does to the reserve and to its user if its demands are met; otherwise it does nothing. */
  ghost predicate CarriedOut(s: Strategy, m: State, a: Action, n: State)
    requires SoundState(m)
  {
    var r, after := m.reserve, n.reserve;
    match a
    case Deposit(who, amount, t) =>
      if who < |m.users| && CanDeposit(s, r, amount, t) then
        && OnlyUser(m, n, who) && Deposited(s, r, after, amount, t)
        && UserDeposited(r, after, m.users[who], n.users[who], amount, t)
      else n == m
    case Withdraw(who, amount, t) =>
      if who < |m.users| && CanWithdraw(s, r, m.users[who], amount, t) then
        && OnlyUser(m, n, who) && Withdrawn(s, r, m.users[who], after, amount, t)
        && UserWithdrew(r, after, m.users[who], n.users[who], amount, t)
      else n == m
    case Borrow(who, amount, mode, t, now) =>
      if who < |m.users| && CanBorrow(s, r, amount, t, now) && 0 < amount then
        && OnlyUser(m, n, who) && Borrowed(s, r, after, amount, mode, t, now)
        && UserBorrowed(r, after, m.users[who], n.users[who], amount, mode, t, now)
      else n == m
    case Repay(who, amount, mode, ownWallet, t) =>
      if who < |m.users| && CanRepay(s, r, m.users[who], amount, mode, t) then
        && OnlyUser(m, n, who) && Repaid(s, r, m.users[who], after, amount, mode, t)
        && UserRepaid(r, after, m.users[who], n.users[who], amount, mode, ownWallet, t, t)
      else n == m
    case Swap(who, mode, t) =>
      if who < |m.users| && CanSwap(s, r, m.users[who], mode, t) then
        && OnlyUser(m, n, who) && Swapped(s, r, m.users[who], after, mode, t)
        && UserSwapped(r, after, m.users[who], n.users[who], mode, t)
      else n == m
    case Rebalance(who, t) =>
      if who < |m.users| && CanRebalance(s, r, m.users[who], t) then
        && OnlyUser(m, n, who) && Rebalanced(s, r, m.users[who], after, t)
        && UserRebalanced(r, after, m.users[who], n.users[who], t)
      else n == m
    case SetUseAsCollateral(who, useAsCollateral) =>
      if who < |m.users| then
        && OnlyUser(m, n, who) && after == r
        && n.users[who] == m.users[who].(usageAsCollateralEnabled := useAsCollateral)
      else n == m
    case SetMarketRate(rate) =>
      n.users == m.users && after == (if 0 <= rate then r.(marketStableRate := rate) else r)
    case Read(now) =>
      if r.lastUpdateTimestamp <= now && Readable(r) then
        && IsRead(r, after, now) && |n.users| == |m.users|
        && forall i :: 0 <= i < |m.users| ==> UserIsRead(r, m.users[i], n.users[i], now)
      else n == m
  }

  lemma ReadIsCarriedOut(s: Strategy, m: State, now: int)
    requires SoundState(m)
    ensures CarriedOut(s, m, Read(now), Apply(s, m, Read(now)))
  {
    hide Aged, UserRead, UserIsRead, IsRead;
    if Enabled(s, m, Read(now)) {
      OthersStaySound(m, now);
      AgedIsRead(m.reserve, now);
      forall i | 0 <= i < |m.users|
        ensures UserIsRead(m.reserve, m.users[i], UserRead(m.reserve, m.users[i], now), now)
      {
        UserReadIs(m.reserve, m.users[i], now);
      }
    }
  }

  lemma EnabledComputes(s: Strategy, m: State, a: Action)
    requires Enabled(s, m, a)
    ensures a.Deposit? || a.Borrow? ==> m.reserve.lastUpdateTimestamp <= a.t
    ensures a.Swap? ==> SwapComputes(s, m.reserve, m.users[a.who], a.mode, a.t)
    ensures a.Rebalance? ==> RebalanceComputes(s, m.reserve, m.users[a.who], a.t)
  {
  }

  lemma SupplyIsCarriedOut(s: Strategy, m: State, a: Action)
    requires SoundState(m) && Enabled(s, m, a) && (a.Deposit? || a.Withdraw?)
    ensures CarriedOut(s, m, a, Apply(s, m, a))
  {
    hide AfterDeposit, AfterWithdraw, UserAfterDeposit, UserAfterWithdraw, Deposited, Withdrawn, UserDeposited,
      UserWithdrew, CanDeposit, CanWithdraw;
    var r, users := m.reserve, m.users;
    EnabledComputes(s, m, a);
    match a {
      case Deposit(who, amount, t) =>
        OthersStaySound(m, t);
        DepositIs(s, r, amount, t);
        UserDepositIs(s, r, users[who], amount, t);
      case Withdraw(who, amount, t) =>
        WithdrawIs(s, r, users[who], amount, t);
        UserWithdrawIs(s, r, users[who], amount, t);
    }
  }

  lemma LoanIsCarriedOut(s: Strategy, m: State, a: Action)
    requires SoundState(m) && Enabled(s, m, a) && (a.Borrow? || a.Repay?)
    ensures CarriedOut(s, m, a, Apply(s, m, a))
  {
    hide AfterBorrow, AfterRepay, UserAfterBorrow, UserAfterRepay, Borrowed, Repaid, UserBorrowed, UserRepaid,
      CanBorrow, CanRepay, UserStableDebt;
    var r, users := m.reserve, m.users;
    EnabledComputes(s, m, a);
    match a {
      case Borrow(who, amount, mode, t, now) =>
        OthersStaySound(m, t);
        BorrowIs(s, r, amount, mode, t, now);
        UserBorrowIs(s, r, users[who], amount, mode, t, now);
      case Repay(who, amount, mode, ownWallet, t) =>
        RepayIs(s, r, users[who], amount, mode, t);
        UserRepayIs(s, r, users[who], amount, mode, ownWallet, t, t);
    }
  }

  lemma RateChangeIsCarriedOut(s: Strategy, m: State, a: Action)
    requires SoundState(m) && Enabled(s, m, a) && (a.Swap? || a.Rebalance?)
    ensures CarriedOut(s, m, a, Apply(s, m, a))
  {
    hide AfterSwap, AfterRebalance, UserAfterSwap, UserAfterRebalance, Swapped, Rebalanced, UserSwapped,
      UserRebalanced, CanSwap, CanRebalance, UserStableDebt, VariableDebtBalance;
    var r, users := m.reserve, m.users;
    EnabledComputes(s, m, a);
    match a {
      case Swap(who, mode, t) =>
        SwapIs(s, r, users[who], mode, t);
        UserSwapIs(s, r, users[who], mode, t);
      case Rebalance(who, t) =>
        RebalanceIs(s, r, users[who], t);
        UserRebalanceIs(s, r, users[who], t);
    }
  }

  lemma OtherIsCarriedOut(s: Strategy, m: State, a: Action)
    requires SoundState(m) && (!Enabled(s, m, a) || a.SetUseAsCollateral? || a.SetMarketRate?)
    ensures CarriedOut(s, m, a, Apply(s, m, a))
  {
  }

  lemma ActionIsCarriedOut(s: Strategy, m: State, a: Action)
    requires SoundState(m)
    ensures CarriedOut(s, m, a, Apply(s, m, a))
  {
    hide CarriedOut, Apply, Enabled, SoundState;
    if !Enabled(s, m, a) || a.SetUseAsCollateral? || a.SetMarketRate? {
      OtherIsCarriedOut(s, m, a);
    } else if a.Deposit? || a.Withdraw? {
      SupplyIsCarriedOut(s, m, a);
    } else if a.Borrow? || a.Repay? {
      LoanIsCarriedOut(s, m, a);
    } else if a.Swap? || a.Rebalance? {
      RateChangeIsCarriedOut(s, m, a);
    } else {
      ReadIsCarriedOut(s, m, a.now);
    }
  }

  /** One action of a story, carried out by the field-by-field calculations. */
  method ExecuteAction(s: Strategy, m: State, a: Action) returns (n: State)
    requires SoundState(m)
    ensures n == Apply(s, m, a)
    ensures CarriedOut(s, m, a, n)
    ensures SoundState(n) && |n.users| == |m.users| && m.reserve.lastUpdateTimestamp <= n.reserve.lastUpdateTimestamp
    ensures m.reserve.liquidityIndex <= n.reserve.liquidityIndex
    ensures m.reserve.variableBorrowIndex <= n.reserve.variableBorrowIndex
    ensures Cash(n) == Cash(m) + Inflow(s, m, a)
    ensures forall e: Reserve :: Solvent(e) && ReadSince(e, m.reserve) ==>
      Solvent(NextUpdate(s, m, e, a)) && ReadSince(NextUpdate(s, m, e, a), n.reserve)
  {
    hide UserAfterDeposit, UserAfterWithdraw, UserAfterBorrow, UserAfterRepay, UserAfterSwap, AfterDeposit,
      AfterWithdraw, AfterBorrow, AfterRepay, AfterSwap, AfterRebalance, UserAfterRebalance, UserStableDebt,
      VariableDebtBalance, RepaidAmount, WithdrawnAmount, ATokenBalance, TotalStableDebtAt, Deposited, Withdrawn,
      Borrowed, Repaid, Swapped, Rebalanced, UserDeposited, UserWithdrew, UserBorrowed, UserRepaid, UserSwapped,
      UserRebalanced, CarriedOut;
    n := m;
    if Enabled(s, m, a) {
      var r := m.reserve;
      match a {
        case Deposit(who, amount, t) =>
          var after := CalcReserveAfterDeposit(s, amount, r, t);
          DepositSound(s, r, amount, t);
          var e := CalcUserAfterDeposit(amount, r, after, m.users[who], t);
          n := State(after, m.users[who := e]);
        case Withdraw(who, amount, t) =>
          var after := CalcReserveAfterWithdraw(s, amount, r, m.users[who], t);
          WithdrawSound(s, r, m.users[who], amount, t);
          var e := CalcUserAfterWithdraw(amount, r, after, m.users[who], t);
          n := State(after, m.users[who := e]);
        case Borrow(who, amount, mode, t, now) =>
          var after := CalcReserveAfterBorrow(s, amount, mode, r, t, now);
          BorrowSound(s, r, amount, mode, t, now);
          UserDebtNonNegative(m.users[who], r.lastUpdateTimestamp, t);
          var e := CalcUserAfterBorrow(amount, mode, r, after, m.users[who], t, now);
          n := State(after, m.users[who := e]);
        case Repay(who, amount, mode, ownWallet, t) =>
          var after := CalcReserveAfterRepay(s, amount, mode, r, m.users[who], t);
          RepaySound(s, r, m.users[who], amount, mode, t);
          var e := CalcUserAfterRepay(amount, mode, r, after, m.users[who], ownWallet, t, t);
          n := State(after, m.users[who := e]);
        case Swap(who, mode, t) =>
          var after := CalcReserveAfterSwapRateMode(s, r, m.users[who], mode, t);
          SwapSoundIff(s, r, m.users[who], mode, t);
          SwapHasDebt(s, r, m.users[who], mode, t);
          var e := CalcUserAfterSwapRateMode(r, after, m.users[who], mode, t);
          n := State(after, m.users[who := e]);
        case Rebalance(who, t) =>
          var after := CalcReserveAfterRebalance(s, r, m.users[who], t);
          var e := CalcUserAfterRebalance(r, after, m.users[who], t);
          n := State(after, m.users[who := e]);
        case SetUseAsCollateral(who, useAsCollateral) =>
          n := State(r, m.users[who := UserAfterSetUseAsCollateral(m.users[who], useAsCollateral)]);
        case SetMarketRate(rate) =>
          n := State(r.(marketStableRate := rate), m.users);
        case Read(now) =>
          n := State(Aged(r, now), UsersRead(r, m.users, now));
      }
    }
    ActionKeeps(s, m, a);
    ActionIsCarriedOut(s, m, a);
  }

  /** What every action keeps. */
  lemma ActionKeeps(s: Strategy, m: State, a: Action)
    requires SoundState(m)
    ensures
      var n := Apply(s, m, a);
      && SoundState(n) && |n.users| == |m.users|
      && m.reserve.lastUpdateTimestamp <= n.reserve.lastUpdateTimestamp
      && m.reserve.liquidityIndex <= n.reserve.liquidityIndex
      && m.reserve.variableBorrowIndex <= n.reserve.variableBorrowIndex
      && Cash(n) == Cash(m) + Inflow(s, m, a)
      && forall e: Reserve :: Solvent(e) && ReadSince(e, m.reserve) ==>
           Solvent(NextUpdate(s, m, e, a)) && ReadSince(NextUpdate(s, m, e, a), n.reserve)
  {
    hide Apply, Solvent, ReadSince, NextUpdate, Cash, Inflow;
    StepSound(s, m, a);
    StepConservesCash(s, m, a);
    forall e: Reserve | Solvent(e) && ReadSince(e, m.reserve)
      ensures Solvent(NextUpdate(s, m, e, a)) && ReadSince(NextUpdate(s, m, e, a), Apply(s, m, a).reserve)
    {
      StepStaysSolvent(s, m, e, a);
    }
  }

  /** A story: its actions in order, each on the records that the one before it left. */
  method ExecuteStory(s: Strategy, m: State, actions: seq<Action>) returns (n: State)
    requires SoundState(m)
    ensures n == Run(s, m, actions)
    ensures SoundState(n)
    ensures m.reserve.liquidityIndex <= n.reserve.liquidityIndex
    ensures m.reserve.variableBorrowIndex <= n.reserve.variableBorrowIndex
    ensures Cash(n) == Cash(m) + RunInflow(s, m, actions)
    ensures Solvent(m.reserve) ==>
      Solvent(LastUpdate(s, m, actions)) && ReadSince(LastUpdate(s, m, actions), n.reserve)
  {
    n := m;
    for i := 0 to |actions|
      invariant n == Run(s, m, actions[..i])
    {
      assert actions[..i + 1][..i] == actions[..i];
      n := ExecuteAction(s, n, actions[i]);
    }
    assert actions[..|actions|] == actions;
    RunSound(s, m, actions);
    RunConservesCash(s, m, actions);
    if Solvent(m.reserve) {
      RunStaysSolvent(s, m, actions);
    }
  }
}
