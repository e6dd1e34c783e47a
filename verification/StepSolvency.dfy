/** Solvency of the records that the actions leave: whatever time passes before the next action, what suppliers are
    credited is covered by what borrowers owe. */
module StepSolvency {
  import opened FixedPoint
  import opened Interest
  import opened RateStrategy
  import opened Solvency
  import opened StableAverage
  import opened Records
  import opened ReserveSteps
  import opened ReserveMeaning
  import opened UserSteps
  import opened Balances
  import opened Market

  ghost predicate CoveredAfter(r: Reserve, n: nat) {
    Covered(r.totalStableDebt, r.totalVariableDebt, r.totalLiquidity,
            r.liquidityRate, r.variableBorrowRate, r.averageStableBorrowRate, n)
  }

  /** Whatever time passes from the record on, the interest credited is covered by the interest owed. */
  ghost predicate Solvent(r: Reserve) {
    forall n: nat :: CoveredAfter(r, n)
  }

  lemma PricedIsSolvent(s: Strategy, r: Reserve)
    requires Sound(r) && Priced(s, r)
    ensures Solvent(r)
  {
    PricedRates(s, r);
    forall n: nat
      ensures CoveredAfter(r, n)
    {
      hide Covered, InterestRates, UtilizationRate, Repriced;
      if 0 < r.totalLiquidity {
        AccrualIsSolvent(s, r.marketStableRate, r.totalStableDebt, r.totalVariableDebt, r.totalLiquidity,
                         r.averageStableBorrowRate, n);
      } else {
        EmptyReserveCovered(r, n);
      }
    }
  }

  lemma EmptyReserveCovered(r: Reserve, n: nat)
    requires Sound(r) && r.totalLiquidity == 0
    ensures CoveredAfter(r, n)
  {
    assert r.totalStableDebt == 0 == r.totalVariableDebt;
    assert SolvencySlack(0, 0, OverallBorrowRate(0, 0, r.variableBorrowRate, r.averageStableBorrowRate))
        == 2 * RAY * WAD;
    hide LinearInterest, CompoundedInterest, SolvencySlack;
    MulNonNeg(n, 2 * RAY * WAD);
  }

  predicate SetsRates(s: Strategy, m: State, a: Action) {
    Enabled(s, m, a) && (a.Deposit? || a.Withdraw? || a.Repay? || a.Swap? || a.Rebalance?)
  }

  lemma ActionPrices(s: Strategy, m: State, a: Action)
    requires SoundState(m) && SetsRates(s, m, a)
    ensures Priced(s, Apply(s, m, a).reserve)
  {
    StepSound(s, m, a);
    hide RayMul, RayDiv, UtilizationRate, InterestRates, VariableBorrowIndexAt, LiquidityIndexAt, TotalStableDebtAt,
      UserStableDebt, VariableDebtBalance, ATokenBalance, AverageStableRate, StableRepaid, RepaidAmount,
      WithdrawnAmount;
  }

  /** After every deposit, withdrawal, repayment, swap and rebalancing of every run, and right after every borrow, the
      reserve is solvent for whatever time passes until the next action. */
  lemma ActionIsSolvent(s: Strategy, m: State, a: Action)
    requires SoundState(m)
    ensures SetsRates(s, m, a) ==> Solvent(Apply(s, m, a).reserve)
    ensures a.Borrow? && Enabled(s, m, a) ==> Solvent(BorrowSettled(s, m.reserve, a.amount, a.mode, a.t))
  {
    if SetsRates(s, m, a) {
      StepSound(s, m, a);
      ActionPrices(s, m, a);
      PricedIsSolvent(s, Apply(s, m, a).reserve);
    } else if a.Borrow? && Enabled(s, m, a) {
      BorrowSettledSound(s, m.reserve, a.amount, a.mode, a.t);
      BorrowPrices(s, m.reserve, a.amount, a.mode, a.t);
      PricedIsSolvent(s, BorrowSettled(s, m.reserve, a.amount, a.mode, a.t));
    }
  }

  lemma BorrowPrices(s: Strategy, r: Reserve, amount: int, mode: RateMode, t: int)
    requires CanBorrow(s, r, amount, t, t)
    ensures Priced(s, BorrowSettled(s, r, amount, mode, t))
  {
    BorrowSettledSound(s, r, amount, mode, t);
    hide RayMul, RayDiv, UtilizationRate, InterestRates, VariableBorrowIndexAt, LiquidityIndexAt, TotalStableDebtAt,
      AverageStableRate, StableDebtBalance;
  }

  // ---------- Runs ----------

  /** The record of the last update, carried over an action: a borrow leaves it as it settles, reading and choosing
      collateral leave it alone, the market's own rate changes in it, and any other action makes a new record. */
  function NextUpdate(s: Strategy, m: State, e: Reserve, a: Action): Reserve
    requires SoundState(m)
  {
    if !Enabled(s, m, a) then e
    else
      match a
      case Borrow(_, amount, mode, t, _) => BorrowSettled(s, m.reserve, amount, mode, t)
      case SetMarketRate(rate) => e.(marketStableRate := rate)
      case Read(_) => e
      case SetUseAsCollateral(_, _) => e
      case _ => Apply(s, m, a).reserve
  }

  /** The record that the last update of a run made. */
  function LastUpdate(s: Strategy, m: State, actions: seq<Action>): Reserve
    requires SoundState(m)
    decreases |actions|
  {
    if actions == [] then m.reserve
    else
      var k := |actions| - 1;
      NextUpdate(s, Run(s, m, actions[..k]), LastUpdate(s, m, actions[..k]), actions[k])
  }

  /** The reserve is the given record, or that record read at some later time. */
  ghost predicate ReadSince(e: Reserve, r: Reserve) {
    r == e || (Sound(e) && exists now: int :: e.lastUpdateTimestamp <= now && r == Aged(e, now))
  }

  /** Reading a record that has been read before gives what reading it for the first time would give. */
  lemma ReadTwice(e: Reserve, now: int, later: int)
    requires Sound(e) && e.lastUpdateTimestamp <= now && e.lastUpdateTimestamp <= later
    requires Sound(Aged(e, now))
    ensures Aged(Aged(e, now), later) == Aged(e, later)
  {
    hide UtilizationRate, TotalStableDebt, NormalizedDebt, RayMul;
  }

  lemma ReadAgain(e: Reserve, r: Reserve, now: int)
    requires Sound(r) && r.lastUpdateTimestamp <= now && ReadSince(e, r)
    ensures ReadSince(e, Aged(r, now))
  {
    hide Aged;
    if r != e {
      var before: int :| e.lastUpdateTimestamp <= before && r == Aged(e, before);
      AgedKeepsTime(e, before);
      ReadTwice(e, before, now);
    }
  }

  lemma AgedKeepsTime(e: Reserve, now: int)
    requires Sound(e) && e.lastUpdateTimestamp <= now
    ensures Aged(e, now).lastUpdateTimestamp == e.lastUpdateTimestamp
  {
    hide UtilizationRate, TotalStableDebt, NormalizedDebt, RayMul;
  }

  /** The market's own stable rate enters neither interest. */
  lemma SolventAtAnyRate(r: Reserve, rate: int)
    ensures Solvent(r) ==> Solvent(r.(marketStableRate := rate))
  {
    hide Covered;
    if Solvent(r) {
      forall n: nat
        ensures CoveredAfter(r.(marketStableRate := rate), n)
      {
        assert CoveredAfter(r, n);
      }
    }
  }

  lemma ReadAtAnyRate(e: Reserve, r: Reserve, rate: int)
    requires 0 <= rate && ReadSince(e, r)
    ensures ReadSince(e.(marketStableRate := rate), r.(marketStableRate := rate))
  {
    hide Aged;
    if r != e {
      var now: int :| e.lastUpdateTimestamp <= now && r == Aged(e, now);
      AgedAtAnyRate(e, rate, now);
    }
  }

  lemma AgedAtAnyRate(e: Reserve, rate: int, now: int)
    requires Sound(e) && e.lastUpdateTimestamp <= now && 0 <= rate
    ensures Sound(e.(marketStableRate := rate))
    ensures Aged(e.(marketStableRate := rate), now) == Aged(e, now).(marketStableRate := rate)
  {
    hide UtilizationRate, TotalStableDebt, NormalizedDebt, RayMul;
  }

  /** Every action leaves a record of the last update that is solvent if the one before was, and that the reserve is
      read from. */
  lemma StepStaysSolvent(s: Strategy, m: State, e: Reserve, a: Action)
    requires SoundState(m) && Solvent(e) && ReadSince(e, m.reserve)
    ensures Solvent(NextUpdate(s, m, e, a)) && ReadSince(NextUpdate(s, m, e, a), Apply(s, m, a).reserve)
  {
    var r := m.reserve;
    hide Solvent, Aged, BorrowSettled, AfterDeposit, AfterWithdraw, AfterRepay, AfterSwap, AfterRebalance, ReadSince;
    ActionIsSolvent(s, m, a);
    if Enabled(s, m, a) {
      match a {
        case Borrow(_, amount, mode, t, now) => LateBorrowReads(s, r, amount, mode, t, now);
        case SetMarketRate(rate) =>
          SolventAtAnyRate(e, rate);
          ReadAtAnyRate(e, r, rate);
        case Read(now) => ReadAgain(e, r, now);
        case SetUseAsCollateral(_, _) =>
        case _ => ReadNow(Apply(s, m, a).reserve);
      }
    }
  }

  lemma ReadNow(r: Reserve)
    ensures ReadSince(r, r)
  {
  }

  lemma LateBorrowReads(s: Strategy, r: Reserve, amount: int, mode: RateMode, t: int, now: int)
    requires CanBorrow(s, r, amount, t, now)
    ensures ReadSince(BorrowSettled(s, r, amount, mode, t), AfterBorrow(s, r, amount, mode, t, now))
  {
    hide BorrowSettled, Aged, RayMul, TotalStableDebtAt, ReadUtilizationRate;
    BorrowSettledSound(s, r, amount, mode, t);
    BorrowSettledTotals(s, r, amount, mode, t, now);
  }

  /** Over every run, whatever its actions, the record that the last update made is solvent, and the reserve is that
      record or that record as it has been read since. */
  lemma {:induction false} RunStaysSolvent(s: Strategy, m: State, actions: seq<Action>)
    requires SoundState(m) && Solvent(m.reserve)
    ensures Solvent(LastUpdate(s, m, actions)) && ReadSince(LastUpdate(s, m, actions), Run(s, m, actions).reserve)
    decreases |actions|
  {
    hide Apply, Solvent, NextUpdate, ReadSince;
    if actions == [] {
      ReadNow(m.reserve);
    } else {
      var k := |actions| - 1;
      RunStaysSolvent(s, m, actions[..k]);
      StepStaysSolvent(s, Run(s, m, actions[..k]), LastUpdate(s, m, actions[..k]), actions[k]);
    }
  }

  /** Stable debt has a time from which it grows; zero stands for none. */
  predicate Dated(r: Reserve) {
    r.principalStableDebt == 0 || r.totalStableDebtLastUpdated != 0
  }

  /** No record is read later than it is made, and no action on debts is at the time that stands for none. */
  predicate AtOnce(a: Action) {
    match a
    case Borrow(_, _, _, t, now) => t == now && t != 0
    case Repay(_, _, _, _, t) => t != 0
    case Swap(_, _, t) => t != 0
    case Rebalance(_, t) => t != 0
    case Read(_) => false
    case _ => true
  }

  lemma ReadAtOnceIsSettled(s: Strategy, r: Reserve, amount: int, mode: RateMode, t: int)
    requires CanBorrow(s, r, amount, t, t) && Dated(r)
    ensures AfterBorrow(s, r, amount, mode, t, t) == BorrowSettled(s, r, amount, mode, t)
  {
    var e := BorrowSettled(s, r, amount, mode, t);
    BorrowSettledSound(s, r, amount, mode, t);
    BorrowSettledTotals(s, r, amount, mode, t, t);
    BorrowPrices(s, r, amount, mode, t);
    NormalizedAtOnce(e);
    SettledStableDebt(s, r, amount, mode, t);
    hide BorrowSettled, RayMul, TotalStableDebtAt, UtilizationRate, InterestRates, NormalizedDebt;
  }

  lemma SettledStableDebt(s: Strategy, r: Reserve, amount: int, mode: RateMode, t: int)
    requires CanBorrow(s, r, amount, t, t) && Dated(r)
    ensures
      var e := BorrowSettled(s, r, amount, mode, t);
      && e.totalStableDebt == TotalStableDebtAt(e, t)
      && e.totalLiquidity == e.availableLiquidity + e.totalStableDebt + e.totalVariableDebt
  {
    BorrowSettledSound(s, r, amount, mode, t);
    hide RayMul, RayDiv, UtilizationRate, InterestRates, VariableBorrowIndexAt, LiquidityIndexAt, AverageStableRate,
      CompoundedInterest, StableDebtBalance, TotalStableDebt;
    StableRoutesAgreeIff(r.principalStableDebt, r.averageStableBorrowRate, r.totalStableDebtLastUpdated, t);
    var e := BorrowSettled(s, r, amount, mode, t);
    StableDebtGrows(e.principalStableDebt, e.averageStableBorrowRate, e.totalStableDebtLastUpdated, t, t);
  }

  lemma StepSolventAtOnce(s: Strategy, m: State, a: Action)
    requires SoundState(m) && Solvent(m.reserve) && Dated(m.reserve) && AtOnce(a)
    ensures Solvent(Apply(s, m, a).reserve) && Dated(Apply(s, m, a).reserve)
  {
    hide Solvent, RayMul, RayDiv, Repriced, TotalStableDebtAt, AverageStableRate, UserStableDebt, VariableDebtBalance,
      LiquidityIndexAt, VariableBorrowIndexAt, RepaidAmount, WithdrawnAmount, ATokenBalance, StableRepaid,
      StableDebtBalance, NormalizedDebt;
    ActionIsSolvent(s, m, a);
    if Enabled(s, m, a) {
      if a.Borrow? {
        BorrowSettledSound(s, m.reserve, a.amount, a.mode, a.t);
        ReadAtOnceIsSettled(s, m.reserve, a.amount, a.mode, a.t);
      } else if a.SetMarketRate? {
        SolventAtAnyRate(m.reserve, a.rate);
      }
    }
  }

  /** Over every run that reads no record later than it makes it, the record itself is solvent. */
  lemma {:induction false} RunIsSolvent(s: Strategy, m: State, actions: seq<Action>)
    requires SoundState(m) && Solvent(m.reserve) && Dated(m.reserve)
    requires forall i :: 0 <= i < |actions| ==> AtOnce(actions[i])
    ensures Solvent(Run(s, m, actions).reserve) && Dated(Run(s, m, actions).reserve)
    decreases |actions|
  {
    hide Apply, Solvent, Dated, AtOnce;
    if actions != [] {
      var k := |actions| - 1;
      RunIsSolvent(s, m, actions[..k]);
      StepSolventAtOnce(s, Run(s, m, actions[..k]), actions[k]);
    }
  }

  /** A freshly initialised reserve is solvent, so both hold of every run from it. */
  lemma FreshReserveIsSolvent(marketStableRate: int, t: int)
    requires 0 <= marketStableRate && 0 <= t
    ensures Dated(FreshReserve(marketStableRate, t)) && Solvent(FreshReserve(marketStableRate, t))
  {
    var r := FreshReserve(marketStableRate, t);
    forall n: nat
      ensures CoveredAfter(r, n)
    {
      EmptyReserveCovered(r, n);
    }
  }

  // ---------- Utilisation as it is read back ----------

  /** After every action but a deposit the recorded utilisation is the one that reading the reserve back recomputes
      from its parts, and a fraction of one ray. */
  lemma UtilizationIsReadBack(s: Strategy, m: State, a: Action)
    requires SoundState(m) && Enabled(s, m, a)
    requires a.Withdraw? || a.Borrow? || a.Repay? || a.Swap? || a.Rebalance?
    ensures
      var r := Apply(s, m, a).reserve;
      r.utilizationRate == ReadUtilizationRate(r.availableLiquidity, r.totalStableDebt, r.totalVariableDebt) <= RAY
  {
    var r := Apply(s, m, a).reserve;
    StepSound(s, m, a);
    RecordedUtilization(s, m, a);
    hide Apply, UtilizationRate, ReadUtilizationRate;
    UtilizationDefinitionsAgree(r.availableLiquidity, r.totalStableDebt, r.totalVariableDebt);
    UtilizationRange(r.availableLiquidity, r.totalStableDebt, r.totalVariableDebt);
  }

  lemma RecordedUtilization(s: Strategy, m: State, a: Action)
    requires SoundState(m) && Enabled(s, m, a)
    requires a.Withdraw? || a.Borrow? || a.Repay? || a.Swap? || a.Rebalance?
             || (a.Deposit? && Balanced(Apply(s, m, a).reserve) == Apply(s, m, a).reserve)
    ensures
      var r := Apply(s, m, a).reserve;
      && Priceable(Balanced(r))
      && r.utilizationRate == UtilizationRate(r.totalStableDebt, r.totalVariableDebt,
                                              r.availableLiquidity + r.totalStableDebt + r.totalVariableDebt)
  {
    hide RayMul, RayDiv, UtilizationRate, InterestRates, VariableBorrowIndexAt, LiquidityIndexAt, TotalStableDebtAt,
      UserStableDebt, VariableDebtBalance, ATokenBalance, AverageStableRate, StableRepaid, RepaidAmount,
      WithdrawnAmount, BorrowSettled, NormalizedDebt, UserAfterWithdraw, UserAfterBorrow, UserAfterRepay,
      UserAfterSwap;
    StepSound(s, m, a);
    if a.Borrow? {
      BorrowSettledSound(s, m.reserve, a.amount, a.mode, a.t);
    }
  }

  /** Every enabled withdrawal, borrow, repayment, swap or rebalancing leaves a record that can be read back at any
      later time, a variable repayment provided that the recorded stable debt it carries over is not ahead of its time;
      a deposit does if the liquidity before it was the sum of its parts with the debts due at the deposit. */
  lemma ActionReadable(s: Strategy, m: State, a: Action)
    requires SoundState(m) && Enabled(s, m, a)
    requires a.Deposit? || a.Withdraw? || a.Borrow? || a.Repay? || a.Swap? || a.Rebalance?
    requires a.Repay? && a.mode == Variable ==> m.reserve.totalStableDebt <= TotalStableDebtAt(m.reserve, a.t)
    requires a.Deposit? ==>
      m.reserve.totalLiquidity == m.reserve.availableLiquidity + TotalStableDebtAt(m.reserve, a.t)
                                  + RayMul(m.reserve.scaledVariableDebt, VariableBorrowIndexAt(m.reserve, a.t))
    ensures Readable(Apply(s, m, a).reserve)
  {
    var r := Apply(s, m, a).reserve;
    StepSound(s, m, a);
    if a.Borrow? {
      BorrowSound(s, m.reserve, a.amount, a.mode, a.t, a.now);
      hide AfterBorrow, Readable;
    } else {
      if a.Deposit? {
        DepositLiquidityGap(s, m.reserve, a.amount, a.t);
      }
      RecordedUtilization(s, m, a);
      RecordedDebts(s, m, a);
      hide Apply, UtilizationRate, ReadUtilizationRate, RayMul, TotalStableDebtAt, Readable;
      UtilizationDefinitionsAgree(r.availableLiquidity, r.totalStableDebt, r.totalVariableDebt);
      PricedReadable(r);
    }
  }

  lemma RecordedDebts(s: Strategy, m: State, a: Action)
    requires SoundState(m) && Enabled(s, m, a)
    requires a.Deposit? || a.Withdraw? || a.Repay? || a.Swap? || a.Rebalance?
    requires a.Repay? && a.mode == Variable ==> m.reserve.totalStableDebt <= TotalStableDebtAt(m.reserve, a.t)
    ensures
      var r := Apply(s, m, a).reserve;
      && r.totalStableDebt <= TotalStableDebtAt(r, r.lastUpdateTimestamp)
      && r.totalVariableDebt == RayMul(r.scaledVariableDebt, r.variableBorrowIndex)
  {
    hide RayMul, RayDiv, Repriced, VariableBorrowIndexAt, LiquidityIndexAt, TotalStableDebt, UserStableDebt,
      VariableDebtBalance, ATokenBalance, AverageStableRate, StableRepaid, RepaidAmount, WithdrawnAmount,
      UserAfterDeposit, UserAfterWithdraw, UserAfterRepay, UserAfterSwap, UserAfterRebalance, RebalancedRate;
    StepSound(s, m, a);
    var r := Apply(s, m, a).reserve;
    StableDebtGrows(r.principalStableDebt, r.averageStableBorrowRate, r.totalStableDebtLastUpdated, a.t, a.t);
  }
}
