/** Concrete runs from a fresh market in which something fails that one would expect to hold. */
module ConcreteRuns {
  import opened FixedPoint
  import opened Interest
  import opened RateStrategy
  import opened StableAverage
  import opened Records
  import opened ReserveSteps
  import opened ReserveMeaning
  import opened UserSteps
  import opened Balances
  import opened Market
  import opened Conservation
  import opened StepSolvency
  import opened ReadSolvency

  /** A user who has nothing. */
  const NOBODY: User := User(0, 0, 0, 0, 0, 0, 0, 0, 0, false, 0)

  lemma RunAgain(s: Strategy, m: State, actions: seq<Action>, a: Action)
    requires SoundState(m)
    ensures Run(s, m, actions + [a]) == Apply(s, Run(s, m, actions), a)
  {
    assert (actions + [a])[..|actions|] == actions;
    hide Apply;
  }

  lemma RunOnce(s: Strategy, m: State, a: Action)
    requires SoundState(m)
    ensures Run(s, m, [a]) == Apply(s, m, a)
  {
    assert [] + [a] == [a];
    RunAgain(s, m, [], a);
    hide Apply;
  }

  // ---------- A borrow that is not covered when it is read later ----------

  /** Rates that double a debt in a second, and almost so. */
  const DOUBLING: int := RAY * ONE_YEAR
  const SLOWER: int := 900_000_000_000_000_000_000_000_000 * ONE_YEAR

  lemma DoublingFactors()
    ensures CompoundedInterest(DOUBLING, 1, 0) == 2 * RAY && CompoundedInterest(DOUBLING, 3, 0) == 8 * RAY
    ensures CompoundedInterest(DOUBLING, 5, 0) == 26 * RAY
  {
    QuotientIs(DOUBLING, ONE_YEAR, RAY);
    hide Choose, CompoundedInterest, RayMul, TruncDiv;
    DoublesPerSecond(DOUBLING, 1);
    DoublesPerSecond(DOUBLING, 3);
    DoublesPerSecond(DOUBLING, 5);
    ChooseClosed(1);
    ChooseClosed(3);
    ChooseClosed(5);
  }

  lemma DoublesPerSecond(rate: int, n: nat)
    requires 0 <= rate && RatePerSecond(rate) == RAY
    ensures CompoundedInterest(rate, n, 0) == RAY + n * RAY + Choose(n, 2) * RAY + Choose(n, 3) * RAY
  {
    RayMulUnit(RAY);
    hide Choose, CompoundedInterest, RayMul, RatePerSecond;
    CompoundedIsExpansion(rate, n, 0);
  }

  lemma SlowerFactors()
    ensures 10 * (CompoundedInterest(SLOWER, 1, 0) - RAY) == 9 * RAY
    ensures 100 * CompoundedInterest(SLOWER, 2, 0) == 361 * RAY
  {
    var p := 900_000_000_000_000_000_000_000_000;
    QuotientIs(SLOWER, ONE_YEAR, p);
    RayMulIs(p, p, 810_000_000_000_000_000_000_000_000);
    BasePowers(SLOWER);
    hide TruncDiv, RayMul;
    CompoundedIsExpansion(SLOWER, 1, 0);
    CompoundedIsExpansion(SLOWER, 2, 0);
    ChooseClosed(1);
    ChooseClosed(2);
  }

  /** The variable debt is the cheaper one at a rate of nine tenths of the stable one, whatever is borrowed. */
  const LEVEL: Strategy := Strategy(HALF_RAY, SLOWER, 0, 0, 0, 0, 0)

  /** One ninth of a ray, rounded. */
  const NINTH: int := 111_111_111_111_111_111_111_111_111

  /** Nine units supplied, nothing borrowed. */
  const SUPPLIED: Reserve := Reserve(9, 9, 0, 0, 0, 0, 0, SLOWER, DOUBLING, 0, 0, RAY, RAY, DOUBLING, 1, 0)

  /** One of nine units borrowed at the stable rate. */
  const STALE: Reserve :=
    Reserve(9, 8, 1, 0, 1, 0, DOUBLING, SLOWER, DOUBLING, ONE_YEAR * NINTH, NINTH, RAY, RAY, DOUBLING, 1, 1)

  lemma SuppliedRecord()
    ensures CanDeposit(LEVEL, FreshReserve(DOUBLING, 0), 9, 1)
    ensures AfterDeposit(LEVEL, FreshReserve(DOUBLING, 0), 9, 1) == SUPPLIED
  {
    CompoundedAtLeastRay(0, 1, 0);
    RayMulUnit(CompoundedInterest(0, 1, 0));
    RayMulUnit(RAY);
    RayDivUnit(HALF_RAY);
    RayMulUnit(0);
    QuotientIs(HALF_PERCENTAGE, PERCENTAGE_FACTOR, 0);
    hide RayMul, RayDiv, CompoundedInterest, TruncDiv;
  }

  lemma StaleRates()
    ensures UtilizationRate(1, 0, 9) == NINTH
    ensures InterestRates(LEVEL, DOUBLING, NINTH, 1, 0, DOUBLING) == Rates(ONE_YEAR * NINTH, DOUBLING, SLOWER)
  {
    RayDivIs(1, 9, NINTH);
    var ratio := RayDiv(NINTH, HALF_RAY);
    RayDivRounds(NINTH, HALF_RAY);
    RayMulUnit(ratio);
    RayMulIs(0, SLOWER, 0);
    RayMulIs(WAD_RAY_RATIO, DOUBLING, WAD_RAY_RATIO * ONE_YEAR);
    RayDivIs(WAD_RAY_RATIO * ONE_YEAR, WAD_RAY_RATIO, DOUBLING);
    RayMulIs(DOUBLING, NINTH, ONE_YEAR * NINTH);
    QuotientIs(HALF_PERCENTAGE + ONE_YEAR * NINTH * PERCENTAGE_FACTOR, PERCENTAGE_FACTOR, ONE_YEAR * NINTH);
    hide RayMul, RayDiv, TruncDiv;
  }

  lemma StaleRecord()
    ensures CanBorrow(LEVEL, SUPPLIED, 1, 1, 1)
    ensures AfterBorrow(LEVEL, SUPPLIED, 1, Stable, 1, 1) == STALE
  {
    BorrowSettledSound(LEVEL, SUPPLIED, 1, Stable, 1);
    StaleRates();
    CompoundedAtLeastRay(0, 1, 0);
    RayMulUnit(CompoundedInterest(0, 1, 0));
    RayMulUnit(RAY);
    RayMulUnit(1);
    NothingAccrues(DOUBLING, 1, 1);
    NothingAccrues(SLOWER, 1, 1);
    NothingAccrues(0, 1, 1);
    QuotientIs(DOUBLING, 1, DOUBLING);
    hide RayMul, RayDiv, CompoundedInterest, LinearInterest, TruncDiv, InterestRates, UtilizationRate;
  }

  lemma StaleSettled()
    ensures LEVEL.Valid() && Sound(STALE) && CanBorrow(LEVEL, STALE, 8, 4, 6)
    ensures
      var e := BorrowSettled(LEVEL, STALE, 8, Variable, 4);
      && Sound(e) && Priced(LEVEL, e) && e.lastUpdateTimestamp == 4
      && e.totalStableDebt == 8 == e.totalVariableDebt && e.scaledVariableDebt == 8 && e.principalStableDebt == 1
      && e.availableLiquidity == 0 && e.utilizationRate == RAY && e.variableBorrowIndex == RAY
      && e.variableBorrowRate == SLOWER && e.averageStableBorrowRate == DOUBLING && e.totalStableDebtLastUpdated == 1
  {
    BorrowSettledSound(LEVEL, STALE, 8, Variable, 4);
    BorrowPrices(LEVEL, STALE, 8, Variable, 4);
    DoublingFactors();
    CompoundedShift(DOUBLING, 4, 1);
    RayDivIs(8, RAY, 8);
    RayMulUnit(8);
    RayMulIs(1, 8 * RAY, 8);
    RayDivUnit(16);
    RayMulIs(0, RayDiv(HALF_RAY, HALF_RAY), 0);
    hide RayMul, RayDiv, CompoundedInterest, LiquidityRate, OverallBorrowRate, LiquidityIndexAt;
  }

  lemma StaleRead()
    ensures CanBorrow(LEVEL, STALE, 8, 4, 6)
    ensures
      var e := BorrowSettled(LEVEL, STALE, 8, Variable, 4);
      StableLater(e, 6) == 26 && VariableLater(e, 6) == 29
  {
    hide BorrowSettled;
    StaleSettled();
    var e := BorrowSettled(LEVEL, STALE, 8, Variable, 4);
    DoublingFactors();
    SlowerFactors();
    CompoundedShift(DOUBLING, 6, 1);
    CompoundedShift(SLOWER, 6, 4);
    RayMulIs(26 * RAY, 1, 26);
    var grown := CompoundedInterest(SLOWER, 2, 0);
    NormalizedIsGrown(e, 6);
    RayMulUnit(grown);
    RayMulIs(8, grown, 29);
    hide RayMul, CompoundedInterest, NormalizedDebt;
  }

  /** Nine units are supplied at time one, and one of them is borrowed at the stable rate. */
  const STALE_RUN: seq<Action> := [Deposit(0, 9, 1), Borrow(0, 1, Stable, 1, 1)]

  function Fresh(rate: int, users: nat): State {
    State(FreshReserve(rate, 0), seq(users, _ => NOBODY))
  }

  lemma StaleRun()
    ensures SoundState(Fresh(DOUBLING, 1))
    ensures Run(LEVEL, Fresh(DOUBLING, 1), STALE_RUN).reserve == STALE
    ensures |Run(LEVEL, Fresh(DOUBLING, 1), STALE_RUN).users| == 1
  {
    var m := Fresh(DOUBLING, 1);
    SuppliedRecord();
    StaleRecord();
    assert [Deposit(0, 9, 1)] + [Borrow(0, 1, Stable, 1, 1)] == STALE_RUN;
    RunOnce(LEVEL, m, Deposit(0, 9, 1));
    RunAgain(LEVEL, m, [Deposit(0, 9, 1)], Borrow(0, 1, Stable, 1, 1));
    StepSound(LEVEL, m, Deposit(0, 9, 1));
    StepSound(LEVEL, Apply(LEVEL, m, Deposit(0, 9, 1)), Borrow(0, 1, Stable, 1, 1));
    hide AfterDeposit, AfterBorrow, UserAfterDeposit, UserAfterBorrow, UserStableDebt, Run, CanBorrow, CanDeposit;
  }

  /** A concrete variable borrow whose record, read two seconds later, pays suppliers more than its debts bring in: the
      stable debt is the dearer one, but has been growing for longer and so grows by less. */
  lemma LateBorrowCanFail()
    ensures SoundState(Fresh(DOUBLING, 1))
    ensures 0 < MixShift(LastUpdate(LEVEL, Fresh(DOUBLING, 1), STALE_RUN + [Borrow(0, 8, Variable, 4, 6)]), 6)
    ensures !Solvent(Run(LEVEL, Fresh(DOUBLING, 1), STALE_RUN + [Borrow(0, 8, Variable, 4, 6)]).reserve)
  {
    hide BorrowSettled, Run, MixShift, Solvent, CanBorrow, Aged, UserAfterBorrow, UserStableDebt, AfterBorrow;
    var last := Borrow(0, 8, Variable, 4, 6);
    StaleRun();
    RunAgain(LEVEL, Fresh(DOUBLING, 1), STALE_RUN, last);
    LateBorrowFails();
    assert (STALE_RUN + [last])[..2] == STALE_RUN;
  }

  /** The mix shifts by 24 units times the difference of the rates, and all of it is promised. */
  lemma StalePromise(e: Reserve)
    requires e == BorrowSettled(LEVEL, STALE, 8, Variable, 4)
    ensures Sound(e) && e.lastUpdateTimestamp == 4
    ensures MixShift(e, 6) == 24 * (DOUBLING - SLOWER)
    ensures 55 * e.liquidityRate >= 29 * SLOWER + 26 * DOUBLING + (DOUBLING - SLOWER) - 5 * WAD
  {
    hide BorrowSettled;
    StaleSettled();
    StaleRead();
    hide Priced, StableLater, VariableLater, Aged;
    assert MixShift(e, 6) == (SLOWER - DOUBLING) * (26 * 8 - 8 * 29);
    MixShiftIsPromised(LEVEL, e, 6);
    hide MixShift;
  }

  lemma LateBorrowFails()
    ensures LEVEL.Valid() && CanBorrow(LEVEL, STALE, 8, 4, 6)
    ensures 0 < MixShift(BorrowSettled(LEVEL, STALE, 8, Variable, 4), 6)
    ensures !Solvent(AfterBorrow(LEVEL, STALE, 8, Variable, 4, 6))
  {
    hide BorrowSettled, LinearInterest, CompoundedInterest, OverallBorrowRate, StableLater, VariableLater, MixShift,
      Priced;
    var e := BorrowSettled(LEVEL, STALE, 8, Variable, 4);
    StaleSettled();
    StaleRead();
    StalePromise(e);
    LaterRecord(e, 6);
    LinearAtLeastRay(e.liquidityRate, 1, 0);
    DoublingFactors();
    SlowerFactors();
    OverallNearWeighted(26, 29, SLOWER, DOUBLING);
    assert !CoveredAfter(Aged(e, 6), 1);
  }

  // ---------- A deposit that cannot be read back ----------

  /** What the second deposit adds: the recorded liquidity is then 52 rays. */
  const MORE: int := 52 * RAY - 9

  lemma UnreadableRecord()
    ensures CanDeposit(LEVEL, STALE, MORE, 6)
    ensures
      var e := AfterDeposit(LEVEL, STALE, MORE, 6);
      && e.liquidityRate == ONE_YEAR && e.availableLiquidity == 52 * RAY - 1 && e.scaledVariableDebt == 0
      && e.lastUpdateTimestamp == 6 && e.totalStableDebtLastUpdated == 1 && e.principalStableDebt == 1
      && e.averageStableBorrowRate == DOUBLING && e.variableBorrowIndex == RAY
  {
    StaleSettled();
    DebtsAt(STALE, 6);
    DoublingFactors();
    CompoundedShift(DOUBLING, 6, 1);
    RayMulIs(26 * RAY, 1, 26);
    RayMulUnit(RAY);
    UnreadableRates();
    hide RayMul, RayDiv, CompoundedInterest, LinearInterest, InterestRates, UtilizationRate;
  }

  lemma UnreadableRates()
    ensures UtilizationRate(26, 0, 52 * RAY) == 1
    ensures LEVEL.Valid() && InterestRates(LEVEL, DOUBLING, 1, 26, 0, DOUBLING).liquidityRate == ONE_YEAR
  {
    RayDivIs(26, 52 * RAY, 1);
    RayMulIs(0, SLOWER, 0);
    RayMulIs(26 * WAD_RAY_RATIO, DOUBLING, 26 * WAD_RAY_RATIO * ONE_YEAR);
    RayDivIs(26 * WAD_RAY_RATIO * ONE_YEAR, 26 * WAD_RAY_RATIO, DOUBLING);
    RayMulIs(DOUBLING, 1, ONE_YEAR);
    RayDivRounds(1, HALF_RAY);
    RayMulUnit(RayDiv(1, HALF_RAY));
    QuotientIs(HALF_PERCENTAGE + ONE_YEAR * PERCENTAGE_FACTOR, PERCENTAGE_FACTOR, ONE_YEAR);
    hide RayMul, RayDiv, TruncDiv;
  }

  /** A concrete run whose last deposit leaves a record that is unsound when it is read: its utilisation was computed
      from a liquidity that lacks the interest accrued, rounds up to one unit, and rounds down to zero when read. */
  lemma DepositCanBeUnreadable()
    ensures SoundState(Fresh(DOUBLING, 1))
    ensures
      var r := Run(LEVEL, Fresh(DOUBLING, 1), STALE_RUN + [Deposit(0, MORE, 6)]).reserve;
      Sound(r) && !Sound(Aged(r, r.lastUpdateTimestamp))
  {
    var last := Deposit(0, MORE, 6);
    StaleRun();
    UnreadableRecord();
    RunAgain(LEVEL, Fresh(DOUBLING, 1), STALE_RUN, last);
    var r := AfterDeposit(LEVEL, STALE, MORE, 6);
    DepositSound(LEVEL, STALE, MORE, 6);
    ReadSoundIff(r);
    DoublingFactors();
    CompoundedShift(DOUBLING, 6, 1);
    RayMulIs(26 * RAY, 1, 26);
    RayMulIs(0, RAY, 0);
    hide AfterDeposit, UserAfterDeposit, Run, RayMul, CompoundedInterest, Aged, STALE_RUN, CanDeposit, Readable;
  }

  // ---------- A swap to stable and back that leaves a negative average ----------

  /** Nothing is charged but the market's own stable rate. */
  const FLAT: Strategy := Strategy(HALF_RAY, 0, 0, 0, 0, 0, 0)

  lemma FlatRates(market: int, utilization: int, stable: int, variable: int)
    requires 0 <= utilization && 0 <= stable && 0 <= variable
    ensures InterestRates(FLAT, market, utilization, stable, variable, 0) == Rates(0, market, 0)
  {
    RayDivRounds(utilization, HALF_RAY);
    RayMulUnit(RayDiv(utilization, HALF_RAY));
    if HALF_RAY < utilization {
      RayDivRounds(utilization - HALF_RAY, HALF_RAY);
      RayMulUnit(RayDiv(utilization - HALF_RAY, HALF_RAY));
    }
    RayMulUnit(WadToRay(stable));
    RayMulUnit(WadToRay(variable));
    if stable + variable != 0 {
      RayDivUnit(WadToRay(stable + variable));
    }
    RayMulUnit(utilization);
    QuotientIs(HALF_PERCENTAGE, PERCENTAGE_FACTOR, 0);
    hide RayMul, RayDiv, TruncDiv;
  }

  const EIGHTH: int := 125_000_000_000_000_000_000_000_000
  const EIGHT: Reserve := Reserve(8, 8, 0, 0, 0, 0, 0, 0, 0, 0, 0, RAY, RAY, 0, 1, 0)
  const SEVEN: Reserve := Reserve(8, 7, 1, 0, 1, 0, 0, 0, 0, 0, EIGHTH, RAY, RAY, 0, 1, 1)
  const OWING: Reserve := Reserve(8, 4, 1, 3, 1, 3, 0, 0, 5, 0, HALF_RAY, RAY, RAY, 5, 1, 1)

  lemma EightRecord()
    ensures CanDeposit(FLAT, FreshReserve(0, 0), 8, 1)
    ensures AfterDeposit(FLAT, FreshReserve(0, 0), 8, 1) == EIGHT
  {
    FlatRates(0, 0, 0, 0);
    CompoundedAtLeastRay(0, 1, 0);
    RayMulUnit(CompoundedInterest(0, 1, 0));
    RayMulUnit(RAY);
    hide RayMul, RayDiv, CompoundedInterest, TruncDiv, InterestRates;
  }

  lemma SevenRecord()
    ensures CanBorrow(FLAT, EIGHT, 1, 1, 1)
    ensures AfterBorrow(FLAT, EIGHT, 1, Stable, 1, 1) == SEVEN
  {
    SevenSettled();
    hide BorrowSettled, AfterBorrow;
    ReadAtOnceIsSettled(FLAT, EIGHT, 1, Stable, 1);
  }

  lemma SevenSettled()
    ensures CanBorrow(FLAT, EIGHT, 1, 1, 1) && Dated(EIGHT)
    ensures BorrowSettled(FLAT, EIGHT, 1, Stable, 1) == SEVEN
  {
    hide RayMul, RayDiv, TotalStableDebtAt, VariableBorrowIndexAt, LiquidityIndexAt, AverageStableRate, InterestRates,
      UtilizationRate;
    FlatRates(0, EIGHTH, 1, 0);
    EighthUsed();
    DebtsAt(EIGHT, 1);
    IndicesAccrue(EIGHT, 1);
    ZeroAverage();
    RayMulUnit(RAY);
  }

  lemma ZeroAverage()
    ensures AverageStableRate(0, 0, 1, 0) == 0
  {
    QuotientIs(0, 1, 0);
  }

  lemma EighthUsed()
    ensures UtilizationRate(1, 0, 8) == EIGHTH
  {
    RayDivIs(1, 8, EIGHTH);
    hide RayDiv;
  }

  lemma OwingRecord()
    ensures CanBorrow(FLAT, SEVEN.(marketStableRate := 5), 3, 1, 1)
    ensures AfterBorrow(FLAT, SEVEN.(marketStableRate := 5), 3, Variable, 1, 1) == OWING
  {
    RayMulUnit(RAY);
    RayMulUnit(1);
    RayMulUnit(3);
    RayDivIs(3, RAY, 3);
    RayDivIs(4, 8, HALF_RAY);
    NothingAccrues(0, 1, 1);
    FlatRates(5, HALF_RAY, 1, 3);
    BorrowSettledSound(FLAT, SEVEN.(marketStableRate := 5), 3, Variable, 1);
    hide RayMul, RayDiv, CompoundedInterest, LinearInterest, TruncDiv, InterestRates;
  }

  /** Eight units are supplied and one is borrowed at a stable rate of zero; then that rate rises to five, and another
      user borrows three units at the variable rate. */
  const OWING_RUN: seq<Action> :=
    [Deposit(0, 8, 1), Borrow(0, 1, Stable, 1, 1), SetMarketRate(5), Borrow(1, 3, Variable, 1, 1)]

  lemma OwingRun()
    ensures SoundState(Fresh(0, 2))
    ensures
      var n := Run(FLAT, Fresh(0, 2), OWING_RUN);
      && n.reserve == OWING && |n.users| == 2
      && n.users[1].principalStableDebt == 0 == n.users[1].currentStableDebt && n.users[1].scaledVariableDebt == 3
      && n.users[1].stableBorrowRate == 0 && SoundUser(n.users[1], 1)
  {
    hide AfterDeposit, AfterBorrow, UserAfterDeposit, Run, CanBorrow, CanDeposit;
    var m := Fresh(0, 2);
    EightRecord();
    SevenRecord();
    OwingRecord();
    var a, b, c, d := Deposit(0, 8, 1), Borrow(0, 1, Stable, 1, 1), SetMarketRate(5), Borrow(1, 3, Variable, 1, 1);
    assert [a] + [b] == [a, b] && [a, b] + [c] == [a, b, c] && [a, b, c] + [d] == OWING_RUN;
    RunOnce(FLAT, m, a);
    RunAgain(FLAT, m, [a], b);
    RunAgain(FLAT, m, [a, b], c);
    RunAgain(FLAT, m, [a, b, c], d);
    var m1 := Apply(FLAT, m, a);
    StepSound(FLAT, m, a);
    var m2 := Apply(FLAT, m1, b);
    StepSound(FLAT, m1, b);
    assert m1.users[1] == NOBODY && m2.users[1] == NOBODY by {
      hide UserAfterBorrow;
    }
    var m3 := Apply(FLAT, m2, c);
    StepSound(FLAT, m2, c);
    StepSound(FLAT, m3, d);
    OwingUser(m3);
  }

  lemma OwingUser(m: State)
    requires SoundState(m) && m.reserve == SEVEN.(marketStableRate := 5) && |m.users| == 2 && m.users[1] == NOBODY
    ensures
      var n := Apply(FLAT, m, Borrow(1, 3, Variable, 1, 1));
      && n.reserve == OWING && |n.users| == 2
      && n.users[1].principalStableDebt == 0 == n.users[1].currentStableDebt && n.users[1].scaledVariableDebt == 3
      && n.users[1].stableBorrowRate == 0
  {
    hide AfterBorrow, CanBorrow, VariableDebtBalance, ATokenBalance, RayDiv;
    OwingRecord();
    RayDivIs(3, RAY, 3);
  }

  /** A concrete run after which a swap to stable and back leaves a negative average rate. */
  lemma SwapBackCanFail()
    ensures SoundState(Fresh(0, 2))
    ensures
      var n := Run(FLAT, Fresh(0, 2), OWING_RUN);
      && |n.users| == 2
      && var r, u := n.reserve, n.users[1];
         && SwapComputes(FLAT, r, u, Variable, 1)
         && 0 < UserStableDebt(u, 1) + VariableDebtBalance(r, u, 1)
         && var r1 := AfterSwap(FLAT, r, u, Variable, 1);
            && r1.variableBorrowIndex != 0
            && var u1 := UserAfterSwap(r, r1, u, Variable, 1);
               && SwapComputes(FLAT, r1, u1, Stable, 1)
               && AfterSwap(FLAT, r1, u1, Stable, 1).averageStableBorrowRate < 0
  {
    OwingRun();
    var u := Run(FLAT, Fresh(0, 2), OWING_RUN).users[1];
    OwingSwaps(u);
    hide Run, AfterSwap, UserAfterSwap, VariableDebtBalance, UserStableDebt, SwapComputes, OWING_RUN;
  }

  lemma OwingSwaps(u: User)
    requires u.principalStableDebt == 0 == u.currentStableDebt && u.scaledVariableDebt == 3
    requires u.stableBorrowRate == 0 && SoundUser(u, 1)
    ensures SwapComputes(FLAT, OWING, u, Variable, 1)
    ensures 0 < UserStableDebt(u, 1) + VariableDebtBalance(OWING, u, 1)
    ensures AfterSwap(FLAT, OWING, u, Variable, 1).variableBorrowIndex != 0
    ensures
      var r1 := AfterSwap(FLAT, OWING, u, Variable, 1);
      var u1 := UserAfterSwap(OWING, r1, u, Variable, 1);
      && SwapComputes(FLAT, r1, u1, Stable, 1)
      && AfterSwap(FLAT, r1, u1, Stable, 1).averageStableBorrowRate < 0
  {
    RayMulUnit(3);
    RayMulUnit(1);
    NothingAccrues(0, 1, 1);
    QuotientIs(15, 4, 3);
    QuotientIs(15, 3, 5);
    hide RayMul, CompoundedInterest, AfterSwap, UserAfterSwap, TruncDiv;
    SwapBackNegativeIff(FLAT, OWING, u, 1);
  }

  // ---------- A second variable borrower ----------

  /** Ten units are supplied, and two users borrow a unit each at the variable rate. */
  const BORROWERS: seq<Action> := [Deposit(0, 10, 1), Borrow(0, 1, Variable, 1, 1), Borrow(1, 1, Variable, 1, 1)]

  /** A concrete run, at any rates, whose second variable borrower loses the backing of the reserve's scaled debt. */
  lemma SecondBorrowerLosesBacking(s: Strategy)
    requires s.Valid()
    ensures SoundState(Fresh(0, 2)) && Backed(Fresh(0, 2))
    ensures !Backed(Run(s, Fresh(0, 2), BORROWERS))
  {
    hide Run, Apply, Backed, Enabled, SoundState;
    var m := Fresh(0, 2);
    var a, b, c := Deposit(0, 10, 1), Borrow(0, 1, Variable, 1, 1), Borrow(1, 1, Variable, 1, 1);
    NobodyOwes();
    assert [a] + [b] == [a, b] && [a, b] + [c] == BORROWERS;
    RunOnce(s, m, a);
    RunAgain(s, m, [a], b);
    RunAgain(s, m, [a, b], c);
    StepSound(s, m, a);
    StepKeepsBacking(s, m, a);
    FirstSupply(s);
    SecondBorrow(s, Apply(s, m, a));
  }

  lemma SecondBorrow(s: Strategy, m: State)
    requires s.Valid() && SoundState(m) && Backed(m) && |m.users| == 2
    requires m.users[0].scaledVariableDebt == 0 && m.users[1] == NOBODY
    requires m.reserve.availableLiquidity == 10 && m.reserve.totalVariableDebt == 0 == m.reserve.scaledVariableDebt
    requires m.reserve.variableBorrowIndex == RAY && m.reserve.lastUpdateTimestamp == 1
    ensures SoundState(Apply(s, m, Borrow(0, 1, Variable, 1, 1)))
    ensures !Backed(Apply(s, Apply(s, m, Borrow(0, 1, Variable, 1, 1)), Borrow(1, 1, Variable, 1, 1)))
  {
    hide Apply, Backed, Enabled, SoundState;
    var b, c := Borrow(0, 1, Variable, 1, 1), Borrow(1, 1, Variable, 1, 1);
    FirstBorrow(s, m);
    StepSound(s, m, b);
    StepKeepsBacking(s, m, b);
    StepKeepsBacking(s, Apply(s, m, b), c);
  }

  lemma NobodyOwes()
    ensures SoundState(Fresh(0, 2)) && Backed(Fresh(0, 2))
  {
    var users := Fresh(0, 2).users;
    assert SumOf(Scaled, users[..1][..0]) == 0 && SumOf(Scaled, users[..1]) == 0;
  }

  lemma SuppliedReserve(s: Strategy)
    requires s.Valid()
    ensures CanDeposit(s, FreshReserve(0, 0), 10, 1)
    ensures
      var e := AfterDeposit(s, FreshReserve(0, 0), 10, 1);
      && e.availableLiquidity == 10 && e.totalVariableDebt == 0 == e.scaledVariableDebt
      && e.variableBorrowIndex == RAY && e.lastUpdateTimestamp == 1
  {
    hide RayMul, RayDiv, TotalStableDebt, UtilizationRate, InterestRates;
    RayMulUnit(RAY);
    DebtsAt(FreshReserve(0, 0), 1);
  }

  lemma FirstSupply(s: Strategy)
    requires s.Valid() && SoundState(Fresh(0, 2))
    ensures
      var m := Apply(s, Fresh(0, 2), Deposit(0, 10, 1));
      && m.reserve.availableLiquidity == 10 && m.reserve.totalVariableDebt == 0 == m.reserve.scaledVariableDebt
      && m.reserve.variableBorrowIndex == RAY && m.reserve.lastUpdateTimestamp == 1
      && |m.users| == 2 && m.users[0].scaledVariableDebt == 0 && m.users[1] == NOBODY
  {
    hide AfterDeposit, VariableDebtBalance, UserStableDebt, ATokenBalance, ScaledATokenBalance;
    SuppliedReserve(s);
    DepositSound(s, FreshReserve(0, 0), 10, 1);
  }

  lemma BorrowedUnit(s: Strategy, r: Reserve)
    requires CanBorrow(s, r, 1, 1, 1) && r.totalVariableDebt == 0 == r.scaledVariableDebt
    requires r.variableBorrowIndex == RAY && r.lastUpdateTimestamp == 1
    ensures
      var e := AfterBorrow(s, r, 1, Variable, 1, 1);
      e.scaledVariableDebt == 1 && e.availableLiquidity == r.availableLiquidity - 1 && e.lastUpdateTimestamp == 1
  {
    hide RayMul, RayDiv, TotalStableDebt, UtilizationRate, InterestRates, StableDebtBalance, NormalizedDebt,
      LiquidityIndexAt;
    BorrowSettledSound(s, r, 1, Variable, 1);
    RayDivIs(1, RAY, 1);
  }

  lemma FirstBorrow(s: Strategy, m: State)
    requires s.Valid() && SoundState(m) && |m.users| == 2 && m.users[1] == NOBODY
    requires m.reserve.availableLiquidity == 10 && m.reserve.totalVariableDebt == 0 == m.reserve.scaledVariableDebt
    requires m.reserve.variableBorrowIndex == RAY && m.reserve.lastUpdateTimestamp == 1
    ensures Enabled(s, m, Borrow(0, 1, Variable, 1, 1))
    ensures
      var n := Apply(s, m, Borrow(0, 1, Variable, 1, 1));
      && n.reserve.scaledVariableDebt == 1 && |n.users| == 2 && n.users[1] == NOBODY
      && Enabled(s, n, Borrow(1, 1, Variable, 1, 1))
  {
    hide AfterBorrow, UserAfterBorrow, UserStableDebt;
    BorrowedUnit(s, m.reserve);
    BorrowSound(s, m.reserve, 1, Variable, 1, 1);
  }
}
