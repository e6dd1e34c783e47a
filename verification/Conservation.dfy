/** Quantities of the whole market: what the users hold together against what the reserve records. */
module Conservation {
  import opened FixedPoint
  import opened RateStrategy
  import opened Records
  import opened ReserveSteps
  import opened UserSteps
  import opened Balances
  import opened Market

  function SumOf(f: User -> int, users: seq<User>): int {
    if users == [] then 0 else SumOf(f, users[..|users| - 1]) + f(users[|users| - 1])
  }

  /** Replacing one user changes a sum by the difference of the two. */
  lemma {:induction false} SumUpdate(f: User -> int, users: seq<User>, who: nat, e: User)
    requires who < |users|
    ensures SumOf(f, users[who := e]) == SumOf(f, users) - f(users[who]) + f(e)
  {
    var k := |users| - 1;
    if who < k {
      SumUpdate(f, users[..k], who, e);
      assert users[who := e][..k] == users[..k][who := e];
    } else {
      assert users[who := e][..k] == users[..k];
    }
  }

  lemma {:induction false} SumSame(f: User -> int, users: seq<User>, others: seq<User>)
    requires |users| == |others| && forall i :: 0 <= i < |users| ==> f(users[i]) == f(others[i])
    ensures SumOf(f, users) == SumOf(f, others)
  {
    if users != [] {
      SumSame(f, users[..|users| - 1], others[..|others| - 1]);
    }
  }

  lemma {:induction false} MemberAtMostSum(f: User -> int, users: seq<User>, who: nat)
    requires who < |users| && forall i :: 0 <= i < |users| ==> 0 <= f(users[i])
    ensures 0 <= f(users[who]) <= SumOf(f, users)
  {
    var k := |users| - 1;
    if 0 < k {
      MemberAtMostSum(f, users[..k], if who < k then who else 0);
    }
  }

  // ---------- Scaled variable debt ----------

  function Scaled(u: User): int { u.scaledVariableDebt }

  /** The scaled variable debt of the reserve is the sum over its users. */
  predicate Backed(m: State) {
    SumOf(Scaled, m.users) == m.reserve.scaledVariableDebt
  }

  /** In a backed market every user's variable debt is the same from the normalised debt and from the new index, and
      repaying all of it removes exactly the user's scaled debt: no user owes more than the reserve records. */
  lemma BackedDebt(m: State, who: nat, t: int)
    requires SoundState(m) && Backed(m) && who < |m.users| && m.reserve.lastUpdateTimestamp <= t
    ensures m.users[who].scaledVariableDebt <= m.reserve.scaledVariableDebt
    ensures RAY <= VariableBorrowIndexAt(m.reserve, t)
    ensures
      var u, index := m.users[who], VariableBorrowIndexAt(m.reserve, t);
      && VariableDebtBalance(m.reserve, u, t) == RayMul(u.scaledVariableDebt, index)
      && RayDiv(VariableDebtBalance(m.reserve, u, t), index) == u.scaledVariableDebt
  {
    MemberAtMostSum(Scaled, m.users, who);
    DebtRoutesAgree(m.reserve, m.users[who], t);
    RepaidAll(m.reserve, m.users[who], t);
  }

  predicate IsVariableBorrow(s: Strategy, m: State, a: Action) {
    a.Borrow? && a.mode == Variable && Enabled(s, m, a)
  }

  predicate IsSoleBorrower(m: State, a: Action)
    requires a.Borrow?
  {
    a.who < |m.users| && m.users[a.who].scaledVariableDebt == m.reserve.scaledVariableDebt
  }

  /** Every action keeps the market backed, except that a variable borrow does so exactly if its user owed all of
      the reserve's variable debt before. */
  lemma StepKeepsBacking(s: Strategy, m: State, a: Action)
    requires SoundState(m) && Backed(m)
    ensures !IsVariableBorrow(s, m, a) ==> Backed(Apply(s, m, a))
    ensures IsVariableBorrow(s, m, a) ==> (Backed(Apply(s, m, a)) <==> IsSoleBorrower(m, a))
  {
    hide AfterDeposit, AfterWithdraw, AfterBorrow, AfterRepay, AfterSwap, AfterRebalance, UserAfterRebalance,
      UserAfterDeposit, UserAfterWithdraw, UserAfterBorrow, UserAfterRepay, UserAfterSwap, UserStableDebt,
      VariableDebtBalance, RepaidAmount, WithdrawnAmount, ATokenBalance, TotalStableDebtAt;
    if Enabled(s, m, a) {
      var r, users, n := m.reserve, m.users, Apply(s, m, a);
      StepSound(s, m, a);
      match a {
        case Borrow(who, amount, mode, t, now) =>
          SumUpdate(Scaled, users, who, n.users[who]);
          if mode == Variable {
            BorrowMovesTogetherIff(s, r, users[who], amount, t, now);
          } else {
            StableBorrowKeepsScaled(s, m, a);
          }
        case Repay(who, amount, mode, ownWallet, t) =>
          SumUpdate(Scaled, users, who, n.users[who]);
          if mode == Variable {
            RepayMovesTogether(s, r, users[who], amount, ownWallet, t);
          } else {
            StableRepayKeepsScaled(s, m, a);
          }
        case Swap(who, mode, t) =>
          SumUpdate(Scaled, users, who, n.users[who]);
          SwapMovesTogether(s, r, users[who], mode, t);
        case Rebalance(who, t) =>
          SumUpdate(Scaled, users, who, n.users[who]);
          RebalanceKeepsScaled(s, m, a);
        case Deposit(who, amount, t) =>
          SumUpdate(Scaled, users, who, n.users[who]);
          SuppliesKeepScaled(s, m, a);
        case Withdraw(who, amount, t) =>
          SumUpdate(Scaled, users, who, n.users[who]);
          SuppliesKeepScaled(s, m, a);
        case SetUseAsCollateral(who, useAsCollateral) =>
          SumUpdate(Scaled, users, who, n.users[who]);
        case SetMarketRate(rate) =>
        case Read(now) => SumSame(Scaled, n.users, users);
      }
    }
  }

  lemma StableBorrowKeepsScaled(s: Strategy, m: State, a: Action)
    requires SoundState(m) && Enabled(s, m, a) && a.Borrow? && a.mode == Stable
    ensures Apply(s, m, a).reserve.scaledVariableDebt == m.reserve.scaledVariableDebt
    ensures Scaled(Apply(s, m, a).users[a.who]) == Scaled(m.users[a.who])
  {
    BorrowSettledSound(s, m.reserve, a.amount, a.mode, a.t);
    hide RayMul, RayDiv, Repriced, UserStableDebt, VariableDebtBalance, ATokenBalance;
  }

  lemma StableRepayKeepsScaled(s: Strategy, m: State, a: Action)
    requires SoundState(m) && Enabled(s, m, a) && a.Repay? && a.mode == Stable
    ensures Apply(s, m, a).reserve.scaledVariableDebt == m.reserve.scaledVariableDebt
    ensures Scaled(Apply(s, m, a).users[a.who]) == Scaled(m.users[a.who])
  {
    hide RayMul, RayDiv, Repriced, UserStableDebt, VariableDebtBalance, ATokenBalance, StableRepaid;
  }

  lemma RebalanceKeepsScaled(s: Strategy, m: State, a: Action)
    requires SoundState(m) && Enabled(s, m, a) && a.Rebalance?
    ensures Apply(s, m, a).reserve.scaledVariableDebt == m.reserve.scaledVariableDebt
    ensures Scaled(Apply(s, m, a).users[a.who]) == Scaled(m.users[a.who])
  {
    hide RayMul, RayDiv, Repriced, UserStableDebt, VariableDebtBalance, ATokenBalance, RebalancedRate;
  }

  lemma SuppliesKeepScaled(s: Strategy, m: State, a: Action)
    requires SoundState(m) && Enabled(s, m, a) && (a.Deposit? || a.Withdraw?)
    ensures Apply(s, m, a).reserve.scaledVariableDebt == m.reserve.scaledVariableDebt
    ensures Scaled(Apply(s, m, a).users[a.who]) == Scaled(m.users[a.who])
  {
    hide RayMul, RayDiv, Repriced, UserStableDebt, VariableDebtBalance, ATokenBalance;
  }

  /** Along the run, every variable borrow is by the only variable borrower. */
  predicate SoleBorrowersOnly(s: Strategy, m: State, actions: seq<Action>)
    requires SoundState(m)
    decreases |actions|
  {
    actions == [] ||
    var k := |actions| - 1;
    && SoleBorrowersOnly(s, m, actions[..k])
    && var before := Run(s, m, actions[..k]);
       (IsVariableBorrow(s, before, actions[k]) ==> IsSoleBorrower(before, actions[k]))
  }

  /** Over every run whose variable borrows are by the only variable borrower, the reserve's scaled debt stays the
      sum over its users. */
  lemma {:induction false} RunKeepsBacking(s: Strategy, m: State, actions: seq<Action>)
    requires SoundState(m) && Backed(m) && SoleBorrowersOnly(s, m, actions)
    ensures Backed(Run(s, m, actions))
    decreases |actions|
  {
    if actions != [] {
      var k := |actions| - 1;
      RunKeepsBacking(s, m, actions[..k]);
      StepKeepsBacking(s, Run(s, m, actions[..k]), actions[k]);
    }
  }

  // ---------- Cash ----------

  function Wallet(u: User): int { u.walletBalance }

  /** The underlying in the reserve and in the wallets of the users. */
  function Cash(m: State): int {
    m.reserve.availableLiquidity + SumOf(Wallet, m.users)
  }

  /** What an action brings in from outside: a repayment by somebody else. */
  function Inflow(s: Strategy, m: State, a: Action): int {
    if a.Repay? && !a.ownWallet && Enabled(s, m, a) then
      RepaidAmount(m.reserve, m.users[a.who], a.amount, a.mode, a.t)
    else 0
  }

  /** No action creates or destroys underlying. */
  lemma StepConservesCash(s: Strategy, m: State, a: Action)
    requires SoundState(m)
    ensures Cash(Apply(s, m, a)) == Cash(m) + Inflow(s, m, a)
  {
    var n := Apply(s, m, a);
    if !Enabled(s, m, a) || a.SetMarketRate? || a.Read? {
      SumSame(Wallet, n.users, m.users);
    } else {
      CashMoves(s, m, a);
      SumUpdate(Wallet, m.users, a.who, n.users[a.who]);
    }
  }

  /** The liquidity and the acting user's wallet move by opposite amounts. */
  lemma CashMoves(s: Strategy, m: State, a: Action)
    requires SoundState(m) && Enabled(s, m, a) && !a.SetMarketRate? && !a.Read?
    ensures
      var n := Apply(s, m, a);
      && |n.users| == |m.users| && n.users == m.users[a.who := n.users[a.who]]
      && n.reserve.availableLiquidity + Wallet(n.users[a.who])
         == m.reserve.availableLiquidity + Wallet(m.users[a.who]) + Inflow(s, m, a)
  {
    hide RayMul, RayDiv, UserStableDebt, VariableDebtBalance, ATokenBalance, RepaidAmount, Repriced,
      StableDebtBalance, WithdrawnAmount, TotalStableDebtAt, StableRepaid, LiquidityIndexAt, VariableBorrowIndexAt,
      RebalancedRate;
    if a.Borrow? {
      BorrowSettledSound(s, m.reserve, a.amount, a.mode, a.t);
    }
  }

  function RunInflow(s: Strategy, m: State, actions: seq<Action>): int
    requires SoundState(m)
    decreases |actions|
  {
    if actions == [] then 0
    else
      var k := |actions| - 1;
      RunInflow(s, m, actions[..k]) + Inflow(s, Run(s, m, actions[..k]), actions[k])
  }

  /** Over every run the underlying in the reserve and in the wallets is what it was, plus what others repaid. */
  lemma {:induction false} RunConservesCash(s: Strategy, m: State, actions: seq<Action>)
    requires SoundState(m)
    ensures Cash(Run(s, m, actions)) == Cash(m) + RunInflow(s, m, actions)
    decreases |actions|
  {
    if actions != [] {
      var k := |actions| - 1;
      RunConservesCash(s, m, actions[..k]);
      StepConservesCash(s, Run(s, m, actions[..k]), actions[k]);
    }
  }
}
