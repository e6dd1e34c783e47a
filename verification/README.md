# A verified model of the lending reserve

This project models the arithmetic of a lending market (a fork of Aave V2) as its TypeScript reference model states
it: the records of one reserve and of its users before and after each action, computed with half-up fixed-point
arithmetic. A second, smaller part models how library addresses are linked into contract bytecode.
`dafny verify dfyconfig.toml` checks everything.

| file | content |
|---|---|
| FixedPoint, Divisors | ray and percent arithmetic, rounding, dust, drift; common divisors, which decide how bad roundings get |
| Interest, Compounding | linear interest, the third-order expansion, and true per-second compounding over the reals |
| RateStrategy | utilisation, the kinked curve, the overall borrow rate, the liquidity rate |
| Solvency | interest credited against interest owed, for one accrual |
| StableAverage | average and user stable rates |
| Records | the reserve and user records, indices and balances, and what every reachable record satisfies |
| ReserveSteps, UserSteps | the records after deposit, withdraw, borrow, repay, swap of rate mode, rebalancing and collateral choice |
| ReserveMeaning, UserMeaning | what the records of each step mean: rates on their curves, amounts moved against the record as read just before, debts as they grow later |
| Balances | what the reserve step and the user step of one action do together |
| Market | the market as a state machine and its runs |
| ReserveCalculations, UserCalculations, Stories | the same steps, and whole stories, as methods that fill records field by field |
| Conservation, StableTracking | scaled debt, cash and stable rates summed over all users |
| StepSolvency, ReadSolvency | solvency of the record after every action of every run, and of records that are read later |
| MarketSolvency | all claims of suppliers against all assets of the reserve, over runs |
| ConcreteRuns | runs from a fresh market in which something fails |
| Tolerance, IndexTolerance, Conformance | the comparison of records, and exactly where it holds |
| LinkBytecode | linking |

## Reading the model

**Numbers.** The scenario suites set the big-number library to no decimal places and rounding down
(test-suites/test-aave/scenario.spec.ts, line 23), so every division truncates toward zero. All numbers are unbounded
integers and `TruncDiv` is that division, also for negative operands. The real numbers in Compounding only serve as
the exact value that the integers are measured against.

**Steps.** Each step is a function of the records before it, written from shared parts (accrue, move amounts, sum up,
reprice). For the reserve and the user each step also exists as a method in the order of the source, with its
reassigned amounts and overwritten fields, and is proved equal to the function. What the records mean is stated apart
from both, in ReserveMeaning and UserMeaning: which rates they charge, how they differ from the records as they would
have been read just before, and what reading them at once or their stable debt at any later time shows. The fields
that the source leaves to be read back before the next action are filled in: the time of the step, the time the stable
debt was last touched, and the market's stable rate, which an action of its own may change. Reading back at a later
time is an action, too: it moves debts, liquidity, utilisation and the users' balances on. The reserve's symbol only
selects its strategy, which is a parameter here.

**Runs.** A run is any sequence of actions. An action whose demands are not met reverts. The demands (`CanDeposit`,
`CanWithdraw`, `CanBorrow`, `CanRepay`, `CanSwap`, `CanRebalance`) are not in the reference model, which subtracts
without looking: time does not run backwards, amounts are at most the available liquidity or the user's balance or
debt, a variable debt is part of the reserve's, a user who swaps to stable owes something, a swap to variable takes no
more stable debt and weight than the reserve records (`SwapSoundIff`: exactly this keeps the reserve sound), and a
rebalancing leaves an average that is not negative (`RebalanceSoundIff`). A record can be read back exactly if its
debts at its own time do not round to no utilisation while suppliers earn (`ReadSoundIff`, `DepositCanBeUnreadable`).
A run is in order if no action starts before the records of the one before it have been read.

**Where the code does not do what one would expect.** The code is modelled as it is.

- A variable borrow builds the user's new scaled debt on the scaled debt of the whole reserve (calculations.ts, line
  639). The sum over the users equals the reserve's debt afterwards exactly if the borrower was the only one
  (`StepKeepsBacking`, `BorrowMovesTogetherIff`; a concrete run in `SecondBorrowerLosesBacking`).
- A swap to variable has no clamp like the one of a stable repayment, so it can leave a negative average rate; exactly
  when is `SwapRateNegativeIff`, a concrete case `SwapRateCanBeNegative`, and exactly when a swap to stable and back
  does so `SwapBackNegativeIff`, a concrete run `SwapBackCanFail`. The scaled debts are restored in any case
  (`SwapRoundTrip`).
- A stable repayment of the whole recorded debt leaves an average of zero whatever the user's rate was; the average
  then tracks the users exactly if both rates were equal (`EmptyingRepayDrift`).
- Comments call all index guards "utilisation is zero", but two of them look at rates (lines 1335 and 1357). The
  supplier index and the supplier balances then agree exactly under the condition of `IncomeRoutesAgreeIff`, which
  every reachable reserve meets. The guard of a user's stable debt also takes time zero for no time
  (`StableRoutesAgreeIff`).
- A rebalancing adds amounts in wad to amounts in ray; `RebalancedMixes` says which mean that gives.
- A swap to stable builds the new average and the user's new principal on the stable debts as they were last recorded,
  not as they have accrued since (`SwapIs`, `UserSwapIs`).
- A deposit puts the user's variable debt in the place of the principal of the stable one, and a variable repayment
  exchanges principal and current stable debt (`UserDepositIs`, `UserRepayIs`).
- After a deposit the recorded liquidity is the sum of its parts exactly if nothing accrued (`DepositLiquidityGap`).
- Scaled and current balances stay within the tolerance of the comparison at exactly the indices of `ToleratedIff`.
- A borrow that is read later keeps the rates of the time before. Whether they still pay for what suppliers get
  depends on how the mix of the two debts has shifted since (`LateBorrowIsCovered`). The shift is rounding only after
  a stable borrow, and after a variable one at a rate of at least the average stable one; a dearer stable debt that
  has been growing for longer falls behind, and `LateBorrowCanFail` is a concrete run.
- The contracts round the variable rate and the average stable rate in a different order. `AveragesConformIff` gives
  exactly the total debts for which the average cannot differ, `ErasingDiffersIff` exactly when the contract erases a
  rest of stable debt and the expected record does not. For the variable rate `ConformsAtIff` and `OptimumConformsIff`
  give the utilisations at which no slope makes it differ, and `VariableRateConforms` the slopes that never do.

## Model

| member | source | states |
|---|---|---|
| FixedPoint.RayMulRounds | test-suites/test-aave/helpers/utils/math.ts:55-57 | the product is the integer nearest to a·b/RAY, ties upward |
| FixedPoint.RayDivRounds | test-suites/test-aave/helpers/utils/math.ts:59-67 | the quotient is the integer nearest to a·RAY/b, ties upward, although half of an odd divisor is truncated |
| FixedPoint.RayDivMono | test-suites/test-aave/helpers/utils/math.ts:59-67 | rounding keeps the order of fractions with different denominators |
| FixedPoint.NoDust | test-suites/test-aave/helpers/utils/math.ts:55-67 | scaling up by an index of at least one ray and down again loses nothing |
| FixedPoint.LosslessIffAtLeastRay | test-suites/test-aave/helpers/utils/math.ts:55-67 | exactly the indices of at least one ray are free of dust for all amounts |
| FixedPoint.AddDrift | test-suites/test-aave/helpers/utils/calculations.ts:1085-1094 | adding an amount to the scaled and to the current balance keeps both within ceil(index / 2 RAY) |
| FixedPoint.TakeDrift | test-suites/test-aave/helpers/utils/calculations.ts:1085-1094 | taking at most the balance keeps the same bound and never makes the scaled balance negative |
| Interest.CompoundedIsExpansion | test-suites/test-aave/helpers/utils/calculations.ts:1199-1229 | for every elapsed time the code computes the binomial expansion exactly: no division truncates, the clamp changes nothing |
| Interest.CompoundedMono | test-suites/test-aave/helpers/utils/calculations.ts:1199-1229 | compounded interest is at least one ray and monotone in rate and time |
| Interest.LinearAtLeastRay | test-suites/test-aave/helpers/utils/calculations.ts:1184-1197 | linear growth is one ray and the yearly rate for the elapsed seconds, short of it by less than one unit |
| Interest.LinearVersusCompounded | test-suites/test-aave/helpers/utils/calculations.ts:1184-1229 | compounding falls below linear growth by less than the elapsed seconds, and not at all at once |
| Interest.SplitCompounded | test-suites/test-aave/helpers/utils/calculations.ts:1199-1229 | compounding m and then n seconds against n + m at once, from both sides: with the rounding of the powers and the terms a single expansion drops counted exactly |
| Interest.FrequentTouchesKeepGrowth | test-suites/test-aave/helpers/utils/calculations.ts:1184-1229 | touching a reserve in between never lowers either index, up to an explicit slack |
| Compounding.TouchesKeepExpansion | test-suites/test-aave/helpers/utils/calculations.ts:1199-1229 | without rounding the same holds with no slack, at every order of the expansion |
| Compounding.TruncatedBelow | test-suites/test-aave/helpers/utils/calculations.ts:1199-1229 | the expansion never exceeds per-second compounding and equals it up to as many seconds as it has orders |
| Compounding.TruncatedRemainder | test-suites/test-aave/helpers/utils/calculations.ts:1199-1229 | what the expansion misses is at most its first dropped term grown over the whole period |
| Compounding.CompoundedRefinesPerSecond | test-suites/test-aave/helpers/utils/calculations.ts:1199-1229 | the charged factor against per-second compounding, bounded from both sides including all rounding |
| RateStrategy.UtilizationDefinitionsAgree | test-suites/test-aave/helpers/utils/helpers.ts:39-49 | utilisation guarded by the debts and utilisation guarded by the liquidity are the same |
| RateStrategy.UtilizationMono | test-suites/test-aave/helpers/utils/calculations.ts:1315-1327 | utilisation is a fraction of one ray, rises with debt and falls with available liquidity |
| RateStrategy.CurveMono | test-suites/test-aave/helpers/utils/calculations.ts:1246-1279 | both borrow rates never fall across both branches and stay between start and start plus both slopes |
| RateStrategy.CurveMeetsAtOptimum | test-suites/test-aave/helpers/utils/calculations.ts:1246-1279 | both branches meet exactly at the optimum |
| RateStrategy.BorrowRatesTrackLines | test-suites/test-aave/helpers/utils/calculations.ts:1246-1279 | both rates follow the straight lines of their own slopes up to stated rounding |
| RateStrategy.OverallNearWeighted | test-suites/test-aave/helpers/utils/calculations.ts:1294-1313 | overall rate times debt is the interest on both debts, up to one wad and half the debt |
| RateStrategy.OverallBetween | test-suites/test-aave/helpers/utils/calculations.ts:1294-1313 | the overall rate lies between the two rates, up to one wad spread over the debt and half a unit |
| RateStrategy.LiquidityRateIsShare | test-suites/test-aave/helpers/utils/calculations.ts:1287-1289 | the liquidity rate is the borrowed, not retained share of the overall rate up to stated rounding |
| RateStrategy.LiquidityRateBounded | test-suites/test-aave/helpers/utils/calculations.ts:1287-1289 | suppliers never get more than borrowers pay, and nothing at zero utilisation |
| RateStrategy.CalcInterestRates | test-suites/test-aave/helpers/utils/calculations.ts:1231-1292 | raised branch by branch, the borrow rates follow the lines of their slopes and stay within start and both slopes; suppliers get the borrowed, not retained share of the overall rate, no more than it, and nothing while nobody borrows |
| RateStrategy.RatesNonNegative | test-suites/test-aave/helpers/utils/calculations.ts:1231-1292 | no rate is negative, and zero utilisation pays suppliers nothing |
| Solvency.AccrualIsSolvent | test-suites/test-aave/helpers/utils/calculations.ts:1184-1327 | for every elapsed time the interest credited on the liquidity is at most the interest owed on both debts, up to an explicit slack per second |
| StableAverage.AddLiesBetween | test-suites/test-aave/helpers/utils/calculations.ts:1108-1124 | adding debt leaves the average between the old average and the new rate |
| StableAverage.AddedWeight | test-suites/test-aave/helpers/utils/calculations.ts:1108-1124 | the new average times the new total is the sum of the weights, short by less than one new total |
| StableAverage.RemovedWeight | test-suites/test-aave/helpers/utils/calculations.ts:1108-1124 | the same for removing debt, and exactly when the result is negative |
| StableAverage.AverageRoundTrip | test-suites/test-aave/helpers/utils/calculations.ts:1108-1124 | adding and removing an amount at one rate never ends above the starting average and loses less than 2 + amount/total |
| Records.IndicesAccrue | test-suites/test-aave/helpers/utils/calculations.ts:1385-1413 | on a sound reserve neither index falls, and at the same time both stay |
| Records.IncomeRoutesAgreeIff | test-suites/test-aave/helpers/utils/calculations.ts:1329-1349 | the supplier index by utilisation and by rate agree exactly unless an unused reserve has earned a unit |
| Records.IncomeRoutesAgree | test-suites/test-aave/helpers/utils/calculations.ts:1385-1398 | on a sound reserve both routes to the supplier index agree |
| Records.DebtRoutesAgree | test-suites/test-aave/helpers/utils/calculations.ts:1351-1371 | the user's debt from the normalised debt is the debt from the reserve's new index |
| Records.StableDebtGrows | test-suites/test-aave/helpers/utils/calculations.ts:1415-1428 | stable debts never fall below the principal and grow with time |
| Records.StableRoutesAgreeIff | test-suites/test-aave/helpers/utils/calculations.ts:1161-1182 | the guarded debt of a user grows as the unguarded total of the reserve does, exactly unless a debt from time zero has earned half a unit |
| ReserveSteps.SwapRateNegativeIff | test-suites/test-aave/helpers/utils/calculations.ts:828-837 | exactly when a swap to variable leaves a negative average rate |
| ReserveSteps.SwapRateCanBeNegative | test-suites/test-aave/helpers/utils/calculations.ts:828-837 | a sound reserve and user for which it does |
| ReserveSteps.RepaidVariable | test-suites/test-aave/helpers/utils/calculations.ts:552-558 | repaying at most the user's debt removes at most the user's scaled debt |
| ReserveSteps.RepaidAll | test-suites/test-aave/helpers/utils/calculations.ts:492-499 | repaying everything removes exactly the user's scaled debt |
| ReserveSteps.DepositSound | test-suites/test-aave/helpers/utils/calculations.ts:158-216 | a deposit keeps the reserve sound |
| ReserveSteps.WithdrawSound | test-suites/test-aave/helpers/utils/calculations.ts:218-287 | a withdrawal keeps the reserve sound |
| ReserveSteps.BorrowSound | test-suites/test-aave/helpers/utils/calculations.ts:289-463 | a borrow keeps the reserve sound, also when it is read later, and readable from then on |
| ReserveSteps.RepaySound | test-suites/test-aave/helpers/utils/calculations.ts:465-597 | a repayment keeps the reserve sound: its clamps leave no negative debt or rate, and no rate without debt |
| ReserveSteps.SwapSoundIff | test-suites/test-aave/helpers/utils/calculations.ts:776-886 | a swap keeps the reserve sound exactly if its demands are met |
| ReserveSteps.RebalanceSoundIff | test-suites/test-aave/helpers/utils/calculations.ts:954-1037 | a rebalancing keeps the reserve sound exactly if its average, computed across units, is not negative and vanishes without debt |
| ReserveSteps.AgedSound | test-suites/test-aave/helpers/utils/helpers.ts:39-49 | reading a readable record at any later time keeps it sound and readable |
| ReserveSteps.ReadSoundIff | test-suites/test-aave/helpers/utils/helpers.ts:39-49 | a record stays sound when it is read at once exactly if suppliers earn nothing or its debts are at least half a ray's share of the liquidity |
| ReserveMeaning.PricedOnCurve | test-suites/test-aave/helpers/utils/calculations.ts:1231-1292 | a record with the rates of its totals charges on the lines of its slopes, within start and both slopes, and pays suppliers their share |
| ReserveMeaning.AccruesAt | test-suites/test-aave/helpers/utils/calculations.ts:1385-1413 | a step grows the supplier index by linear and the variable index by compounded interest unless nobody owes, and moves no balance and no variable debt of any user |
| ReserveMeaning.AgedIsRead | test-suites/test-aave/helpers/utils/helpers.ts:39-49 | a record read later has both debts with all their interest, liquidity as their sum, utilisation as the rounded fraction, and nothing else changed: no guard has an effect |
| ReserveMeaning.DepositIs | test-suites/test-aave/helpers/utils/calculations.ts:158-216 | a deposit adds the amount, leaves both debts as due, and reads back as recorded exactly if its liquidity is the sum of its parts |
| ReserveMeaning.WithdrawIs | test-suites/test-aave/helpers/utils/calculations.ts:218-287 | a withdrawal takes the amount or the whole balance and leaves both debts as due |
| ReserveMeaning.BorrowIs | test-suites/test-aave/helpers/utils/calculations.ts:289-463 | a borrow adds the amount to the debt that was due at the weighted average or up to the drift, at its own utilisation, and is then read later |
| ReserveMeaning.RepayIs | test-suites/test-aave/helpers/utils/calculations.ts:465-597 | a repayment takes the amount or everything off the debt that was due; erased exactly if nothing or a negative rate would be left |
| ReserveMeaning.SwapIs | test-suites/test-aave/helpers/utils/calculations.ts:776-886 | a swap moves the debt that was due from one kind to the other, at the user's rate or at the rate of the reserve |
| ReserveMeaning.RebalanceIs | test-suites/test-aave/helpers/utils/calculations.ts:954-1037 | a rebalancing moves no cash and no debt; its average takes the user out at the user's rate and puts the user back at the rate of the reserve |
| ReserveMeaning.RebalancedMixes | test-suites/test-aave/helpers/utils/calculations.ts:1126-1142 | the rebalanced average is the mean over a total in wad and a change in ray, within one and a half units and three rays spread over the sum, whatever the signs |
| UserMeaning.GrowthFrom | test-suites/test-aave/helpers/utils/calculations.ts:1161-1182 | a stable debt compounds from its principal at its rate at every later time; one from time zero never grows |
| UserMeaning.UserDepositIs | test-suites/test-aave/helpers/utils/calculations.ts:21-88 | amount, wallet, balances, flag and debts after a deposit |
| UserMeaning.UserWithdrawIs | test-suites/test-aave/helpers/utils/calculations.ts:90-156 | amount, wallet, balances, flag and debts after a withdrawal |
| UserMeaning.UserBorrowIs | test-suites/test-aave/helpers/utils/calculations.ts:599-678 | a borrowed debt is what was due and the amount, and reads and grows as such; a variable one records that of the whole reserve |
| UserMeaning.UserRepayIs | test-suites/test-aave/helpers/utils/calculations.ts:680-761 | what is left of a repaid debt reads and grows as such, also when it is read later than the transaction |
| UserMeaning.UserSwapIs | test-suites/test-aave/helpers/utils/calculations.ts:888-952 | to variable, the debt is what was due of both; to stable, the recorded stable debt and the variable one that was due; it reads and grows as such |
| UserMeaning.UserRebalanceIs | test-suites/test-aave/helpers/utils/calculations.ts:1039-1083 | a rebalanced debt grows from its principal at the new average, all else as due |
| UserMeaning.UserReadIs | test-suites/test-aave/helpers/utils/helpers.ts:90-102 | a user read later has the balance with all income and both debts with all interest, the stable one unless it has no time to grow from |
| ReserveCalculations.CalcReserveAfterDeposit | test-suites/test-aave/helpers/utils/calculations.ts:158-216 | sound, no index fallen, both indices grown by their interest, no other user moved, both borrow rates on the lines of their slopes at the recorded utilisation and within start and both slopes; the amount added, both debts as due, and read back as recorded exactly if the liquidity is the sum of its parts |
| ReserveCalculations.CalcReserveAfterWithdraw | test-suites/test-aave/helpers/utils/calculations.ts:218-287 | the same rates and indices; the amount, or the whole balance at the new index, taken, both debts as due, and read back as recorded |
| ReserveCalculations.CalcReserveAfterBorrow | test-suites/test-aave/helpers/utils/calculations.ts:289-463 | settled at the transaction with its own rates on their lines, the amount gone out and joined to the chosen debt at the weighted average or up to the drift of the index; then read at the current time, sound, balanced and readable |
| ReserveCalculations.CalcReserveAfterRepay | test-suites/test-aave/helpers/utils/calculations.ts:465-597 | the same rates and indices; the amount, or the whole debt, taken off the chosen debt at the weighted average or up to the drift; both clamps exactly where nothing or no rate would be left; read back as recorded exactly if the carried stable debt was |
| ReserveCalculations.CalcReserveAfterSwapRateMode | test-suites/test-aave/helpers/utils/calculations.ts:776-886 | the same rates and indices; sound exactly if the demands are met; no cash moves, and the debt of the user moves from one kind to the other up to one unit or the drift, both averages by their weights |
| ReserveCalculations.CalcReserveAfterRebalance | test-suites/test-aave/helpers/utils/calculations.ts:954-1037 | the same rates and indices; sound exactly if its average is; no cash and no debt moves, and the average is the mean over mixed units twice |
| Balances.MaxWithdrawLeavesNothing | test-suites/test-aave/helpers/utils/calculations.ts:101-151 | withdrawing everything leaves no scaled and no current balance; the collateral flag is on only if the recorded balance was zero |
| Balances.DepositUser | test-suites/test-aave/helpers/utils/calculations.ts:53-63 | after a deposit scaled and current balance agree within the drift of the index |
| Balances.WithdrawUser | test-suites/test-aave/helpers/utils/calculations.ts:111-118 | after a withdrawal they agree as well, and neither is negative |
| IndexTolerance.ToleratedIff | test-suites/test-aave/helpers/actions.ts:66-82 | every deposit, and every withdrawal, keeps both balances almost equal exactly at indices below six rays and twice the common divisor of index and ray: all up to six rays, none from eight on |
| Balances.BalancesWithinTolerance | test-suites/test-aave/helpers/actions.ts:66-82 | at these indices the records after a deposit or withdrawal are almost equal as the comparison has it |
| Balances.RepayMovesTogether | test-suites/test-aave/helpers/utils/calculations.ts:734-739 | a variable repayment takes the same scaled debt from user and reserve, all of the user's if everything is repaid |
| Balances.SwapMovesTogether | test-suites/test-aave/helpers/utils/calculations.ts:917-947 | a swap moves the same scaled debt for user and reserve |
| Balances.BorrowMovesTogetherIff | test-suites/test-aave/helpers/utils/calculations.ts:638-641 | a variable borrow does so exactly if the user owed all of the reserve's scaled debt |
| Balances.SwapConservesDebt | test-suites/test-aave/helpers/utils/calculations.ts:809-863 | a swap moves no liquidity, and the accrued debt by at most one unit or the drift of the index |
| Balances.SwapRoundTrip | test-suites/test-aave/helpers/utils/calculations.ts:776-952 | to stable and back at one time restores the scaled debts of user and reserve exactly, whatever average is left |
| Balances.SwapBackNegativeIff | test-suites/test-aave/helpers/utils/calculations.ts:828-863 | exactly when, on the records before, that round trip leaves a negative average and an unsound reserve |
| Balances.SwapBackNegativeIffRemainder | test-suites/test-aave/helpers/utils/calculations.ts:1108-1124 | for a user without stable debt: exactly if the first average truncates more than the others' next rate on their debt |
| Balances.DepositLiquidityGap | test-suites/test-aave/helpers/utils/calculations.ts:167-193 | after a deposit the liquidity is the sum of its parts exactly if it was the sum with the debts due at the deposit |
| UserCalculations.CalcUserAfterDeposit | test-suites/test-aave/helpers/utils/calculations.ts:21-88 | sound; the amount moves from the wallet to the balance, scaled and current balance agree within the drift, debts and flag as due; the variable debt takes the place of the stable principal |
| UserCalculations.CalcUserAfterWithdraw | test-suites/test-aave/helpers/utils/calculations.ts:90-156 | the same in the other direction, nothing left if everything is taken, the stable debt growing on unchanged, and exactly when the collateral flag changes |
| UserCalculations.CalcUserAfterBorrow | test-suites/test-aave/helpers/utils/calculations.ts:599-678 | sound, and reads beside the new reserve as recorded; a stable borrow grows from the transaction on at the weighted rate; a variable one records the debt of the whole reserve, for the only borrower the amount more up to the drift, and moves with the reserve exactly then |
| UserCalculations.CalcUserAfterRepay | test-suites/test-aave/helpers/utils/calculations.ts:680-761 | a stable repayment leaves the rest compounding at the same rate from the transaction on at every later time, or no rate and no time; a variable one takes the amount off up to the drift, together with the reserve, and reads back as recorded; the wallet pays if it is the user's own |
| UserCalculations.CalcUserAfterSwapRateMode | test-suites/test-aave/helpers/utils/calculations.ts:888-952 | moves the same scaled debt as the reserve and reads back as recorded: to variable, both debts together up to the drift and no stable debt ever after; to stable, no variable debt, and the rest compounding at the weighted rate at every later time |
| UserCalculations.CalcUserAfterRebalance | test-suites/test-aave/helpers/utils/calculations.ts:1039-1083 | the same stable debt, now accrued into its principal and compounding at the new average at every later time, all else as due |
| Market.StepSound | test-suites/test-aave/helpers/actions.ts:136-701 | every action, also one that reverts or reads back, keeps all records sound and never lowers an index or the clock |
| Market.RunSound | test-suites/test-aave/helpers/scenario-engine.ts:34-39 | so does every run |
| Market.RunComposes | test-suites/test-aave/helpers/scenario-engine.ts:34-39 | running some actions and then others is running all of them, and one action alone applies it |
| Market.FreshMarketSound | contracts/protocol/libraries/logic/ReserveLogic.sol:163-179 | a freshly initialised reserve is sound, empty, and worth its scaled amounts at any time, so runs from it are covered |
| Stories.ActionIsCarriedOut | test-suites/test-aave/helpers/actions.ts:136-701 | every action, or its revert, is its step on reserve and user as the meaning modules state them, with all other users unchanged |
| Stories.ExecuteAction | test-suites/test-aave/helpers/actions.ts:180-197 | the reserve calculation, then the user calculation on its result, is the action: if its demands are met both records mean what the step says and nobody else changes, else nothing does; no index falls, no cash is created, and a solvent record of the last update is carried on |
| Stories.ExecuteStory | test-suites/test-aave/helpers/scenario-engine.ts:34-39 | executing a story action by action is a run and keeps all this |
| Conservation.StepKeepsBacking | test-suites/test-aave/helpers/utils/calculations.ts:411-413 | the reserve's scaled debt stays the sum over all users, for a variable borrow exactly if its user is the only borrower |
| Conservation.RunKeepsBacking | test-suites/test-aave/helpers/scenario-engine.ts:34-39 | over every run with only such borrows |
| Conservation.BackedDebt | test-suites/test-aave/helpers/utils/calculations.ts:1351-1371 | in such a market every user's debt is the same by both routes and can be repaid without dust |
| Conservation.StepConservesCash | test-suites/test-aave/helpers/utils/calculations.ts:566-568 | no action creates or destroys underlying between reserve and wallets |
| Conservation.RunConservesCash | test-suites/test-aave/helpers/utils/calculations.ts:753-758 | nor does any run, up to what others repay for a user |
| StableTracking.StepTracks | test-suites/test-aave/helpers/utils/calculations.ts:623-628 | every action moves average times total against the users' weights by less than the new debts of reserve or user, up to what stale records add, exactly where it erases, overwrites or rerates, else not at all |
| StableTracking.RunTracks | test-suites/test-aave/helpers/utils/calculations.ts:529-534 | over a run that moves stable debt at one time the drift lies between the sums of these bounds |
| StableTracking.EmptyingRepayDrift | test-suites/test-aave/helpers/utils/calculations.ts:1118 | repaying the whole recorded debt moves the drift by the difference of the rates, nothing exactly if they are equal |
| StepSolvency.ActionIsSolvent | test-suites/test-aave/helpers/utils/calculations.ts:203-213 | the record after every deposit, withdrawal, repayment and swap, and every borrow at the time it settles, is solvent for whatever time passes next |
| StepSolvency.RunIsSolvent | test-suites/test-aave/helpers/scenario-engine.ts:34-39 | every run that reads no record later than it makes it ends with a solvent record |
| StepSolvency.RunStaysSolvent | test-suites/test-aave/helpers/scenario-engine.ts:34-39 | over every run the record that the last update made is solvent, and the reserve is that record or that record as read since |
| StepSolvency.FreshReserveIsSolvent | contracts/protocol/libraries/logic/ReserveLogic.sol:163-179 | a freshly initialised reserve is solvent |
| StepSolvency.UtilizationIsReadBack | test-suites/test-aave/helpers/utils/helpers.ts:43-49 | the utilisation recorded after every action but a deposit is the one recomputed when the reserve is read, at most one ray |
| StepSolvency.ActionReadable | test-suites/test-aave/helpers/actions.ts:751-770 | which actions leave a record that can be read back at any later time |
| ReadSolvency.ReadIsCovered | test-suites/test-aave/helpers/utils/helpers.ts:39-49 | whatever is read later is covered up to rounding and the shift of the mix of both debts |
| ReadSolvency.LateBorrowIsCovered | test-suites/test-aave/helpers/utils/calculations.ts:373-463 | so is every borrow that is read later |
| ReadSolvency.LateStableBorrow | test-suites/test-aave/helpers/utils/calculations.ts:373-400 | after a stable borrow the shift is bounded by rounding |
| ReadSolvency.LateVariableBorrow | test-suites/test-aave/helpers/utils/calculations.ts:405-463 | after a variable borrow it is, too, if the variable rate is at least the average stable one |
| ReadSolvency.MixShiftIsPromised | test-suites/test-aave/helpers/utils/calculations.ts:1281-1292 | of the interest on the debts as read and of the shift, the lent and not retained share is promised, up to rounding |
| MarketSolvency.ActionKeepsSurplus | test-suites/test-aave/helpers/utils/calculations.ts:1085-1106 | at its own time every action keeps assets above claims up to the drift of an index or what a clamp erases |
| MarketSolvency.AccrualKeepsSurplus | test-suites/test-aave/helpers/utils/calculations.ts:1385-1428 | while time passes the claims of all users grow by no more than the assets, up to a loss given by roundings, the terms that the expansion of older stable debt drops, and claims beyond the recorded liquidity |
| MarketSolvency.RunKeepsSurplus | test-suites/test-aave/helpers/actions.ts:751-770 | over every run in order of time, with all its reads and late borrows, all claims stay covered by all assets up to the losses of its steps |
| MarketSolvency.FreshMarketCovered | test-suites/test-aave/helpers/scenario-engine.ts:34-39 | so claims exceed assets by these losses at most in every market reached from a fresh one |
| ConcreteRuns.LateBorrowCanFail | test-suites/test-aave/helpers/utils/calculations.ts:405-463 | a run from a fresh market that ends in a variable borrow which is not covered when it is read later |
| ConcreteRuns.DepositCanBeUnreadable | test-suites/test-aave/helpers/utils/calculations.ts:167-193 | a run whose last deposit leaves a record that is unsound when it is read |
| ConcreteRuns.SwapBackCanFail | test-suites/test-aave/helpers/utils/calculations.ts:828-863 | a run after which a swap to stable and back leaves a negative average |
| ConcreteRuns.SecondBorrowerLosesBacking | test-suites/test-aave/helpers/utils/calculations.ts:639-641 | a run, at any rates, in which a second borrower breaks the sum of the scaled debts |
| Tolerance.AlmostEqualOrEqual | test-suites/test-aave/helpers/actions.ts:39-95 | the walk succeeds exactly if every key but the six accessory ones is expected, numbers within three of each other and texts printed alike |
| Conformance.VariableRateConforms | contracts/protocol/lendingpool/DefaultReserveInterestRateStrategy.sol:197-214 | dividing before or after multiplying with the slope stays within the tolerance for moderate strategies |
| Conformance.OptimumConformsIff | contracts/protocol/lendingpool/DefaultReserveInterestRateStrategy.sol:197-214 | at the optimum they are almost equal for every slope exactly if the optimum is more than a seventh of a ray |
| Conformance.ConformsAtIff | contracts/protocol/lendingpool/DefaultReserveInterestRateStrategy.sol:197-214 | at any utilisation below, some slope makes them differ wherever the used share of the optimum is rounded, and exactly there for every optimum of more than a sixth of a ray; beyond the optimum they never differ |
| Conformance.AverageRateConforms | contracts/protocol/tokenization/StableDebtToken.sol:167-172 | the distance of the expected and the actual average stable rate, bounded for every debt |
| Conformance.AveragesConformIff | contracts/protocol/tokenization/StableDebtToken.sol:167-172 | exactly the total debts, all from two fifths of a wad on, for which they are always almost equal |
| Conformance.ErasingDiffersIff | contracts/protocol/tokenization/StableDebtToken.sol:209-226 | whatever the expected rates erase the contract erases, and exactly when it erases more |
| Conformance.RepaymentErasedIff | test-suites/test-aave/helpers/utils/calculations.ts:518-544 | the same of the record after a stable repayment |
| LinkBytecode.LinkCode | helpers/contracts-helpers.ts:149-170 | the three nested loops apply all patches in order for every input; on linkable code every known address stands at its characters 2 + 2·start to 2 + 2·(start + length), and every other character, the prefix too, is kept |
| LinkBytecode.PatchesAre | helpers/contracts-helpers.ts:153-160 | these patches are the references to known libraries with their addresses |
| LinkBytecode.ApplyAllLinks | helpers/contracts-helpers.ts:149-170 | compatible patches write every address at its characters, keep the length and change nothing else |
| LinkBytecode.LinkIsCorrect | helpers/contracts-helpers.ts:149-170 | linking writes every known address at its characters, keeps the prefix and every other position, and is idempotent |
| LinkBytecode.LinkIsOrderFree | helpers/contracts-helpers.ts:153-160 | the order and grouping of the references do not matter |
| LinkBytecode.LinkTwice | helpers/contracts-helpers.ts:149-170 | linking with two disjoint sets of libraries, in either order, is linking with both at once |

## Left out

- RunIsSolvent: leaves out runs with records that are read later than they are made; `RunStaysSolvent` and
  `LateBorrowIsCovered` say what holds of them.
- VariableRateConforms: its condition on the slope is sufficient; for an optimum of at most a sixth of a ray, and a used
  share of it that is not rounded, no exact condition is given except at the optimum itself.
- The reference model of the AMM market: it differs from the modelled one only in type names and comments.
- Wad multiplication and division, percentage division and ray-to-wad conversion: no modelled step uses them.
- The big-number library's default precision, which other suites use: only the configuration of the scenario suites.
- Dividing by a total of zero, which gives no number in the source: borrowing nothing at a stable rate without stable
  debt, and swapping a user without any debt, revert here.
- The width of the contracts' integers and their overflow checks; of the contracts only the variable rate, the average
  stable rate and the erasing of small stable debts are modelled.
- Several reserves, liquidations, flash loans, delegation, collateral value and oracles other than the stable rate.
- The payer's wallet when somebody repays for another user: the amount counts as coming from outside.
- Addresses, symbols, decimals, transaction costs, events, retries, and everything that talks to a chain.
- Deployment helpers besides linking; library names that a JavaScript object would inherit.
