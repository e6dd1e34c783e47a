/** Up to which index scaled and current balances stay within the tolerance of the comparison. */
module IndexTolerance {
  import opened FixedPoint
  import opened Divisors
  import opened Tolerance

  /** Depositing any amount into any balance keeps both balances almost equal. */
  ghost predicate DepositsTolerated(i: int)
    requires 0 < i
  {
    forall s: int, a: int :: 0 <= s && 0 <= a ==> AlmostEqual(RayMul(s + RayDiv(a, i), i), RayMul(s, i) + a)
  }

  /** So does withdrawing any amount that the balance covers. */
  ghost predicate WithdrawalsTolerated(i: int)
    requires 0 < i
  {
    forall s: int, a: int :: 0 <= s && 0 <= a <= RayMul(s, i)
      ==> AlmostEqual(RayMul(s - RayDiv(a, i), i), RayMul(s, i) - a)
  }

  /** The roundings at index i can only differ from each other by multiples of the common divisor of i and one ray. */
  predicate Tolerable(i: int)
    requires 0 < i
  {
    i < 6 * RAY + 2 * Gcd(i, RAY)
  }

  /** Exactly the tolerable indices keep every deposit and every withdrawal within the tolerance: all up to six rays,
      none from eight rays on, and in between only those next to six rays on the grid of their common divisor, as seven
      rays are. */
  lemma ToleratedIff(i: int)
    requires RAY <= i
    ensures DepositsTolerated(i) <==> Tolerable(i)
    ensures WithdrawalsTolerated(i) <==> Tolerable(i)
    ensures i <= 6 * RAY ==> Tolerable(i)
    ensures 8 * RAY <= i ==> !Tolerable(i)
    ensures i == 7 * RAY ==> Tolerable(i)
  {
    hide Gcd, DepositsTolerated, WithdrawalsTolerated;
    if i == 7 * RAY {
      GcdIsGreatest(i, RAY, RAY, 7, 1);
    }
    if Tolerable(i) {
      TolerableSuffices(i);
    } else {
      WorstAmountDiffers(i);
    }
  }

  lemma TolerableSuffices(i: int)
    requires RAY <= i && Tolerable(i)
    ensures DepositsTolerated(i) && WithdrawalsTolerated(i)
  {
    hide Tolerable, AlmostEqual, RayMul, RayDiv;
    forall s: int, a: int | 0 <= s && 0 <= a
      ensures AlmostEqual(RayMul(s + RayDiv(a, i), i), RayMul(s, i) + a)
    {
      DepositTolerated(s, a, i);
    }
    forall s: int, a: int | 0 <= s && 0 <= a <= RayMul(s, i)
      ensures AlmostEqual(RayMul(s - RayDiv(a, i), i), RayMul(s, i) - a)
    {
      WithdrawalTolerated(s, a, i);
    }
  }

  lemma WorstAmountDiffers(i: int)
    requires RAY <= i && !Tolerable(i)
    ensures !DepositsTolerated(i) && !WithdrawalsTolerated(i)
  {
    hide Tolerable, RayMul, RayDiv;
    var s, d, a := WorstAmount(i);
    RayMulRounds(s, i);
    assert !AlmostEqual(RayMul(s + RayDiv(a, i), i), RayMul(s, i) + a);
    assert !AlmostEqual(RayMul(s + d - RayDiv(a, i), i), RayMul(s + d, i) - a) by {
      assert s + d - d == s;
    }
  }

  /** Below six rays and twice the common divisor, d scaled units and the amount they stand for stay within three. */
  lemma MovedWithinThree(s: int, d: int, a: int, i: int)
    requires 0 <= s && 0 <= s + d && 0 < i && Tolerable(i)
    requires 2 * (i * d) <= 2 * RAY * a + i < 2 * (i * d) + 2 * i
    ensures -3 <= RayMul(s + d, i) - (RayMul(s, i) + a) <= 3
  {
    OnGrid(i, d, a);
    RayMulRounds(s, i);
    RayMulRounds(s + d, i);
    hide RayMul, Gcd;
    Distribute(i, s, d);
    GridGap(RayMul(s, i), s * i, i * d, a, RayMul(s + d, i), (s + d) * i, i, Gcd(i, RAY));
  }

  /** What a scaled amount is worth and the amount itself differ by a multiple of the common divisor, as three rays
      do, so by three rays or at least one grid step more. */
  lemma OnGrid(i: nat, d: int, a: int)
    requires 0 < i
    ensures 3 * RAY < d * i - a * RAY ==> 3 * RAY + Gcd(i, RAY) <= d * i - a * RAY
    ensures d * i - a * RAY < -3 * RAY ==> d * i - a * RAY <= -3 * RAY - Gcd(i, RAY)
  {
    var count := DifferenceDivides(i, RAY, d, a);
    var three := DifferenceDivides(i, RAY, 0, -3);
    var minusThree := DifferenceDivides(i, RAY, 0, 3);
    hide Gcd, IsTimes;
    MultiplesApart(d * i - a * RAY, count, 0 * i - -3 * RAY, three, Gcd(i, RAY));
    MultiplesApart(d * i - a * RAY, count, 0 * i - 3 * RAY, minusThree, Gcd(i, RAY));
  }

  lemma GridGap(m: int, p: int, moved: int, a: int, m': int, p': int, i: int, g: int)
    requires p' == p + moved && i < 6 * RAY + 2 * g
    requires 3 * RAY < moved - a * RAY ==> 3 * RAY + g <= moved - a * RAY
    requires moved - a * RAY < -3 * RAY ==> moved - a * RAY <= -3 * RAY - g
    requires 2 * moved <= 2 * RAY * a + i < 2 * moved + 2 * i
    requires 2 * RAY * m <= 2 * p + RAY < 2 * RAY * m + 2 * RAY
    requires 2 * RAY * m' <= 2 * p' + RAY < 2 * RAY * m' + 2 * RAY
    ensures -3 <= m' - (m + a) <= 3
  {
  }

  lemma DepositTolerated(s: int, a: int, i: int)
    requires 0 <= s && 0 <= a && RAY <= i && Tolerable(i)
    ensures AlmostEqual(RayMul(s + RayDiv(a, i), i), RayMul(s, i) + a)
  {
    RayDivRounds(a, i);
    MovedWithinThree(s, RayDiv(a, i), a, i);
  }

  lemma WithdrawalTolerated(s: int, a: int, i: int)
    requires 0 <= s && RAY <= i && 0 <= a <= RayMul(s, i) && Tolerable(i)
    ensures AlmostEqual(RayMul(s - RayDiv(a, i), i), RayMul(s, i) - a)
  {
    var d := RayDiv(a, i);
    NoOverdraw(a, s, i);
    RayDivRounds(a, i);
    MovedWithinThree(s - d, d, a, i);
    assert s - d + d == s;
  }

  /** From six rays and twice the common divisor on, some deposit into some balance leaves the tolerance: the amount
      is rounded up by more than three units and one grid step, the balance down to just below half a unit. */
  lemma WorstAmount(i: int) returns (s: nat, d: nat, a: nat)
    requires RAY <= i && !Tolerable(i)
    ensures RayDiv(a, i) == d
    ensures RayMul(s, i) + a + 4 <= RayMul(s + d, i)
  {
    var g := Gcd(i, RAY);
    var j, k := GcdDivides(i, RAY);
    d, a := Reach(i, RAY, 3 * k + 1);
    var below := MultipleBelow(g, HALF_RAY);
    var m;
    s, m := Reach(i, RAY, below);
    assert (3 * k + 1) * g == 3 * RAY + g by {
      Distribute(g, 3 * k, 1);
    }
    RayDivIs(a, i, d);
    RayMulIs(s, i, m);
    RayMulRounds(s + d, i);
    hide *;
    Distribute(i, s, d);
    WorstSum(m, s * i, d * i, a, RayMul(s + d, i), (s + d) * i, below * g, g);
  }

  lemma WorstSum(m: int, p: int, moved: int, a: int, m': int, p': int, below: int, g: int)
    requires p == m * RAY + below && moved == a * RAY + 3 * RAY + g && p' == p + moved
    requires HALF_RAY - g <= below
    requires 2 * p' + RAY < 2 * RAY * m' + 2 * RAY
    ensures m + a + 4 <= m'
  {
  }
}
