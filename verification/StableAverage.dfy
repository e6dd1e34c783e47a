/** The average stable rate of a reserve and the stable rate of one user: weighted means, truncated. */
module StableAverage {
  import opened FixedPoint

  function AverageStableRate(average: int, total: int, change: int, rate: int): int {
    if total + change == 0 then 0
    else TruncDiv(average * total + rate * change, total + change)
  }

  function UserStableRate(balance: int, rate: int, amount: int, newRate: int): int
    requires balance + amount != 0
  {
    TruncDiv(balance * rate + amount * newRate, balance + amount)
  }

  /** Adding debt: the new average times the new total is the old weight plus the added weight, less than one
      new total short of it. */
  lemma AddedWeight(average: int, total: int, amount: int, rate: int)
    requires 0 <= average && 0 <= total && 0 <= amount && 0 <= rate && 0 < total + amount
    ensures
      var weight := average * total + rate * amount;
      var added := AverageStableRate(average, total, amount, rate);
      && 0 <= added
      && weight - (total + amount) < added * (total + amount) <= weight
  {
    MulNonNeg(average, total);
    MulNonNeg(rate, amount);
    TruncDivBounds(average * total + rate * amount, total + amount);
    hide TruncDiv;
  }

  /** A user's rate is the same weighted mean, with balance and rate in the other order. */
  lemma UserRateIsAverage(balance: int, rate: int, amount: int, newRate: int)
    requires balance + amount != 0
    ensures UserStableRate(balance, rate, amount, newRate) == AverageStableRate(rate, balance, amount, newRate)
  {
  }

  /** Adding debt leaves the average between the old average and the rate of the added debt. */
  lemma AddLiesBetween(average: int, total: int, amount: int, rate: int, low: int, high: int)
    requires 0 <= total && 0 <= amount && 0 < total + amount
    requires 0 <= low <= average <= high && low <= rate <= high
    ensures low <= AverageStableRate(average, total, amount, rate) <= high
  {
    hide *;
    var added, sum := AverageStableRate(average, total, amount, rate), total + amount;
    AddedWeight(average, total, amount, rate);
    WeightBetween(average, total, amount, rate, low, high);
    Distribute(sum, added, 1);
    Distribute(sum, high, 1);
    MulCancel(low, added + 1, sum);
    MulCancel(added, high + 1, sum);
  }

  lemma WeightBetween(average: int, total: int, amount: int, rate: int, low: int, high: int)
    requires 0 <= total && 0 <= amount && low <= average <= high && low <= rate <= high
    ensures low * (total + amount) <= average * total + rate * amount <= high * (total + amount)
  {
    MulMono(low, average, total);
    MulMono(low, rate, amount);
    MulMono(average, high, total);
    MulMono(rate, high, amount);
    Distribute(low, total, amount);
    Distribute(high, total, amount);
  }

  /** Removing debt: with something left, the new average is negative exactly when the removed weight exceeds
      the old weight by at least one new total; otherwise it is the difference within less than one new total. */
  lemma RemovedWeight(average: int, total: int, amount: int, rate: int)
    requires 0 <= amount < total
    ensures
      var weight := average * total - rate * amount;
      var removed := AverageStableRate(average, total, -amount, rate);
      && (0 <= weight ==> weight - (total - amount) < removed * (total - amount) <= weight)
      && (weight < 0 ==> weight <= removed * (total - amount) < weight + (total - amount))
      && (removed < 0 <==> weight <= -(total - amount))
  {
    var rest := total - amount;
    var weight := average * total - rate * amount;
    assert average * total + rate * (-amount) == weight;
    var removed := AverageStableRate(average, total, -amount, rate);
    TruncDivBounds(weight, rest);
    hide TruncDiv;
    if removed < 0 {
      MulMono(removed, -1, rest);
    }
  }

  /** Adding an amount to a total and removing it again at the same rate never ends above the starting average,
      and loses less than two units and the added share of the total. */
  lemma AverageRoundTrip(average: int, total: int, amount: int, rate: int)
    requires 0 <= average && 0 < total && 0 <= amount && 0 <= rate
    ensures
      var back := AverageStableRate(AverageStableRate(average, total, amount, rate), total + amount, -amount, rate);
      back <= average && total * (average - back) < 2 * total + amount
  {
    var added := AverageStableRate(average, total, amount, rate);
    var back := AverageStableRate(added, total + amount, -amount, rate);
    AddedWeight(average, total, amount, rate);
    RemovedWeight(added, total + amount, amount, rate);
    hide *;
    RoundTripBounds(average, total, amount, back, added * (total + amount), rate * amount);
  }

  lemma RoundTripBounds(average: int, total: int, amount: int, back: int, grown: int, taken: int)
    requires 0 <= average && 0 < total && 0 <= amount
    requires average * total + taken - (total + amount) < grown <= average * total + taken
    requires 0 <= grown - taken ==> grown - taken - total < back * total <= grown - taken
    requires grown - taken < 0 ==> grown - taken <= back * total < grown - taken + total
    ensures back <= average && total * (average - back) < 2 * total + amount
  {
    Distribute(total, average, back);
    Distribute(total, average, -1);
    if 0 <= grown - taken {
      MulCancel(back, average + 1, total);
    } else {
      Distribute(total, average, 1);
      MulNonNeg(average, total);
      MulCancel(back, average + 1, total);
    }
  }

  // ---------- Weights ----------

  /** The rate times the new total is the sum of the weights, short of it by less than one new total. */
  predicate AddsWeight(average: int, total: int, amount: int, rate: int, added: int) {
    var weight := average * total + rate * amount;
    && (total + amount == 0 ==> added == 0)
    && (total + amount != 0 ==> weight - (total + amount) < added * (total + amount) <= weight)
  }

  /** The rate times what is left is the difference of the weights, truncated toward zero. */
  predicate LeavesWeight(average: int, total: int, amount: int, rate: int, left: int) {
    var weight, rest := average * total - rate * amount, total - amount;
    && (rest == 0 ==> left == 0)
    && (rest != 0 && 0 <= weight ==> weight - rest < left * rest <= weight)
    && (rest != 0 && weight < 0 ==> weight <= left * rest < weight + rest)
  }

  lemma AverageAddsWeight(average: int, total: int, amount: int, rate: int)
    requires 0 <= average && 0 <= total && 0 <= amount && 0 <= rate
    ensures AddsWeight(average, total, amount, rate, AverageStableRate(average, total, amount, rate))
    ensures total + amount != 0 ==>
      AddsWeight(average, total, amount, rate, UserStableRate(total, average, amount, rate))
  {
    if total + amount != 0 {
      AddedWeight(average, total, amount, rate);
      UserRateIsAverage(total, average, amount, rate);
    }
    hide UserStableRate, AverageStableRate;
  }

  lemma AverageLeavesWeight(average: int, total: int, amount: int, rate: int)
    requires 0 <= amount <= total
    ensures LeavesWeight(average, total, amount, rate, AverageStableRate(average, total, -amount, rate))
    ensures AverageStableRate(average, total, -amount, rate) < 0
       <==> amount < total && average * total - rate * amount <= amount - total
  {
    if amount < total {
      RemovedWeight(average, total, amount, rate);
      hide AverageStableRate;
    }
  }
}
