/** The comparison of expected and actual records: numbers may differ by up to three units. */
module Tolerance {

  datatype Value = Number(n: int) | Other(text: string)

  /** The comparison is spelled out as seven equalities. */
  predicate AlmostEqual(actual: int, expected: int) {
    || actual == expected
    || actual + 1 == expected || actual == expected + 1
    || actual + 2 == expected || actual == expected + 2
    || actual + 3 == expected || actual == expected + 3
  }

  lemma AlmostEqualIffWithinThree(actual: int, expected: int)
    ensures AlmostEqual(actual, expected) <==> -3 <= actual - expected <= 3
  {
  }

  /** Fields that are read back from the chain and never compared. */
  const ACCESSORY: set<string> :=
    {"lastUpdateTimestamp", "marketStableRate", "symbol", "aTokenAddress", "decimals", "totalStableDebtLastUpdated"}

  /** The printed form of a value; how numbers are printed is left open. */
  function Printed(shown: int -> string, v: Value): string {
    match v
    case Number(n) => shown(n)
    case Other(text) => text
  }

  /** Numbers are compared as numbers; anything else matches whatever is printed alike. */
  predicate Matches(shown: int -> string, actual: map<string, Value>, expected: map<string, Value>, key: string) {
    && key in actual && key in expected
    && match actual[key] {
         case Number(n) => expected[key].Number? && AlmostEqual(n, expected[key].n)
         case Other(text) => text == Printed(shown, expected[key])
       }
  }

  /** Walks the keys of the actual record. It succeeds exactly if every field but the six accessory ones is expected,
      numbers within three units of each other, and anything else printed alike. */
  method AlmostEqualOrEqual(shown: int -> string, keys: seq<string>, actual: map<string, Value>,
                            expected: map<string, Value>) returns (ok: bool)
    requires forall key :: key in keys <==> key in actual
    ensures ok <==> forall key | key in actual
                              && key != "lastUpdateTimestamp" && key != "marketStableRate" && key != "symbol"
                              && key != "aTokenAddress" && key != "decimals" && key != "totalStableDebtLastUpdated" ::
        && key in expected
        && (actual[key].Number? ==> expected[key].Number? && -3 <= actual[key].n - expected[key].n <= 3)
        && (actual[key].Other? && expected[key].Number? ==> actual[key].text == shown(expected[key].n))
        && (actual[key].Other? && expected[key].Other? ==> actual[key].text == expected[key].text)
  {
    ok := true;
    for i := 0 to |keys|
      invariant ok <==> forall key :: key in keys[..i] && key !in ACCESSORY ==> Matches(shown, actual, expected, key)
    {
      assert forall key :: key in keys[..i + 1] <==> key in keys[..i] || key == keys[i];
      if keys[i] !in ACCESSORY && !Matches(shown, actual, expected, keys[i]) {
        ok := false;
      }
    }
    assert keys[..|keys|] == keys;
    assert ok <==> forall key :: key in actual && key !in ACCESSORY ==> Matches(shown, actual, expected, key);
    forall key | key in actual
      ensures Matches(shown, actual, expected, key) <==>
        && key in expected
        && (actual[key].Number? ==> expected[key].Number? && -3 <= actual[key].n - expected[key].n <= 3)
        && (actual[key].Other? && expected[key].Number? ==> actual[key].text == shown(expected[key].n))
        && (actual[key].Other? && expected[key].Other? ==> actual[key].text == expected[key].text)
    {
    }
  }
}
