/** The gender and age distributions of an ad, as targeted and as actually
    delivered, and the two value lists handed to the distance routine
    (age_gender_distribution_distances.py). A distribution is a map from a
    category name to its share. */
module Distributions {
  import opened Wrappers
  import opened AgeMapping

  const GenderNames: seq<string> := ["male", "female"]

  datatype DistributionError =
    | UnknownTargetingGender(value: string)  // no branch assigns the result
    | BadTargetingAge(error: ParseError)     // `int` rejects a token
    | ZeroTotal                              // every bin weight is 0

  // ---------------------------------------------------------------------------
  // get_targeting_gender_distribution

  /** The targeted gender split: half and half for "All", everything on one
      side for "Women" or "Men"; any other value leaves the result unbound. */
  function TargetingGenderDistribution(gender: string): (r: Result<map<string, real>, DistributionError>)
    ensures r.Success? <==> gender in {"All", "Women", "Men"}
    ensures r.Failure? ==> r.error == UnknownTargetingGender(gender)
    ensures r.Success? ==>
              && r.value.Keys == {"male", "female"}
              && r.value["male"] + r.value["female"] == 1.0
              && 0.0 <= r.value["male"] <= 1.0 && 0.0 <= r.value["female"] <= 1.0
              && (r.value["male"] == r.value["female"] <==> gender == "All")
              && (r.value["female"] == 1.0 <==> gender == "Women")
              && (r.value["male"] == 1.0 <==> gender == "Men")
  {
    if gender == "All" then Success(map["male" := 0.5, "female" := 0.5])
    else if gender == "Women" then Success(map["male" := 0.0, "female" := 1.0])
    else if gender == "Men" then Success(map["male" := 1.0, "female" := 0.0])
    else Failure(UnknownTargetingGender(gender))
  }

  /** A counter's lookup: a missing key reads as 0. */
  function CounterGet(m: map<string, real>, key: string): real
  {
    if key in m then m[key] else 0.0
  }

  // ---------------------------------------------------------------------------
  // get_actual_age_distribution / get_actual_gender_distribution

  /** A distribution that holds exactly the given columns of a row. */
  predicate CopiesColumns(d: map<string, real>, row: map<string, real>, names: seq<string>)
    requires forall n | n in names :: n in row
  {
    && (forall n | n in d :: n in names)
    && (forall n | n in names :: n in d && d[n] == row[n])
  }

  /** Copying one more column that was not copied yet. */
  lemma CopiesColumnsStep(d: map<string, real>, row: map<string, real>, names: seq<string>, n: string)
    requires forall m | m in names :: m in row
    requires n in row && n !in names
    requires CopiesColumns(d, row, names)
    ensures CopiesColumns(d[n := row[n]], row, names + [n])
  {
  }

  /** The delivered age split: each bin's column of the ad's row, added to
      an empty counter. */
  method ActualAgeDistribution(row: map<string, real>) returns (d: map<string, real>)
    requires forall n | n in AgeBinNames :: n in row
    ensures CopiesColumns(d, row, AgeBinNames)
  {
    var names := AgeBinNames;
    AgeBinsConsistent();
    d := map[];
    for i := 0 to |names|
      invariant CopiesColumns(d, row, names[..i])
    {
      var age := names[i];
      var p := row[age];
      assert age !in names[..i];
      // A counter reads a missing key as 0, and no name repeats.
      var before := CounterGet(d, age);
      CopiesColumnsStep(d, row, names[..i], age);
      d := d[age := before + p];
      assert names[..i + 1] == names[..i] + [age];
    }
    assert names[..|names|] == names;
  }

  /** The delivered gender split: the "male" and "female" columns. */
  method ActualGenderDistribution(row: map<string, real>) returns (d: map<string, real>)
    requires "male" in row && "female" in row
    ensures CopiesColumns(d, row, GenderNames)
  {
    d := map[];
    for i := 0 to 2
      invariant CopiesColumns(d, row, GenderNames[..i])
    {
      var gender := GenderNames[i];
      d := d[gender := row[gender]];
      assert GenderNames[..i + 1] == GenderNames[..i] + [gender];
    }
    assert GenderNames[..2] == GenderNames;
  }

  // ---------------------------------------------------------------------------
  // get_targeting_age_distribution

  /** The sum of the values under `names`, in order. */
  function SumOver(m: map<string, real>, names: seq<string>): real
    requires forall n | n in names :: n in m
  {
    if names == [] then 0.0
    else SumOver(m, names[..|names| - 1]) + m[names[|names| - 1]]
  }

  /** Every value divided by `total`. */
  function Scaled(m: map<string, real>, total: real): map<string, real>
    requires total != 0.0
  {
    map k | k in m :: m[k] / total
  }

  /** What `get_targeting_age_distribution` yields: the bin weights of the
      targeting range divided by their sum. The source divides by a zero sum
      and gets NaN in every bin; here that is the error `ZeroTotal`. */
  function TargetingAgeDistributionOf(raw: string): Result<map<string, real>, DistributionError>
  {
    match ParseAgeInterval(raw)
    case Failure(e) => Failure(BadTargetingAge(e))
    case Success(iv) =>
      AgeWeightsKeys(iv);
      var weights := AgeWeights(iv);
      var total := SumOver(weights, AgeBinNames);
      if total == 0.0 then Failure(ZeroTotal) else Success(Scaled(weights, total))
  }

  method TargetingAgeDistribution(raw: string) returns (r: Result<map<string, real>, DistributionError>)
    ensures r == TargetingAgeDistributionOf(raw)
  {
    var mapped := MapAgeInterval(raw);
    if mapped.Failure? {
      return Failure(BadTargetingAge(mapped.error));
    }
    var mapping := mapped.value;
    AgeWeightsKeys(ParseAgeInterval(raw).value);
    var total := SumWeights(mapping);
    if total == 0.0 {
      return Failure(ZeroTotal);
    }
    var scaled := DivideWeights(mapping, total);
    return Success(scaled);
  }

  /** The sum over the mapping's values, in bin order. */
  method SumWeights(mapping: map<string, real>) returns (total: real)
    requires forall n | n in AgeBinNames :: n in mapping
    ensures total == SumOver(mapping, AgeBinNames)
  {
    var names := AgeBinNames;
    total := 0.0;
    for i := 0 to |names|
      invariant total == SumOver(mapping, names[..i])
    {
      assert names[..i + 1][..i] == names[..i];
      total := total + mapping[names[i]];
    }
    assert names[..|names|] == names;
  }

  /** The loop that fills a new counter with each bin's value over `total`. */
  method DivideWeights(mapping: map<string, real>, total: real) returns (scaled: map<string, real>)
    requires total != 0.0
    requires forall n | n in AgeBinNames :: n in mapping
    requires forall n | n in mapping :: n in AgeBinNames
    ensures scaled == Scaled(mapping, total)
  {
    var names := AgeBinNames;
    scaled := map[];
    for i := 0 to |names|
      invariant forall n | n in scaled :: n in names[..i]
      invariant forall n | n in names[..i] :: n in scaled && scaled[n] == mapping[n] / total
    {
      assert names[..i + 1] == names[..i] + [names[i]];
      scaled := scaled[names[i] := mapping[names[i]] / total];
    }
    assert names[..|names|] == names;
  }

  // ---------------------------------------------------------------------------
  // What the normalisation guarantees

  /** Scaling every value scales the sum. */
  lemma {:induction false} SumOverScaled(m: map<string, real>, names: seq<string>, total: real)
    requires total != 0.0
    requires forall n | n in names :: n in m
    ensures SumOver(Scaled(m, total), names) == SumOver(m, names) / total
  {
    if names != [] {
      var init := names[..|names| - 1];
      assert forall n | n in init :: n in names;
      SumOverScaled(m, init, total);
    }
  }

  /** With no negative value, each listed value is at most the sum. */
  lemma {:induction false} SumOverBoundsTerms(m: map<string, real>, names: seq<string>)
    requires forall n | n in names :: n in m && m[n] >= 0.0
    ensures SumOver(m, names) >= 0.0
    ensures forall n | n in names :: m[n] <= SumOver(m, names)
  {
    if names != [] {
      var init := names[..|names| - 1];
      assert names == init + [names[|names| - 1]];
      SumOverBoundsTerms(m, init);
    }
  }

  /** Negating every value negates the sum. */
  lemma {:induction false} SumOverNegated(m: map<string, real>, names: seq<string>)
    requires forall n | n in names :: n in m
    ensures SumOver(map k | k in m :: -m[k], names) == -SumOver(m, names)
  {
    if names != [] {
      var init := names[..|names| - 1];
      assert forall n | n in init :: n in names;
      SumOverNegated(m, init);
    }
  }

  /** The sum of values that are all 0 is 0. */
  lemma {:induction false} SumOverZero(m: map<string, real>, names: seq<string>)
    requires forall n | n in names :: n in m && m[n] == 0.0
    ensures SumOver(m, names) == 0.0
  {
    if names != [] {
      var init := names[..|names| - 1];
      assert forall n | n in init :: n in names;
      SumOverZero(m, init);
    }
  }

  /** Values of one sign: the sum has their sign and each value is at most
      the sum in size. */
  predicate SameSign(m: map<string, real>, names: seq<string>)
    requires forall n | n in names :: n in m
  {
    (forall n | n in names :: m[n] >= 0.0) || (forall n | n in names :: m[n] <= 0.0)
  }

  lemma SameSignBoundsTerms(m: map<string, real>, names: seq<string>)
    requires forall n | n in names :: n in m
    requires SameSign(m, names)
    ensures forall n | n in names ::
              (0.0 <= m[n] <= SumOver(m, names)) || (SumOver(m, names) <= m[n] <= 0.0)
  {
    if forall n | n in names :: m[n] >= 0.0 {
      SumOverBoundsTerms(m, names);
    } else {
      var negated := map k | k in m :: -m[k];
      SumOverBoundsTerms(negated, names);
      SumOverNegated(m, names);
    }
  }

  /** Values of one sign, each at most the sum in size, divided by their
      non-zero sum lie in [0, 1]. */
  lemma ShareInUnit(w: real, total: real)
    requires total != 0.0
    requires (0.0 <= w <= total) || (total <= w <= 0.0)
    ensures 0.0 <= w / total <= 1.0
    ensures w / total == 0.0 <==> w == 0.0
  {
    if total > 0.0 {
      assert w / total <= total / total;
    } else {
      assert (-w) / (-total) <= (-total) / (-total);
      assert w / total == (-w) / (-total);
    }
  }

  /** Dividing values by their non-zero sum gives values that sum to 1. */
  lemma ScaledSumsToOne(m: map<string, real>, names: seq<string>)
    requires forall n | n in names :: n in m
    requires SumOver(m, names) != 0.0
    ensures SumOver(Scaled(m, SumOver(m, names)), names) == 1.0
  {
    var total := SumOver(m, names);
    SumOverScaled(m, names, total);
    DivideBySelf(total);
  }

  lemma DivideBySelf(x: real)
    requires x != 0.0
    ensures x / x == 1.0
  {
  }

  /** Dividing values of one sign by their non-zero sum gives shares in
      [0, 1]; a share is 0 exactly where the value was. */
  lemma ScaledSharesInUnit(m: map<string, real>, names: seq<string>)
    requires forall n | n in names :: n in m
    requires SameSign(m, names) && SumOver(m, names) != 0.0
    ensures var d := Scaled(m, SumOver(m, names));
            forall n | n in names :: 0.0 <= d[n] <= 1.0 && (d[n] == 0.0 <==> m[n] == 0.0)
  {
    var total := SumOver(m, names);
    SameSignBoundsTerms(m, names);
    var d := Scaled(m, total);
    forall n | n in names
      ensures 0.0 <= d[n] <= 1.0 && (d[n] == 0.0 <==> m[n] == 0.0)
    {
      ShareInUnit(m[n], total);
    }
  }

  /** All bin weights of one range have the same sign: none negative for
      a well-formed range, none positive for a reversed one. */
  lemma AgeWeightsSameSign(iv: Interval)
    ensures forall n | n in AgeBinNames :: n in AgeWeights(iv)
    ensures SameSign(AgeWeights(iv), AgeBinNames)
  {
    AgeBinsConsistent();
    AgeWeightsSpec(iv);
    AgeWeightsKeys(iv);
    forall n | n in AgeBinNames
      ensures iv.WellFormed() ==> AgeWeights(iv)[n] >= 0.0
      ensures !iv.WellFormed() ==> AgeWeights(iv)[n] <= 0.0
    {
      var k :| 0 <= k < 7 && AgeBinNames[k] == n;
      if iv.WellFormed() {
        WeightIsCoverage(iv, AgeBins[k].bounds);
      } else {
        ReversedWeightNotPositive(iv, AgeBins[k].bounds);
      }
    }
  }

  /** A successful targeting age distribution has the seven bins as keys,
      sums to 1 over them, gives every bin a share in [0, 1], and gives a
      share of 0 exactly to the bins the range misses. */
  lemma TargetingAgeDistributionIsDistribution(raw: string)
    requires TargetingAgeDistributionOf(raw).Success?
    ensures var d := TargetingAgeDistributionOf(raw).value;
            var weights := AgeWeights(ParseAgeInterval(raw).value);
            && (forall n | n in d :: n in AgeBinNames)
            && (forall n | n in AgeBinNames :: n in d && 0.0 <= d[n] <= 1.0)
            && (forall n | n in AgeBinNames :: d[n] == 0.0 <==> n in weights && weights[n] == 0.0)
            && SumOver(d, AgeBinNames) == 1.0
  {
    var iv := ParseAgeInterval(raw).value;
    AgeWeightsKeys(iv);
    AgeWeightsSameSign(iv);
    ScaledSumsToOne(AgeWeights(iv), AgeBinNames);
    ScaledSharesInUnit(AgeWeights(iv), AgeBinNames);
  }

  /** A range that reads but covers no bin (all ages under 13, say) has no
      targeting age distribution, and every other range that reads has one. */
  lemma ZeroTotalExactlyWhenNoBinCovered(raw: string)
    requires ParseAgeInterval(raw).Success?
    ensures var weights := AgeWeights(ParseAgeInterval(raw).value);
            TargetingAgeDistributionOf(raw).Failure? <==>
              forall n | n in AgeBinNames :: n in weights && weights[n] == 0.0
  {
    var iv := ParseAgeInterval(raw).value;
    AgeWeightsSameSign(iv);
    SameSignSumZero(AgeWeights(iv), AgeBinNames);
  }

  /** Values of one sign sum to 0 exactly when all of them are 0. */
  lemma SameSignSumZero(m: map<string, real>, names: seq<string>)
    requires forall n | n in names :: n in m
    requires SameSign(m, names)
    ensures SumOver(m, names) == 0.0 <==> forall n | n in names :: m[n] == 0.0
  {
    SameSignBoundsTerms(m, names);
    if forall n | n in names :: m[n] == 0.0 {
      SumOverZero(m, names);
    }
  }

  // ---------------------------------------------------------------------------
  // age_distribution_distance / gender_distribution_distance

  /** The values of a counter in bin order, as passed to the distance. */
  function AgeVector(m: map<string, real>): (v: seq<real>)
    ensures |v| == 7
    ensures forall k | 0 <= k < 7 :: v[k] == CounterGet(m, AgeBinNames[k])
  {
    seq(7, k requires 0 <= k < 7 => CounterGet(m, AgeBinNames[k]))
  }

  /** `age_distribution_distance`: the distance between the delivered values
      (first argument) and the targeted values (second), both in bin order.
      The distance routine itself is a parameter. */
  function AgeDistance(distance: (seq<real>, seq<real>) -> real,
                       actual: map<string, real>, target: map<string, real>): real
  {
    distance(AgeVector(actual), AgeVector(target))
  }

  /** `gender_distribution_distance`: the row's "male" and "female" columns
      against the targeted split, in that order. */
  function GenderDistance(distance: (seq<real>, seq<real>) -> real,
                          row: map<string, real>, target: map<string, real>): real
    requires "male" in row && "female" in row
    requires "male" in target && "female" in target
  {
    distance([row["male"], row["female"]], [target["male"], target["female"]])
  }

  /** The age distance sees only the seven bins: a distribution with other
      keys or missing bins is compared through its bin values, missing
      ones read as 0. */
  lemma AgeDistanceSeesOnlyBins(distance: (seq<real>, seq<real>) -> real,
                                a1: map<string, real>, a2: map<string, real>,
                                t1: map<string, real>, t2: map<string, real>)
    requires forall k | 0 <= k < 7 :: CounterGet(a1, AgeBinNames[k]) == CounterGet(a2, AgeBinNames[k])
    requires forall k | 0 <= k < 7 :: CounterGet(t1, AgeBinNames[k]) == CounterGet(t2, AgeBinNames[k])
    ensures AgeDistance(distance, a1, t1) == AgeDistance(distance, a2, t2)
  {
    assert AgeVector(a1) == AgeVector(a2);
    assert AgeVector(t1) == AgeVector(t2);
  }

  /** The sum of a list of values, as the distance routine sees them. */
  function SeqSum(v: seq<real>): real
  {
    if v == [] then 0.0 else SeqSum(v[..|v| - 1]) + v[|v| - 1]
  }

  /** The values of a map under `names`, in order. */
  function ValuesOf(m: map<string, real>, names: seq<string>): (v: seq<real>)
    requires forall n | n in names :: n in m
    ensures |v| == |names|
    ensures forall k | 0 <= k < |names| :: v[k] == m[names[k]]
  {
    seq(|names|, k requires 0 <= k < |names| => m[names[k]])
  }

  /** Summing a map over names is summing its listed values. */
  lemma {:induction false} SumOverIsSeqSum(m: map<string, real>, names: seq<string>)
    requires forall n | n in names :: n in m
    ensures SumOver(m, names) == SeqSum(ValuesOf(m, names))
  {
    if names != [] {
      var init := names[..|names| - 1];
      assert forall n | n in init :: n in names;
      SumOverIsSeqSum(m, init);
      assert ValuesOf(m, names)[..|names| - 1] == ValuesOf(m, init);
    }
  }

  /** Composed with the builders: the delivered side is the row's bin
      columns in bin order, and the targeted side is a list of seven shares
      in [0, 1] that sum to 1. */
  lemma AgeDistanceOfAd(distance: (seq<real>, seq<real>) -> real,
                        row: map<string, real>, actual: map<string, real>, raw: string)
    requires forall n | n in AgeBinNames :: n in row
    requires CopiesColumns(actual, row, AgeBinNames)
    requires TargetingAgeDistributionOf(raw).Success?
    ensures var y := AgeVector(TargetingAgeDistributionOf(raw).value);
            && AgeDistance(distance, actual, TargetingAgeDistributionOf(raw).value)
               == distance(ValuesOf(row, AgeBinNames), y)
            && (forall k | 0 <= k < 7 :: 0.0 <= y[k] <= 1.0)
            && SeqSum(y) == 1.0
  {
    var t := TargetingAgeDistributionOf(raw).value;
    TargetingAgeDistributionIsDistribution(raw);
    AgeVectorOfCopy(actual, row);
    AgeVectorOfCopy(t, t);
    SumOverIsSeqSum(t, AgeBinNames);
  }

  /** A counter holding every bin reads in bin order as the copied row. */
  lemma AgeVectorOfCopy(d: map<string, real>, row: map<string, real>)
    requires forall n | n in AgeBinNames :: n in row && n in d && d[n] == row[n]
    ensures AgeVector(d) == ValuesOf(row, AgeBinNames)
  {
    AgeBinsConsistent();
    var v := AgeVector(d);
    var w := ValuesOf(row, AgeBinNames);
    forall k | 0 <= k < 7
      ensures v[k] == w[k]
    {
      assert AgeBinNames[k] in AgeBinNames;
    }
  }

  /** Composed with the builders: the gender distance compares the row's
      columns with (0.5, 0.5), (0, 1) or (1, 0) for "All", "Women", "Men". */
  lemma GenderDistanceOfAd(distance: (seq<real>, seq<real>) -> real,
                           row: map<string, real>, gender: string)
    requires "male" in row && "female" in row
    requires TargetingGenderDistribution(gender).Success?
    ensures var x := [row["male"], row["female"]];
            GenderDistance(distance, row, TargetingGenderDistribution(gender).value)
            == distance(x, if gender == "All" then [0.5, 0.5]
                           else if gender == "Women" then [0.0, 1.0]
                           else [1.0, 0.0])
  {
  }
}
