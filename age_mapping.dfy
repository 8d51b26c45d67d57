/** Mapping of a targeting age range onto the seven age bins the ad library
    reports delivery in (map_targeting_age.py). */
module AgeMapping {
  import opened Wrappers
  import opened Text

  /** A closed integer interval `[lo, hi]`; the source writes it as a
      two-element list. A parsed range may come out reversed (`lo > hi`). */
  datatype Interval = Interval(lo: int, hi: int) {
    predicate WellFormed() { lo <= hi }

    /** Number of integers in the interval, counting both ends. */
    function Width(): int { hi - lo + 1 }
  }

  function Max(a: int, b: int): int { if a >= b then a else b }

  function Min(a: int, b: int): int { if a <= b then a else b }

  // ---------------------------------------------------------------------------
  // get_overlap

  /** The intersection of two closed intervals, with `None` for the sentinel
      `0` the source returns when they do not meet. For well-formed intervals
      it is exactly `[max of the starts, min of the ends]` when that is not
      empty; touching intervals share one point. */
  function GetOverlap(i1: Interval, i2: Interval): (r: Option<Interval>)
    ensures i1.WellFormed() && i2.WellFormed() ==>
              (r.Some? <==> Max(i1.lo, i2.lo) <= Min(i1.hi, i2.hi))
    ensures i1.WellFormed() && i2.WellFormed() && r.Some? ==>
              r.value == Interval(Max(i1.lo, i2.lo), Min(i1.hi, i2.hi))
  {
    if i2.lo <= i1.lo <= i2.hi || i1.lo <= i2.lo <= i1.hi then
      var start := if i2.lo <= i1.lo <= i2.hi then i1.lo else i2.lo;
      if i2.lo <= i1.hi <= i2.hi || i1.lo <= i2.hi <= i1.hi then
        var end := if i2.lo <= i1.hi <= i2.hi then i1.hi else i2.hi;
        Some(Interval(start, end))
      else
        None
    else
      None
  }

  /** On well-formed intervals the overlap is symmetric and lies inside
      both arguments. */
  lemma GetOverlapSymmetricAndInside(a: Interval, b: Interval)
    requires a.WellFormed() && b.WellFormed()
    ensures GetOverlap(a, b) == GetOverlap(b, a)
    ensures GetOverlap(a, b).Some? ==>
              var o := GetOverlap(a, b).value;
              o.WellFormed() && a.lo <= o.lo && o.hi <= a.hi && b.lo <= o.lo && o.hi <= b.hi
  {
  }

  /** The examples the source documents, and a disjoint pair. */
  lemma GetOverlapExamples()
    ensures GetOverlap(Interval(0, 4), Interval(1, 10)) == Some(Interval(1, 4))
    ensures GetOverlap(Interval(0, 4), Interval(5, 10)) == None
    ensures GetOverlap(Interval(1, 4), Interval(4, 10)) == Some(Interval(4, 4))
  {
  }

  /** A reversed first interval meets a well-formed one only when both of its
      ends lie inside it, and then the overlap is the reversed interval
      itself. */
  lemma GetOverlapReversed(a: Interval, b: Interval)
    requires !a.WellFormed() && b.WellFormed()
    ensures GetOverlap(a, b).Some? <==> (b.lo <= a.lo <= b.hi && b.lo <= a.hi <= b.hi)
    ensures GetOverlap(a, b).Some? ==> GetOverlap(a, b).value == a
  {
  }

  // ---------------------------------------------------------------------------
  // The seven ad-library age bins

  datatype AgeBin = AgeBin(name: string, bounds: Interval)

  const AgeBinNames: seq<string> := ["13-17", "18-24", "25-34", "35-44", "45-54", "55-64", "65+"]

  /** The bins with the bounds the source reads from their names (the two
      numbers around "-"); "65+" is special-cased as the single point 65. */
  const AgeBins: seq<AgeBin> := [
    AgeBin("13-17", Interval(13, 17)),
    AgeBin("18-24", Interval(18, 24)),
    AgeBin("25-34", Interval(25, 34)),
    AgeBin("35-44", Interval(35, 44)),
    AgeBin("45-54", Interval(45, 54)),
    AgeBin("55-64", Interval(55, 64)),
    AgeBin("65+", Interval(65, 65))
  ]

  /** The names are distinct and each bin is well-formed. */
  lemma AgeBinsConsistent()
    ensures |AgeBins| == |AgeBinNames| == 7
    ensures forall i | 0 <= i < 7 :: AgeBins[i].name == AgeBinNames[i]
    ensures forall i | 0 <= i < 7 :: AgeBins[i].bounds.WellFormed()
    ensures forall i, j | 0 <= i < j < 7 :: AgeBinNames[i] != AgeBinNames[j]
  {
  }

  // ---------------------------------------------------------------------------
  // The weight rule

  /** How many integers of `bin` also lie in `iv`. */
  function CoveredCount(iv: Interval, bin: Interval): nat
  {
    var c := Min(iv.hi, bin.hi) - Max(iv.lo, bin.lo) + 1;
    if c > 0 then c else 0
  }

  /** The share of the bin's integers that the interval covers. */
  function Coverage(iv: Interval, bin: Interval): real
    requires bin.WellFormed()
  {
    CoveredCount(iv, bin) as real / bin.Width() as real
  }

  /** The weight `map_age_interval` gives a bin: 0 without overlap, 1 when
      the overlap is the whole bin, otherwise the overlap's width over the
      bin's width. */
  function Weight(iv: Interval, bin: Interval): real
    requires bin.WellFormed()
  {
    match GetOverlap(iv, bin)
    case None => 0.0
    case Some(ov) =>
      if ov == bin then 1.0
      else (ov.hi - ov.lo + 1) as real / (bin.hi - bin.lo + 1) as real
  }

  /** For a well-formed interval the weight is the share of the bin's
      integers the interval covers (the special case 1 agrees with that
      ratio), so it lies in [0, 1]. */
  lemma WeightIsCoverage(iv: Interval, bin: Interval)
    requires iv.WellFormed() && bin.WellFormed()
    ensures Weight(iv, bin) == Coverage(iv, bin)
    ensures 0.0 <= Weight(iv, bin) <= 1.0
  {
    var c := CoveredCount(iv, bin);
    var w := bin.Width();
    assert c <= w;
    if GetOverlap(iv, bin).Some? && GetOverlap(iv, bin).value == bin {
      assert c == w;
    }
    DivInUnit(c, w);
  }

  lemma DivInUnit(c: nat, w: int)
    requires 0 < w && c <= w
    ensures 0.0 <= c as real / w as real <= 1.0
    ensures c as real / w as real == 1.0 <==> c == w
  {
  }

  /** A reversed interval never gets a positive weight. */
  lemma ReversedWeightNotPositive(iv: Interval, bin: Interval)
    requires !iv.WellFormed() && bin.WellFormed()
    ensures Weight(iv, bin) <= 0.0
  {
    var o := GetOverlap(iv, bin);
    if o.Some? {
      GetOverlapReversed(iv, bin);
      assert o.value != bin;
      assert (o.value.hi - o.value.lo + 1) <= 0;
    }
  }

  /** For a well-formed interval, a weight is 0 exactly when the interval
      misses the bin, and 1 exactly when it covers the whole bin. */
  lemma WeightExtremes(iv: Interval, bin: Interval)
    requires iv.WellFormed() && bin.WellFormed()
    ensures Weight(iv, bin) == 0.0 <==> GetOverlap(iv, bin).None?
    ensures Weight(iv, bin) == 1.0 <==> (iv.lo <= bin.lo && bin.hi <= iv.hi)
  {
    WeightIsCoverage(iv, bin);
    var c := CoveredCount(iv, bin);
    var w := bin.Width();
    DivInUnit(c, w);
    if c > 0 {
      assert c as real / w as real > 0.0;
    }
  }

  // ---------------------------------------------------------------------------
  // Parsing the targeting age string

  datatype ParseError = NotAnInteger(token: string)

  /** `map_age_interval`'s parsing: every "+" is removed, the string is split
      on " - ", and the parts are read by `ParseParts`. */
  function ParseAgeInterval(raw: string): Result<Interval, ParseError>
  {
    ParseParts(Split(RemoveChar(raw, '+'), " - "))
  }

  /** The first part is read with `int()`, and the second too when there is
      one (a single part gives a one-point interval); later parts are
      ignored. `int()` failing is the `ValueError` the source raises. */
  function ParseParts(parts: seq<string>): Result<Interval, ParseError>
    requires |parts| >= 1
  {
    match ParseInt(parts[0])
    case None => Failure(NotAnInteger(parts[0]))
    case Some(left) =>
      if |parts| == 1 then Success(Interval(left, left))
      else
        match ParseInt(parts[1])
        case None => Failure(NotAnInteger(parts[1]))
        case Some(right) => Success(Interval(left, right))
  }

  lemma NoSpaceNoPlusInShowInt(n: int)
    ensures ' ' !in ShowInt(n) && '+' !in ShowInt(n)
  {
    var s := ShowInt(n);
    if n < 0 {
      assert s[1..] == ShowNat(-n);
      forall i | 1 <= i < |s| ensures IsDigit(s[i]) {
        assert s[i] == s[1..][i - 1];
      }
    }
  }

  /** "a - b" reads back as the interval [a, b]. */
  lemma ParseRange(a: int, b: int)
    ensures ParseAgeInterval(ShowInt(a) + " - " + ShowInt(b)) == Success(Interval(a, b))
  {
    var sa, sb := ShowInt(a), ShowInt(b);
    NoSpaceNoPlusInShowInt(a);
    NoSpaceNoPlusInShowInt(b);
    var s := sa + " - " + sb;
    assert '+' !in s;
    SplitAroundSeparator(sa, " - ", sb);
    ParseIntOfShowInt(a);
    ParseIntOfShowInt(b);
  }

  /** A single number "n" reads as the one-point interval [n, n]. */
  lemma ParseSingle(n: int)
    ensures ParseAgeInterval(ShowInt(n)) == Success(Interval(n, n))
  {
    NoSpaceNoPlusInShowInt(n);
    SplitWithoutSeparator(ShowInt(n), " - ");
    ParseIntOfShowInt(n);
  }

  /** "n+" reads as [n, n]: the "+" is dropped before anything else. */
  lemma ParseOpenEnded(n: nat)
    ensures ParseAgeInterval(ShowNat(n) + "+") == Success(Interval(n, n))
  {
    var s := ShowNat(n);
    assert ShowInt(n) == s;
    NoSpaceNoPlusInShowInt(n);
    RemoveTrailingPlus(s);
    ParseSingle(n);
  }

  lemma RemoveTrailingPlus(s: string)
    requires '+' !in s
    ensures RemoveChar(s + "+", '+') == s
  {
    RemoveCharAppend(s, "+", '+');
    assert RemoveChar("+", '+') == [] + RemoveChar("", '+');
  }

  /** Parts after the second are ignored. */
  lemma ParseIgnoresExtraParts(a: int, b: int, rest: string)
    requires '+' !in rest
    ensures ParseAgeInterval(ShowInt(a) + " - " + ShowInt(b) + " - " + rest)
            == Success(Interval(a, b))
  {
    var s := ShowInt(a) + " - " + ShowInt(b) + " - " + rest;
    NoSpaceNoPlusInShowInt(a);
    NoSpaceNoPlusInShowInt(b);
    NoPlusInJoin(ShowInt(a), ShowInt(b), rest);
    SplitTwoThenRest(ShowInt(a), ShowInt(b), rest);
    ParsePartsOfTwo(a, b, Split(rest, " - "));
  }

  lemma NoPlusInJoin(x: string, y: string, rest: string)
    requires '+' !in x && '+' !in y && '+' !in rest
    ensures RemoveChar(x + " - " + y + " - " + rest, '+') == x + " - " + y + " - " + rest
  {
    assert '+' !in x + " - " + y + " - " + rest;
  }

  /** Two pieces without spaces in front split off one by one. */
  lemma SplitTwoThenRest(x: string, y: string, rest: string)
    requires ' ' !in x && ' ' !in y
    ensures Split(x + " - " + y + " - " + rest, " - ") == [x, y] + Split(rest, " - ")
  {
    var tail := y + " - " + rest;
    assert x + " - " + y + " - " + rest == x + " - " + tail;
    SplitAfterPrefix(x, " - ", tail);
    SplitAfterPrefix(y, " - ", rest);
  }

  /** Two numerals in front read as the interval, whatever follows. */
  lemma ParsePartsOfTwo(a: int, b: int, more: seq<string>)
    ensures ParseParts([ShowInt(a), ShowInt(b)] + more) == Success(Interval(a, b))
  {
    var parts := [ShowInt(a), ShowInt(b)] + more;
    assert parts[0] == ShowInt(a) && parts[1] == ShowInt(b);
    ParseIntOfShowInt(a);
    ParseIntOfShowInt(b);
  }

  /** A first part that `int()` refuses is a parse failure, whatever
      follows. */
  lemma ParseRejectsNonNumber(word: string, rest: string)
    requires ParseInt(word).None?
    requires ' ' !in word && '+' !in word && '+' !in rest
    ensures ParseAgeInterval(word + " - " + rest) == Failure(NotAnInteger(word))
  {
    var s := word + " - " + rest;
    assert '+' !in s;
    SplitAfterPrefix(word, " - ", rest);
  }

  /** A second part that `int()` refuses is a parse failure too, after a
      first part that is a number. */
  lemma ParseRejectsNonNumberSecond(a: int, word: string)
    requires ParseInt(word).None?
    requires ' ' !in word && '+' !in word
    ensures ParseAgeInterval(ShowInt(a) + " - " + word) == Failure(NotAnInteger(word))
  {
    var sa := ShowInt(a);
    NoSpaceNoPlusInShowInt(a);
    var s := sa + " - " + word;
    assert '+' !in s;
    SplitAroundSeparator(sa, " - ", word);
    ParseIntOfShowInt(a);
  }

  /** A word `int()` refuses ("abc") is a parse failure on its own too. */
  lemma ParseRejectsWord(word: string)
    requires ParseInt(word).None?
    requires ' ' !in word && '+' !in word
    ensures ParseAgeInterval(word) == Failure(NotAnInteger(word))
  {
    assert RemoveChar(word, '+') == word;
    SplitWithoutSeparator(word, " - ");
  }

  // ---------------------------------------------------------------------------
  // map_age_interval

  predicate WellFormedBins(bins: seq<AgeBin>) {
    forall k | 0 <= k < |bins| :: bins[k].bounds.WellFormed()
  }

  predicate DistinctNames(bins: seq<AgeBin>) {
    forall i, j | 0 <= i < j < |bins| :: bins[i].name != bins[j].name
  }

  /** The mapping the loop of `map_age_interval` has built after visiting
      `bins`, in order: each name set to its weight. */
  function WeightsOf(iv: Interval, bins: seq<AgeBin>): map<string, real>
    requires WellFormedBins(bins)
  {
    if bins == [] then map[]
    else
      var last := bins[|bins| - 1];
      WeightsOf(iv, bins[..|bins| - 1])[last.name := Weight(iv, last.bounds)]
  }

  /** The mapping `map_age_interval` returns for a parsed interval. */
  function AgeWeights(iv: Interval): map<string, real>
  {
    AgeBinsConsistent();
    WeightsOf(iv, AgeBins)
  }

  /** With distinct names, the built mapping has exactly the visited names
      as keys, each with its bin's weight. */
  lemma {:induction false} WeightsOfSpec(iv: Interval, bins: seq<AgeBin>)
    requires WellFormedBins(bins) && DistinctNames(bins)
    ensures WeightsOf(iv, bins).Keys == set k | 0 <= k < |bins| :: bins[k].name
    ensures forall k | 0 <= k < |bins| :: WeightsOf(iv, bins)[bins[k].name] == Weight(iv, bins[k].bounds)
  {
    if bins != [] {
      var init := bins[..|bins| - 1];
      WeightsOfSpec(iv, init);
      assert forall k | 0 <= k < |init| :: init[k] == bins[k];
    }
  }

  /** `map_age_interval`'s result has exactly the seven bin names as keys,
      each mapped to the weight of its bin. */
  lemma AgeWeightsSpec(iv: Interval)
    ensures AgeWeights(iv).Keys == set k | 0 <= k < 7 :: AgeBinNames[k]
    ensures forall k | 0 <= k < 7 :: AgeWeights(iv)[AgeBinNames[k]] == Weight(iv, AgeBins[k].bounds)
  {
    AgeBinsConsistent();
    WeightsOfSpec(iv, AgeBins);
  }

  /** The keys of the mapping are exactly the bin names. */
  lemma AgeWeightsKeys(iv: Interval)
    ensures forall n | n in AgeBinNames :: n in AgeWeights(iv)
    ensures forall n | n in AgeWeights(iv) :: n in AgeBinNames
  {
    AgeWeightsSpec(iv);
    forall n | n in AgeBinNames
      ensures n in AgeWeights(iv)
    {
      var k :| 0 <= k < 7 && AgeBinNames[k] == n;
    }
  }

  /** `map_age_interval`: parse, then fill the mapping bin by bin. */
  method MapAgeInterval(raw: string) returns (r: Result<map<string, real>, ParseError>)
    ensures r.Failure? <==> ParseAgeInterval(raw).Failure?
    ensures r.Failure? ==> r.error == ParseAgeInterval(raw).error
    ensures r.Success? ==> r.value == AgeWeights(ParseAgeInterval(raw).value)
  {
    var parsed := ParseAgeInterval(raw);
    if parsed.Failure? {
      return Failure(parsed.error);
    }
    var mapping := FillBinWeights(parsed.value);
    return Success(mapping);
  }

  /** The loop of `map_age_interval`: visit the seven bins in order and set
      each name to its weight. */
  method FillBinWeights(iv: Interval) returns (mapping: map<string, real>)
    ensures mapping == AgeWeights(iv)
  {
    var bins := AgeBins;
    AgeBinsConsistent();
    mapping := map[];
    for i := 0 to |bins|
      invariant WellFormedBins(bins)
      invariant mapping == WeightsOf(iv, bins[..i])
    {
      var bin := bins[i];
      assert bins[..i + 1][..i] == bins[..i];
      mapping := mapping[bin.name := Weight(iv, bin.bounds)];
    }
    assert bins[..|bins|] == bins;
  }

  /** The example the source prints: "15 - 48" reads as [15, 48] ... */
  lemma ParseExample()
    ensures ParseAgeInterval("15 - 48") == Success(Interval(15, 48))
  {
    ExampleText();
    ParseRange(15, 48);
  }

  lemma ExampleText()
    ensures "15 - 48" == ShowInt(15) + " - " + ShowInt(48)
  {
    assert ShowNat(15 / 10) == "1";
    assert ShowNat(48 / 10) == "4";
  }

  /** ... which covers three fifths of 13-17, all of the next three bins,
      four tenths of 45-54 and nothing above. */
  lemma MapAgeIntervalExample()
    ensures var w := AgeWeights(Interval(15, 48));
            && w.Keys == {"13-17", "18-24", "25-34", "35-44", "45-54", "55-64", "65+"}
            && w["13-17"] == 0.6 && w["18-24"] == 1.0 && w["25-34"] == 1.0
            && w["35-44"] == 1.0 && w["45-54"] == 0.4 && w["55-64"] == 0.0 && w["65+"] == 0.0
  {
    var iv := Interval(15, 48);
    AgeWeightsSpec(iv);
    var w := AgeWeights(iv);
    assert AgeBinNames[0] == "13-17" && AgeBinNames[1] == "18-24" && AgeBinNames[2] == "25-34";
    assert AgeBinNames[3] == "35-44" && AgeBinNames[4] == "45-54" && AgeBinNames[5] == "55-64";
    assert AgeBinNames[6] == "65+";
    assert forall k | 0 <= k < 7 :: AgeBinNames[k] in w;
    ExampleWeights();
  }

  lemma ExampleWeights()
    ensures Weight(Interval(15, 48), Interval(13, 17)) == 0.6
    ensures Weight(Interval(15, 48), Interval(45, 54)) == 0.4
    ensures Weight(Interval(15, 48), Interval(55, 64)) == 0.0
    ensures Weight(Interval(15, 48), Interval(65, 65)) == 0.0
  {
    var iv := Interval(15, 48);
    assert GetOverlap(iv, Interval(13, 17)) == Some(Interval(15, 17));
    assert GetOverlap(iv, Interval(45, 54)) == Some(Interval(45, 48));
    assert GetOverlap(iv, Interval(55, 64)) == None;
    assert GetOverlap(iv, Interval(65, 65)) == None;
  }
}
