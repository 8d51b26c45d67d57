/** The per-ad rules of the ad library preprocessing
    (preprocessing_ad_library_DE.py): lower and upper bounds read from the
    reported ranges, the share of an ad's run that falls before the
    election, the point estimates, the platform code, the demographic rows
    of an ad and the per-ad shares summed from them.

    Dates are day numbers; a missing value (NaN) is `None`. */
module AdLibrary {
  import opened Wrappers
  import opened Text

  /** A lower and an upper bound, either of which may be missing. */
  datatype Range = Range(lb: Option<real>, ub: Option<real>)

  /** The columns of one ad that these rules read or write. */
  datatype AdRow = AdRow(
    id: string,
    publisherPlatforms: Option<string>,
    spendText: Option<string>,
    audienceText: Option<string>,
    impressionsText: Option<string>,
    startDay: int,
    stopDay: Option<int>,
    facebook: int,
    instagram: int,
    spend: Range,
    audience: Range,
    impressions: Range,
    adActive: Option<real>,
    spendEstimate: Option<real>,
    audienceEstimate: Option<real>,
    impressionsEstimate: Option<real>,
    platform: Option<int>,
    demographicRecords: Option<seq<DemoEntry>>)

  // ---------------------------------------------------------------------------
  // Bounds (`str.extractall(r"(\d+)")`, first and second match)

  /** The number a digit run reads as. */
  function RunValue(run: string): real
    requires AllDigits(run)
  {
    NumeralValue(run) as real
  }

  /** The lower bound is the first run of digits and the upper bound the
      second; later runs are ignored, and a missing run (or a cell that is
      not text) leaves the bound missing. */
  function ExtractRange(text: Option<string>): (r: Range)
    ensures r.ub.Some? ==> r.lb.Some?
  {
    if text.None? then Range(None, None)
    else
      var runs := DigitRuns(text.value);
      Range(if |runs| >= 1 then Some(RunValue(runs[0])) else None,
            if |runs| >= 2 then Some(RunValue(runs[1])) else None)
  }

  /** Text without digits gives no bounds. */
  lemma ExtractRangeOfNoDigits(text: string)
    requires NoDigits(text)
    ensures ExtractRange(Some(text)) == Range(None, None)
  {
    DigitRunsSkip(text, []);
    assert text + [] == text;
  }

  /** Only the first two runs count: text after them, when it does not
      extend the second run, changes nothing. */
  lemma ExtractRangeIgnoresLaterRuns(t1: string, t2: string)
    requires |DigitRuns(t1)| >= 2
    requires t2 == [] || !IsDigit(t1[|t1| - 1]) || !IsDigit(t2[0])
    ensures ExtractRange(Some(t1 + t2)) == ExtractRange(Some(t1))
  {
    DigitRunsAppend(t1, t2);
    var runs := DigitRuns(t1 + t2);
    assert runs[0] == DigitRuns(t1)[0] && runs[1] == DigitRuns(t1)[1];
  }

  /** A range written as two numerals among non-digits ("1000-1999",
      "€100 - €199") reads back as those two numbers. */
  lemma ExtractRangeOfTwoNumbers(p: string, a: nat, q: string, b: nat, r: string)
    requires NoDigits(p) && NoDigits(q) && NoDigits(r) && |q| > 0
    ensures ExtractRange(Some(p + ShowNat(a) + q + ShowNat(b) + r)) == Range(Some(a as real), Some(b as real))
  {
    var text := p + ShowNat(a) + q + ShowNat(b) + r;
    DigitRunsOfTwoNumerals(p, ShowNat(a), q, ShowNat(b), r);
    NumeralValueOfShowNat(a);
    NumeralValueOfShowNat(b);
  }

  /** An open-ended range written with one numeral (">1000000") has a lower
      bound and no upper bound. */
  lemma ExtractRangeOfOneNumber(p: string, a: nat, r: string)
    requires NoDigits(p) && NoDigits(r)
    ensures ExtractRange(Some(p + ShowNat(a) + r)) == Range(Some(a as real), None)
  {
    var text := p + ShowNat(a) + r;
    DigitRunsOfOneNumeral(p, ShowNat(a), r);
    NumeralValueOfShowNat(a);
  }

  // ---------------------------------------------------------------------------
  // Upper-bound fallback and estimate

  /** A missing upper bound takes the lower bound's value. */
  function FillUpper(r: Range): (f: Range)
    ensures f.lb == r.lb
    ensures r.ub.Some? ==> f.ub == r.ub
    ensures f.ub.Some? <==> r.ub.Some? || r.lb.Some?
    ensures r.ub.None? ==> f.ub == r.lb
  {
    if r.ub.None? then Range(r.lb, r.lb) else r
  }

  /** The estimate as the code computes it: the lower bound plus half the
      upper bound, missing when either is. */
  function Estimate(r: Range): (e: Option<real>)
    ensures e.Some? <==> r.lb.Some? && r.ub.Some?
  {
    if r.lb.Some? && r.ub.Some? then Some(r.lb.value + r.ub.value / 2.0) else None
  }

  /** The estimate is the midpoint of the bounds only when the lower bound
      is 0; once the lower bound exceeds half the upper bound it lies above
      the upper bound, and after the fallback it is 1.5 times a lone lower
      bound. */
  lemma EstimateAgainstMidpoint(lb: real, ub: real)
    ensures Estimate(Range(Some(lb), Some(ub))) == Some((lb + ub) / 2.0) <==> lb == 0.0
    ensures lb > ub / 2.0 ==> Estimate(Range(Some(lb), Some(ub))).value > ub
    ensures Estimate(FillUpper(Range(Some(lb), None))) == Some(lb * 1.5)
  {
  }

  /** A value times a ratio, missing when either is. */
  function Times(x: Option<real>, ratio: Option<real>): (r: Option<real>)
    ensures r.Some? <==> x.Some? && ratio.Some?
  {
    if x.Some? && ratio.Some? then Some(x.value * ratio.value) else None
  }

  // ---------------------------------------------------------------------------
  // Stop-time fill and the share of the run before the election

  /** A missing stop date is the start date. */
  function FillStop(start: int, stop: Option<int>): (s: int)
    ensures stop.Some? ==> s == stop.value
    ensures stop.None? ==> s == start
  {
    if stop.Some? then stop.value else start
  }

  /** `ad_active`: the days from the start up to and including the
      election over the days of the whole run, both counted inclusively;
      1 when the run ends on or before the election day. A run of zero days
      that ends after the election divides by zero and is missing here. */
  function ActivityRatio(start: int, stop: int, election: int): Option<real>
  {
    if stop <= election then Some(1.0)
    else if stop - start + 1 == 0 then None
    else Some((election - start + 1) as real / (stop - start + 1) as real)
  }

  /** A run that straddles the election counts with a share strictly
      between 0 and 1, and that share times the run's length is the number
      of its days up to the election. */
  lemma ActivityRatioOfStraddlingRun(start: int, stop: int, election: int)
    requires start <= election < stop
    ensures ActivityRatio(start, stop, election).Some?
    ensures var x := ActivityRatio(start, stop, election).value;
            && 0.0 < x < 1.0
            && x * (stop - start + 1) as real == (election - start + 1) as real
  {
    var before := (election - start + 1) as real;
    var total := (stop - start + 1) as real;
    assert 0.0 < before < total;
    DivideBelowOne(before, total);
  }

  lemma DivideBelowOne(a: real, b: real)
    requires 0.0 < a < b
    ensures 0.0 < a / b < 1.0
    ensures (a / b) * b == a
  {
    var x := a / b;
    assert x * b == a;
    if x >= 1.0 {
      assert false;
    }
    if x <= 0.0 {
      assert false;
    }
  }

  /** A run that ends on or before the election counts fully. */
  lemma ActivityRatioOfEarlyRun(start: int, stop: int, election: int)
    requires stop <= election
    ensures ActivityRatio(start, stop, election) == Some(1.0)
  {
  }

  /** A run that starts after the election gets a share of at most 0, so
      its estimates become 0 or negative. */
  lemma ActivityRatioOfLateRun(start: int, stop: int, election: int)
    requires election < start <= stop
    ensures ActivityRatio(start, stop, election).Some?
    ensures ActivityRatio(start, stop, election).value <= 0.0
  {
    var before := (election - start + 1) as real;
    var total := (stop - start + 1) as real;
    assert before <= 0.0 && total > 0.0;
    NonPositiveOverPositive(before, total);
  }

  lemma NonPositiveOverPositive(a: real, b: real)
    requires a <= 0.0 < b
    ensures a / b <= 0.0
  {
    assert a / b == -((-a) / b);
  }

  // ---------------------------------------------------------------------------
  // Platform flags and code

  /** 1 when the platforms text mentions the platform, else 0 (a missing
      text mentions nothing). */
  function PlatformFlag(platforms: Option<string>, name: string): (f: int)
    ensures f == 0 || f == 1
    ensures f == 1 <==> platforms.Some? && Contains(platforms.value, name)
  {
    if platforms.Some? && Contains(platforms.value, name) then 1 else 0
  }

  /** The platform code: 1 for Facebook only, 2 for Instagram only, 3 for
      both, missing for neither. */
  function PlatformCode(facebook: int, instagram: int): Option<int>
  {
    if facebook == 1 && instagram == 0 then Some(1)
    else if facebook == 0 && instagram == 1 then Some(2)
    else if facebook == 1 && instagram == 1 then Some(3)
    else None
  }

  /** The two flags a code stands for. */
  function PlatformFlags(code: int): (int, int)
  {
    if code == 1 then (1, 0) else if code == 2 then (0, 1) else (1, 1)
  }

  /** For 0/1 flags the code is missing exactly when neither is set, and
      otherwise gives the flags back. */
  lemma PlatformCodeRoundTrip(facebook: int, instagram: int)
    requires facebook == 0 || facebook == 1
    requires instagram == 0 || instagram == 1
    ensures PlatformCode(facebook, instagram).None? <==> facebook == 0 && instagram == 0
    ensures PlatformCode(facebook, instagram).Some? ==>
              && 1 <= PlatformCode(facebook, instagram).value <= 3
              && PlatformFlags(PlatformCode(facebook, instagram).value) == (facebook, instagram)
  {
  }

  /** Composed with the flags: the code says which platforms the text
      mentions. */
  lemma PlatformCodeOfText(platforms: Option<string>)
    ensures var fb := platforms.Some? && Contains(platforms.value, "facebook");
            var ig := platforms.Some? && Contains(platforms.value, "instagram");
            PlatformCode(PlatformFlag(platforms, "facebook"), PlatformFlag(platforms, "instagram"))
            == if fb && ig then Some(3) else if fb then Some(1) else if ig then Some(2) else None
  {
  }

  // ---------------------------------------------------------------------------
  // The frame, column by column

  /** The ads, one row each; every step assigns whole columns. */
  class AdFrame {
    var rows: seq<AdRow>

    constructor(rows0: seq<AdRow>)
      ensures rows == rows0
    {
      rows := rows0;
    }

    /** Lines 70-74: the two platform flags. */
    method SetPlatformFlags()
      modifies this
      ensures |rows| == |old(rows)|
      ensures forall i | 0 <= i < |rows| :: rows[i] == WithPlatformFlags(old(rows)[i])
    {
      var old0 := rows;
      rows := seq(|old0|, i requires 0 <= i < |old0| => WithPlatformFlags(old0[i]));
    }

    /** Lines 77-104: the bounds of spend, audience and impressions. */
    method ExtractBounds()
      modifies this
      ensures |rows| == |old(rows)|
      ensures forall i | 0 <= i < |rows| :: rows[i] == WithBounds(old(rows)[i])
    {
      var old0 := rows;
      rows := seq(|old0|, i requires 0 <= i < |old0| => WithBounds(old0[i]));
    }

    /** Lines 129-135: the stop-date fill and `ad_active`. */
    method ComputeActivity(election: int)
      modifies this
      ensures |rows| == |old(rows)|
      ensures forall i | 0 <= i < |rows| :: rows[i] == WithActivity(old(rows)[i], election)
    {
      var old0 := rows;
      rows := seq(|old0|, i requires 0 <= i < |old0| => WithActivity(old0[i], election));
    }

    /** Lines 138-148: the upper-bound fallback, the estimates, and their
        scaling by `ad_active`. */
    method ComputeEstimates()
      modifies this
      ensures |rows| == |old(rows)|
      ensures forall i | 0 <= i < |rows| :: rows[i] == WithEstimates(old(rows)[i])
    {
      var old0 := rows;
      rows := seq(|old0|, i requires 0 <= i < |old0| => WithEstimates(old0[i]));
    }

    /** Lines 151-154: the platform code. */
    method SetPlatformCode()
      modifies this
      ensures |rows| == |old(rows)|
      ensures forall i | 0 <= i < |rows| :: rows[i] == WithPlatformCode(old(rows)[i])
    {
      var old0 := rows;
      rows := seq(|old0|, i requires 0 <= i < |old0| => WithPlatformCode(old0[i]));
    }

    /** Lines 111-114: every ad's demographic rows, concatenated. */
    method Demographics() returns (table: seq<DemoRow>)
      ensures table == ExpandAll(rows)
    {
      table := [];
      var i := 0;
      while i < |rows|
        invariant 0 <= i <= |rows|
        invariant table == ExpandAll(rows[..i])
      {
        table := table + ExpandDemographics(rows[i], rows[i].demographicRecords);
        assert rows[..i + 1][..i] == rows[..i];
        i := i + 1;
      }
      assert rows[..|rows|] == rows;
    }

    /** The steps in the order the source runs them; the demographics table
        is built from the rows as they are once the bounds are read. */
    method Preprocess(election: int) returns (demographics: seq<DemoRow>)
      modifies this
      ensures |rows| == |old(rows)|
      ensures forall i | 0 <= i < |rows| :: rows[i] == Preprocessed(old(rows)[i], election)
      ensures demographics == ExpandAll(Bounded(old(rows)))
    {
      var rows0 := rows;
      SetPlatformFlags();
      ExtractBounds();
      assert rows == Bounded(rows0);
      demographics := Demographics();
      ComputeActivity(election);
      ComputeEstimates();
      SetPlatformCode();
    }
  }

  function WithPlatformFlags(a: AdRow): AdRow
  {
    a.(facebook := PlatformFlag(a.publisherPlatforms, "facebook"),
       instagram := PlatformFlag(a.publisherPlatforms, "instagram"))
  }

  function WithBounds(a: AdRow): AdRow
  {
    a.(spend := ExtractRange(a.spendText),
       audience := ExtractRange(a.audienceText),
       impressions := ExtractRange(a.impressionsText))
  }

  function WithActivity(a: AdRow, election: int): AdRow
  {
    var stop := FillStop(a.startDay, a.stopDay);
    a.(stopDay := Some(stop), adActive := ActivityRatio(a.startDay, stop, election))
  }

  function WithEstimates(a: AdRow): AdRow
  {
    var impressions := FillUpper(a.impressions);
    var audience := FillUpper(a.audience);
    var spend := FillUpper(a.spend);
    a.(impressions := impressions, audience := audience, spend := spend,
       impressionsEstimate := Times(Estimate(impressions), a.adActive),
       spendEstimate := Times(Estimate(spend), a.adActive),
       audienceEstimate := Times(Estimate(audience), a.adActive))
  }

  function WithPlatformCode(a: AdRow): AdRow
  {
    a.(platform := PlatformCode(a.facebook, a.instagram))
  }

  /** The rows once the flags are set and the bounds read. */
  function Bounded(ads: seq<AdRow>): (b: seq<AdRow>)
    ensures |b| == |ads|
  {
    seq(|ads|, i requires 0 <= i < |ads| => WithBounds(WithPlatformFlags(ads[i])))
  }

  /** One row after all the steps. */
  function Preprocessed(a: AdRow, election: int): AdRow
  {
    WithPlatformCode(WithEstimates(WithActivity(WithBounds(WithPlatformFlags(a)), election)))
  }

  /** What the preprocessing guarantees of the dates of every row: the
      stop date is set, and `ad_active` is the ratio over the filled run. */
  lemma PreprocessedActivity(a: AdRow, election: int)
    ensures var r := Preprocessed(a, election);
            && r.stopDay == Some(FillStop(a.startDay, a.stopDay))
            && r.adActive == ActivityRatio(a.startDay, FillStop(a.startDay, a.stopDay), election)
  {
  }

  /** What it guarantees of the impressions: the lower bound is the first
      number of the text; an upper bound exists wherever a lower bound does
      and, when the text held only one number, equals it; the estimate is
      `(lb + ub / 2) * ad_active` and exists exactly when a lower bound and
      the ratio do. */
  lemma PreprocessedImpressions(a: AdRow, election: int)
    ensures var r := Preprocessed(a, election);
            var read := ExtractRange(a.impressionsText);
            && r.impressions.lb == read.lb
            && (r.impressions.ub.Some? <==> read.lb.Some?)
            && (read.ub.None? ==> r.impressions.ub == read.lb)
            && (r.impressionsEstimate.Some? <==> read.lb.Some? && r.adActive.Some?)
            && (r.impressionsEstimate.Some? ==>
                  r.impressionsEstimate.value
                  == (r.impressions.lb.value + r.impressions.ub.value / 2.0) * r.adActive.value)
  {
    PreprocessedImpressionColumns(a, election);
    FilledEstimate(Preprocessed(a, election), ExtractRange(a.impressionsText));
  }

  lemma PreprocessedImpressionColumns(a: AdRow, election: int)
    ensures var r := Preprocessed(a, election);
            && r.impressions == FillUpper(ExtractRange(a.impressionsText))
            && r.impressionsEstimate == Times(Estimate(r.impressions), r.adActive)
  {
    var b := WithActivity(WithBounds(WithPlatformFlags(a)), election);
    assert b.impressions == ExtractRange(a.impressionsText);
  }

  /** The fallback and the estimate of a row whose impressions were read
      as `read`. */
  lemma FilledEstimate(r: AdRow, read: Range)
    requires read.ub.Some? ==> read.lb.Some?
    requires r.impressions == FillUpper(read)
    requires r.impressionsEstimate == Times(Estimate(r.impressions), r.adActive)
    ensures && r.impressions.lb == read.lb
            && (r.impressions.ub.Some? <==> read.lb.Some?)
            && (read.ub.None? ==> r.impressions.ub == read.lb)
            && (r.impressionsEstimate.Some? <==> read.lb.Some? && r.adActive.Some?)
            && (r.impressionsEstimate.Some? ==>
                  r.impressionsEstimate.value
                  == (r.impressions.lb.value + r.impressions.ub.value / 2.0) * r.adActive.value)
  {
  }

  /** And of the platform: the code is set exactly when the platforms text
      mentions Facebook or Instagram. */
  lemma PreprocessedPlatform(a: AdRow, election: int)
    ensures var r := Preprocessed(a, election);
            r.platform.Some? <==>
              a.publisherPlatforms.Some?
              && (Contains(a.publisherPlatforms.value, "facebook")
                  || Contains(a.publisherPlatforms.value, "instagram"))
  {
    PlatformCodeOfText(a.publisherPlatforms);
    var f := WithPlatformFlags(a);
    assert Preprocessed(a, election).platform == PlatformCode(f.facebook, f.instagram);
  }

  // ---------------------------------------------------------------------------
  // Demographic rows (expand_demographic_distribution)

  /** One parsed record of the demographic distribution text. */
  datatype DemoEntry = DemoEntry(percentage: real, age: string, gender: string)

  /** A row of the demographics table. */
  datatype DemoRow = DemoRow(id: string, percentage: real, age: string, gender: string,
                             impressionsLb: Option<real>, impressionsUb: Option<real>)

  /** The demographic rows of an ad: none when the distribution is not
      text (`None` here), otherwise one per record, carrying the ad's id and
      its impression bounds scaled by the record's percentage. */
  function ExpandDemographics(a: AdRow, records: Option<seq<DemoEntry>>): (rows: seq<DemoRow>)
    ensures records.None? ==> rows == []
    ensures records.Some? ==> |rows| == |records.value|
    ensures records.Some? ==>
              forall i | 0 <= i < |rows| ::
                && rows[i].id == a.id
                && rows[i].percentage == records.value[i].percentage
                && rows[i].age == records.value[i].age
                && rows[i].gender == records.value[i].gender
                && rows[i].impressionsLb == Times(Some(records.value[i].percentage), a.impressions.lb)
                && rows[i].impressionsUb == Times(Some(records.value[i].percentage), a.impressions.ub)
  {
    if records.None? then []
    else
      var es := records.value;
      seq(|es|, i requires 0 <= i < |es| =>
        DemoRow(a.id, es[i].percentage, es[i].age, es[i].gender,
                Times(Some(es[i].percentage), a.impressions.lb),
                Times(Some(es[i].percentage), a.impressions.ub)))
  }

  function PercentageSum(es: seq<DemoEntry>): real
  {
    if es == [] then 0.0 else PercentageSum(es[..|es| - 1]) + es[|es| - 1].percentage
  }

  /** The sum of the present lower (or upper) impressions of some rows. */
  function BoundSum(rows: seq<DemoRow>, upper: bool): real
  {
    if rows == [] then 0.0
    else
      var bound := if upper then rows[|rows| - 1].impressionsUb else rows[|rows| - 1].impressionsLb;
      BoundSum(rows[..|rows| - 1], upper) + (if bound.Some? then bound.value else 0.0)
  }

  /** The scaled rows split each of the ad's bounds in the records'
      proportions: they sum to the percentages' sum times the bound, and
      each is missing exactly when the bound is. */
  lemma ExpandDemographicsSplitsBound(a: AdRow, es: seq<DemoEntry>)
    ensures var rows := ExpandDemographics(a, Some(es));
            && (forall i | 0 <= i < |rows| :: rows[i].impressionsLb.Some? <==> a.impressions.lb.Some?)
            && (forall i | 0 <= i < |rows| :: rows[i].impressionsUb.Some? <==> a.impressions.ub.Some?)
            && (a.impressions.lb.Some? ==> BoundSum(rows, false) == PercentageSum(es) * a.impressions.lb.value)
            && (a.impressions.ub.Some? ==> BoundSum(rows, true) == PercentageSum(es) * a.impressions.ub.value)
  {
    if a.impressions.lb.Some? {
      BoundSumScaled(a, es, false, a.impressions.lb.value);
    }
    if a.impressions.ub.Some? {
      BoundSumScaled(a, es, true, a.impressions.ub.value);
    }
  }

  /** One bound of `ExpandDemographicsSplitsBound`, by induction on the
      records. */
  lemma {:induction false} BoundSumScaled(a: AdRow, es: seq<DemoEntry>, upper: bool, x: real)
    requires (if upper then a.impressions.ub else a.impressions.lb) == Some(x)
    ensures BoundSum(ExpandDemographics(a, Some(es)), upper) == PercentageSum(es) * x
    decreases |es|
  {
    if es != [] {
      var init := es[..|es| - 1];
      var rows := ExpandDemographics(a, Some(es));
      BoundSumScaled(a, init, upper, x);
      ExpandPrefix(a, es);
      var bound := LastBound(a, es, upper, x);
      Distribute(PercentageSum(init), es[|es| - 1].percentage, x);
    }
  }

  /** The bound of the last expanded row is the last percentage times the
      ad's bound. */
  lemma LastBound(a: AdRow, es: seq<DemoEntry>, upper: bool, x: real) returns (bound: Option<real>)
    requires es != []
    requires (if upper then a.impressions.ub else a.impressions.lb) == Some(x)
    ensures var rows := ExpandDemographics(a, Some(es));
            && bound == (if upper then rows[|es| - 1].impressionsUb else rows[|es| - 1].impressionsLb)
            && bound.Some? && bound.value == es[|es| - 1].percentage * x
  {
    var rows := ExpandDemographics(a, Some(es));
    bound := if upper then rows[|es| - 1].impressionsUb else rows[|es| - 1].impressionsLb;
  }

  /** Dropping the last record drops the last row. */
  lemma ExpandPrefix(a: AdRow, es: seq<DemoEntry>)
    requires es != []
    ensures ExpandDemographics(a, Some(es))[..|es| - 1] == ExpandDemographics(a, Some(es[..|es| - 1]))
  {
  }

  lemma Distribute(p: real, q: real, x: real)
    ensures p * x + q * x == (p + q) * x
  {
  }

  /** The demographics table: the rows of every ad, stacked in the ads'
      order. */
  function ExpandAll(ads: seq<AdRow>): seq<DemoRow>
  {
    if ads == [] then []
    else
      var last := ads[|ads| - 1];
      ExpandAll(ads[..|ads| - 1]) + ExpandDemographics(last, last.demographicRecords)
  }

  /** The rows are expanded once the bounds are read and before the
      missing upper bound is filled: for an impressions text with a single
      number ("1000000+") the rows have that number times the percentage as
      lower bound and no upper bound, while the ad itself ends up with the
      number as its upper bound as well. */
  lemma ExpandedBeforeFallback(a: AdRow, p: string, n: nat, q: string, election: int)
    requires NoDigits(p) && NoDigits(q)
    requires a.impressionsText == Some(p + ShowNat(n) + q)
    requires a.demographicRecords.Some?
    ensures var b := WithBounds(WithPlatformFlags(a));
            var rows := ExpandDemographics(b, b.demographicRecords);
            forall i | 0 <= i < |rows| ::
              && rows[i].impressionsLb.Some?
              && rows[i].impressionsLb.value == a.demographicRecords.value[i].percentage * n as real
              && rows[i].impressionsUb.None?
    ensures Preprocessed(a, election).impressions == Range(Some(n as real), Some(n as real))
  {
    ExtractRangeOfOneNumber(p, n, q);
    var read := ExtractRange(a.impressionsText);
    assert Preprocessed(a, election).impressions == FillUpper(read) by {
      PreprocessedImpressionColumns(a, election);
    }
    var b := WithBounds(WithPlatformFlags(a));
    assert b.impressions == read && b.demographicRecords == a.demographicRecords;
    ExpandLowerOnly(b, a.demographicRecords.value, n as real);
  }

  lemma ExpandLowerOnly(b: AdRow, es: seq<DemoEntry>, x: real)
    requires b.impressions == Range(Some(x), None)
    ensures var rows := ExpandDemographics(b, Some(es));
            forall i | 0 <= i < |rows| ::
              && rows[i].impressionsLb.Some? && rows[i].impressionsLb.value == es[i].percentage * x
              && rows[i].impressionsUb.None?
  {
  }

  // ---------------------------------------------------------------------------
  // Shares per ad (group by id and category, sum, pivot, fill with 0)

  /** The category a row is grouped by: its gender or its age. */
  function CategoryOf(r: DemoRow, byGender: bool): string
  {
    if byGender then r.gender else r.age
  }

  /** The summed percentage of the ad's rows in one category. */
  function ShareSum(rows: seq<DemoRow>, id: string, category: string, byGender: bool): real
  {
    if rows == [] then 0.0
    else
      var last := rows[|rows| - 1];
      ShareSum(rows[..|rows| - 1], id, category, byGender)
      + (if last.id == id && CategoryOf(last, byGender) == category then last.percentage else 0.0)
  }

  /** The share in the merged table: missing for an ad without demographic
      rows (the merge finds no match), otherwise the sum, 0 where the ad has
      no row in the category (the pivot's gaps are filled with 0). */
  function Share(rows: seq<DemoRow>, id: string, category: string, byGender: bool): Option<real>
  {
    if exists i | 0 <= i < |rows| :: rows[i].id == id then Some(ShareSum(rows, id, category, byGender))
    else None
  }

  /** Sums over a concatenation add up: the demographics table is the ads'
      rows stacked, and each ad's share can be taken part by part. */
  lemma {:induction false} ShareSumAppend(r1: seq<DemoRow>, r2: seq<DemoRow>, id: string, category: string, byGender: bool)
    ensures ShareSum(r1 + r2, id, category, byGender)
            == ShareSum(r1, id, category, byGender) + ShareSum(r2, id, category, byGender)
  {
    if r2 != [] {
      var init := r2[..|r2| - 1];
      assert (r1 + r2)[..|r1 + r2| - 1] == r1 + init;
      ShareSumAppend(r1, init, id, category, byGender);
    } else {
      assert r1 + r2 == r1;
    }
  }

  /** Rows of other ads or other categories add nothing. */
  lemma {:induction false} ShareSumOfOthers(rows: seq<DemoRow>, id: string, category: string, byGender: bool)
    requires forall i | 0 <= i < |rows| :: rows[i].id != id || CategoryOf(rows[i], byGender) != category
    ensures ShareSum(rows, id, category, byGender) == 0.0
  {
    if rows != [] {
      ShareSumOfOthers(rows[..|rows| - 1], id, category, byGender);
    }
  }

  /** An ad with demographic rows gets a share in every category, 0 where
      it has none; an ad without rows gets none. */
  lemma ShareFilled(rows: seq<DemoRow>, id: string, category: string, byGender: bool)
    ensures Share(rows, id, category, byGender).Some? <==> exists i | 0 <= i < |rows| :: rows[i].id == id
    ensures (forall i | 0 <= i < |rows| && rows[i].id == id :: CategoryOf(rows[i], byGender) != category) ==>
              (Share(rows, id, category, byGender).Some? ==> Share(rows, id, category, byGender) == Some(0.0))
  {
    if forall i | 0 <= i < |rows| && rows[i].id == id :: CategoryOf(rows[i], byGender) != category {
      ShareSumOfOthers(rows, id, category, byGender);
    }
  }

  /** The share of an ad is the sum over its own expanded rows: the
      percentages of its records in that category. */
  lemma {:induction false} ShareOfOwnRows(a: AdRow, es: seq<DemoEntry>, category: string, byGender: bool)
    ensures ShareSum(ExpandDemographics(a, Some(es)), a.id, category, byGender) == PercentageIn(es, category, byGender)
  {
    if es != [] {
      var init := es[..|es| - 1];
      ShareOfOwnRows(a, init, category, byGender);
      assert ExpandDemographics(a, Some(es))[..|es| - 1] == ExpandDemographics(a, Some(init));
    }
  }

  /** The summed percentage of the records in one category. */
  function PercentageIn(es: seq<DemoEntry>, category: string, byGender: bool): real
  {
    if es == [] then 0.0
    else
      var last := es[|es| - 1];
      PercentageIn(es[..|es| - 1], category, byGender)
      + (if (if byGender then last.gender else last.age) == category then last.percentage else 0.0)
  }

  // ---------------------------------------------------------------------------
  // Share column names

  /** The gender share column of a stripped category: the automated and
      unknown categories renamed, the rest kept. */
  function GenderName(s: string): string
  {
    if s == "All (Automated App Ads)" then "automated_ads_gender"
    else if s == "unknown" then "unknown_gender"
    else s
  }

  /** The age share column of a stripped category ("Unknown" is
      capitalised here). */
  function AgeName(s: string): string
  {
    if s == "All (Automated App Ads)" then "automated_ads_age"
    else if s == "Unknown" then "unknown_age"
    else s
  }

  function GenderColumn(category: string): string
  {
    GenderName(Strip(category))
  }

  function AgeColumn(category: string): string
  {
    AgeName(Strip(category))
  }

  /** White space around a category does not change its column, so
      categories that differ only in it end up in columns of one name. */
  lemma ShareColumnsIgnoreSpace(pre: string, s: string, post: string)
    requires forall i | 0 <= i < |pre| :: IsSpace(pre[i])
    requires forall i | 0 <= i < |post| :: IsSpace(post[i])
    requires s != [] && !IsSpace(s[0]) && !IsSpace(s[|s| - 1])
    ensures GenderColumn(pre + s + post) == GenderName(s)
    ensures AgeColumn(pre + s + post) == AgeName(s)
  {
    StripSurrounded(pre, s, post);
  }
}
