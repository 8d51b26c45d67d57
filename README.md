# Ad targeting vs. ad library: age mapping, distributions, criteria and per-ad rules

A Dafny model of the computational core of a preprocessing pipeline for
political ad data (German 2021 federal election). The pipeline compares what
an advertiser *targeted* (an age range such as `"15 - 48"`, a gender
`All`/`Women`/`Men`, include/exclude criteria) with what the ad library
reports as *delivered* (shares per age bin and gender, bounds on spend,
audience and impressions). The model covers four pieces:

- **Age mapping** (`age_mapping.dfy`, module `AgeMapping`). `GetOverlap`
  intersects two closed integer intervals. `MapAgeInterval` parses the
  targeting age string and gives each of the seven ad-library bins
  (`13-17` … `55-64`, with `65+` as the single point 65) the share of its
  integers that the targeted range covers.
- **Distributions** (`distributions.dfy`, module `Distributions`). This
  covers four builders:
  - the targeting gender lookup;
  - pass-through copies of the delivered age and gender shares;
  - the normalisation of the bin weights into a targeting age distribution;
  - the two value lists handed to the distance routine, which is a function
    parameter.
- **Targeting criteria** (`targeting_criteria.dfy`, module
  `TargetingCriteria`). The parsed include/exclude fields, lists of
  `{value: category}` dicts, are inverted two ways. One gives category → set
  of values. The other gives category → list of values, which is written
  into per-category columns of an ad's row (class `Ad`). The `_use`/`_count`
  indicator columns and their row sums follow.
- **Ad library rules** (`ad_library.dfy`, module `AdLibrary`). Lower and
  upper bounds are read from the first two digit runs of a range text. Then
  come the upper-bound fallback, the estimate, the share of the run before
  the election, and the platform code. These are whole-column updates of a
  frame (class `AdFrame`). The module also covers the demographic rows of an
  ad and the per-ad share sums.

`text.dfy` (module `Text`) gives the Python string operations these rely on
their meaning: `int()` on a token, `str.split`, `str.replace`, `str.strip`,
`str.lower`, substring search, and the matches of the `(\d+)` pattern.
`wrappers.dfy` holds `Option` and `Result`.

Dates are integer day numbers. A missing value (NaN) is `None`. Floating
values are exact `real`s. Python exceptions are `Failure` values.

What the code does, and where the model departs from it:
- **Distance inputs.** The code hands the two share lists to the distance
  routine as plain sample values. The model states which two lists are
  passed and in which order, and makes no claim about the distance's value.
- **Removing "+".** The code removes every `+` from the age string,
  wherever it stands.
- **Unknown targeting gender.** For a gender other than `All`, `Women` and
  `Men` the code assigns no result and then raises `UnboundLocalError` when
  it returns it. The model returns the failure `UnknownTargetingGender`.
- **Zero weight total.** When no bin is covered the code divides by a zero
  total, and every bin gets NaN. The model returns the failure `ZeroTotal`.
- **Estimate.** The code computes the estimate as `lb + ub/2`, although the
  comment above it speaks of averaging the bounds.
  `EstimateAgainstMidpoint` states how far the two are apart.

## Model

| member | source | states |
|---|---|---|
| `AgeMapping.GetOverlap` | map_targeting_age.py:7-25 | for well-formed intervals the overlap exists exactly when the larger start is at most the smaller end, and is then `[max start, min end]`; `None` stands for the sentinel `0` |
| `AgeMapping.GetOverlapSymmetricAndInside` | map_targeting_age.py:11-25 | on well-formed intervals the overlap is symmetric and lies inside both arguments |
| `AgeMapping.GetOverlapExamples` | map_targeting_age.py:8-9 | `[0,4]`,`[1,10]` give `[1,4]`; `[0,4]`,`[5,10]` give no overlap; touching `[1,4]`,`[4,10]` give `[4,4]` |
| `AgeMapping.GetOverlapReversed` | map_targeting_age.py:11-25 | a reversed first interval meets a well-formed one only when both its ends lie inside it, and the overlap is then the reversed interval itself |
| `AgeMapping.AgeBinsConsistent` | map_targeting_age.py:38-42 | seven bins with distinct names in fixed order, each well-formed, `65+` read as `[65,65]` |
| `AgeMapping.WeightIsCoverage` | map_targeting_age.py:44-52 | for a well-formed range, the weight (0, 1 or the width ratio) equals the share of the bin's integers the range covers, so it lies in [0,1] and the special case 1 agrees with the ratio |
| `AgeMapping.WeightExtremes` | map_targeting_age.py:47-52 | a weight is 0 exactly when the range misses the bin, and 1 exactly when it covers the whole bin |
| `AgeMapping.ReversedWeightNotPositive` | map_targeting_age.py:44-52 | a reversed range (`"48 - 15"`) never gets a positive weight |
| `AgeMapping.Weight` | map_targeting_age.py:44-52 | the rule itself (0 without overlap, 1 for the whole bin, else the width ratio); its properties are stated by `WeightIsCoverage`, `WeightExtremes` and `ReversedWeightNotPositive` |
| `AgeMapping.ParseRange` | map_targeting_age.py:30-36 | `"a - b"` parses to `[a, b]` for any integers |
| `AgeMapping.ParseSingle` | map_targeting_age.py:32-34 | a single number `n` parses to `[n, n]` |
| `AgeMapping.ParseOpenEnded` | map_targeting_age.py:30-34 | `"n+"` parses to `[n, n]`: the `+` is dropped first |
| `AgeMapping.ParseIgnoresExtraParts` | map_targeting_age.py:32-36 | parts after the second `" - "` piece are ignored |
| `AgeMapping.ParseAgeInterval` | map_targeting_age.py:30-36 | the rule itself (remove `+`, split on `" - "`, read the parts); its outcomes are stated by `ParseRange`, `ParseSingle`, `ParseOpenEnded`, `ParseIgnoresExtraParts` and the `ParseRejects` lemmas |
| `AgeMapping.ParseParts` | map_targeting_age.py:32-36 | the rule itself (first part, then the second when there is one); `ParsePartsOfTwo` and the `ParseRejects` lemmas state its outcomes |
| `AgeMapping.ParseRejectsNonNumber` | map_targeting_age.py:32 | a first part that `int()` refuses (no space or `+` in it) is a parse failure naming that part, whatever follows |
| `AgeMapping.ParseRejectsNonNumberSecond` | map_targeting_age.py:36 | after a numeral, a second part that `int()` refuses is a parse failure naming that part |
| `AgeMapping.ParseRejectsWord` | map_targeting_age.py:32 | a lone word that `int()` refuses, such as `"abc"`, is a parse failure |
| `AgeMapping.WeightsOfSpec` | map_targeting_age.py:38-52 | the mapping built over distinct bins has exactly their names as keys, each with its bin's weight |
| `AgeMapping.AgeWeightsSpec` | map_targeting_age.py:38-54 | the result has exactly the seven bin names as keys, each with the weight of its bin |
| `AgeMapping.AgeWeightsKeys` | map_targeting_age.py:38-54 | every bin name is a key and every key is a bin name |
| `AgeMapping.MapAgeInterval` | map_targeting_age.py:28-54 | fails exactly when parsing fails, with that error; otherwise returns the seven-bin weight mapping of the parsed interval |
| `AgeMapping.FillBinWeights` | map_targeting_age.py:38-52 | the loop over the bins leaves the mapping equal to the bin weights of the interval |
| `AgeMapping.ParseExample` | map_targeting_age.py:57 | `"15 - 48"` parses to `[15, 48]` |
| `AgeMapping.MapAgeIntervalExample` | map_targeting_age.py:57-60 | `[15,48]` maps to `13-17: 0.6`, `18-24`, `25-34`, `35-44: 1`, `45-54: 0.4`, `55-64`, `65+: 0` |
| `Distributions.TargetingGenderDistribution` | age_gender_distribution_distances.py:11-18 | succeeds exactly for `All`, `Women`, `Men`; keys `male`, `female`; values in [0,1] summing to 1; equal halves exactly for `All`, all female for `Women`, all male for `Men`; any other value is the failure |
| `Distributions.ActualAgeDistribution` | age_gender_distribution_distances.py:20-26 | the counter holds exactly the seven bin keys, each equal to the row's column, not normalised |
| `Distributions.ActualGenderDistribution` | age_gender_distribution_distances.py:41-46 | the counter holds exactly `male` and `female`, each equal to the row's column |
| `Distributions.TargetingAgeDistribution` | age_gender_distribution_distances.py:28-34 | the method computes the weights divided by their total, failing on a parse error or a zero total |
| `Distributions.TargetingAgeDistributionOf` | age_gender_distribution_distances.py:28-34 | the closed form the method is proved equal to; `TargetingAgeDistributionIsDistribution` and `ZeroTotalExactlyWhenNoBinCovered` state its properties |
| `Distributions.SumWeights` | age_gender_distribution_distances.py:30 | the loop's total is the sum of the seven bin weights |
| `Distributions.DivideWeights` | age_gender_distribution_distances.py:31-33 | the loop gives every key its weight divided by the total, and no other key |
| `Distributions.ScaledSumsToOne` | age_gender_distribution_distances.py:30-33 | values divided by their non-zero sum sum to 1 |
| `Distributions.ScaledSharesInUnit` | age_gender_distribution_distances.py:30-33 | values of one sign divided by their non-zero sum lie in [0,1], and are 0 exactly where the value was 0 |
| `Distributions.AgeWeightsSameSign` | map_targeting_age.py:44-52 | all seven weights of a range share a sign (none negative when well-formed, none positive when reversed) |
| `Distributions.TargetingAgeDistributionIsDistribution` | age_gender_distribution_distances.py:28-34 | a successful targeting age distribution has the seven bin keys, values in [0,1] summing to 1, and 0 exactly in the bins the range misses |
| `Distributions.ZeroTotalExactlyWhenNoBinCovered` | age_gender_distribution_distances.py:30-33 | for a parsed range, the zero-total failure happens exactly when every bin weight is 0 |
| `Distributions.AgeVector` | age_gender_distribution_distances.py:51-54 | the rule itself: seven values in bin order, a missing key reading as 0 as a counter does; `AgeDistanceOfAd` states what reaches the distance |
| `Distributions.AgeDistanceSeesOnlyBins` | age_gender_distribution_distances.py:48-55 | the age distance depends only on the seven bin values of each side |
| `Distributions.AgeDistanceOfAd` | age_gender_distribution_distances.py:48-55 | the first argument is the row's bin columns in bin order; the second is seven targeting shares in [0,1] that sum to 1 |
| `Distributions.AgeDistance` | age_gender_distribution_distances.py:48-55 | the rule itself (the distance of the two bin-order vectors); `AgeDistanceOfAd` and `AgeDistanceSeesOnlyBins` state what it is given |
| `Distributions.GenderDistance` | age_gender_distribution_distances.py:36-39 | the rule itself (the distance of the two `[male, female]` pairs); `GenderDistanceOfAd` states what it is given |
| `Distributions.AgeVectorOfCopy` | age_gender_distribution_distances.py:53-54 | a counter copied from the row reads in bin order as the row's bin columns |
| `Distributions.GenderDistanceOfAd` | age_gender_distribution_distances.py:36-39 | the first argument is `[row male, row female]`; the second is `[0.5,0.5]`, `[0,1]` or `[1,0]` for `All`, `Women`, `Men` |
| `TargetingCriteria.UniqueCategoriesInclude` | create_DE_data.py:22-32 | the loop over the distinct fields computes the category → set map, failing as the source does on a single dict |
| `TargetingCriteria.IncludeFailureStays` | create_DE_data.py:24-31 | once a field fails, later fields do not change the outcome |
| `TargetingCriteria.IncludeStep` | create_DE_data.py:25-31 | the rule itself for one include field (skip a falsy field, add a list's dicts, fail on a non-empty single dict); `CollectIncludeHas` states its outcome |
| `TargetingCriteria.CollectInclude` | create_DE_data.py:22-32 | the fold over the include fields; `CollectIncludeHas` and `CollectIncludeBySet` state its properties |
| `TargetingCriteria.UniqueCategoriesExclude` | create_DE_data.py:35-51 | the loop over the distinct fields computes the category → set map, a single dict counting as a list of one |
| `TargetingCriteria.ExcludeStep` | create_DE_data.py:38-50 | the rule itself for one exclude field (skip a falsy field, add a list's dicts or a single dict); `CollectExcludeHas` states its outcome |
| `TargetingCriteria.CollectExclude` | create_DE_data.py:35-51 | the fold over the exclude fields; `CollectExcludeHas` and `CollectExcludeBySet` state its properties |
| `TargetingCriteria.AddGroupsLoop` | create_DE_data.py:28-31 | the loops over dicts and entries add every entry of every dict |
| `TargetingCriteria.AddGroupLoop` | create_DE_data.py:29-31 | the loop over a dict's entries adds each value to its category's set |
| `TargetingCriteria.AddGroupHas` | create_DE_data.py:29-31 | after one dict, a pair is recorded exactly when it was before or is an entry of the dict; no set is empty |
| `TargetingCriteria.AddGroupsHas` | create_DE_data.py:28-31 | after a list of dicts, a pair is recorded exactly when it was before or is an entry of some dict; no set is empty |
| `TargetingCriteria.CollectExcludeHas` | create_DE_data.py:35-51 | a value is in a category's set exactly when some field pairs them, and no set is empty |
| `TargetingCriteria.CollectIncludeHas` | create_DE_data.py:22-32 | fails exactly when some field is a single dict with a non-empty key; otherwise a value is in a category's set exactly when some list field pairs them, and no set is empty |
| `TargetingCriteria.CollectExcludeBySet` | create_DE_data.py:37 | the exclude sets depend only on which fields occur, not on their order or repetition |
| `TargetingCriteria.CollectIncludeBySet` | create_DE_data.py:24 | the include result, failure included, depends only on which fields occur |
| `TargetingCriteria.ExcludeSingleDictAsList` | create_DE_data.py:41-50 | for the exclude sets a single dict is handled exactly like a list holding it |
| `TargetingCriteria.AppendGroupSpec` | create_DE_data.py:66-70 | appending a dict's entries extends each category's list by that dict's values for it, in order, and keeps the category order as a prefix |
| `TargetingCriteria.AppendGroupsSpec` | create_DE_data.py:61-65 | over a list of dicts each category's list grows by its values over all entries, in order |
| `TargetingCriteria.ListsOfSpec` | create_DE_data.py:59-70 | every category occurs once, and under each are its values in encounter order with duplicates kept |
| `TargetingCriteria.ListsOf` | create_DE_data.py:59-70 | the category lists of one parsed field, a `None` field failing; `ListsOfSpec` states their contents |
| `TargetingCriteria.BuildLists` | create_DE_data.py:59-70 | the loops build those lists; a `None` field cannot be iterated and fails |
| `TargetingCriteria.AppendGroupLoop` | create_DE_data.py:68-70 | the loop over a dict's entries appends each value to its category's list |
| `TargetingCriteria.FirstSeenSpec` | create_DE_data.py:23-31 | a `defaultdict`'s insertion order lists every key once: the keys it had first, then every category the entries mention, and nothing else |
| `TargetingCriteria.FlattenHas` | create_DE_data.py:28-29 | an entry is among the flattened dicts exactly when it is in one of them |
| `TargetingCriteria.FieldEntriesMentioned` | create_DE_data.py:24-50 | the entries the loops add, in order, are exactly the entries some field mentions |
| `TargetingCriteria.IncludeKeysSpec` | create_DE_data.py:22-32 | when the include sets are computed, their keys in insertion order are exactly the sets' keys, each once |
| `TargetingCriteria.ExcludeKeysSpec` | create_DE_data.py:35-51 | the exclude keys in insertion order are exactly the exclude sets' keys, each once |
| `TargetingCriteria.IncludeKeys` | create_DE_data.py:23-31 | the include `defaultdict`'s key order (first seen first); `IncludeKeysSpec` states it lists exactly the collected categories |
| `TargetingCriteria.ExcludeKeys` | create_DE_data.py:36-50 | the exclude `defaultdict`'s key order; `ExcludeKeysSpec` states it lists exactly the collected categories |
| `TargetingCriteria.TargetingColumns` | create_DE_data.py:144-146 | the rule itself: one column per category, in order, named by the column-name rule with the given suffix; `AllTargetingColumns` and `TargetingColumnsNotDerived` state its properties |
| `TargetingCriteria.AllTargetingColumns` | create_DE_data.py:144-146 | the include columns in the include keys' insertion order, then the exclude columns in the exclude keys' order; one per key and none a `_use`/`_count` name |
| `TargetingCriteria.ColumnNameInjective` | create_DE_data.py:73 | lower-case categories without `_` get distinct columns |
| `TargetingCriteria.ColumnNameCollides` | create_DE_data.py:73 | categories differing only in case or in space against `_` share a column |
| `TargetingCriteria.ColumnName` | create_DE_data.py:73 | the rule itself (spaces to `_`, lower case, then `_` and the kind); `ColumnNameInjective` and `ColumnNameCollides` state when names differ |
| `TargetingCriteria.WithColumns` | create_DE_data.py:72-74 | the writes of the first `n` categories' columns; `WithColumnsKeys`, `WithColumnsKeeps` and `WithColumnsUnshared` state the result |
| `TargetingCriteria.WithColumnsKeys` | create_DE_data.py:72-74 | after the writes the row's keys are its old keys plus exactly the category columns |
| `TargetingCriteria.WithColumnsKeeps` | create_DE_data.py:72-74 | every cell no category writes keeps its value |
| `TargetingCriteria.WithColumnsUnshared` | create_DE_data.py:72-74 | a category whose column no other category shares gets exactly its list |
| `TargetingCriteria.Ad.ExtractTargetingCriteria` | create_DE_data.py:55-75 | a `None` field fails and leaves the row unchanged; otherwise the row becomes the old row with each category's column set to its list |
| `TargetingCriteria.ExtractedColumns` | create_DE_data.py:59-75 | each category whose column is unshared holds its values in encounter order, duplicates kept; every other cell is unchanged |
| `TargetingCriteria.Ad.AddUseAndCount` | create_DE_data.py:150-160 | the row becomes the old row with a `_use` and a `_count` column added for each targeting column, in order |
| `TargetingCriteria.Use` | create_DE_data.py:152 | the rule itself: 1 exactly for a truthy cell, 0 otherwise; `UseCountWritesPairs` carries it into the row |
| `TargetingCriteria.Count` | create_DE_data.py:154 | the rule itself: the length of a list cell, 0 for any other cell; `UseCountWritesPairs` carries it into the row |
| `TargetingCriteria.UseCountKeepsOthers` | create_DE_data.py:150-160 | the loop changes no cell whose name is not a `_use`/`_count` name |
| `TargetingCriteria.UseCountWritesPairs` | create_DE_data.py:150-160 | each column's `_use` and `_count` reflect its original cell |
| `TargetingCriteria.UseCountColumns` | create_DE_data.py:150-160 | the loop's result as a fold over the columns; `UseCountKeepsOthers` and `UseCountWritesPairs` state it |
| `TargetingCriteria.TargetingColumnsNotDerived` | create_DE_data.py:144-160 | no targeting column is itself a `_use`/`_count` name, so the loop never reads a cell it wrote |
| `TargetingCriteria.CountSumIsCriteriaTotal` | create_DE_data.py:177-180 | `include_count`/`exclude_count` equal the total number of criteria in the lists of those columns |
| `TargetingCriteria.CountSum` | create_DE_data.py:177-180 | the row sum of the `_count` columns; `CountSumIsCriteriaTotal` states its value |
| `AdLibrary.ExtractRange` | preprocessing_ad_library_DE.py:77-104 | an upper bound only with a lower bound |
| `AdLibrary.ExtractRangeOfNoDigits` | preprocessing_ad_library_DE.py:77-84 | text without digits gives no bounds |
| `AdLibrary.ExtractRangeIgnoresLaterRuns` | preprocessing_ad_library_DE.py:77-84 | once a text has two runs of digits, text appended after them (not extending the second run) leaves both bounds unchanged: only the first and second match are read |
| `AdLibrary.ExtractRangeOfTwoNumbers` | preprocessing_ad_library_DE.py:77-84 | a text with two numerals among non-digits reads as exactly those two bounds |
| `AdLibrary.ExtractRangeOfOneNumber` | preprocessing_ad_library_DE.py:77-84 | a text with one numeral has that lower bound and no upper bound |
| `AdLibrary.FillUpper` | preprocessing_ad_library_DE.py:138-140 | keeps the lower bound, keeps a present upper bound, and otherwise takes the lower bound, so an upper bound exists wherever a lower bound does |
| `AdLibrary.Estimate` | preprocessing_ad_library_DE.py:143-145 | an estimate exists exactly when both bounds do |
| `AdLibrary.EstimateAgainstMidpoint` | preprocessing_ad_library_DE.py:142-145 | the estimate equals the midpoint only when `lb = 0`, exceeds `ub` once `lb > ub/2`, and is `1.5·lb` after the fallback |
| `AdLibrary.Times` | preprocessing_ad_library_DE.py:148 | the rule itself: a product with NaN is NaN, so a scaled estimate exists exactly when the estimate and the ratio do |
| `AdLibrary.FillStop` | preprocessing_ad_library_DE.py:129 | the rule itself: a missing stop date becomes the start date, a present one is kept; `PreprocessedActivity` carries it through the pipeline |
| `AdLibrary.ActivityRatioOfStraddlingRun` | preprocessing_ad_library_DE.py:132-134 | a run straddling the election has a ratio strictly between 0 and 1 that, times the run's days, gives its days up to the election |
| `AdLibrary.ActivityRatioOfEarlyRun` | preprocessing_ad_library_DE.py:135 | a run ending on or before the election has ratio 1 |
| `AdLibrary.ActivityRatioOfLateRun` | preprocessing_ad_library_DE.py:132-135 | a run starting after the election has a ratio of at most 0 |
| `AdLibrary.ActivityRatio` | preprocessing_ad_library_DE.py:132-135 | the rule itself (1 when the run ends by the election, else days before over days in total, missing for a zero-day run); the three `ActivityRatioOf` lemmas state its range |
| `AdLibrary.PlatformFlag` | preprocessing_ad_library_DE.py:70-74 | the rule itself: a flag is 0 or 1, and 1 exactly when the platforms text contains the name; `PlatformCodeOfText` builds on it |
| `AdLibrary.PlatformCodeRoundTrip` | preprocessing_ad_library_DE.py:151-154 | for 0/1 flags the code is missing exactly when neither is set, otherwise lies in 1..3 and gives the flags back |
| `AdLibrary.PlatformCodeOfText` | preprocessing_ad_library_DE.py:151-154 | the code is 3, 1, 2 or missing as the text mentions both, Facebook only, Instagram only or neither |
| `AdLibrary.PlatformCode` | preprocessing_ad_library_DE.py:151-154 | the rule itself (1, 2, 3 or missing); `PlatformCodeRoundTrip` states that it encodes the flags |
| `AdLibrary.AdFrame.SetPlatformFlags` | preprocessing_ad_library_DE.py:70-74 | every row gets its two platform flags; nothing else changes |
| `AdLibrary.AdFrame.ExtractBounds` | preprocessing_ad_library_DE.py:77-104 | every row gets the bounds read from its spend, audience and impressions texts |
| `AdLibrary.AdFrame.ComputeActivity` | preprocessing_ad_library_DE.py:129-135 | every row gets its filled stop date and its activity ratio |
| `AdLibrary.AdFrame.ComputeEstimates` | preprocessing_ad_library_DE.py:138-148 | every row gets the upper-bound fallback and the three estimates scaled by its ratio |
| `AdLibrary.AdFrame.SetPlatformCode` | preprocessing_ad_library_DE.py:151-154 | every row gets the code of its flags |
| `AdLibrary.AdFrame.Demographics` | preprocessing_ad_library_DE.py:111-113 | the demographics table is every ad's expanded rows, stacked in the ads' order |
| `AdLibrary.AdFrame.Preprocess` | preprocessing_ad_library_DE.py:69-154 | the steps in source order transform every row by their composition, and the demographics table is expanded from the rows as they are once the flags are set and the bounds read, before the stop-date fill and the upper-bound fallback |
| `AdLibrary.PreprocessedActivity` | preprocessing_ad_library_DE.py:129-135 | after preprocessing the stop date is set and the ratio is that of the filled run |
| `AdLibrary.PreprocessedImpressions` | preprocessing_ad_library_DE.py:97-148 | after preprocessing, `lb` is the first number and `ub` exists exactly where `lb` does (equal to it when the text had one number); the estimate is `(lb + ub/2)·ad_active` and exists exactly when `lb` and the ratio do |
| `AdLibrary.PreprocessedPlatform` | preprocessing_ad_library_DE.py:70-154 | the code is set exactly when the platforms text mentions Facebook or Instagram |
| `AdLibrary.ExpandDemographics` | preprocessing_ad_library_DE.py:13-38 | no rows when the distribution is not text; otherwise one row per record, in order, carrying the ad's id, the record's percentage, age and gender, and the ad's lower and upper impressions each times the percentage (missing where the ad's bound is) |
| `AdLibrary.ExpandDemographicsSplitsBound` | preprocessing_ad_library_DE.py:34-35 | a row's lower (upper) impressions exist exactly when the ad's do, and the rows' lower (upper) impressions sum to the percentages' sum times the ad's bound |
| `AdLibrary.ExpandedBeforeFallback` | preprocessing_ad_library_DE.py:97-140 | for an impressions text with one number, the expanded rows have the percentage times that number as lower bound and no upper bound, while the preprocessed ad gets that number as both bounds |
| `AdLibrary.ExpandAll` | preprocessing_ad_library_DE.py:111-113 | the stacked demographic rows of all ads; `AdFrame.Demographics` computes it and `ShareSumAppend` sums over it |
| `AdLibrary.ShareSumAppend` | preprocessing_ad_library_DE.py:112-113 | share sums over the stacked rows of several ads add up part by part |
| `AdLibrary.ShareSumOfOthers` | preprocessing_ad_library_DE.py:165-166 | rows of other ads or other categories add nothing to a share |
| `AdLibrary.ShareFilled` | preprocessing_ad_library_DE.py:165-167 | an ad has a share exactly when it has demographic rows, and the share is 0 in a category it has no row in |
| `AdLibrary.ShareOfOwnRows` | preprocessing_ad_library_DE.py:165-174 | an ad's share in a category is the sum of its records' percentages in that category |
| `AdLibrary.ShareSum` | preprocessing_ad_library_DE.py:165-166 | the group-by sum of one ad's percentages in one category; `ShareSumAppend`, `ShareSumOfOthers` and `ShareOfOwnRows` state it |
| `AdLibrary.Share` | preprocessing_ad_library_DE.py:165-174 | the pivot cell, zero-filled, missing for an ad without rows; `ShareFilled` states it |
| `AdLibrary.ShareColumnsIgnoreSpace` | preprocessing_ad_library_DE.py:168-176 | white space around a category does not change its share column |
| `AdLibrary.GenderColumn` | preprocessing_ad_library_DE.py:168-169 | the gender share column's name (stripped, then renamed); `ShareColumnsIgnoreSpace` states it |
| `AdLibrary.AgeColumn` | preprocessing_ad_library_DE.py:175-176 | the age share column's name (stripped, then renamed); `ShareColumnsIgnoreSpace` states it |
| `Text.ParseInt` | map_targeting_age.py:32-36 | `int()` succeeds exactly on an optionally signed run of digits, with single underscores allowed between digits, once surrounding white space is stripped |
| `Text.ParseIntUnderscores` | map_targeting_age.py:32-36 | an underscore between two numerals is skipped, so `int("1_000")` is 1000 |
| `Text.ParseIntMisplacedUnderscores` | map_targeting_age.py:32-36 | a doubled, leading or trailing underscore makes `int()` fail |
| `Text.ParseIntRefusesStrayChar` | map_targeting_age.py:32-36 | a token holding any character other than white space, a digit, `_` or a sign makes `int()` fail, so `"1x"`, `"-x"` and `"abc"` all fail |
| `Text.ParseIntOfShowInt` | map_targeting_age.py:32-36 | reading back the numeral of any integer gives that integer |
| `Text.ParseIntShowInt` | map_targeting_age.py:32-36 | white space around a numeral does not change what `int()` reads |
| `Text.Split` | map_targeting_age.py:32-36 | the pieces rejoined with the separator give the string back, no piece contains the separator, and no occurrence starts inside a piece and runs into the separator after it, so every cut is the leftmost one |
| `Text.SplitOverlappingSeparator` | map_targeting_age.py:32-36 | with a separator that overlaps itself the cut is the leftmost one: `" - - ".split(" - ")` is `["", "- "]` |
| `Text.SplitAroundSeparator` | map_targeting_age.py:32-36 | `x + " - " + y` splits into exactly `[x, y]` when neither side holds a space |
| `Text.RemoveChar` | map_targeting_age.py:30 | no `+` is left, and a string without `+` is unchanged |
| `Text.RemoveCharCounts` | map_targeting_age.py:30 | every other character is kept, as often as it occurred |
| `Text.DigitRuns` | preprocessing_ad_library_DE.py:77 | every extracted run is a non-empty digit string |
| `Text.DigitRunsOfTwoNumerals` | preprocessing_ad_library_DE.py:77-79 | two numerals among non-digits give exactly those two runs |
| `Text.DigitRunsOfOneNumeral` | preprocessing_ad_library_DE.py:77-79 | one numeral among non-digits gives exactly that run |
| `Text.DigitRunsAppend` | preprocessing_ad_library_DE.py:77 | the runs of a text put together from two pieces are the runs of each piece in order, when no run spans the seam |
| `Text.StripSurrounded` | preprocessing_ad_library_DE.py:168 | stripping removes surrounding white space and keeps the rest |

## Left out

- The distance routine (a one-dimensional Wasserstein distance from a
  statistics library) is a function parameter of `AgeDistance` and
  `GenderDistance`. Its value is not modelled. It treats the two lists as
  samples of values, so no property of bin order or transport is claimed.
- Evaluating the include/exclude strings as Python literals, and undoing
  their unicode escapes, is out of reach. The model starts from the parsed
  value: a list of dicts, a single dict, or `None`.
- The `unique()` of the include/exclude string column is modelled as any
  list of parsed fields. `CollectIncludeBySet` and `CollectExcludeBySet` show that
  the order of that list and repeats in it do not change the category maps;
  the key order (`IncludeKeys`, `ExcludeKeys`) does depend on that order.
- Sentiment scoring calls an external text model. It is not part of this
  model.
- CSV and pickle I/O, locating the repository, data frame merges and
  filters, `fillna`, and the columns for duration and weekday are not
  modelled. The model covers only the per-row and per-column rules.
- `total_count` (create_DE_data.py:181) is not modelled. It adds the
  `include_*`/`exclude_*` flag columns of lines 163-174, which are outside
  the modelled core.
- Reading the demographic distribution text is not modelled: the regex
  clean-up, the split into records, and the float parsing of the
  percentage. An ad row carries the parsed records (`demographicRecords`),
  or `None` when the field is not text.
- The category maps (`CollectInclude`, `CollectExclude`) are Dafny maps,
  which have no order. The insertion order of the source's `defaultdict`s
  is modelled separately, by `IncludeKeys` and `ExcludeKeys`.
- `Distributions.TargetingGenderDistribution`: for an unknown gender the
  source raises `UnboundLocalError`
  (age_gender_distribution_distances.py:11-18). The model returns
  `Failure(UnknownTargetingGender)` in its place, since exceptions are
  modelled as error values.
- `Distributions.TargetingAgeDistribution`: when the weights sum to 0 the
  source divides by zero and gives NaN in every bin
  (age_gender_distribution_distances.py:28-34). The model returns
  `Failure(ZeroTotal)` in its place, since NaN is not modelled.
- `Text.ParseInt`: Python 3.11 and later refuse to convert a numeral of
  more than 4300 digits, and `int()` also accepts non-ASCII digits. Neither
  is modelled; numerals of any length are read, and only ASCII digits.
- `AdLibrary.AdFrame.ComputeActivity`: a run of zero days (stop date the
  day before the start) that ends after the election divides by zero. In
  the source that gives an infinite ratio. The model gives a missing ratio.
- Converting the date strings to day numbers is left out. The model
  assumes date-only `YYYY-MM-DD` strings. For them, comparing the stop date
  with the election date as strings (preprocessing_ad_library_DE.py:135)
  agrees with comparing day numbers, and the day differences of lines
  132-133 are whole. A stop time with a time of day ("2021-09-26 10:00")
  compares as later than the election date, so the code does not force the
  ratio to 1 there. The code's `.dt.days` also floors a partial day. Neither
  case is modelled.
- `AdLibrary.AdFrame.ExtractBounds`: the code selects the first and second
  matches with `.loc[pd.IndexSlice[:, 0]]` and `[:, 1]`
  (preprocessing_ad_library_DE.py:78-79, 88-89, 98-99). That raises
  `KeyError` when no text in the column has a second run of digits (or any
  digits), and `.str` raises on a column with no text at all. The script
  then prints the error and writes no file (lines 191-196). The model reads
  every row on its own and always succeeds, giving missing bounds in that
  case; this frame-level failure is not modelled.
- `TargetingCriteria.ColumnNameCollides`: when two categories share a
  column name, the name occurs twice in the targeting columns, and
  `pd.concat` (create_DE_data.py:160) appends a second `_use` and `_count`
  column of the same name. The row map of `Ad.AddUseAndCount` keeps one
  cell per name, so the duplicate columns are not modelled.
- Text operations cover ASCII only: digits, white space and letters for
  `lower()`.
- Floating-point rounding is not modelled. Every value is an exact `real`,
  so `0.6` and `0.4` in the example are exact.
