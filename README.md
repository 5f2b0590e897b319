# E-commerce anomaly analyser — a Dafny model

This project models the data path of the e-commerce anomaly analyser. An uploaded CSV of
orders goes through the following steps:

- The required-column check accepts it, or rejects it with a message.
- `normalizeRows` cleans the records (text tidying, numbers, dates, deduplication on `order_id`).
- `recompute` runs a fresh `AnomalyDetector` over the rows. The detector runs three passes:
  - price: median/MAD robust z-score per product, and negative prices;
  - quantity: IQR fences per product, and non-positive quantities;
  - format: duplicate id, missing date, malformed e-mail, country outside the whitelist,
    stray white space, and a total that disagrees with price × quantity.
- `recompute` attaches each order's reasons and a score in [0, 1] to its row.
- The dashboard computes the KPIs, the daily series, the heatmap, the consistency indicator
  `caDiff` and the top-eight reasons.
- The annotated rows can be exported as records.

JavaScript numbers are modelled as `JsNumber.Num` (`Fin(real)` or `NaN`). `Maps` that the
source fills step by step are Dafny `map`s together with a `seq` that records insertion
order. The detector is a class whose methods change its two Maps. Each method is proved to
leave the state that a pure function (`PricePass`, `QuantityPass`, `FormatPass`) gives.
The properties are proved about those functions.

## Notes on behaviour

- Quantities 1..8 get Q1 = 2.75 and Q3 = 6.25, by linear interpolation at `(n-1)q`.
  Their fences are [-2.5, 11.5] (`Statistics.OneToEightFences`).
- A product priced 10, 10, 10 and 100 has median 10 and MAD 0. The MAD becomes 1e-9, so
  the price 100 scores z > 3.5 and the three prices of 10 score 0
  (`Statistics.MostlyTenFlagged`).
- Switching off the robust-z or IQR rule removes only the reason. The score is computed
  the same way (`ScoreProperties.PriceScoresIgnoreRobustZ`,
  `ScoreProperties.QuantityScoresIgnoreRules`).
- A NaN quantity makes the quantity score NaN, and that overwrites the price score
  (`ScoreProperties.NaNQuantityWipesScore`).
- The format bump applies to every identifier that has a reason from any pass, including
  price and quantity reasons (`ScoreProperties.DetectFlaggedBumped`).
- The daily sales count only finite totals, while the revenue KPI falls back to
  price × quantity. So `caDiff` is not zero when a total is missing
  (`App.CaDiffMissingTotal`).

## Model

| member | source | states |
|---|---|---|
| JsNumber.Clamp | src/detectors/AnomalyDetector.js:1 | NaN stays NaN; a finite result lies in [lo, hi]; a value already in range is returned unchanged |
| JsNumber.Max | src/detectors/AnomalyDetector.js:1 | `Math.max`: NaN if either is NaN, else the larger of the two |
| JsNumber.Min | src/detectors/AnomalyDetector.js:1 | `Math.min`: NaN if either is NaN, else the smaller of the two |
| JsNumber.Round | src/utils/dataCleaner.js:41 | `Math.round`: NaN stays NaN; the result is an integer within half of the input |
| JsNumber.ToFixed | src/utils/dataCleaner.js:75 | `+x.toFixed(d)` has at most d decimals, lies within half a unit of the d-th decimal of x with ties going away from zero, and maps [0, 1] into [0, 1] |
| JsNumber.ToFixedUnique | src/utils/dataCleaner.js:75 | any number with at most d decimals in the same rounding window is `ToFixed(x, d)`, so the contract determines the result |
| JsText.TrimStart | src/utils/dataCleaner.js:19 | the suffix left after dropping the leading white space, which all went |
| JsText.TrimEnd | src/utils/dataCleaner.js:19 | the prefix left after dropping the trailing white space, which all went |
| JsText.Trim | src/utils/dataCleaner.js:19 | the trimmed text starts and ends with non-space and is a slice of the input |
| JsText.TrimOfTrimmed | src/utils/dataCleaner.js:19 | trimming a text without white space at its ends leaves it unchanged |
| JsText.ReplaceFirst | src/utils/dataCleaner.js:21 | `replace(',', '.')`: same length; only the first occurrence may change |
| Sorting.SortReals | src/detectors/AnomalyDetector.js:3 | `sort((a,b)=>a-b)`: ascending and a permutation of the input |
| Sorting.AscendingUnique | src/detectors/AnomalyDetector.js:3 | two ascending permutations of the same values are equal, so the sorted array is determined by the values |
| Sorting.SortStrings | src/utils/dataCleaner.js:74 | default `sort()`: in code-point order and a permutation of the input |
| Sorting.SortDistinct | src/utils/dataCleaner.js:78 | distinct keys sort into a strictly increasing list of the same keys |
| Sorting.BelowTotal | src/utils/dataCleaner.js:74 | the string order compares any two different strings |
| Sorting.BelowTransitive | src/utils/dataCleaner.js:74 | the string order is transitive |
| Statistics.Finite | src/detectors/AnomalyDetector.js:3 | `filter(Number.isFinite)` keeps at most the input's values |
| Statistics.FiniteMembers | src/detectors/AnomalyDetector.js:3 | the filter keeps exactly the finite values |
| Statistics.SortedFinite | src/detectors/AnomalyDetector.js:3 | the finite values, ascending, as a permutation |
| Statistics.Median | src/detectors/AnomalyDetector.js:2-7 | NaN exactly when there is no finite value |
| Statistics.MedianSplitsHalf | src/detectors/AnomalyDetector.js:2-7 | at least half of the finite values are ≤ the median and at least half are ≥ it |
| Statistics.MedianPermutation | src/detectors/AnomalyDetector.js:2-7 | the median ignores the order of the values and their NaNs |
| Statistics.MedianOfConstant | src/detectors/AnomalyDetector.js:2-7 | the median of equal values is that value |
| Statistics.Mad | src/detectors/AnomalyDetector.js:8-12 | never negative; 0 when no value is finite (`|| 0`) |
| Statistics.MadOfConstant | src/detectors/AnomalyDetector.js:8-12 | equal values have MAD 0 |
| Statistics.Quantile | src/detectors/AnomalyDetector.js:81-86 | for q in [0, 1) the quantile is NaN exactly when at most one value is finite |
| Statistics.QuantileMonotone | src/detectors/AnomalyDetector.js:81-86 | quantiles grow with q, so Q1 ≤ Q3 |
| Statistics.QuantileOfAscending | src/detectors/AnomalyDetector.js:81-86 | over ascending finite values the quantile interpolates them directly |
| Statistics.InterpolateAt | src/detectors/AnomalyDetector.js:84-85 | a finite interpolated value lies between the smallest and the largest value |
| Statistics.OneToEightQuartiles | src/detectors/AnomalyDetector.js:81-86 | the interpolation over the ascending values 1..8 gives Q1 = 2.75 and Q3 = 6.25 |
| Statistics.OneToEightQuantiles | src/detectors/AnomalyDetector.js:81-88 | the `quantile` of the quantity column 1..8 is 2.75 at 0.25 and 6.25 at 0.75 |
| Statistics.OneToEightFences | src/detectors/AnomalyDetector.js:81-91 | the quantity column 1..8 gets the fences [-2.5, 11.5] with factor 1.5 |
| Statistics.AllFinite | src/detectors/AnomalyDetector.js:3 | a column of finite numbers passes the filter whole, value by value |
| Statistics.MedianOfAscending | src/detectors/AnomalyDetector.js:2-7 | over ascending finite values the median is their middle, without sorting |
| Statistics.MedianOfFour | src/detectors/AnomalyDetector.js:2-7 | four ascending finite values have the mean of the middle two as median |
| Statistics.PriceStatsOf | src/detectors/AnomalyDetector.js:58-59 | the median, and the MAD with 0 replaced by 1e-9, so it is always positive |
| Statistics.RobustZ | src/detectors/AnomalyDetector.js:63 | finite exactly when the price and the median are, and then never negative |
| Statistics.TinyMadFlags | src/detectors/AnomalyDetector.js:59-65 | with the 1e-9 MAD, any price 1e-8 or more from the median scores z > 3.5 |
| Statistics.MostlyTenFlagged | src/detectors/AnomalyDetector.js:56-65 | prices 10, 10, 10, 100: median 10, MAD 0, statistics (10, 1e-9), z = 0 for 10 and z > 3.5 for 100 |
| Statistics.Iqr | src/detectors/AnomalyDetector.js:89 | `(q3 - q1) \|\| 1`: the spread, or 1 when it is 0 or NaN |
| Statistics.BoundsOf | src/detectors/AnomalyDetector.js:87-91 | fences are NaN exactly when at most one quantity is finite; lo ≤ hi for a non-negative factor |
| Statistics.SingleQuantityBounds | src/detectors/AnomalyDetector.js:84-90 | one quantity gives NaN fences, so nothing compares outside them |
| DataCleaner.Collapse | src/utils/dataCleaner.js:19 | `replace(/\s+/g, ' ')` never lengthens the text; the result is empty iff the input is, and starts with white space iff the input does |
| DataCleaner.CollapseSpaced | src/utils/dataCleaner.js:19 | after the collapse no two white-space characters touch and each one is a plain space |
| DataCleaner.TrimTidy | src/utils/dataCleaner.js:19 | trimming a single-spaced text leaves a tidy text: single-spaced with no white space at either end |
| DataCleaner.Tr | src/utils/dataCleaner.js:19 | `tr`: '' for an absent value; the result is single-spaced with no white space at either end |
| DataCleaner.TrIdempotent | src/utils/dataCleaner.js:19 | tidying a tidied text changes nothing |
| DataCleaner.CollapseSingleSpaced | src/utils/dataCleaner.js:19 | a single-spaced text is a fixed point of the collapse |
| DataCleaner.LeadingDigits | src/utils/dataCleaner.js:21 | the longest run of digits at the head of the text |
| DataCleaner.NoDigitNaN | src/utils/dataCleaner.js:20-23 | a text without any digit reads as NaN, never 0 |
| DataCleaner.CommaDecimal | src/utils/dataCleaner.js:20-23 | `"12,5"` (after leading white space) reads as the decimal 12.5 |
| DataCleaner.PointDecimal | src/utils/dataCleaner.js:21 | `parseFloat` reads `ip.fp` as its decimal value |
| DataCleaner.IntegerText | src/utils/dataCleaner.js:20-23 | a plain integer text reads as that integer |
| DataCleaner.ReplaceFirstAt | src/utils/dataCleaner.js:21 | only the first ',' becomes '.' |
| DataCleaner.ParseDateFlexible | src/utils/dataCleaner.js:4-16 | empty or absent gives null; the native parse wins when it succeeds; otherwise a date comes only from the D/M/YYYY pattern |
| DataCleaner.DayMonthYearDate | src/utils/dataCleaner.js:9-12 | `D/M/YYYY` is read day first, at 00:00 |
| DataCleaner.DayMonthYearTime | src/utils/dataCleaner.js:9-12 | `D/M/YYYY HH:MM` also reads the hour and the minute |
| DataCleaner.TimeOf | src/utils/dataCleaner.js:9 | a time is white space, two digits, ':' and two digits |
| DataCleaner.FallbackDate | src/utils/dataCleaner.js:9-13 | when the native parse fails on `D/M/YYYY`, the result is the local date built from year `YYYY`, month index `M - 1`, day `D`, at 00:00 |
| DataCleaner.FallbackDateTime | src/utils/dataCleaner.js:9-13 | the same for `D/M/YYYY HH:MM`, with the hour `HH` and the minute `MM` |
| DataCleaner.TimedMatch | src/utils/dataCleaner.js:9-12 | `D/M/YYYY` then white space and `HH:MM` reads all five numbers |
| DataCleaner.FallbackOf | src/utils/dataCleaner.js:5-13 | a text without white space at its ends that the native parse rejects gives the local date of the parts the pattern reads |
| DataCleaner.IsoNoDayMonthYear | src/utils/dataCleaner.js:9 | an ISO day such as 2024-01-15 never matches the fallback pattern |
| DataCleaner.NormalizeRecord | src/utils/dataCleaner.js:29-47 | the date text is empty exactly when there is no date and never holds '\|'; the text fields are tidy; a finite quantity is an integer |
| DataCleaner.NormalizeAll | src/utils/dataCleaner.js:29-47 | one row per record, in order |
| DataCleaner.FirstIndex | src/utils/dataCleaner.js:24-27 | the first position carrying an identifier |
| DataCleaner.DedupIds | src/utils/dataCleaner.js:24-27 | deduplication keeps every identifier, each exactly once |
| DataCleaner.DedupKeepsFirst | src/utils/dataCleaner.js:24-27 | each kept row is the first row with its identifier, in input order |
| DataCleaner.DedupDistinct | src/utils/dataCleaner.js:24-27 | rows with distinct identifiers pass through unchanged |
| DataCleaner.DedupIdempotent | src/utils/dataCleaner.js:24-27 | deduplicating twice is deduplicating once |
| DataCleaner.UniqBy | src/utils/dataCleaner.js:24-27 | the seen-set loop returns exactly the first-occurrence deduplication |
| DataCleaner.NormalizeRows | src/utils/dataCleaner.js:18-49 | the deduplicated normalised rows: distinct identifiers, the same identifier set, only normalised rows |
| Email.ScanMatchesPattern | src/detectors/AnomalyDetector.js:16 | the character scan accepts exactly the texts of the shape `^[^\s@]+@[^\s@]+\.[^\s@]{2,}$` |
| Email.ScanDomainMeans | src/detectors/AnomalyDetector.js:16 | the domain scan accepts exactly a plain run that ends with a separator and two or more characters |
| Email.ValidEmailOneAt | src/detectors/AnomalyDetector.js:13-17 | a valid address, once trimmed, has exactly one '@' and no white space |
| Email.ValidExample | src/detectors/AnomalyDetector.js:13-17 | `ana@shop.fr` is valid |
| Email.DoubleAtInvalid | src/detectors/AnomalyDetector.js:13-17 | `user@@bad` is invalid |
| Email.ShortTopLevelInvalid | src/detectors/AnomalyDetector.js:13-17 | `user@example.c` is invalid |
| Email.AstralTopLevelInvalid | src/detectors/AnomalyDetector.js:16 | `a@b.` followed by one astral character (U+1F600) is invalid in the model, which counts code points |
| Rules.MergedRule | src/detectors/AnomalyDetector.js:44 | a switch is on unless the caller's `rules` turns it off |
| Rules.Merge | src/detectors/AnomalyDetector.js:19-44 | each option is the caller's value or the default; the rules merge key by key |
| Rules.MergeNothing | src/detectors/AnomalyDetector.js:40-44 | with no options the detector runs with the defaults |
| Rules.Gate | src/detectors/AnomalyDetector.js:64 | a reason is emitted exactly when its rule is on and its condition holds |
| Rules.PriceReasons | src/detectors/AnomalyDetector.js:63-65 | the negative-price reason iff its rule is on and the price < 0; the aberrant-price reason iff its rule is on and z > threshold; nothing else |
| Rules.PriceScore | src/detectors/AnomalyDetector.js:66-68 | NaN iff the price or the median is; never below the prior score unless a negative bump applies; at most 1 without the bump |
| Rules.QuantityReasons | src/detectors/AnomalyDetector.js:94-95 | the non-positive reason iff its rule is on and the quantity ≤ 0; the IQR reason iff its rule is on and the quantity is outside the fences |
| Rules.QuantityScore | src/detectors/AnomalyDetector.js:96-99 | NaN iff the quantity or a fence is; otherwise at least the prior, at most 1, and equal to the prior inside the fences |
| Rules.RecordReasons | src/detectors/AnomalyDetector.js:110-113 | duplicate, date, e-mail and country reasons each iff their rule is on and their condition holds |
| Rules.ContentReasons | src/detectors/AnomalyDetector.js:114-125 | a white-space reason for `payment_method` (or `category`) iff its rule is on and that field has a space at an end or two in a row; the incoherent-total reason iff its rule is on and the total is off by more than 0.01; nothing else; tidy fields draw no white-space reason |
| Rules.ContentGates | src/detectors/AnomalyDetector.js:114-125 | the three content gates in order: each reason iff its rule and its condition hold, all in the format phase |
| Rules.FormatReasons | src/detectors/AnomalyDetector.js:108-125 | every format reason belongs to a switched-on format rule |
| Rules.FormatRecordFlags | src/detectors/AnomalyDetector.js:110-113 | each of the four record reasons is noted exactly when its rule is on and it fires |
| Rules.FormatContentFlags | src/detectors/AnomalyDetector.js:114-125 | among all format reasons of a row: each white-space reason iff its rule is on and its field is polluted; the total reason iff its rule and condition hold; tidy fields draw no white-space reason |
| Rules.RecordKinds | src/detectors/AnomalyDetector.js:110-113 | the record checks only give duplicate, date, e-mail and country reasons |
| Rules.RecordFlagsWith | src/detectors/AnomalyDetector.js:110-125 | the four record reasons keep their iff when the content reasons follow them |
| Rules.TidyNotPolluted | src/detectors/AnomalyDetector.js:116 | a tidied text never trips the white-space patterns |
| Rules.FormatScore | src/detectors/AnomalyDetector.js:126-129 | always finite and in [0, 1]; exactly prior + bump when that is in range |
| DetectorState.Prior | src/detectors/AnomalyDetector.js:68 | `scores.get(id) \|\| 0`: 0 when absent or NaN; in [0, 1] for a valid state |
| DetectorState.Note | src/detectors/AnomalyDetector.js:46 | appends to that identifier's list only, creating it if new; keeps the state valid |
| DetectorState.NoteAll | src/detectors/AnomalyDetector.js:46 | appends the reasons in order to that identifier's list only |
| DetectorState.SetScore | src/detectors/AnomalyDetector.js:47 | stores the clamped score for that identifier only; NaN stays NaN |
| DetectorState.EmptyValid | src/detectors/AnomalyDetector.js:42-43 | the fresh Maps satisfy the invariant |
| Passes.Column | src/detectors/AnomalyDetector.js:52-55 | a product's column is empty exactly when no row has that product |
| Passes.StatsFor | src/detectors/AnomalyDetector.js:57-60 | the product's statistics have a positive MAD |
| Passes.PriceStep | src/detectors/AnomalyDetector.js:61-69 | one row: its price reasons appended, its score replaced by the clamped price score, every other identifier untouched |
| Passes.QuantityStep | src/detectors/AnomalyDetector.js:92-100 | one row: its quantity reasons appended, its score replaced by the clamped quantity score, every other identifier untouched |
| Passes.FormatStep | src/detectors/AnomalyDetector.js:108-130 | one row: its format reasons appended; bumped iff the identifier has any reason; the seen set grows only under the duplicate rule |
| Passes.PriceFold | src/detectors/AnomalyDetector.js:61-69 | the price loop keeps the state valid and keyed by the rows' identifiers |
| Passes.QuantityFold | src/detectors/AnomalyDetector.js:92-100 | the quantity loop keeps the state valid and keyed by the rows' identifiers |
| Passes.FormatFold | src/detectors/AnomalyDetector.js:107-130 | the format loop keeps the state valid; `seenOrder` gains every identifier read when the duplicate rule is on, and stays as it was otherwise |
| Passes.SummaryOf | src/detectors/AnomalyDetector.js:134-139 | one index per reason key, the last row with that identifier; the score is NaN or in [0, 1], NaN iff some stored score is, and 0 for no rows; the reason names the pass |
| Passes.LastIndex | src/detectors/AnomalyDetector.js:135 | `idToIndex` maps an identifier to its last row |
| Passes.IndicesAll | src/detectors/AnomalyDetector.js:136 | with no empty list, one index per key in key order |
| Passes.SumScores | src/detectors/AnomalyDetector.js:137 | NaN iff some score is NaN; within [0, count] when every score is in [0, 1] |
| Detector.AnomalyDetector.constructor | src/detectors/AnomalyDetector.js:40-45 | empty Maps and the merged options |
| Detector.AnomalyDetector.Note | src/detectors/AnomalyDetector.js:46 | the Maps become `DetectorState.Note` of the old ones |
| Detector.AnomalyDetector.SetScore | src/detectors/AnomalyDetector.js:47 | the Maps become `DetectorState.SetScore` of the old ones |
| Detector.AnomalyDetector.NoteEach | src/detectors/AnomalyDetector.js:64-65 | the row's reasons noted in order |
| Detector.AnomalyDetector.PriorOf | src/detectors/AnomalyDetector.js:68 | reads the prior score |
| Detector.AnomalyDetector.GroupBy | src/detectors/AnomalyDetector.js:51-55 | the `byProduct` Map: one entry per product, its values in row order |
| Detector.AnomalyDetector.PriceStatsByProduct | src/detectors/AnomalyDetector.js:56-60 | the `stats` Map holds each product's statistics |
| Detector.AnomalyDetector.PriceRow | src/detectors/AnomalyDetector.js:62-68 | one loop iteration is `PriceStep` |
| Detector.AnomalyDetector.DetectPriceAnomalies | src/detectors/AnomalyDetector.js:49-71 | the Maps become `PricePass` of the old ones, the invariant holds, and the summary is `SummaryOf("price")` |
| Detector.AnomalyDetector.QuantityBoundsByProduct | src/detectors/AnomalyDetector.js:75-91 | the `bounds` Map holds each product's fences |
| Detector.AnomalyDetector.QuantityRow | src/detectors/AnomalyDetector.js:93-99 | one loop iteration is `QuantityStep` |
| Detector.AnomalyDetector.DetectQuantityAnomalies | src/detectors/AnomalyDetector.js:73-102 | the Maps become `QuantityPass` of the old ones, the invariant holds, and the summary is `SummaryOf("quantity")` |
| Detector.AnomalyDetector.FormatRow | src/detectors/AnomalyDetector.js:109-129 | one loop iteration is `FormatStep` |
| Detector.AnomalyDetector.DetectFormatAnomalies | src/detectors/AnomalyDetector.js:104-132 | the Maps become `FormatPass` of the old ones, the invariant holds, and the summary is `SummaryOf("format")` |
| Detector.AnomalyDetector.Summarize | src/detectors/AnomalyDetector.js:134-139 | `_summary(kind)` is `SummaryOf` the current Maps |
| ReasonProperties.DetectNoted | src/App.jsx:41-42 | an identifier's list is its price reasons, then its quantity reasons, then its format reasons, each in row order |
| ReasonProperties.PhaseOrder | src/App.jsx:41-42 | for a unique identifier, exactly the row's price, quantity and format reasons in that order |
| ReasonProperties.DetectGated | src/detectors/AnomalyDetector.js:64-124 | a switched-off rule never contributes a reason |
| ReasonProperties.DetectDuplicates | src/detectors/AnomalyDetector.js:110 | an identifier on n rows carries n − 1 duplicate reasons when the rule is on, none when it is off |
| ReasonProperties.AbsentClean | src/detectors/AnomalyDetector.js:46 | an identifier of no row has no reasons |
| ReasonProperties.DedupSubset | src/utils/dataCleaner.js:24-27 | every kept row is one of the input rows |
| ReasonProperties.NormalizedTidy | src/utils/dataCleaner.js:39-44 | normalised `payment_method` and `category` are tidy |
| ReasonProperties.NormalizedRowsClean | src/utils/dataCleaner.js:18-49 | on normalised rows no identifier gets a duplicate or a white-space reason |
| ScoreProperties.PriceScoresIgnoreRobustZ | src/detectors/AnomalyDetector.js:65-68 | the price scores are the same with the robust-z rule on or off |
| ScoreProperties.QuantityScoresIgnoreRules | src/detectors/AnomalyDetector.js:94-99 | the quantity scores do not depend on the two quantity rules |
| ScoreProperties.DetectScore | src/detectors/AnomalyDetector.js:66-129 | a unique identifier's final score: price score from 0, then quantity score from that, then the format bump iff it has a reason |
| ScoreProperties.NaNQuantityWipesScore | src/detectors/AnomalyDetector.js:97-99 | a NaN quantity leaves NaN, or only the format bump, whatever the price score was |
| ScoreProperties.DetectFlaggedBumped | src/detectors/AnomalyDetector.js:126-129 | every identifier with a reason ends with a finite score, and with a non-negative bump at least the bump (capped at 1) |
| ScoreProperties.DetectValid | src/detectors/AnomalyDetector.js:47 | after the three passes every score is NaN or in [0, 1] and every key is a row's identifier |
| Kpis.RevenueSplit | src/utils/dataCleaner.js:52 | revenue = finite totals + price × quantity stand-ins; the stand-ins vanish when every total is finite |
| Kpis.RevenueAppend | src/utils/dataCleaner.js:52 | the revenue is additive over a split of the rows |
| Kpis.AnomalyCount | src/utils/dataCleaner.js:54 | at most the row count; 0 iff no row is flagged; all rows iff every row is flagged |
| Kpis.ScoreTotal | src/utils/dataCleaner.js:56 | with scores in [0, 1] the sum lies in [0, rows] |
| Kpis.Rate | src/utils/dataCleaner.js:55 | in [0, 100]; 0 for no rows; rate × orders = 100 × anomalies; 100 iff every row is flagged |
| Kpis.MeanScore | src/utils/dataCleaner.js:56 | the mean times `orders \|\| 1` is the total; in [0, 1] when the total is in [0, orders] |
| Kpis.ComputeKpis | src/utils/dataCleaner.js:51-63 | the revenue, the count, the rate in [0, 100], and a quality score in [0, 100] when scores are in [0, 1]; the texts are the `toFixed(1)` forms |
| Charts.DailyTotals | src/utils/dataCleaner.js:67-73 | after the loop, each day key has its sum of finite totals and its count of flagged rows; the key list names each day once |
| Charts.CountryOrder | src/utils/dataCleaner.js:78 | the distinct country keys (`'Inconnu'` for empty) |
| Charts.CountCells | src/utils/dataCleaner.js:79-86 | each `day\|\|country` key maps to its count of flagged rows; absent keys count 0 |
| Charts.Matrix | src/utils/dataCleaner.js:87-95 | the cells country-major, day-minor, with their counts |
| Charts.BuildChartsData | src/utils/dataCleaner.js:66-97 | the day keys sorted and each present once, with per day the sales rounded by `toFixed(2)` and the count of flagged rows; the country keys sorted and each present once; the matrix is the grid over the sorted countries × sorted days, country-major, each cell holding the count of flagged rows of its day and country |
| Charts.AnomaliesTotal | src/utils/dataCleaner.js:72-76 | the daily anomaly counts sum to the number of flagged rows |
| Charts.SalesTotal | src/utils/dataCleaner.js:71-75 | the daily sales sum to the sum of finite totals, within half a cent per day |
| Charts.MatrixTotal | src/utils/dataCleaner.js:79-95 | every cell counts the flagged rows of its day and country; the matrix sums to the number of flagged rows |
| Charts.DailyPartition | src/utils/dataCleaner.js:69-73 | summing the per-day tallies over all days gives the whole-view totals |
| Charts.CellKeyInjective | src/utils/dataCleaner.js:84-92 | `day + '\|\|' + country` tells pairs apart when day keys hold no '\|' |
| App.Annotate | src/App.jsx:43 | the score has at most 3 decimals, is within 0.0005 of the stored score (0 when absent or NaN) with a tie rounding up for a non-negative score, and lies in [0, 1] for a valid state; no entry means no reasons |
| App.AttachAll | src/App.jsx:43 | each row in place, unchanged, with its annotation; scores in [0, 1] for a valid state |
| App.Recompute | src/App.jsx:40-44 | a fresh detector, three passes in order; the view is every row annotated from `Detect` with the merged options, and every score is in [0, 1] |
| App.ReasonsInPassOrder | src/App.jsx:41-43 | for a unique identifier, `_reasons` is the price texts, then the quantity texts, then the format texts |
| App.NormalizedUnbarred | src/utils/dataCleaner.js:34 | rows from `normalizeRows` have day keys without '\|', as the heatmap key needs |
| App.CaDiff | src/App.jsx:68-69 | never negative; the absolute gap between the revenue and the sales sum |
| App.CaDiffGap | src/App.jsx:68-69 | the indicator equals the size of the price × quantity stand-ins, within half a cent per day |
| App.CaDiffRounding | src/App.jsx:68-69 | when every total is finite, the indicator is at most half a cent per day |
| App.CaDiffMissingTotal | src/App.jsx:68-69 | one row with no total, price 10 and quantity 3 gives an indicator of 30 |
| App.CountedStep | src/App.jsx:76 | one `map.set(why, (map.get(why)\|\|0)+1)` keeps the Map equal to the occurrence counts |
| App.TallyRow | src/App.jsx:75-77 | the inner loop adds one row's reasons to the counts |
| App.Tally | src/App.jsx:73-78 | the Map counts every reason text of every row, and its key list names each reason once |
| App.InsertByCount | src/App.jsx:79 | inserting keeps counts non-increasing and adds exactly the new entry |
| App.SortByCount | src/App.jsx:79 | `sort((a,b)=>b[1]-a[1])`: non-increasing counts, a permutation, reasons stay distinct |
| App.ReasonsCount | src/App.jsx:72-80 | at most 8 distinct reasons with their true counts, non-increasing; any reason left out occurs no more often than the eighth |
| CsvParser.Header | src/utils/csvParser.js:9 | `meta.fields` when present, otherwise the keys of the first record, otherwise nothing |
| CsvParser.Missing | src/utils/csvParser.js:10 | exactly the required names absent from the header, in required order; empty iff all are present |
| CsvParser.ParseCsvText | src/utils/csvParser.js:3-15 | a tokenizer error wins; otherwise the records unchanged iff no column is missing, else the missing names joined by ", " |
| CsvParser.OnlyRequiredColumnsMatter | src/utils/csvParser.js:9-14 | extra columns and the header's order do not change the result |
| CsvParser.FieldOrderIrrelevant | src/utils/csvParser.js:9-10 | reordering `meta.fields` does not change the result |
| ExportUtils.ExportTotal | src/utils/exportUtils.js:15 | price × quantity rounded to whole cents, half a cent away from zero, when both are finite; otherwise the total, with NaN giving 0 |
| ExportUtils.ExportTotalRevenue | src/utils/exportUtils.js:15 | the exported total agrees with the row's revenue share exactly without price or quantity, and within half a cent without a total |
| ExportUtils.ReasonsColumn | src/utils/exportUtils.js:20 | '' for no reasons; splitting at "; " gives the reasons back when none holds ';' |
| ExportUtils.SplitJoin | src/utils/exportUtils.js:20 | `join(sep)` is undone by splitting at the separator when no part holds its first character |
| ExportUtils.Project | src/utils/exportUtils.js:5-21 | the fifteen columns: fields copied, `order_date` from the date text, the computed total, the score and the joined reasons |
| ExportUtils.ExportRows | src/utils/exportUtils.js:4-21 | nothing for no rows; otherwise one record per row, in order |
| ExportUtils.ExportAppend | src/utils/exportUtils.js:5 | exporting a concatenation exports each part in turn |
| ExportUtils.HeaderPlain | src/utils/exportUtils.js:32 | no header field holds ',' or a line break |
| ExportUtils.ExamplePlain | src/utils/exportUtils.js:33 | no example field holds ',' or a line break |
| ExportUtils.TemplateText | src/utils/exportUtils.js:32-34 | two lines and nothing after the last break, each splitting back at ',' into its thirteen fields |
| ExportUtils.TemplateShape | src/utils/exportUtils.js:32-33 | 13 header columns, one example value per column, the required columns plus `customer_age`, so a file in the template's layout passes the column check |

## Left out

- JavaScript numbers are exact reals. The model has no rounding error, no infinities and no
  `-0`. `toFixed` is exact half-away-from-zero rounding, without its exponent form for
  magnitudes of 1e21 and above.
- The native date functions (`new Date(text)`, `new Date(y, m, d, H, M)`, `toISOString`) are
  parameters of type `DataCleaner.Calendar`. So is the time zone.
- `Papa.parse` is an oracle value (`CsvParser.Parsed`). `Papa.unparse`, the Blob, the
  object URL and the anchor click are not modelled. The export model ends at the records
  handed to the CSV writer.
- Any `order_date` value that is not text (a Date object or a number) is not modelled.
  The model reads every raw cell as text or as absent.
- `generateReport` in src/detectors/AnomalyDetector.js is not part of this model. It
  builds a report string from the same Maps that `App.ReasonsCount` tallies.
- The React components, `useState`/`useEffect`/`useMemo`, `performance.now`, `alert` and
  the settings panel are not part of this model.
- Kpis.ComputeKpis: does not model the `Intl.NumberFormat` texts `revenue` (euros) and
  `orders` (French grouping), because those are locale formatting done by the browser.
  `revenueNum` and the count are modelled.
- Options set to a non-number (`undefined` inside the object, NaN, a string) are not
  modelled. Each override is a real or absent.
- App.ReasonsCount: does not state how entries with equal counts are ordered. The model
  sorts stably, which keeps the Map's first-seen order, but that order is not part of the
  proved contract.
- Sorting.SortStrings, Email.ValidEmail: text is a sequence of Unicode code points, while
  JavaScript strings are UTF-16 code units. Two consequences follow. The browser's pattern
  accepts `a@b.😀`, because the emoji is two units, but the model rejects it
  (`Email.AstralTopLevelInvalid`). The default `sort()` puts astral characters, whose first
  unit is a surrogate such as 0xD83D, before U+E000–U+FFFF; `Sorting.Below` puts them
  after.
- ExportUtils.ReasonsColumn: the split round trip is proved only when no reason text holds
  ';'. A country name with ';' in it would make `Pays suspect: …` break the round trip.
- Charts.SalesTotal: equal only up to the per-day `toFixed(2)` rounding, which the model
  bounds but does not compute.
- App.CaDiffGap: bounds the indicator within the per-day rounding and does not compute
  it exactly.
- Charts.MatrixTotal: relies on day keys without '|'. `App.NormalizedUnbarred` proves this
  for normalised rows, but not for arbitrary rows.
- The `_summary` indices for identifiers whose list is empty are not reached: the detector
  never creates an empty list.
