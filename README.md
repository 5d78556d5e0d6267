# ECU anomaly detection — a Dafny model

This project models the algorithmic core of a small Go code base that
detects attacks on a car's engine control unit (ECU). The telemetry records
hold engine RPM, gear, speed and an attack label. The model covers:

- **Decision tree** (`decision_tree.dfy`, ml/ml.go).
  - It grows a binary classifier by recursive partitioning on
    "feature value <= threshold".
  - Each split has the highest information gain over all observed
    (feature, value) pairs.
  - The stopping rules are: empty partition, maximum depth, pure partition,
    and no positive gain.
  - The module also covers prediction by traversal and the accuracy
    percentage on a test set.
- **Sliding-window detector** (`sequential_anomaly.dfy`, ml/sequential_anomaly.go).
  - This is a class with a bounded `seq` history and a name-keyed `map` of
    per-feature rules.
  - Its operations are: register a rule, change a threshold, and add a record.
  - Once the window is full, adding a record compares it with the one before
    it, rule by rule.
- **ECU comparators** (`ecu_comparators.dfy`, ecu/feature_config.go).
  - These are the physical plausibility rules for RPM, gear and speed. Each
    scores a change 0.0 or 1.0.
  - They read a gear context that is shared and mutable.
- **ECU record** (`ecu.dfy`, ecu/ecu.go).
  - It has the accessors by index and by name.
  - The factory parses a record from four text fields with `strconv.Atoi`.
  - It builds the rule set and the preconfigured detector.
- **Train/test split** (`train_test.dfy`, ml/utils.go).
  - A Fisher–Yates shuffle runs in place on a copy held in an array.
  - The copy is then cut at `int(n * ratio)`.
- **CSV line parsing** (`csv_line.dfy`, application/main.go `ParseCSVLine`).
  - A line is split on commas.
  - Everything after the fifth comma is joined back into one trimmed field.

## Modelling choices

**Floating-point values become exact reals.**
- Entropy uses a base-2 logarithm, which is the parameter `log2: real -> real`.
- Nothing is assumed about `log2` except where a lemma says so: the worked
  example requires `log2(0.5) < 0`.
- The proportion tests of the source (`>= 0.5`, `== 0`, `== 1`) are proved
  equal to tests on integer counts (`ProportionTests`).

**Go map iteration order becomes a nondeterministic choice.** Two loops walk
a Go map:
- the candidate thresholds of `findBestSplit`;
- the rule registry of `detectAnomaly`.

In the model each picks the next key with `:|` from the keys not yet
visited, and every contract holds for every visiting order. So
`FindBestSplit` promises an argmax of the lowest feature index among the
maximal gains, but not a particular threshold among equal gains within
that feature.
`DetectAnomaly` promises the `Verdict` relation, which allows either outcome
when both a missing feature and an exceeded rule exist.

**Go interfaces become closed types.**
- The `FeatureComparator` interface is a closed datatype `Comparator`, with
  the four implementations the repository has.
- The RPM and speed variants hold a reference to the shared `ECUComparator`
  object. This keeps the sharing: one `SetCurrentGear` affects both rules.
- The `SequentialProvider` interface is a datatype of a feature count and two
  functions: name by index and value by index.
- `AsSequential` presents an ECU record through it.

**The random source becomes an input.** The shuffle's random draws are the
parameter `choices`, where `choices[i]` is the value `r.Intn(i + 1)` returned
at loop index `i`.

**Ties across features follow the feature order; ties within a feature
follow Go's map order.** `findBestSplit` tries the features 0, 1, 2 in turn
and replaces the best only on a strictly larger gain. Among equal maximal
gains, the lowest feature index therefore always wins. Among the thresholds
of that one feature, the first one visited in Go's unspecified map order
wins. The model keeps that nondeterminism.

**Two stale definitions in ml/ml.go are not used.**
- ml/ml.go declares its own `ECUData` struct with only an `isAttack` field
  (ml/ml.go:20-26), while its functions read `RPM`, `Gear`, `Speed` and
  `IsAttack`. The model uses the four-field record of ecu/ecu.go:10-15
  throughout.
- ml/ml.go:266-286 repeats ml/utils.go's `SplitTrainTest` over `ECUData`.
  The generic `TrainTest.SplitTrainTest` models both.

## Model

| member | source | states |
|---|---|---|
| DecisionTree.ProportionTests | ml/ml.go:122-138 | The proportion tests `>= 0.5`, `== 0` and `== 1` hold exactly when 2·attacks >= n, attacks = 0 and attacks = n respectively |
| DecisionTree.QuotientTests | ml/ml.go:99 | Helper (real arithmetic) behind ProportionTests: for a positive denominator, the three quotient comparisons are the corresponding comparisons of numerator and denominator |
| DecisionTree.CalculateAttackProportion | ml/ml.go:92-100 | The counting loop returns the number of attack records, which is at most the dataset size |
| DecisionTree.Part | ml/ml.go:242-251 | The side of a split, defined as the order-keeping filter on "value <= threshold" (or its negation); never longer than the dataset. PartContains and PartSound state its meaning |
| DecisionTree.PartSound | ml/ml.go:244-248 | Every record on a side belongs there: its feature value selects that side (the converse of PartContains) |
| DecisionTree.SplitDataset | ml/ml.go:242-251 | left and right are the records with value <= threshold and > threshold, each in input order, and their sizes add up to the input's |
| DecisionTree.PartSizes | ml/ml.go:242-251 | The two sides of any split together have exactly as many records as the dataset |
| DecisionTree.PartsPermute | ml/ml.go:242-251 | The two sides together are a permutation of the dataset: no record is lost or duplicated |
| DecisionTree.PartContains | ml/ml.go:244-248 | A record of the dataset lands on the side that its own feature value selects |
| DecisionTree.EmptySideKeepsAll | ml/ml.go:242-251 | If one side is empty, the other side is the whole dataset in its order |
| DecisionTree.Entropy | ml/ml.go:224-235 | Defined as 0 for an empty or pure partition and -p·log2(p) - (1-p)·log2(1-p) otherwise, with p the attack proportion; PureEntropy and EvenEntropy state its values |
| DecisionTree.Gain | ml/ml.go:206-221 | Defined as the parent entropy minus the entropies of the two sides of the split, each weighted by its share of the records; EmptySideNoGain states its value for a one-sided split |
| DecisionTree.Weighted | ml/ml.go:212-220 | The weighting step of Gain: parent entropy minus leftSize/n times the left entropy and rightSize/n times the right entropy; WholeSideNoGain states it is 0 when one side is everything |
| DecisionTree.PureEntropy | ml/ml.go:224-235 | An empty or pure partition has entropy 0, whatever log2 is |
| DecisionTree.EvenEntropy | ml/ml.go:224-235 | A two-record partition with one attack has entropy -log2(0.5) |
| DecisionTree.EmptySideNoGain | ml/ml.go:206-221 | A split that leaves one side empty has gain exactly 0, whatever log2 is |
| DecisionTree.ObservedValues | ml/ml.go:186-189 | A value is a candidate threshold of a feature iff some record has that value for that feature |
| DecisionTree.FeatureValues | ml/ml.go:186-189 | The collection loop yields exactly the set of observed values of the feature |
| DecisionTree.ScanThresholds | ml/ml.go:192-199 | After visiting every threshold in any order: the best gain never decreases and bounds every visited score; it is unchanged with the old feature and threshold, or it is the score of a visited threshold tagged with the current feature |
| DecisionTree.FindBestSplit | ml/ml.go:180-203 | bestGain >= 0 and is at least the gain of every candidate; if it is positive, (bestFeature, bestThreshold) is a candidate attaining it; otherwise both stay 0; every candidate of a lower feature index has strictly smaller gain, so the lowest feature index among the maximal gains wins |
| DecisionTree.BuildTree | ml/ml.go:103-177 | The returned tree satisfies `Builds`: the stopping rules in source order, otherwise an argmax split on the lowest feature index among the maximal gains, with each child built on its side at depth + 1; its height is at most maxDepth - depth |
| DecisionTree.StoppingRules | ml/ml.go:110-138 | An empty set gives Leaf(false); at max depth the leaf predicts 2·attacks >= n; a pure set below max depth predicts its label; an internal node only on a mixed set below max depth |
| DecisionTree.BuiltSplitsProper | ml/ml.go:148-176 | Every split a built tree commits to has two non-empty sides |
| DecisionTree.UniqueSplitRoot | ml/ml.go:140-176 | When a single candidate has positive gain on a mixed set below max depth, the built tree's root splits on it |
| DecisionTree.TwoRecordSplits | ml/ml.go:180-221 | On records (1000 rpm, normal) and (6000 rpm, attack), "rpm <= 1000" has gain -log2(0.5) and every other candidate has gain 0 |
| DecisionTree.TwoRecordRoot | ml/ml.go:140-167 | The tree built from the two-record example at max depth 1 splits on rpm at 1000 |
| DecisionTree.TwoRecordTree | ml/ml.go:103-177 | That tree is exactly `rpm <= 1000 ? normal : attack`, and it classifies both records correctly |
| DecisionTree.Predict | ml/ml.go:254-263 | Defined as the traversal: a leaf gives its stored prediction, an internal node goes left iff the feature value (0 outside indices 0..2) is at most the threshold; PredictIgnoresLabel and PredictTrainingRecord state its meaning |
| DecisionTree.PredictIgnoresLabel | ml/ml.go:254-263 | A prediction depends only on the features, never on the record's own label |
| DecisionTree.PredictTrainingRecord | ml/ml.go:254-263 | On a built tree, a training record reaches a leaf whose partition contains it, and its prediction is that partition's majority label |
| DecisionTree.AllCorrect | ml/ml.go:355-360 | The correct count equals the number of records iff every prediction matches its label |
| DecisionTree.PercentBounds | ml/ml.go:362-363 | Helper (real arithmetic) behind GetPredictionAccuracy: correct / n · 100 lies in [0, 100] and is 100 iff every record is correct |
| DecisionTree.GetPredictionAccuracy | ml/ml.go:352-364 | The result is None (Go's NaN) iff the test set is empty; otherwise it is 100 · correct / n, lies in [0, 100], and is 100 exactly when every prediction is right |
| SequentialAnomaly.RelativeChange | ml/sequential_anomaly.go:23-31 | The score is never negative; it is 0 iff prev = current; a change away from 0 scores 1 |
| SequentialAnomaly.Score | ml/sequential_anomaly.go:122-125 | The dispatch of Compare to the rule's comparator; ScoreRange states its range |
| SequentialAnomaly.ScoreRange | ml/sequential_anomaly.go:122-125 | Every comparator's score is non-negative, and every one except the default scores 0 or 1 |
| SequentialAnomaly.IndexFrom | ml/sequential_anomaly.go:107-115 | The linear search of the feature names from an index, -1 when none matches; IndexFromFirst states its result |
| SequentialAnomaly.FeatureIndex | ml/sequential_anomaly.go:107-115 | The search from index 0; FeatureIndexFirst states its result |
| SequentialAnomaly.IndexFromFirst | ml/sequential_anomaly.go:107-115 | The search from an index returns -1 iff no later index carries the name, and otherwise the first index that does |
| SequentialAnomaly.FeatureIndexFirst | ml/sequential_anomaly.go:107-117 | Lookup returns -1 iff no index below the feature count carries the name, and otherwise the first such index |
| SequentialAnomaly.VerdictWhenAllFound | ml/sequential_anomaly.go:106-132 | When every registered name is present, the result is Ok, and it reports an anomaly iff some rule exceeds its threshold |
| SequentialAnomaly.SingleRuleVerdict | ml/sequential_anomaly.go:106-132 | With one registered rule whose name is present, the result is whether that rule exceeds its threshold |
| SequentialAnomaly.Last | ml/sequential_anomaly.go:94-96 | The kept suffix has length min(n, w) |
| SequentialAnomaly.LastAppend | ml/sequential_anomaly.go:86-96 | Appending then keeping the last w equals appending to the last w and dropping the oldest once the window is full |
| SequentialAnomaly.WithDefault | ml/sequential_anomaly.go:64-67 | A nil comparator becomes DefaultComparator; name, threshold and a present comparator are kept |
| SequentialAnomaly.WindowDetector.constructor | ml/sequential_anomaly.go:55-61 | The window size is as given, and both history and registry are empty; with size >= 2 the invariant holds |
| SequentialAnomaly.WindowDetector.AddFeatureConfig | ml/sequential_anomaly.go:64-70 | Only the entry for config.name is inserted or overwritten, with the default comparator filled in; never fails; the history is untouched |
| SequentialAnomaly.WindowDetector.SetThreshold | ml/sequential_anomaly.go:73-81 | An unknown name fails with FeatureNotFound and changes nothing; otherwise only that entry's threshold changes |
| SequentialAnomaly.WindowDetector.DetectAnomaly | ml/sequential_anomaly.go:101-133 | For every rule order: Ok(true) only if some rule exceeds; Ok(false) iff every rule is found and none exceeds; an error names a registered rule the record lacks |
| SequentialAnomaly.WindowDetector.Push | ml/sequential_anomaly.go:86-96 | The record is appended and the oldest dropped beyond the window size, so the history stays the last windowSize records received; the registry is unchanged |
| SequentialAnomaly.WindowDetector.AddData | ml/sequential_anomaly.go:84-99 | The record is always appended and the history is the last windowSize records received; before the window fills the result is Ok(false); once full, the verdict is on the two newest records; the registry is unchanged |
| EcuComparators.ECUComparator.constructor | ecu/feature_config.go:14-31 | A new gear context starts at gear 0 |
| EcuComparators.ECUComparator.SetCurrentGear | ecu/feature_config.go:33-35 | The engaged gear becomes the argument |
| EcuComparators.ECUComparator.RpmScore | ecu/feature_config.go:41-73 | The RPM score is 0.0 or 1.0 |
| EcuComparators.ECUComparator.SpeedScore | ecu/feature_config.go:93-108 | The speed score is 0.0 or 1.0 |
| EcuComparators.GearScore | ecu/feature_config.go:77-87 | The gear score is 0.0 or 1.0, and 1.0 iff the gear moves by more than 1 or leaves [0, 5] |
| EcuComparators.RpmJumpAlwaysViolates | ecu/feature_config.go:43-45 | A change of more than 1000 RPM scores 1 whatever the gear |
| EcuComparators.RpmWithoutGear | ecu/feature_config.go:41-73 | With no gear engaged, RPM scores 1 iff it jumps by more than 1000 |
| EcuComparators.RpmWithGear | ecu/feature_config.go:48-70 | With a gear engaged, RPM scores 1 under idle, above the gear's maximum, below 1500 above first gear, or above the shift-up point; nothing else except a jump scores 1 |
| EcuComparators.RpmUnknownGearViolates | ecu/feature_config.go:53-55 | A gear with no table entry has maximum 0, so any positive RPM scores 1 |
| EcuComparators.SpeedRule | ecu/feature_config.go:93-107 | Speed scores 1 iff it jumps by more than 5 or leaves the engaged gear's band; a gear above 5 has band [0, 0] |
| Ecu.ECUData.IsAnomaly | ecu/ecu.go:17 | The anomaly flag is the attack label |
| Ecu.ECUData.GetFeatureValue | ecu/ecu.go:19-30 | 0, 1 and 2 read RPM, Gear and Speed; any other index reads 0; EcuFeatureLookup states the lookups through it |
| Ecu.ECUData.GetFeatureName | ecu/ecu.go:32-43 | 0, 1 and 2 are named "rpm", "gear" and "speed"; any other index is ""; EcuFeatureLookup proves lookup by name inverts it |
| Ecu.ECUData.GetFeatureCount | ecu/ecu.go:45-47 | Always 3 |
| Ecu.EcuFeatureLookup | ecu/ecu.go:17-47 | There are 3 features and IsAnomaly is the label; "rpm", "gear" and "speed" are found at 0, 1 and 2 and read RPM, Gear and Speed; any other name is not found; lookup by name inverts GetFeatureName |
| Ecu.EcuRecordsExposeEveryRule | ecu/ecu.go:32-47 | Every ECU record exposes the three rule names, so the ECU detector never reports a missing feature |
| Ecu.Atoi | ecu/ecu.go:55-73 | strconv.Atoi: a success is an int64 value and the text contains a decimal digit; AtoiItoa states it inverts Itoa |
| Ecu.AtoiItoa | ecu/ecu.go:55-73 | Parsing the decimal text of any int64 gives it back |
| Ecu.CreateECUData | ecu/ecu.go:49-81 | It fails on the first of RPM, Gear, Speed and Status that is not an integer, in that order; on success RPM, Gear and Speed are the values parsed from the first three fields, and the record is an attack iff status = 1; it is defined on every row that does not end before its first unparsable field, and succeeds only on rows of at least four fields |
| Ecu.ShortRowsFail | ecu/ecu.go:55-63 | Rows shorter than four fields return the RPM or Gear error when that field is present and does not parse: `["abc"]` gives InvalidRPM and `["1", "x"]` gives InvalidGear |
| Ecu.CreateECUDataFirstFour | ecu/ecu.go:49-81 | The result depends only on the first four fields: any fields after them are ignored |
| Ecu.CreateECUDataRoundTrip | ecu/ecu.go:49-81 | A record written as four fields parses back to itself, whatever extra fields follow |
| Ecu.CreateECUConfigs | ecu/feature_config.go:111-131 | Exactly the rules [rpm, gear, speed] at threshold 0.5; the RPM and speed rules share one fresh gear context at gear 0 |
| Ecu.GetSequentialAnomalyDetector | ecu/ecu.go:83-99 | A fresh valid detector with window 3, empty history, and exactly the keys rpm, gear and speed, holding the rules CreateECUConfigs builds |
| Ecu.SteadyRpmScenario | ml/sequential_anomaly.go:84-133 | Window 3 with one default RPM rule at 0.5: two cold-start calls return false, then 1000 -> 1000 returns false |
| Ecu.RpmJumpScenario | ml/sequential_anomaly.go:84-133 | The same detector with 1000 -> 3000 last reports an anomaly |
| TrainTest.Swap | ml/utils.go:19 | The two positions are exchanged and every other position is unchanged |
| TrainTest.SwapPermutes | ml/utils.go:19 | A swap is a permutation |
| TrainTest.ShuffleFrom | ml/utils.go:17-20 | The loop iterations for indices i down to 1, each swapping position i with the draw choices[i]; ShuffleFromPermutes states its meaning |
| TrainTest.Shuffle | ml/utils.go:17-20 | The whole Fisher–Yates pass from index n - 1 down to 1; ShufflePermutes and ShuffleIdentity state its meaning |
| TrainTest.ShuffleFromPermutes | ml/utils.go:17-20 | Any run of the loop's remaining iterations keeps the length and the multiset of elements |
| TrainTest.ShufflePermutes | ml/utils.go:12-20 | The shuffled copy is a permutation of the dataset |
| TrainTest.ShuffleIdentity | ml/utils.go:17-20 | When every draw picks the current index, the order is unchanged |
| TrainTest.Trunc | ml/utils.go:23 | Go's int() on a float: truncation toward zero; SplitPointBounds states its value on the cut |
| TrainTest.SplitPoint | ml/utils.go:23 | The cut index int(float64(n) * trainRatio); SplitPointBounds states its range and that it is the floor of n · ratio |
| TrainTest.SplitPointBounds | ml/utils.go:23 | For a ratio in [0, 1] the cut lies in [0, n] and is the floor of n · ratio |
| TrainTest.SplitTrainTest | ml/utils.go:10-30 | train ++ test is the dataset shuffled by the draws, train has the split-point length, and together they are a permutation of the dataset |
| CsvLine.Split | application/main.go:145 | The split has at least one piece, and no piece contains the separator |
| CsvLine.JoinSplit | application/main.go:145 | Joining the pieces of a split on the same separator gives the line back |
| CsvLine.SplitJoin | application/main.go:145 | Splitting the join of separator-free pieces gives those pieces back |
| CsvLine.SplitNoSeparator | application/main.go:145 | A line with no comma splits into the single piece [line] |
| CsvLine.Join | application/main.go:156 | strings.Join: the pieces with one separator between consecutive ones; JoinSplit, SplitJoin and JoinAt state its meaning |
| CsvLine.JoinAt | application/main.go:156 | Joining splits at any boundary: the join of the first m pieces, one separator, then the join of the rest |
| CsvLine.TrimSpace | application/main.go:157 | The result is no longer than the input, and it neither starts nor ends with white space |
| CsvLine.TrimSpaceCuts | application/main.go:157 | The result is a contiguous slice of the input, and everything cut from either end is white space |
| CsvLine.TrimSpaceIdempotent | application/main.go:157 | Trimming twice is trimming once |
| CsvLine.ParseCSVLine | application/main.go:143-160 | The result has between 1 and 6 fields |
| CsvLine.ShortLine | application/main.go:145-150 | With at most five fields, the result is the comma split itself, which joins back into the line and has no comma in any field |
| CsvLine.LongLine | application/main.go:153-158 | With more than five fields, there are exactly six; the first five are the split's first five, and they join to the text before the fifth comma; the sixth is that comma's trailing text trimmed, inner commas kept |

## Left out

- File and console I/O is not modelled:
  - `LoadDataFromCSV`, `SaveModel`/`LoadModel` (JSON files) and `PrintTree`;
  - the `fmt.Printf` tracing inside `BuildTree`;
  - the application's `main`, `CSVFileReader` and driver functions;
  - the fixture generator gen/generate.go;
  - ml/detector.go, a wrapper around `Predict`.
  - ml/file_model.go is not part of this model.
- Floating point: proportions, gains and the accuracy are exact reals, so
  rounding is not modelled. The `int` to `float64` conversions in the
  comparators and the shuffle cut are taken as exact.
- DecisionTree.Entropy and DecisionTree.Gain: the logarithm is an arbitrary
  parameter, so no numeric property of entropy is claimed beyond the early
  returns and what follows from them.
- Tie-breaking within one feature: among equal maximal gains on thresholds
  of the same feature, which one Go's map order makes `findBestSplit` keep
  is not determined. Likewise, which of several failing rules
  `detectAnomaly` reports first is not determined.
- DecisionTree.CalculateAttackProportion returns the attack count. The
  proportion is count / n, which is used as a real at each call site.
- Nil child pointers cannot occur in trees that `BuildTree` makes; they can
  come only from hand-written or JSON-loaded trees. `Node` therefore has no
  nil children, and the nil-pointer panic of `Predict` on such trees is not
  modelled.
- TrainTest.SplitTrainTest: the time-seeded generator is replaced by the
  draws `choices`. `train` and `test` are returned as values, so their
  sharing of one backing slice (Go aliasing) is not modelled. A ratio that
  puts the cut outside the slice makes Go panic; that is a precondition here.
- Ecu.CreateECUData: the Go error values carry formatted messages. Here they
  are the four constructors `InvalidRPM`, `InvalidGear`, `InvalidSpeed` and
  `InvalidStatus`. The length check is commented out, so Go panics on a row
  that ends before the first field that fails to parse; the precondition
  `NoPanic` excludes exactly those rows. Shorter rows that fail on a field
  they do have, such as `["abc"]`, return that field's error.
- SequentialAnomaly.WindowDetector.SetThreshold: the error text
  "feature not found" is the constructor `FeatureNotFound(name)`.
- Ecu.Atoi: it follows `strconv.Atoi` on a 64-bit platform (optional sign,
  decimal digits, int64 range). Underscores are not accepted.
- CsvLine: strings are sequences of code points. Go's byte-level handling
  of invalid UTF-8 in `strings.TrimSpace` is not modelled.
- The `FeatureComparator` interface is closed to the four comparators the
  repository defines. A user-supplied comparator cannot be plugged in, and
  the detector module depends on the ECU comparators module as a result.
- WindowDetector operations are specified under the invariant `Valid()`,
  which needs a window size of at least 2. With a smaller size, Go's
  `History[len-2]` panics.
