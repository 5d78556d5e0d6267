/**
 * The streaming sliding-window detector of ml/sequential_anomaly.go: a bounded
 * history of the most recent records and a name-keyed registry of per-feature
 * rules, evaluated on the two newest records once the window is full.
 */
module SequentialAnomaly {
  import opened Wrappers
  import opened EcuComparators

  /**
   * A record as the detector sees it (Go's SequentialProvider): a feature
   * count and, by index, a feature name and an integer value.
   */
  datatype SequentialProvider = SequentialProvider(featureCount: int, featureName: int -> string, featureValue: int -> int)

  /**
   * Go's FeatureComparator interface, closed over the implementations the
   * repository has. The ECU rules hold a reference to their shared gear context.
   */
  datatype Comparator =
    | DefaultComparator
    | RPMComparator(rpmContext: ECUComparator)
    | GearComparator
    | SpeedComparator(speedContext: ECUComparator)
  {
    /** The objects whose state the score depends on. */
    function Footprint(): set<object>
    {
      match this
      case RPMComparator(e) => {e}
      case SpeedComparator(e) => {e}
      case _ => {}
    }
  }

  /** A rule: feature name, anomaly threshold, and an optional comparator (nil in Go). */
  datatype FeatureConfig = FeatureConfig(name: string, threshold: real, comparator: Option<Comparator>)
  {
    function Footprint(): set<object>
    {
      if comparator.Some? then comparator.value.Footprint() else {}
    }
  }

  datatype DetectError = FeatureNotFound(name: string)

  function AbsReal(x: real): real { if x < 0.0 then -x else x }

  /**
   * DefaultComparator.Compare: relative change, with a change away from 0
   * counted as 100%. A score of 0 means exactly "no change".
   */
  function RelativeChange(prev: int, current: int): (r: real)
    ensures r >= 0.0
    ensures r == 0.0 <==> prev == current
    ensures prev == 0 && current != 0 ==> r == 1.0
  {
    if prev == 0 then
      if current == 0 then 0.0 else 1.0
    else
      AbsReal((current - prev) as real / prev as real)
  }

  /** The score a comparator gives the change from `prev` to `current`. */
  function Score(c: Comparator, prev: int, current: int): real
    reads c.Footprint()
  {
    match c
    case DefaultComparator => RelativeChange(prev, current)
    case RPMComparator(e) => e.RpmScore(prev, current)
    case GearComparator => GearScore(prev, current)
    case SpeedComparator(e) => e.SpeedScore(prev, current)
  }

  /** Every comparator scores a change non-negatively, and every one but the default with 0 or 1. */
  lemma ScoreRange(c: Comparator, prev: int, current: int)
    ensures Score(c, prev, current) >= 0.0
    ensures !c.DefaultComparator? ==> Score(c, prev, current) == 0.0 || Score(c, prev, current) == 1.0
  {
  }

  /** The index the linear search of detectAnomaly stops at, searching from `from`; -1 if none. */
  function IndexFrom(p: SequentialProvider, name: string, from: int): int
    decreases p.featureCount - from
  {
    if from >= p.featureCount then -1
    else if p.featureName(from) == name then from
    else IndexFrom(p, name, from + 1)
  }

  /** The first feature index whose name is `name`, or -1. */
  function FeatureIndex(p: SequentialProvider, name: string): int
  {
    IndexFrom(p, name, 0)
  }

  lemma {:induction false} IndexFromFirst(p: SequentialProvider, name: string, from: int)
    requires 0 <= from
    ensures var r := IndexFrom(p, name, from);
      (r == -1 <==> forall i :: from <= i < p.featureCount ==> p.featureName(i) != name)
      && (r != -1 ==> from <= r < p.featureCount && p.featureName(r) == name
                      && forall i :: from <= i < r ==> p.featureName(i) != name)
    decreases p.featureCount - from
  {
    if from < p.featureCount && p.featureName(from) != name {
      IndexFromFirst(p, name, from + 1);
    }
  }

  /** Lookup by name finds the first index below the feature count carrying that name. */
  lemma FeatureIndexFirst(p: SequentialProvider, name: string)
    ensures var r := FeatureIndex(p, name);
      (r == -1 <==> forall i :: 0 <= i < p.featureCount ==> p.featureName(i) != name)
      && (r != -1 ==> 0 <= r < p.featureCount && p.featureName(r) == name
                      && forall i :: 0 <= i < r ==> p.featureName(i) != name)
  {
    IndexFromFirst(p, name, 0);
  }

  /** The rule registered under `name` is satisfied by the record (its name is found). */
  predicate Found(current: SequentialProvider, name: string)
  {
    FeatureIndex(current, name) >= 0
  }

  /** The rule's score for the change from `prev` to `current` exceeds its threshold. */
  predicate Exceeds(prev: SequentialProvider, current: SequentialProvider, name: string, config: FeatureConfig)
    requires config.comparator.Some?
    reads config.Footprint()
  {
    var i := FeatureIndex(current, name);
    i >= 0 && Score(config.comparator.value, prev.featureValue(i), current.featureValue(i)) > config.threshold
  }

  /** Every rule of `configs` carries a comparator, as the registry stores them. */
  predicate AllCompare(configs: map<string, FeatureConfig>)
  {
    forall name :: name in configs ==> configs[name].comparator.Some?
  }

  /** The objects the comparators of `configs` read: the shared ECU context of the RPM and speed rules. */
  function ConfigsFootprint(configs: map<string, FeatureConfig>): set<object>
  {
    set name, o | name in configs && o in configs[name].Footprint() :: o
  }

  /**
   * The results detectAnomaly may report on the pair (prev, current), over
   * every order in which the rules of `configs` can be visited: an anomaly only
   * if some rule exceeds its threshold, "no anomaly" exactly when every rule is
   * found and none exceeds, and an error only for a rule whose name is missing.
   */
  ghost predicate Verdict(prev: SequentialProvider, current: SequentialProvider, configs: map<string, FeatureConfig>,
                          r: Result<bool, DetectError>)
    requires AllCompare(configs)
    reads ConfigsFootprint(configs)
  {
    && (r == Ok(true) ==> exists name :: name in configs && Exceeds(prev, current, name, configs[name]))
    && (r == Ok(false) <==> forall name :: name in configs ==>
          Found(current, name) && !Exceeds(prev, current, name, configs[name]))
    && (r.Err? ==> exists name :: name in configs && !Found(current, name) && r.error == FeatureNotFound(name))
  }

  /** When every rule's name is present, the verdict is decided: an anomaly exactly when some rule exceeds. */
  lemma VerdictWhenAllFound(prev: SequentialProvider, current: SequentialProvider, configs: map<string, FeatureConfig>,
                            r: Result<bool, DetectError>)
    requires AllCompare(configs) && Verdict(prev, current, configs, r)
    requires forall name :: name in configs ==> Found(current, name)
    ensures r.Ok?
    ensures r.value <==> exists name :: name in configs && Exceeds(prev, current, name, configs[name])
  {
  }

  /** With a single rule whose name is present, the verdict is whether that rule exceeds. */
  lemma SingleRuleVerdict(prev: SequentialProvider, current: SequentialProvider, name: string, config: FeatureConfig,
                          r: Result<bool, DetectError>)
    requires config.comparator.Some? && Found(current, name)
    requires AllCompare(map[name := config]) && Verdict(prev, current, map[name := config], r)
    ensures r == Ok(Exceeds(prev, current, name, config))
  {
    VerdictWhenAllFound(prev, current, map[name := config], r);
  }

  /** The last `w` elements of `s`, or all of it when it is shorter. */
  function Last<T>(s: seq<T>, w: nat): (r: seq<T>)
    ensures |r| == if |s| <= w then |s| else w
  {
    if |s| <= w then s else s[|s| - w..]
  }

  lemma LastAppend<T>(s: seq<T>, w: nat, x: T)
    requires w >= 1
    ensures Last(s + [x], w) == if |Last(s, w)| < w then Last(s, w) + [x] else (Last(s, w) + [x])[1..]
  {
  }

  /** Registering a configuration stores it under its name with the default comparator filled in. */
  function WithDefault(config: FeatureConfig): (r: FeatureConfig)
    ensures r.name == config.name && r.threshold == config.threshold && r.comparator.Some?
    ensures config.comparator.Some? ==> r == config
    ensures config.comparator.None? ==> r.comparator == Some(DefaultComparator)
  {
    if config.comparator.None? then config.(comparator := Some(DefaultComparator)) else config
  }

  class WindowDetector {
    const windowSize: int
    var history: seq<SequentialProvider>
    var featureConfigs: map<string, FeatureConfig>
    /** Every record ever passed to AddData, oldest first. */
    ghost var received: seq<SequentialProvider>

    /**
     * The window holds the last windowSize records received, and every rule is
     * stored under its own name with a comparator. windowSize >= 2 is what
     * detectAnomaly's `len-2` indexing needs.
     */
    ghost predicate Valid()
      reads this
    {
      && windowSize >= 2
      && history == Last(received, windowSize)
      && AllCompare(featureConfigs)
      && forall name :: name in featureConfigs ==> featureConfigs[name].name == name
    }

    /** NewWindowDetector. */
    constructor (size: int)
      ensures windowSize == size && history == [] && featureConfigs == map[] && received == []
      ensures size >= 2 ==> Valid()
    {
      windowSize := size;
      history := [];
      featureConfigs := map[];
      received := [];
    }

    /** AddFeatureConfig: insert or overwrite the entry for config.name; never fails. */
    method AddFeatureConfig(config: FeatureConfig) returns (err: Outcome<DetectError>)
      requires Valid()
      modifies this
      ensures Valid()
      ensures err == Pass
      ensures featureConfigs == old(featureConfigs)[config.name := WithDefault(config)]
      ensures history == old(history) && received == old(received)
    {
      var stored := config;
      if stored.comparator.None? {
        stored := stored.(comparator := Some(DefaultComparator));
      }
      featureConfigs := featureConfigs[config.name := stored];
      err := Pass;
    }

    /** SetThreshold: change only the threshold of an existing rule. */
    method SetThreshold(featureName: string, threshold: real) returns (err: Outcome<DetectError>)
      requires Valid()
      modifies this
      ensures Valid()
      ensures featureName !in old(featureConfigs) ==>
        err == Fail(FeatureNotFound(featureName)) && featureConfigs == old(featureConfigs)
      ensures featureName in old(featureConfigs) ==>
        err == Pass && featureConfigs == old(featureConfigs)[featureName := old(featureConfigs)[featureName].(threshold := threshold)]
      ensures history == old(history) && received == old(received)
    {
      if featureName !in featureConfigs {
        return Fail(FeatureNotFound(featureName));
      }
      var config := featureConfigs[featureName];
      config := config.(threshold := threshold);
      featureConfigs := featureConfigs[featureName := config];
      err := Pass;
    }

    /**
     * detectAnomaly: evaluate the rules, in an unspecified order, on the two
     * newest records. The outcome is stated for every iteration order.
     */
    method DetectAnomaly() returns (r: Result<bool, DetectError>)
      requires Valid() && |history| >= 2
      ensures Verdict(history[|history| - 2], history[|history| - 1], featureConfigs, r)
    {
      var current := history[|history| - 1];
      var prev := history[|history| - 2];
      var remaining := featureConfigs.Keys;
      while remaining != {}
        invariant remaining <= featureConfigs.Keys
        invariant forall name :: name in featureConfigs && name !in remaining ==>
          Found(current, name) && !Exceeds(prev, current, name, featureConfigs[name])
        decreases remaining
      {
        var featureName :| featureName in remaining;
        var config := featureConfigs[featureName];
        var featureIndex := -1;
        var i := 0;
        while i < current.featureCount
          invariant 0 <= i
          invariant IndexFrom(current, featureName, i) == FeatureIndex(current, featureName)
          decreases current.featureCount - i
        {
          if current.featureName(i) == featureName {
            featureIndex := i;
            break;
          }
          i := i + 1;
        }
        if featureIndex == -1 {
          return Err(FeatureNotFound(featureName));
        }
        var change := Score(config.comparator.value, prev.featureValue(featureIndex), current.featureValue(featureIndex));
        if change > config.threshold {
          return Ok(true);
        }
        remaining := remaining - {featureName};
      }
      r := Ok(false);
    }

    /**
     * The window update of AddData: append the record (never rolled back) and
     * drop the oldest one beyond the window size.
     */
    method Push(data: SequentialProvider)
      requires Valid()
      modifies this
      ensures Valid()
      ensures received == old(received) + [data]
      ensures featureConfigs == old(featureConfigs)
      ensures |history| <= windowSize && history[|history| - 1] == data
      ensures history == if |old(history)| < windowSize then old(history) + [data] else old(history)[1..] + [data]
    {
      LastAppend(received, windowSize, data);
      history := history + [data];
      received := received + [data];
      if |history| > windowSize {
        history := history[1..];
      }
    }

    /**
     * AddData: push the record into the window, and evaluate the rules once
     * the window is full. Dropping the oldest record only happens when the
     * window was already full, so it does not matter that Go checks for a
     * cold start between appending and dropping.
     */
    method AddData(data: SequentialProvider) returns (r: Result<bool, DetectError>)
      requires Valid()
      modifies this
      ensures Valid()
      ensures received == old(received) + [data]
      ensures featureConfigs == old(featureConfigs)
      ensures |history| <= windowSize && history[|history| - 1] == data
      ensures history == if |old(history)| < windowSize then old(history) + [data] else old(history)[1..] + [data]
      ensures |history| < windowSize ==> r == Ok(false)
      ensures |history| == windowSize ==> Verdict(history[|history| - 2], history[|history| - 1], featureConfigs, r)
    {
      Push(data);
      if |history| < windowSize {
        r := Ok(false);
      } else {
        r := DetectAnomaly();
      }
    }
  }
}
