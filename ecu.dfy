/**
 * The ECU record of ecu/ecu.go (engine RPM, gear, speed and the attack label),
 * its feature accessors, the row factory that parses it from text fields, the
 * rule set of ecu/feature_config.go and the preconfigured streaming detector.
 */
module Ecu {
  import opened Wrappers
  import opened EcuComparators
  import opened SequentialAnomaly

  /** One telemetry record; Go's `int` fields. */
  datatype ECUData = ECUData(rpm: int, gear: int, speed: int, isAttack: bool)
  {
    predicate IsAnomaly() { isAttack }

    /** 0 -> RPM, 1 -> Gear, 2 -> Speed, anything else reads as 0. */
    function GetFeatureValue(feature: int): int
    {
      if feature == 0 then rpm
      else if feature == 1 then gear
      else if feature == 2 then speed
      else 0
    }

    /** 0 -> "rpm", 1 -> "gear", 2 -> "speed", anything else reads as "". */
    function GetFeatureName(feature: int): string
    {
      if feature == 0 then "rpm"
      else if feature == 1 then "gear"
      else if feature == 2 then "speed"
      else ""
    }

    function GetFeatureCount(): int { 3 }
  }

  /** The record seen through the detector's SequentialProvider interface. */
  function AsSequential(e: ECUData): SequentialProvider
  {
    SequentialProvider(e.GetFeatureCount(), i => e.GetFeatureName(i), i => e.GetFeatureValue(i))
  }

  /**
   * The three names are distinct, so looking a name up in an ECU record finds
   * exactly the index that carries it, and reads the matching field; any other
   * name is not exposed. The label is never exposed as a feature.
   */
  lemma EcuFeatureLookup(e: ECUData, name: string)
    ensures e.GetFeatureCount() == 3 && e.IsAnomaly() == e.isAttack
    ensures FeatureIndex(AsSequential(e), "rpm") == 0 && AsSequential(e).featureValue(0) == e.rpm
    ensures FeatureIndex(AsSequential(e), "gear") == 1 && AsSequential(e).featureValue(1) == e.gear
    ensures FeatureIndex(AsSequential(e), "speed") == 2 && AsSequential(e).featureValue(2) == e.speed
    ensures name != "rpm" && name != "gear" && name != "speed" ==> FeatureIndex(AsSequential(e), name) == -1
    ensures forall i :: 0 <= i < 3 ==> FeatureIndex(AsSequential(e), e.GetFeatureName(i)) == i
  {
    var p := AsSequential(e);
    assert p.featureName(0) == "rpm" && p.featureName(1) == "gear" && p.featureName(2) == "speed";
    assert IndexFrom(p, name, 3) == -1;
  }

  // ---------------------------------------------------------------------------
  // strconv.Atoi

  const MinInt64: int := -0x8000_0000_0000_0000
  const MaxInt64: int := 0x7fff_ffff_ffff_ffff

  predicate IsDigit(c: char) { '0' <= c <= '9' }

  predicate AllDigits(s: string) { forall i :: 0 <= i < |s| ==> IsDigit(s[i]) }

  /** The value of a string of decimal digits, most significant first. */
  function DigitsValue(s: string): nat
    requires AllDigits(s)
  {
    if |s| == 0 then 0 else DigitsValue(s[..|s| - 1]) * 10 + (s[|s| - 1] as int - '0' as int)
  }

  /**
   * strconv.Atoi on a 64-bit platform: an optional sign, at least one decimal
   * digit and nothing else, and a value that fits in int64.
   */
  function Atoi(s: string): (r: Option<int>)
    ensures r.Some? ==> MinInt64 <= r.value <= MaxInt64
    ensures r.Some? ==> exists k :: 0 <= k < |s| && IsDigit(s[k])
  {
    if |s| == 0 then None
    else
      var digits := if s[0] == '-' || s[0] == '+' then s[1..] else s;
      if |digits| == 0 || !AllDigits(digits) then None
      else
        var n: int := if s[0] == '-' then -(DigitsValue(digits) as int) else DigitsValue(digits);
        if MinInt64 <= n <= MaxInt64 then Some(n) else None
  }

  /** Decimal digits of a natural number, no leading zeros (strconv.Itoa of n >= 0). */
  function NatDigits(n: nat): (s: string)
    ensures |s| >= 1 && AllDigits(s)
  {
    if n < 10 then [('0' as int + n) as char]
    else NatDigits(n / 10) + [('0' as int + n % 10) as char]
  }

  /** strconv.Itoa. */
  function Itoa(n: int): string
  {
    if n < 0 then "-" + NatDigits(-n) else NatDigits(n)
  }

  lemma {:induction false} NatDigitsValue(n: nat)
    ensures DigitsValue(NatDigits(n)) == n
  {
    if n >= 10 {
      var s := NatDigits(n);
      assert s[..|s| - 1] == NatDigits(n / 10);
      NatDigitsValue(n / 10);
    }
  }

  /** Atoi inverts Itoa on the int64 range. */
  lemma AtoiItoa(n: int)
    requires MinInt64 <= n <= MaxInt64
    ensures Atoi(Itoa(n)) == Some(n)
  {
    var s := Itoa(n);
    if n < 0 {
      var d := NatDigits(-n);
      assert s == "-" + d && s[0] == '-' && s[1..] == d;
      NatDigitsValue(-n);
      assert -(DigitsValue(s[1..]) as int) == n;
    } else {
      var d := NatDigits(n);
      assert s == d && IsDigit(s[0]);
      NatDigitsValue(n);
      assert DigitsValue(s) == n;
    }
  }

  // ---------------------------------------------------------------------------
  // CreateECUData

  datatype CreateError = InvalidRPM | InvalidGear | InvalidSpeed | InvalidStatus

  /**
   * The rows on which CreateECUData returns instead of panicking. The length
   * check is commented out in the source, and each field is indexed only once
   * the fields before it have parsed, so a row panics exactly when it ends
   * before the first field that fails to parse.
   */
  predicate NoPanic(values: seq<string>)
  {
    && |values| >= 1
    && (Atoi(values[0]).Some? ==> |values| >= 2)
    && (Atoi(values[0]).Some? && Atoi(values[1]).Some? ==> |values| >= 3)
    && (Atoi(values[0]).Some? && Atoi(values[1]).Some? && Atoi(values[2]).Some? ==> |values| >= 4)
  }

  /**
   * CreateECUData: parse RPM, Gear, Speed and Status from the first four
   * fields, in that order, failing on the first one that is not an integer.
   */
  function CreateECUData(values: seq<string>): (r: Result<ECUData, CreateError>)
    requires NoPanic(values)
    ensures r.Ok? ==> |values| >= 4
    ensures r == Err(InvalidRPM) <==> Atoi(values[0]).None?
    ensures r == Err(InvalidGear) <==> Atoi(values[0]).Some? && Atoi(values[1]).None?
    ensures r == Err(InvalidSpeed) <==> Atoi(values[0]).Some? && Atoi(values[1]).Some? && Atoi(values[2]).None?
    ensures r == Err(InvalidStatus) <==> Atoi(values[0]).Some? && Atoi(values[1]).Some? && Atoi(values[2]).Some? && Atoi(values[3]).None?
    ensures r.Ok? ==> (r.value.isAttack <==> Atoi(values[3]) == Some(1))
    ensures r.Ok? ==> Atoi(values[0]) == Some(r.value.rpm) && Atoi(values[1]) == Some(r.value.gear)
                      && Atoi(values[2]) == Some(r.value.speed)
  {
    if Atoi(values[0]).None? then Err(InvalidRPM)
    else if Atoi(values[1]).None? then Err(InvalidGear)
    else if Atoi(values[2]).None? then Err(InvalidSpeed)
    else if Atoi(values[3]).None? then Err(InvalidStatus)
    else Ok(ECUData(Atoi(values[0]).value, Atoi(values[1]).value, Atoi(values[2]).value, Atoi(values[3]).value == 1))
  }

  /** Short rows fail on the first field that does not parse, before the missing fields are read. */
  lemma ShortRowsFail()
    ensures NoPanic(["abc"]) && CreateECUData(["abc"]) == Err(InvalidRPM)
    ensures NoPanic(["1", "x"]) && CreateECUData(["1", "x"]) == Err(InvalidGear)
  {
  }

  /** Only the first four fields are read: whatever follows them has no effect. */
  lemma CreateECUDataFirstFour(values: seq<string>)
    requires |values| >= 4
    ensures CreateECUData(values) == CreateECUData(values[..4])
  {
  }

  /** A record written out as the four CSV fields the factory reads (status 1 = attack, 0 = normal). */
  function FormatRow(e: ECUData): seq<string>
  {
    [Itoa(e.rpm), Itoa(e.gear), Itoa(e.speed), if e.isAttack then "1" else "0"]
  }

  /** Parsing a formatted record gives it back, and any extra fields are ignored. */
  lemma CreateECUDataRoundTrip(e: ECUData, extra: seq<string>)
    requires MinInt64 <= e.rpm <= MaxInt64 && MinInt64 <= e.gear <= MaxInt64 && MinInt64 <= e.speed <= MaxInt64
    ensures CreateECUData(FormatRow(e) + extra) == Ok(e)
  {
    AtoiItoa(e.rpm);
    AtoiItoa(e.gear);
    AtoiItoa(e.speed);
    AtoiItoa(0);
    AtoiItoa(1);
    var row := FormatRow(e) + extra;
    assert row[..4] == FormatRow(e);
  }

  // ---------------------------------------------------------------------------
  // CreateECUConfigs and the preconfigured detector

  /** CreateECUConfigs: one rule per feature at threshold 0.5; RPM and speed share one fresh gear context. */
  method CreateECUConfigs() returns (configs: seq<FeatureConfig>)
    ensures |configs| == 3
    ensures configs[0].comparator.Some? && configs[0].comparator.value.RPMComparator?
    ensures var e := configs[0].comparator.value.rpmContext;
      && fresh(e) && e.currentGear == 0
      && configs == [FeatureConfig("rpm", 0.5, Some(RPMComparator(e))),
                     FeatureConfig("gear", 0.5, Some(GearComparator)),
                     FeatureConfig("speed", 0.5, Some(SpeedComparator(e)))]
  {
    var ecuComp := new ECUComparator();
    configs := [FeatureConfig("rpm", 0.5, Some(RPMComparator(ecuComp))),
                FeatureConfig("gear", 0.5, Some(GearComparator)),
                FeatureConfig("speed", 0.5, Some(SpeedComparator(ecuComp)))];
  }

  /** The registry AddFeatureConfig builds from `configs`, registered in order. */
  function RegisterAll(configs: seq<FeatureConfig>): map<string, FeatureConfig>
  {
    if |configs| == 0 then map[]
    else RegisterAll(configs[..|configs| - 1])[configs[|configs| - 1].name := WithDefault(configs[|configs| - 1])]
  }

  /** GetSequentialAnomalyDetector: window size 3, empty history, the three ECU rules. */
  method GetSequentialAnomalyDetector() returns (d: WindowDetector)
    ensures fresh(d) && d.Valid()
    ensures d.windowSize == 3 && d.history == [] && d.received == []
    ensures d.featureConfigs.Keys == {"rpm", "gear", "speed"}
    ensures d.featureConfigs["gear"] == FeatureConfig("gear", 0.5, Some(GearComparator))
    ensures d.featureConfigs["rpm"].comparator.Some? && d.featureConfigs["rpm"].comparator.value.RPMComparator?
    ensures var e := d.featureConfigs["rpm"].comparator.value.rpmContext;
      && fresh(e) && e.currentGear == 0
      && d.featureConfigs["rpm"] == FeatureConfig("rpm", 0.5, Some(RPMComparator(e)))
      && d.featureConfigs["speed"] == FeatureConfig("speed", 0.5, Some(SpeedComparator(e)))
  {
    d := new WindowDetector(3);
    var configs := CreateECUConfigs();
    ghost var e := configs[0].comparator.value.rpmContext;
    for i := 0 to |configs|
      invariant d.Valid() && d.windowSize == 3 && d.history == [] && d.received == []
      invariant d.featureConfigs == RegisterAll(configs[..i])
      invariant fresh(e) && e.currentGear == 0
    {
      assert configs[..i + 1][..i] == configs[..i];
      var _ := d.AddFeatureConfig(configs[i]);
    }
    assert configs[..1][..0] == [] && configs[..2][..1] == configs[..1] && configs[..3] == configs;
    assert RegisterAll(configs[..1]) == map["rpm" := configs[0]];
    assert RegisterAll(configs[..2]) == map["rpm" := configs[0], "gear" := configs[1]];
  }

  /** Every ECU record exposes the three rule names, so the ECU detector never reports FeatureNotFound. */
  lemma EcuRecordsExposeEveryRule(e: ECUData, name: string)
    requires name in {"rpm", "gear", "speed"}
    ensures Found(AsSequential(e), name)
  {
    EcuFeatureLookup(e, name);
  }

  /**
   * A worked example: window 3, one RPM rule with the default comparator and
   * threshold 0.5. Two calls fill the window without a verdict;
   * then 1000 -> 1000 is no change.
   */
  method SteadyRpmScenario() returns (r1: Result<bool, DetectError>, r2: Result<bool, DetectError>, r3: Result<bool, DetectError>)
    ensures r1 == Ok(false) && r2 == Ok(false) && r3 == Ok(false)
  {
    var d := new WindowDetector(3);
    var _ := d.AddFeatureConfig(FeatureConfig("rpm", 0.5, None));
    r1 := d.AddData(AsSequential(ECUData(1000, 0, 0, false)));
    r2 := d.AddData(AsSequential(ECUData(1000, 0, 0, false)));
    var last := AsSequential(ECUData(1000, 0, 0, false));
    r3 := d.AddData(last);
    EcuFeatureLookup(ECUData(1000, 0, 0, false), "rpm");
    SingleRuleVerdict(d.history[1], last, "rpm", FeatureConfig("rpm", 0.5, Some(DefaultComparator)), r3);
  }

  /** The same example with 1000 -> 3000 last: a relative change of 2.0 exceeds 0.5 and is reported. */
  method RpmJumpScenario() returns (r1: Result<bool, DetectError>, r2: Result<bool, DetectError>, r3: Result<bool, DetectError>)
    ensures r1 == Ok(false) && r2 == Ok(false) && r3 == Ok(true)
  {
    var d := new WindowDetector(3);
    var _ := d.AddFeatureConfig(FeatureConfig("rpm", 0.5, None));
    r1 := d.AddData(AsSequential(ECUData(1000, 0, 0, false)));
    r2 := d.AddData(AsSequential(ECUData(1000, 0, 0, false)));
    var last := AsSequential(ECUData(3000, 0, 0, false));
    r3 := d.AddData(last);
    EcuFeatureLookup(ECUData(3000, 0, 0, false), "rpm");
    SingleRuleVerdict(d.history[1], last, "rpm", FeatureConfig("rpm", 0.5, Some(DefaultComparator)), r3);
  }
}
