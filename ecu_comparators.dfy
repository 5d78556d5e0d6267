/**
 * The physical-rule comparators of ecu/feature_config.go. Each one scores the
 * change between two consecutive readings of one feature with 0.0 (plausible)
 * or 1.0 (violation). The RPM and speed rules depend on the gear that is
 * currently engaged, held in a shared, mutable ECUComparator object.
 * The readings are Go ints converted to float64; they are modelled as `int`.
 */
module EcuComparators {

  function Abs(x: int): nat { if x < 0 then -x else x }

  /** Highest plausible RPM per gear; Go reads a missing key as 0. */
  const MaxRPMPerGear: map<int, int> := map[1 := 4000, 2 := 3500, 3 := 3000, 4 := 2500, 5 := 2000]

  /** Plausible [low, high] speed band per gear; Go reads a missing key as [0, 0]. */
  const SpeedRangePerGear: map<int, (int, int)> :=
    map[1 := (0, 20), 2 := (15, 40), 3 := (30, 70), 4 := (50, 100), 5 := (70, 150)]

  /** RPM above which the driver should have shifted up, per gear (gears 1 to 4 only). */
  const ShiftUpRPM: map<int, int> := map[1 := 3000, 2 := 2800, 3 := 2500, 4 := 2200]

  function MaxRPM(gear: int): int { if gear in MaxRPMPerGear then MaxRPMPerGear[gear] else 0 }

  function SpeedRange(gear: int): (int, int) { if gear in SpeedRangePerGear then SpeedRangePerGear[gear] else (0, 0) }

  /**
   * The shared gear context. Its tables are fixed at construction, so they are
   * the module constants above; only `currentGear` changes.
   */
  class ECUComparator {
    var currentGear: int

    /** NewECUComparator: the gear starts at Go's zero value. */
    constructor ()
      ensures currentGear == 0
    {
      currentGear := 0;
    }

    method SetCurrentGear(gear: int)
      modifies this
      ensures currentGear == gear
    {
      currentGear := gear;
    }

    /** RPMComparator.Compare: the first violated rule decides. */
    function RpmScore(prev: int, current: int): (r: real)
      reads this
      ensures r == 0.0 || r == 1.0
    {
      if Abs(current - prev) > 1000 then 1.0
      else if current < 800 && currentGear > 0 then 1.0
      else if currentGear > 0 && current > MaxRPM(currentGear) then 1.0
      else if currentGear > 1 && current < 1500 then 1.0
      else if currentGear in ShiftUpRPM && current > ShiftUpRPM[currentGear] then 1.0
      else 0.0
    }

    /** SpeedComparator.Compare. */
    function SpeedScore(prev: int, current: int): (r: real)
      reads this
      ensures r == 0.0 || r == 1.0
    {
      if Abs(current - prev) > 5 then 1.0
      else if currentGear > 0 && (current < SpeedRange(currentGear).0 || current > SpeedRange(currentGear).1) then 1.0
      else 0.0
    }
  }

  /** GearComparator.Compare: it has no gear context of its own. */
  function GearScore(prev: int, current: int): (r: real)
    ensures r == 0.0 || r == 1.0
    ensures r == 1.0 <==> Abs(current - prev) > 1 || !(0 <= current <= 5)
  {
    if Abs(current - prev) > 1 then 1.0
    else if current < 0 || current > 5 then 1.0
    else 0.0
  }

  /** A jump of more than 1000 RPM in one tick is a violation whatever the gear. */
  lemma RpmJumpAlwaysViolates(c: ECUComparator, prev: int, current: int)
    requires Abs(current - prev) > 1000
    ensures c.RpmScore(prev, current) == 1.0
  {
  }

  /**
   * With no gear engaged (0, the value NewECUComparator leaves and the only one
   * the shown callers ever use) or a negative gear, only the jump rule applies.
   */
  lemma RpmWithoutGear(c: ECUComparator, prev: int, current: int)
    requires c.currentGear <= 0
    ensures c.RpmScore(prev, current) == 1.0 <==> Abs(current - prev) > 1000
  {
  }

  /** The violations a positive gear adds, and that nothing else violates. */
  lemma RpmWithGear(c: ECUComparator, prev: int, current: int)
    requires c.currentGear > 0
    ensures current < 800 ==> c.RpmScore(prev, current) == 1.0
    ensures current > MaxRPM(c.currentGear) ==> c.RpmScore(prev, current) == 1.0
    ensures c.currentGear > 1 && current < 1500 ==> c.RpmScore(prev, current) == 1.0
    ensures 1 <= c.currentGear <= 4 && current > ShiftUpRPM[c.currentGear] ==> c.RpmScore(prev, current) == 1.0
    ensures c.RpmScore(prev, current) == 1.0 ==>
      Abs(current - prev) > 1000 || current < 800 || current > MaxRPM(c.currentGear)
      || (c.currentGear > 1 && current < 1500)
      || (1 <= c.currentGear <= 4 && current > ShiftUpRPM[c.currentGear])
  {
  }

  /** A gear with no table entry (above 5) has ceiling 0, so any positive RPM violates. */
  lemma RpmUnknownGearViolates(c: ECUComparator, prev: int, current: int)
    requires c.currentGear > 5 && current > 0
    ensures c.RpmScore(prev, current) == 1.0
  {
  }

  /** Speed violates iff it jumps by more than 5 or leaves the engaged gear's band. */
  lemma SpeedRule(c: ECUComparator, prev: int, current: int)
    ensures c.SpeedScore(prev, current) == 1.0 <==>
      Abs(current - prev) > 5
      || (c.currentGear > 0 && !(SpeedRange(c.currentGear).0 <= current <= SpeedRange(c.currentGear).1))
    ensures c.currentGear > 5 && current != 0 ==> c.SpeedScore(prev, current) == 1.0
  {
  }
}
