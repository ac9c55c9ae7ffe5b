/**
 * BossOrRaidForUnique: a boss or raid, its chance of a unique per kill and its
 * kills per hour, with the hours to a first and to a second unique; and the
 * "best option" tiles, which take the fastest of a list of such strategies.
 */
module Bosses {
  import opened RealArith
  import opened Estimation

  class BossOrRaidForUnique {
    const name: string
    const uniqueRate: real
    /** Kills (or raids) per hour. */
    const ehb: real
    /** Median kill count for the first unique. */
    const medianKc: nat
    const hoursToUnique: real

    /** The fields as the constructor leaves them. */
    ghost predicate Valid()
    {
      && 0.0 < uniqueRate < 1.0
      && ehb != 0.0
      && IsGeometricMedian(uniqueRate, medianKc)
      && hoursToUnique * ehb == medianKc as real
    }

    constructor(name: string, uniqueRate: real, ehb: real)
      requires 0.0 < uniqueRate < 1.0 && ehb != 0.0
      ensures this.name == name && this.uniqueRate == uniqueRate && this.ehb == ehb
      ensures Valid()
    {
      this.name := name;
      this.uniqueRate := uniqueRate;
      this.ehb := ehb;
      var kc := GeometricMedian(uniqueRate).value;
      this.medianKc := kc;
      this.hoursToUnique := kc as real / ehb;
    }

    /** Hours for scipy's median number of dry kills before the second unique. */
    function HoursForTwoUniques(): (h: real)
      requires Valid()
      ensures h * ehb == MedianKillsNbinom(2, uniqueRate).value as real
      ensures ehb > 0.0 ==> h >= 0.0
    {
      Hours(MedianKillsNbinom(2, uniqueRate).value, ehb).value
    }
  }

  /** Both hour figures are non-negative when the kill rate is positive. */
  lemma HoursNonnegative(b: BossOrRaidForUnique)
    requires b.Valid() && b.ehb > 0.0
    ensures b.hoursToUnique >= 0.0 && b.HoursForTwoUniques() >= 0.0
  {
    assert b.hoursToUnique == Hours(b.medianKc, b.ehb).value;
  }

  /** Two quotients of the same count, the second by twice the divisor. */
  lemma HalfQuotient(e: real, k: real, x: real, y: real)
    requires e != 0.0 && x * e == k && y * (2.0 * e) == k
    ensures y == x / 2.0
  {
    assert (2.0 * y) * e == x * e;
  }

  /** Doubling the kill rate of the same boss halves hours_to_unique. */
  lemma DoubleRateHalvesFirstUnique(a: BossOrRaidForUnique, b: BossOrRaidForUnique)
    requires a.Valid() && b.Valid()
    requires b.uniqueRate == a.uniqueRate && b.ehb == 2.0 * a.ehb
    ensures b.hoursToUnique == a.hoursToUnique / 2.0
  {
    GeometricMedianUnique(a.uniqueRate, a.medianKc, b.medianKc);
    HalfQuotient(a.ehb, a.medianKc as real, a.hoursToUnique, b.hoursToUnique);
  }

  /** Doubling the kill rate of the same boss halves hours_for_two_uniques. */
  lemma DoubleRateHalvesTwoUniques(a: BossOrRaidForUnique, b: BossOrRaidForUnique)
    requires a.Valid() && b.Valid()
    requires b.uniqueRate == a.uniqueRate && b.ehb == 2.0 * a.ehb
    ensures b.HoursForTwoUniques() == a.HoursForTwoUniques() / 2.0
  {
    var k := MedianKillsNbinom(2, a.uniqueRate).value;
    HalfQuotient(a.ehb, k as real, a.HoursForTwoUniques(), b.HoursForTwoUniques());
  }

  /**
   * The second unique is estimated at no fewer kills than the first unique
   * minus one: scipy counts only the dry kills before the second drop, while
   * median_kc counts the drop itself.
   */
  lemma TwoUniquesKills(b: BossOrRaidForUnique)
    requires b.Valid()
    ensures MedianKillsNbinom(2, b.uniqueRate).value + 1 >= b.medianKc
  {
    NbinomOneIsGeometricMinusOne(b.uniqueRate);
    GeometricMedianUnique(b.uniqueRate, b.medianKc, GeometricMedian(b.uniqueRate).value);
    MedianKillsNbinomMonotone(b.uniqueRate, 1);
  }

  /** At a drop rate of 9/10 scipy's median of dry kills before the second drop is 0. */
  lemma NbinomTwoAtNineTenths()
    ensures MedianKillsNbinom(2, 0.9) == Ok(0)
  {
    assert AtLeast(0.9, 1, 1) == Mix(0.9, 1.0, 0.0);
    assert AtLeast(0.9, 2, 2) == Mix(0.9, 0.9, 0.0);
    assert IsNbinomMedian(0.9, 2, 0);
    NbinomMedianUnique(0.9, 2, 0, MedianKillsNbinom(2, 0.9).value);
  }

  /** At a drop rate of 9/10 the median kill count for a first drop is 1. */
  lemma GeometricAtNineTenths()
    ensures GeometricMedian(0.9) == Ok(1)
  {
    assert DryStreak(0.9, 0) == 1.0;
    assert DryStreak(0.9, 1) == Mul(Pow(0.1, 0), 0.1);
    assert IsGeometricMedian(0.9, 1);
    GeometricMedianUnique(0.9, 1, GeometricMedian(0.9).value);
  }

  /**
   * Because of that convention, at a unique rate of 9/10 two uniques are
   * estimated at fewer hours than one.
   */
  lemma TwoUniquesBelowOne(b: BossOrRaidForUnique)
    requires b.Valid() && b.uniqueRate == 0.9 && b.ehb > 0.0
    ensures b.HoursForTwoUniques() == 0.0 < b.hoursToUnique
  {
    NbinomTwoAtNineTenths();
    GeometricAtNineTenths();
    GeometricMedianUnique(0.9, 1, b.medianKc);
    assert b.hoursToUnique == Hours(1, b.ehb).value;
  }

  // ---------------------------------------------------------------------------
  // Best option: min over a list of strategies
  // ---------------------------------------------------------------------------

  /** min(hours): the smallest figure of a non-empty list; Python's min raises on an empty one. */
  function Fastest(hours: seq<real>): (r: Result<real>)
    ensures r.Ok? <==> hours != []
    ensures r.Err? ==> r.error == NoCandidates
    ensures r.Ok? ==> r.value in hours
    ensures r.Ok? ==> forall i :: 0 <= i < |hours| ==> r.value <= hours[i]
  {
    if hours == [] then Err(NoCandidates)
    else if |hours| == 1 then Ok(hours[0])
    else
      var rest := Fastest(hours[1..]).value;
      Ok(if hours[0] <= rest then hours[0] else rest)
  }

  /** The hours to a first unique of each strategy, in list order. */
  function FirstUniqueHours(options: seq<BossOrRaidForUnique>): (hours: seq<real>)
    ensures |hours| == |options|
    ensures forall i :: 0 <= i < |options| ==> hours[i] == options[i].hoursToUnique
  {
    seq(|options|, i requires 0 <= i < |options| => options[i].hoursToUnique)
  }

  /** The hours to two uniques of each strategy, in list order. */
  function TwoUniqueHours(options: seq<BossOrRaidForUnique>): (hours: seq<real>)
    requires forall i :: 0 <= i < |options| ==> options[i].Valid()
    ensures |hours| == |options|
    ensures forall i :: 0 <= i < |options| ==> hours[i] == options[i].HoursForTwoUniques()
  {
    seq(|options|, i requires 0 <= i < |options| => options[i].HoursForTwoUniques())
  }

  /** SLAYER_BOSS_1X_HOURS and RAID_1X_HOURS: the fastest route to one unique. */
  function BestOneUnique(options: seq<BossOrRaidForUnique>): (r: Result<real>)
    ensures r.Ok? <==> options != []
    ensures r.Ok? ==> exists i :: 0 <= i < |options| && r.value == options[i].hoursToUnique
    ensures r.Ok? ==> forall i :: 0 <= i < |options| ==> r.value <= options[i].hoursToUnique
  {
    var hours := FirstUniqueHours(options);
    var r := Fastest(hours);
    assert r.Ok? ==> exists i :: 0 <= i < |hours| && hours[i] == r.value;
    r
  }

  /** SLAYER_BOSS_2X_HOURS and RAID_2X_HOURS: the fastest route to two uniques. */
  function BestTwoUniques(options: seq<BossOrRaidForUnique>): (r: Result<real>)
    requires forall i :: 0 <= i < |options| ==> options[i].Valid()
    ensures r.Ok? <==> options != []
    ensures r.Ok? ==> exists i :: 0 <= i < |options| && r.value == options[i].HoursForTwoUniques()
    ensures r.Ok? ==> forall i :: 0 <= i < |options| ==> r.value <= options[i].HoursForTwoUniques()
  {
    var hours := TwoUniqueHours(options);
    var r := Fastest(hours);
    assert r.Ok? ==> exists i :: 0 <= i < |hours| && hours[i] == r.value;
    r
  }
}
