/**
 * The estimation engine of the tile planner: the median kill count for a
 * first drop (geometric distribution), the median number of dry kills before
 * the r-th drop (negative binomial distribution, in scipy's convention), and
 * the conversion of kill counts into hours.
 *
 * Logarithms, `ceil` and scipy's quantile search are not modelled as floating
 * point: each median is characterised as the least count whose cumulative
 * probability reaches one half, in exact real arithmetic.
 */
module Estimation {
  import opened RealArith

  /**
   * Why an estimate cannot be produced. Most cases are ones where the Python
   * raises; the exceptions are noted on the constructors.
   */
  datatype EstimateError =
    | InvalidRate        // drop rate outside (0, 1): for p = 0 or p >= 1 the closed form raises (log(1) = 0
                         // divisor, log domain error); for p < 0 it yields a count <= 0 instead, and scipy's
                         // nbinom returns 0 at p = 1 -- both are errors in this model
    | InvalidCount       // fewer than one drop asked of scipy: nan, which int() refuses
    | ZeroThroughput     // kills per hour of zero: division by zero
    | NoCandidates       // min() over an empty list of strategies

  datatype Result<T> = Ok(value: T) | Err(error: EstimateError)

  /** The chance of n kills in a row without a drop at drop rate p: (1 - p)^n. */
  function DryStreak(p: real, n: nat): real
  {
    Pow(1.0 - p, n)
  }

  // ---------------------------------------------------------------------------
  // Search bounds: how many kills are certainly enough
  // ---------------------------------------------------------------------------

  /** A kill count M with M p > 2 r, so that (1 - p)^M <= 1 / (2 r). */
  function TrialBound(p: real, r: nat): (m: nat)
    requires 0.0 < p < 1.0 && r >= 1
    ensures m >= 1 && m as real * p > 2.0 * r as real
  {
    var q := 2.0 * r as real / p;
    assert q * p == 2.0 * r as real;
    MulStrictLeft(p, 0.0, q);
    var f := q.Floor;
    assert q < f as real + 1.0;
    MulStrictLeft(p, q, f as real + 1.0);
    f + 1
  }

  lemma TrialBoundSmall(p: real, r: nat)
    requires 0.0 < p < 1.0 && r >= 1
    ensures Mul(r as real, DryStreak(p, TrialBound(p, r))) <= 0.5
  {
    PowBernoulli(p, TrialBound(p, r));
    PowInUnit(1.0 - p, TrialBound(p, r));
    MulLe(Pow(1.0 - p, TrialBound(p, r)), 2.0 * r as real, 1.0 + Mul(TrialBound(p, r) as real, p));
  }

  // ---------------------------------------------------------------------------
  // Geometric median: ceil(log(0.5) / log(1 - p))
  // ---------------------------------------------------------------------------

  /**
   * m is the median kill count for a first drop: the least m >= 1 with
   * (1 - p)^m <= 1/2. For 0 < p < 1 this is exactly ceil(log(0.5) / log(1 - p)),
   * because log(1 - p) < 0 turns m >= log(0.5) / log(1 - p) into
   * m log(1 - p) <= log(0.5).
   */
  ghost predicate IsGeometricMedian(p: real, m: nat)
  {
    && m >= 1
    && DryStreak(p, m) <= 0.5
    && forall k :: 0 <= k < m ==> DryStreak(p, k) > 0.5
  }

  /** A kill count after which a dry streak is still likelier than not is below the search bound. */
  lemma GeometricBelowBound(p: real, m: nat)
    requires 0.0 < p < 1.0
    requires DryStreak(p, m) > 0.5
    ensures m < TrialBound(p, 1)
  {
    TrialBoundSmall(p, 1);
    if m >= TrialBound(p, 1) {
      PowAntitone(1.0 - p, TrialBound(p, 1), m);
    }
  }

  function GeometricSearch(p: real, m: nat): (k: nat)
    requires 0.0 < p < 1.0 && m >= 1
    requires forall j :: 0 <= j < m ==> DryStreak(p, j) > 0.5
    ensures m <= k && IsGeometricMedian(p, k)
    decreases TrialBound(p, 1) - m
  {
    if DryStreak(p, m) <= 0.5 then m
    else
      GeometricBelowBound(p, m);
      GeometricSearch(p, m + 1)
  }

  /** median_kc of BossOrRaidForUnique, and the same closed form used for single-drop tiles. */
  function GeometricMedian(p: real): (r: Result<nat>)
    ensures r.Ok? <==> 0.0 < p < 1.0
    ensures r.Err? ==> r.error == InvalidRate
    ensures r.Ok? ==> IsGeometricMedian(p, r.value)
  {
    if 0.0 < p < 1.0 then Ok(GeometricSearch(p, 1)) else Err(InvalidRate)
  }

  /** The least count is unique. */
  lemma GeometricMedianUnique(p: real, m: nat, m': nat)
    requires IsGeometricMedian(p, m) && IsGeometricMedian(p, m')
    ensures m == m'
  {
  }

  /** A higher drop rate never needs more kills. */
  lemma GeometricMedianAntitone(p: real, p': real)
    requires 0.0 < p <= p' < 1.0
    ensures GeometricMedian(p').value <= GeometricMedian(p).value
  {
    var m := GeometricMedian(p).value;
    PowMonotoneBase(1.0 - p', 1.0 - p, m);
    assert DryStreak(p', m) <= 0.5;
  }

  // ---------------------------------------------------------------------------
  // Negative binomial: scipy's nbinom(r, p) counts the kills WITHOUT a drop
  // before the r-th drop
  // ---------------------------------------------------------------------------

  /** The chance of at least r drops in n kills at drop rate p. */
  function AtLeast(p: real, r: nat, n: nat): real
  {
    if r == 0 then 1.0
    else if n == 0 then 0.0
    else Mix(p, AtLeast(p, r - 1, n - 1), AtLeast(p, r, n - 1))
  }

  /**
   * scipy's nbinom CDF at k: the chance of at most k dry kills before the
   * r-th drop, which is the chance of at least r drops in k + r kills.
   */
  function NbinomCdf(p: real, r: nat, k: nat): real
  {
    AtLeast(p, r, k + r)
  }

  lemma {:induction false} AtLeastInUnit(p: real, r: nat, n: nat)
    requires 0.0 <= p <= 1.0
    ensures 0.0 <= AtLeast(p, r, n) <= 1.0
  {
    if r > 0 && n > 0 {
      AtLeastInUnit(p, r - 1, n - 1);
      AtLeastInUnit(p, r, n - 1);
      MixInUnit(p, AtLeast(p, r - 1, n - 1), AtLeast(p, r, n - 1));
    }
  }

  /** Asking for one more drop never makes it likelier. */
  lemma {:induction false} AtLeastAntitoneCount(p: real, r: nat, n: nat)
    requires 0.0 <= p <= 1.0
    ensures AtLeast(p, r + 1, n) <= AtLeast(p, r, n)
  {
    if n == 0 {
    } else if r == 0 {
      AtLeastInUnit(p, 1, n);
    } else {
      AtLeastAntitoneCount(p, r - 1, n - 1);
      AtLeastAntitoneCount(p, r, n - 1);
      MixMono(p, AtLeast(p, r, n - 1), AtLeast(p, r + 1, n - 1),
                 AtLeast(p, r - 1, n - 1), AtLeast(p, r, n - 1));
    }
  }

  /** A higher drop rate never makes r drops in n kills less likely. */
  lemma {:induction false} AtLeastMonotoneRate(p: real, p': real, r: nat, n: nat)
    requires 0.0 <= p <= p' <= 1.0
    ensures AtLeast(p, r, n) <= AtLeast(p', r, n)
  {
    if r > 0 && n > 0 {
      AtLeastMonotoneRate(p, p', r - 1, n - 1);
      AtLeastMonotoneRate(p, p', r, n - 1);
      AtLeastAntitoneCount(p', r - 1, n - 1);
      MixMono(p, AtLeast(p, r - 1, n - 1), AtLeast(p, r, n - 1),
                 AtLeast(p', r - 1, n - 1), AtLeast(p', r, n - 1));
      MixRateMono(p, p', AtLeast(p', r - 1, n - 1), AtLeast(p', r, n - 1));
    }
  }

  /** One more kill never makes the drops less likely. */
  lemma AtLeastMonotoneKills(p: real, r: nat, n: nat)
    requires 0.0 <= p <= 1.0
    ensures AtLeast(p, r, n) <= AtLeast(p, r, n + 1)
  {
    if r > 0 {
      AtLeastAntitoneCount(p, r - 1, n);
      var a := AtLeast(p, r, n);
      MixMono(p, a, a, AtLeast(p, r - 1, n), a);
      MixSame(p, a);
    }
  }

  lemma {:induction false} AtLeastMonotoneKillsRange(p: real, r: nat, m: nat, n: nat)
    requires 0.0 <= p <= 1.0 && m <= n
    ensures AtLeast(p, r, m) <= AtLeast(p, r, n)
    decreases n - m
  {
    if m < n {
      AtLeastMonotoneKillsRange(p, r, m, n - 1);
      AtLeastMonotoneKills(p, r, n - 1);
    }
  }

  /** r + 1 drops in n + 1 kills are no likelier than r drops in n kills. */
  lemma AtLeastOneMoreOfEach(p: real, r: nat, n: nat)
    requires 0.0 <= p <= 1.0
    ensures AtLeast(p, r + 1, n + 1) <= AtLeast(p, r, n)
  {
    AtLeastAntitoneCount(p, r, n);
    var a := AtLeast(p, r, n);
    MixMono(p, a, AtLeast(p, r + 1, n), a, a);
    MixSame(p, a);
  }

  /** For a single drop the chance is the complement of a dry streak: 1 - (1 - p)^n. */
  lemma {:induction false} AtLeastOneDrop(p: real, n: nat)
    ensures AtLeast(p, 1, n) == 1.0 - DryStreak(p, n)
  {
    if n > 0 {
      AtLeastOneDrop(p, n - 1);
    }
  }

  /** Fewer kills than drops asked: impossible. */
  lemma {:induction false} AtLeastTooFewKills(p: real, r: nat, n: nat)
    requires n < r
    ensures AtLeast(p, r, n) == 0.0
  {
    if n > 0 {
      AtLeastTooFewKills(p, r - 1, n - 1);
      AtLeastTooFewKills(p, r, n - 1);
    }
  }

  /** One kill more, one drop more: the recurrence of AtLeast, stated for any names of the counts. */
  lemma AtLeastStep(p: real, r: nat, n: nat, r': nat, n': nat)
    requires r == r' + 1 && n == n' + 1
    ensures AtLeast(p, r, n) == Mix(p, AtLeast(p, r', n'), AtLeast(p, r, n'))
  {
  }

  /** Scaling both outcomes of a kill by y keeps their bounds. */
  lemma MixScaledBelow(p: real, u: real, v: real, y: real, bigU: real, bigV: real, x: real, z: real)
    requires 0.0 <= p <= 1.0
    requires x == Mix(p, u, v) && z == Mix(p, bigU, bigV)
    requires Mul(u, y) <= bigU && Mul(v, y) <= bigV
    ensures Mul(x, y) <= z
  {
    MixScale(p, u, v, y);
    MixMono(p, u * y, v * y, bigU, bigV);
  }

  /** The inductive step of AtLeastSplit: one kill and one drop fewer in the first stretch. */
  lemma AtLeastSplitStep(p: real, r: nat, s: nat, a: nat, b: nat, r1: nat, a1: nat)
    requires 0.0 <= p <= 1.0 && r == r1 + 1 && a == a1 + 1
    requires Mul(AtLeast(p, r1, a1), AtLeast(p, s, b)) <= AtLeast(p, r1 + s, a1 + b)
    requires Mul(AtLeast(p, r, a1), AtLeast(p, s, b)) <= AtLeast(p, r + s, a1 + b)
    ensures Mul(AtLeast(p, r, a), AtLeast(p, s, b)) <= AtLeast(p, r + s, a + b)
  {
    AtLeastStep(p, r, a, r1, a1);
    AtLeastStep(p, r + s, a + b, r1 + s, a1 + b);
    MixScaledBelow(p, AtLeast(p, r1, a1), AtLeast(p, r, a1), AtLeast(p, s, b),
                   AtLeast(p, r1 + s, a1 + b), AtLeast(p, r + s, a1 + b),
                   AtLeast(p, r, a), AtLeast(p, r + s, a + b));
  }

  /**
   * Splitting the kills into two stretches: r drops in the first a kills and s
   * drops in the next b kills give at least r + s drops in a + b kills.
   */
  lemma {:induction false} AtLeastSplit(p: real, r: nat, s: nat, a: nat, b: nat)
    requires 0.0 <= p <= 1.0
    ensures Mul(AtLeast(p, r, a), AtLeast(p, s, b)) <= AtLeast(p, r + s, a + b)
    decreases a
  {
    if r == 0 {
      AtLeastMonotoneKillsRange(p, s, b, a + b);
    } else if a == 0 {
      AtLeastInUnit(p, r + s, a + b);
    } else {
      var r1, a1 := r - 1, a - 1;
      AtLeastSplit(p, r1, s, a1, b);
      AtLeastSplit(p, r, s, a1, b);
      AtLeastSplitStep(p, r, s, a, b, r1, a1);
    }
  }

  /** r stretches of m kills each, r m kills in all. */
  function Stretches(r: nat, m: nat): (k: nat)
    ensures m >= 1 ==> k >= r
  {
    if r == 0 then 0 else Stretches(r - 1, m) + m
  }

  lemma AtLeastSame(p: real, r: nat, n: nat, r': nat, n': nat)
    requires r == r' && n == n'
    ensures AtLeast(p, r, n) == AtLeast(p, r', n')
  {
  }

  /** r stretches of m kills each: (1 - (1 - p)^m)^r is a lower bound for r drops in r m kills. */
  lemma {:induction false} AtLeastBlocks(p: real, r: nat, m: nat)
    requires 0.0 <= p <= 1.0
    ensures Pow(AtLeast(p, 1, m), r) <= AtLeast(p, r, Stretches(r, m))
  {
    if r > 0 {
      var r1 := r - 1;
      var k := Stretches(r1, m);
      AtLeastBlocks(p, r1, m);
      AtLeastSplit(p, r1, 1, k, m);
      AtLeastInUnit(p, 1, m);
      MulMonoRight(AtLeast(p, 1, m), Pow(AtLeast(p, 1, m), r1), AtLeast(p, r1, k));
      PowStep(AtLeast(p, 1, m), r, r1);
      AtLeastSame(p, r1 + 1, k + m, r, Stretches(r, m));
    }
  }

  /** A count of dry kills at which r drops are at least as likely as not. */
  function NbinomBound(p: real, r: nat): (k: nat)
    requires 0.0 < p < 1.0 && r >= 1
    ensures NbinomCdf(p, r, k) >= 0.5
  {
    EnoughKills(p, r);
    AtLeastSame(p, r, Stretches(r, TrialBound(p, r)) - r + r, r, Stretches(r, TrialBound(p, r)));
    Stretches(r, TrialBound(p, r)) - r
  }

  /** r stretches of TrialBound(p, r) kills each are enough for r drops at least half the time. */
  lemma EnoughKills(p: real, r: nat)
    requires 0.0 < p < 1.0 && r >= 1
    ensures AtLeast(p, r, Stretches(r, TrialBound(p, r))) >= 0.5
  {
    TrialBoundSmall(p, r);
    PowInUnit(1.0 - p, TrialBound(p, r));
    AtLeastOneDrop(p, TrialBound(p, r));
    AtLeastBlocks(p, r, TrialBound(p, r));
    PowBernoulliLower(DryStreak(p, TrialBound(p, r)), r);
  }

  lemma NbinomBelowBound(p: real, r: nat, k: nat)
    requires 0.0 < p < 1.0 && r >= 1
    requires NbinomCdf(p, r, k) < 0.5
    ensures k < NbinomBound(p, r)
  {
    var b := NbinomBound(p, r);
    if k >= b {
      AtLeastMonotoneKillsRange(p, r, b + r, k + r);
    }
  }

  /** k is scipy's median of nbinom(r, p): the least k >= 0 with CDF(k) >= 1/2. */
  ghost predicate IsNbinomMedian(p: real, r: nat, k: nat)
  {
    && NbinomCdf(p, r, k) >= 0.5
    && forall j :: 0 <= j < k ==> NbinomCdf(p, r, j) < 0.5
  }

  function NbinomSearch(p: real, r: nat, k: nat): (m: nat)
    requires 0.0 < p < 1.0 && r >= 1
    requires forall j :: 0 <= j < k ==> NbinomCdf(p, r, j) < 0.5
    ensures k <= m && IsNbinomMedian(p, r, m)
    decreases NbinomBound(p, r) - k
  {
    if NbinomCdf(p, r, k) >= 0.5 then k
    else
      NbinomBelowBound(p, r, k);
      NbinomSearch(p, r, k + 1)
  }

  /** median_kills_nbinom(r, p) = int(ceil(nbinom.ppf(0.5, r, p))). */
  function MedianKillsNbinom(r: int, p: real): (res: Result<nat>)
    ensures res.Ok? <==> r >= 1 && 0.0 < p < 1.0
    ensures res.Err? ==> res.error == (if r < 1 then InvalidCount else InvalidRate)
    ensures res.Ok? ==> IsNbinomMedian(p, r, res.value)
  {
    if r < 1 then Err(InvalidCount)
    else if !(0.0 < p < 1.0) then Err(InvalidRate)
    else Ok(NbinomSearch(p, r, 0))
  }

  lemma NbinomMedianUnique(p: real, r: nat, k: nat, k': nat)
    requires IsNbinomMedian(p, r, k) && IsNbinomMedian(p, r, k')
    ensures k == k'
  {
  }

  /**
   * The two median formulas of vibeslop.py differ by exactly one kill: scipy's
   * nbinom(1, p) counts the dry kills before the drop, the closed form counts
   * the kills including the drop.
   */
  lemma NbinomOneIsGeometricMinusOne(p: real)
    requires 0.0 < p < 1.0
    ensures MedianKillsNbinom(1, p).Ok? && GeometricMedian(p).Ok?
    ensures MedianKillsNbinom(1, p).value + 1 == GeometricMedian(p).value
  {
    var k := MedianKillsNbinom(1, p).value;
    var m := GeometricMedian(p).value;
    AtLeastOneDrop(p, k + 1);
    AtLeastOneDrop(p, m);
    assert DryStreak(p, k + 1) <= 0.5;
    assert m <= k + 1;
    assert NbinomCdf(p, 1, m - 1) >= 0.5;
    assert k <= m - 1;
  }

  /** More drops never need fewer dry kills. */
  lemma MedianKillsNbinomMonotone(p: real, r: nat)
    requires 0.0 < p < 1.0 && r >= 1
    ensures MedianKillsNbinom(r, p).value <= MedianKillsNbinom(r + 1, p).value
  {
    var k' := MedianKillsNbinom(r + 1, p).value;
    AtLeastOneMoreOfEach(p, r, k' + r);
    assert NbinomCdf(p, r, k') >= 0.5;
  }

  /** A higher drop rate never needs more dry kills. */
  lemma MedianKillsNbinomAntitoneRate(r: nat, p: real, p': real)
    requires r >= 1 && 0.0 < p <= p' < 1.0
    ensures MedianKillsNbinom(r, p').value <= MedianKillsNbinom(r, p).value
  {
    var k := MedianKillsNbinom(r, p).value;
    AtLeastMonotoneRate(p, p', r, k + r);
    assert NbinomCdf(p', r, k) >= 0.5;
  }

  /**
   * The kill count the docstring of median_kills_nbinom describes: the median
   * number of kills, dry ones and drops together, to reach r drops.
   */
  function MedianKills(r: int, p: real): (res: Result<nat>)
    ensures res.Ok? <==> r >= 1 && 0.0 < p < 1.0
    ensures res.Ok? ==> res.value >= r
    ensures res.Ok? ==> AtLeast(p, r, res.value) >= 0.5
    ensures res.Ok? ==> forall n :: 0 <= n < res.value ==> AtLeast(p, r, n) < 0.5
  {
    match MedianKillsNbinom(r, p)
    case Err(e) => Err(e)
    case Ok(k) =>
      assert forall n :: 0 <= n < k + r ==> AtLeast(p, r, n) < 0.5 by {
        forall n | 0 <= n < k + r
          ensures AtLeast(p, r, n) < 0.5
        {
          if n < r {
            AtLeastTooFewKills(p, r, n);
          } else {
            assert NbinomCdf(p, r, n - r) < 0.5;
          }
        }
      }
      Ok(k + r)
  }

  /** For one drop, the kill count agrees with the closed form of BossOrRaidForUnique. */
  lemma MedianKillsOneIsGeometric(p: real)
    requires 0.0 < p < 1.0
    ensures MedianKills(1, p) == GeometricMedian(p)
  {
    NbinomOneIsGeometricMinusOne(p);
  }

  // ---------------------------------------------------------------------------
  // Hours
  // ---------------------------------------------------------------------------

  /** kills / kills_per_hour. */
  function Hours(kills: int, perHour: real): (h: Result<real>)
    ensures h.Err? <==> perHour == 0.0
    ensures h.Err? ==> h.error == ZeroThroughput
    ensures h.Ok? ==> h.value * perHour == kills as real
    ensures h.Ok? && kills >= 0 && perHour > 0.0 ==> h.value >= 0.0
  {
    if perHour == 0.0 then Err(ZeroThroughput) else Ok(kills as real / perHour)
  }

  /** Doubling the kill rate halves the hours. */
  lemma HoursHalvedByDoubleRate(kills: int, perHour: real)
    requires perHour != 0.0
    ensures Hours(kills, 2.0 * perHour).value == Hours(kills, perHour).value / 2.0
  {
  }

  /** More kills at the same kill rate never take fewer hours. */
  lemma HoursMonotone(kills: int, kills': int, perHour: real)
    requires kills <= kills' && perHour > 0.0
    ensures Hours(kills, perHour).value <= Hours(kills', perHour).value
  {
    var h, h' := Hours(kills, perHour).value, Hours(kills', perHour).value;
    if h' < h {
      MulStrictLeft(perHour, h', h);
    }
  }

  /** round(int(ceil(nbinom.ppf(0.5, n, p))) / kph, 2), without the rounding. */
  function NbinomHours(n: int, p: real, perHour: real): (h: Result<real>)
    ensures h.Ok? <==> n >= 1 && 0.0 < p < 1.0 && perHour != 0.0
    ensures h.Ok? ==> h.value * perHour == MedianKillsNbinom(n, p).value as real
  {
    match MedianKillsNbinom(n, p)
    case Err(e) => Err(e)
    case Ok(k) => Hours(k, perHour)
  }

  /** More drops asked never take fewer hours. */
  lemma NbinomHoursMonotone(n: nat, p: real, perHour: real)
    requires n >= 1 && 0.0 < p < 1.0 && perHour > 0.0
    ensures NbinomHours(n, p, perHour).value <= NbinomHours(n + 1, p, perHour).value
  {
    MedianKillsNbinomMonotone(p, n);
    HoursMonotone(MedianKillsNbinom(n, p).value, MedianKillsNbinom(n + 1, p).value, perHour);
  }

  /** A higher drop rate never takes more hours at a positive kill rate. */
  lemma NbinomHoursAntitoneRate(n: nat, p: real, p': real, perHour: real)
    requires n >= 1 && 0.0 < p <= p' < 1.0 && perHour > 0.0
    ensures NbinomHours(n, p', perHour).value <= NbinomHours(n, p, perHour).value
  {
    MedianKillsNbinomAntitoneRate(n, p, p');
    HoursMonotone(MedianKillsNbinom(n, p').value, MedianKillsNbinom(n, p).value, perHour);
  }

  const MOONS_RATE: real := 1.0 / 19.0
  const MOONS_PER_HOUR: real := 18.0
  const HUEY_RATE: real := 1.0 / 70.0
  const HUEY_PER_HOUR: real := 20.0
  const DOOM_RATE: real := 1.0 / 50.0
  const DOOM_PER_HOUR: real := 6.0

  /** moons_hours(n): hours for n Moons of Peril uniques. */
  function MoonsHours(n: int): (h: Result<real>)
    ensures h.Ok? <==> n >= 1
    ensures h.Ok? ==> h.value >= 0.0 && h.value * MOONS_PER_HOUR == MedianKillsNbinom(n, MOONS_RATE).value as real
  {
    NbinomHours(n, MOONS_RATE, MOONS_PER_HOUR)
  }

  /** huey_hours(n): hours for n Hueycoatl uniques. */
  function HueyHours(n: int): (h: Result<real>)
    ensures h.Ok? <==> n >= 1
    ensures h.Ok? ==> h.value >= 0.0 && h.value * HUEY_PER_HOUR == MedianKillsNbinom(n, HUEY_RATE).value as real
  {
    NbinomHours(n, HUEY_RATE, HUEY_PER_HOUR)
  }

  /** doom_hours(n): hours for n Doom of Mokhaiotl uniques. */
  function DoomHours(n: int): (h: Result<real>)
    ensures h.Ok? <==> n >= 1
    ensures h.Ok? ==> h.value >= 0.0 && h.value * DOOM_PER_HOUR == MedianKillsNbinom(n, DOOM_RATE).value as real
  {
    NbinomHours(n, DOOM_RATE, DOOM_PER_HOUR)
  }
}
