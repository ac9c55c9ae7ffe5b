# Snakes and ladders tile estimator — a Dafny model

`vibeslop.py` plans a snakes-and-ladders bingo board for Old School RuneScape.
Each board tile asks for a drop, and the script estimates how many hours of
play the drop takes at its median. It then ranks the tiles so that the
slowest tiles are the ones a player skips. This project models the estimation
core of that script and proves properties of the model.

The core is made of these parts:

- **Drop-chance arithmetic.** `combined_rate` gives the chance that at least
  one of several independent rolls on one kill succeeds.
  - `median_kc` on `BossOrRaidForUnique` is the median kill count for a
    first drop. It is `ceil(log 0.5 / log(1 - p))`.
  - `median_kills_nbinom` is scipy's median of `nbinom(r, p)`.
  - Hour figures divide a kill count by a kill rate: `hours_to_unique`,
    `hours_for_two_uniques`, and the moons, huey and doom helpers.
- **Best-of choices.** The slayer-boss and raid tiles take the fastest of a
  list of strategies with `min`.
- **The tile list.**
  - `add_tile`, `add_movement` and `add_free` append records.
  - The list is sorted by tile number.
  - The "Skip Analysis" sheet keeps the `obtain` tiles, ranks them from the
    longest median time to the shortest, and gives each rank a priority band.

Python's `list.sort` is modelled by a stable insertion sort. A sorted order
that keeps equal-key elements in their original order is unique, so any
stable sort returns the same list (`Ordering.StableSortIsSort`).

Logarithms, `ceil` and scipy's quantile search are modelled in exact real
arithmetic rather than as floating point.
- A median is the least count whose cumulative probability reaches one half.
- The geometric median is the least `m >= 1` with `(1 - p)^m <= 1/2`.
- scipy's negative-binomial median is the least `k >= 0` such that there are
  at least `r` drops in `k + r` kills with probability at least one half.
- Both searches are proved to terminate, using explicit bounds from
  Bernoulli's inequality.

scipy's `nbinom` counts the dry kills before the r-th drop, not the kills.
So `median_kills_nbinom(1, p)` is one less than `median_kc`
(`Estimation.NbinomOneIsGeometricMinusOne`). That holds even though the
docstring of `median_kills_nbinom` speaks of "kills".
- The model follows the code.
- `Estimation.MedianKills` gives the kill count the docstring describes. For
  one drop it agrees with `median_kc` (`Estimation.MedianKillsOneIsGeometric`).
- Because of this convention, `hours_for_two_uniques` can be smaller than
  `hours_to_unique`. At a unique rate of 9/10 it is 0 hours
  (`Bosses.TwoUniquesBelowOne`).

`combined_rate` is defined in vibeslop.py but never called. It is modelled all
the same.

Modules:

| file | module | models |
|---|---|---|
| `reals.dfy` | `RealArith` | products, powers, Bernoulli's inequality, products of sequences and their invariance under permutation |
| `combined_rate.dfy` | `CombinedRates` | `combined_rate` |
| `estimation.dfy` | `Estimation` | the two medians, the hour conversions, moons/huey/doom |
| `bosses.dfy` | `Bosses` | `BossOrRaidForUnique`, the slayer-boss and raid `min` selections |
| `ordering.dfy` | `Ordering` | Python's stable `list.sort(key=...)` and list-comprehension filtering |
| `tiles.dfy` | `Tiles` | the tile records, `add_tile`/`add_movement`/`add_free`, the sort by tile number |
| `skip_analysis.dfy` | `SkipAnalysis` | the obtain filter, the ranking by median hours, the priority bands and the sheet rows |

## Model

| member | source | states |
|---|---|---|
| CombinedRates.AtLeastOne | vibeslop.py:14-19 | an empty list of rates gives 0; a single rate gives that rate |
| CombinedRates.CombinedRate | vibeslop.py:14-19 | the loop that multiplies the miss chances returns 1 − (1 − r1)…(1 − rn) |
| CombinedRates.AtLeastOneGrouping | vibeslop.py:14-19 | combining the combined rates of two groups of rolls gives the combined rate of all of them |
| CombinedRates.AtLeastOnePermutation | vibeslop.py:14-19 | any rearrangement of the rates gives the same combined rate |
| CombinedRates.ProbNoneBelowEach | vibeslop.py:14-19 | for rates in [0, 1], missing every roll is no likelier than missing any one roll |
| CombinedRates.AtLeastOneBounds | vibeslop.py:14-19 | for rates in [0, 1], the result is in [0, 1] and at least every single rate |
| CombinedRates.AtLeastOneOpenUnit | vibeslop.py:14-19 | for a non-empty list of rates strictly inside (0, 1), the result is strictly inside (0, 1) |
| Estimation.GeometricMedian | vibeslop.py:71 | for 0 < p < 1, the least m >= 1 with (1 − p)^m <= 1/2; any other rate is an error |
| Estimation.GeometricMedianUnique | vibeslop.py:71 | that least count is unique |
| Estimation.GeometricMedianAntitone | vibeslop.py:71 | a higher drop rate never needs more kills |
| Estimation.MedianKillsNbinom | vibeslop.py:9-11 | for r >= 1 and 0 < p < 1, the least k with P(at most k dry kills before the r-th drop) >= 1/2; otherwise an error naming the bad argument |
| Estimation.NbinomMedianUnique | vibeslop.py:9-11 | that least k is unique |
| Estimation.NbinomOneIsGeometricMinusOne | vibeslop.py:9-11 | for one drop, the scipy median is exactly one less than median_kc |
| Estimation.MedianKillsNbinomMonotone | vibeslop.py:9-11 | asking for one more drop never lowers the median |
| Estimation.AtLeastMonotoneRate | vibeslop.py:9-11 | a higher drop rate never makes r drops in n kills less likely |
| Estimation.MedianKillsNbinomAntitoneRate | vibeslop.py:9-11 | a higher drop rate never raises scipy's median of dry kills |
| Estimation.MedianKills | vibeslop.py:10 | the kill count the docstring describes: the least n with P(at least r drops in n kills) >= 1/2, at least r |
| Estimation.MedianKillsOneIsGeometric | vibeslop.py:10 | for one drop, the docstring's kill count equals median_kc |
| Estimation.AtLeastSplit | vibeslop.py:9-11 | P(r drops in a kills) · P(s drops in b kills) <= P(r + s drops in a + b kills); this bounds the median search |
| Estimation.EnoughKills | vibeslop.py:9-11 | a computable number of kills gives r drops with probability at least one half, so the median exists |
| Estimation.Hours | vibeslop.py:72 | hours times kill rate is the kill count; a zero rate is an error; non-negative for a positive rate |
| Estimation.HoursHalvedByDoubleRate | vibeslop.py:72 | doubling the kill rate halves the hours |
| Estimation.HoursMonotone | vibeslop.py:72 | more kills never take fewer hours at a positive rate |
| Estimation.NbinomHours | vibeslop.py:144 | the scipy median for n drops divided by the kill rate; an error exactly when n < 1, p is outside (0, 1) or the rate is 0 |
| Estimation.NbinomHoursMonotone | vibeslop.py:144 | more drops never take fewer hours |
| Estimation.NbinomHoursAntitoneRate | vibeslop.py:144 | at a positive kill rate, a higher drop rate never takes more hours |
| Estimation.MoonsHours | vibeslop.py:141-144 | for n >= 1, non-negative hours that times 18 kills per hour give the median at rate 1/19; an error for n < 1 |
| Estimation.HueyHours | vibeslop.py:148-151 | the same at rate 1/70 and 20 kills per hour |
| Estimation.DoomHours | vibeslop.py:155-158 | the same at rate 1/50 and 6 kills per hour |
| Bosses.BossOrRaidForUnique.constructor | vibeslop.py:67-72 | stores name, rate and kill rate; median_kc is the geometric median; hours_to_unique times ehb is median_kc |
| Bosses.BossOrRaidForUnique.HoursForTwoUniques | vibeslop.py:74-75 | times ehb gives scipy's median for two drops; non-negative when ehb > 0 |
| Bosses.HoursNonnegative | vibeslop.py:72-75 | with a positive kill rate both hour figures are non-negative |
| Bosses.DoubleRateHalvesFirstUnique | vibeslop.py:72 | the same boss at double the kill rate has half the hours_to_unique |
| Bosses.DoubleRateHalvesTwoUniques | vibeslop.py:74-75 | the same boss at double the kill rate has half the hours_for_two_uniques |
| Bosses.TwoUniquesKills | vibeslop.py:71-75 | the two-unique kill count is at least median_kc − 1 |
| Bosses.NbinomTwoAtNineTenths | vibeslop.py:75 | at rate 9/10, scipy's two-drop median is 0 |
| Bosses.GeometricAtNineTenths | vibeslop.py:71 | at rate 9/10, median_kc is 1 |
| Bosses.TwoUniquesBelowOne | vibeslop.py:72-75 | at rate 9/10, hours_for_two_uniques is 0, below hours_to_unique |
| Bosses.Fastest | vibeslop.py:97 | min over a list: an error on an empty list, otherwise an element of the list that is at most every element |
| Bosses.FirstUniqueHours | vibeslop.py:97 | the hours_to_unique of each strategy, in order |
| Bosses.TwoUniqueHours | vibeslop.py:98 | the hours_for_two_uniques of each strategy, in order |
| Bosses.BestOneUnique | vibeslop.py:97 | SLAYER_BOSS_1X_HOURS and RAID_1X_HOURS (line 115): the hours_to_unique of some strategy, at most that of every strategy; an error for no strategies |
| Bosses.BestTwoUniques | vibeslop.py:98 | SLAYER_BOSS_2X_HOURS and RAID_2X_HOURS (line 116): the same for hours_for_two_uniques |
| Tiles.IntToString | vibeslop.py:46 | the f-string rendering of a tile number: non-empty, with a leading minus exactly for a negative number |
| Tiles.IntToStringRoundTrip | vibeslop.py:46 | reading the rendering back gives the number |
| Tiles.MovementTile | vibeslop.py:42-50 | 0 hours, confidence "n/a", category "movement"; the note is "Move to tile #" followed by a rendering that reads back as the target |
| Tiles.FreeTile | vibeslop.py:52-60 | 0 hours, note "Free tile", confidence "n/a", category "free" |
| Tiles.TileList.constructor | vibeslop.py:30 | the list starts empty |
| Tiles.TileList.AddTile | vibeslop.py:32-40 | appends exactly one record and keeps the earlier ones; the defaults are notes "", confidence "high", category "obtain" |
| Tiles.TileList.AddMovement | vibeslop.py:42-50 | appends exactly one movement record and keeps the earlier ones |
| Tiles.TileList.AddFree | vibeslop.py:52-60 | appends exactly one free record and keeps the earlier ones |
| Tiles.TileList.SortByTile | vibeslop.py:1553 | the new list holds the same records in ascending tile order; records with equal tile numbers keep their order |
| Ordering.SortPermutation | vibeslop.py:1553 | the stable sort returns the same elements, each as often as before |
| Ordering.SortSorted | vibeslop.py:1553 | the stable sort returns its elements in non-decreasing key order |
| Ordering.SortStable | vibeslop.py:1553 | for every key, the elements with that key keep the order they had |
| Ordering.SortedByKeyClasses | vibeslop.py:1553 | two sorted lists whose elements of each key come in the same order are equal |
| Ordering.StableSortIsSort | vibeslop.py:1553 | every sorted list that keeps the order of equal-key elements of s is Sort(s), so the insertion sort gives the same result as Python's stable sort |
| Ordering.FilterMultiset | vibeslop.py:1628 | the filter keeps exactly the elements that pass, each as often as in the input |
| Ordering.FilterSorted | vibeslop.py:1628 | filtering a sorted list leaves it sorted |
| SkipAnalysis.RankSkipCandidates | vibeslop.py:1628-1629 | exactly the obtain records, each as often as in tiles, in non-increasing median hours; records with equal hours keep their order in tiles |
| SkipAnalysis.TiesInTileOrder | vibeslop.py:1628-1629 | after the sort by tile number (line 1553), obtain tiles with equal median hours are ranked in ascending tile order |
| SkipAnalysis.SkipPriority | vibeslop.py:1655-1668 | positions 0–2 get the top band, 3–9 the strong band, 10–19 the consider band and 20 onwards none, each in both directions |
| SkipAnalysis.Label | vibeslop.py:1655-1668 | the column text of each band, "TOP 3 SKIP", "Strong candidate", "Consider" and "", each text naming exactly one band |
| SkipAnalysis.PriorityAntitone | vibeslop.py:1655-1668 | a later row never gets a stronger band |
| SkipAnalysis.BandSizes | vibeslop.py:1655-1668 | among the first n rows, the bands hold min(n, 3), then up to 7, then up to 10 rows, and every row past the 20th is unbanded |
| SkipAnalysis.Upper | vibeslop.py:1652 | upper-cases ASCII lower-case letters and keeps every other character |
| SkipAnalysis.SkipRows | vibeslop.py:1646-1668 | one row per ranked tile, with one-based rank i + 1, the tile's fields, its upper-cased confidence and its band |
| SkipAnalysis.StrongerBandMoreHours | vibeslop.py:1646-1668 | on a ranking from the longest time to the shortest, a row in a stronger band never has fewer hours |

## Left out

- Floating point. Medians, powers and divisions are exact reals. `log`, `ceil` and scipy's numerical quantile search are replaced by the least-count characterisations above. Float rounding near a boundary could shift a Python result by one kill.
- `round(…, 2)` in `add_tile` and in `moons_hours`, `huey_hours` and `doom_hours` is not modelled. Hours are kept exact.
- Estimation.GeometricMedian: every rate outside (0, 1) is an `InvalidRate` error. For p = 0 and p >= 1, Python raises. For a negative rate, Python computes a count of zero or below, which is not modelled.
- Bosses.BossOrRaidForUnique.constructor: requires a rate in (0, 1) and a non-zero kill rate. Python raises for a rate of 0 or at least 1 and for a kill rate of 0. The negative-rate case is left out, as for GeometricMedian.
- Estimation.MedianKillsNbinom: p = 1 is an `InvalidRate` error here, while scipy's `nbinom` accepts it as a point mass at 0 dry kills and `median_kills_nbinom(r, 1.0)` returns 0; no call in vibeslop.py reaches p = 1. Rates of 0 or below, rates above 1 and r < 1 give nan in scipy, which `int()` refuses, and are errors here too.
- The hard-coded data is not modelled: the `SLAYER_BOSSES` and `RAIDS` lists (lines 86-113) and the per-tile rates, kill rates and `add_tile` calls. The selections and the tile list are modelled over arbitrary lists.
- The workbook is not modelled: sheets, fonts, fills, borders, column widths, freeze panes and the auto-filter. The main sheet's write loop is also left out, including `.title()` on categories. The files that are written are not modelled either.
- The free-text notes of individual `add_tile` calls are not modelled.
- SkipAnalysis.Upper: only ASCII letters are upper-cased. Python's `str.upper` also maps non-ASCII letters; every confidence value in vibeslop.py is ASCII.
- Records are Dafny values, not Python dicts. No record is mutated after it is appended, so aliasing plays no part.
- In `add_movement` and `add_free`, `median_hours` is the integer 0. Here it is the real 0.0.
