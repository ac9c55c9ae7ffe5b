/**
 * The "Skip Analysis" sheet: the obtain tiles ranked from the longest to the
 * shortest median time, each with its rank and a skip-priority band.
 */
module SkipAnalysis {
  import opened Ordering
  import opened Tiles

  function IsObtain(t: Tile): bool
  {
    t.category == "obtain"
  }

  /** The key of a sort by median_hours with reverse=True: ascending in minus the hours. */
  function NegHours(t: Tile): real
  {
    -t.medianHours
  }

  /**
   * obtain_tiles: the obtain records of tiles, then sorted by median_hours,
   * longest first. Python's sort stays stable under reverse=True, so records
   * with equal hours keep the order they had in tiles.
   */
  method RankSkipCandidates(tiles: seq<Tile>) returns (ranked: seq<Tile>)
    ensures ranked == Sort(Filter(tiles, IsObtain), NegHours)
    ensures forall t :: multiset(ranked)[t] == if t.category == "obtain" then multiset(tiles)[t] else 0
    ensures forall i, j :: 0 <= i < j < |ranked| ==> ranked[i].medianHours >= ranked[j].medianHours
    ensures forall h :: KeyClass(ranked, NegHours, h) == KeyClass(Filter(tiles, IsObtain), NegHours, h)
  {
    ranked := Filter(tiles, IsObtain);
    FilterMultiset(tiles, IsObtain);
    SortPermutation(ranked, NegHours);
    SortSorted(ranked, NegHours);
    forall h
      ensures KeyClass(Sort(ranked, NegHours), NegHours, h) == KeyClass(ranked, NegHours, h)
    {
      SortStable(ranked, NegHours, h);
    }
    ranked := Sort(ranked, NegHours);
  }

  /**
   * After tiles.sort by tile number, obtain tiles with equal median hours are
   * ranked in ascending tile order.
   */
  lemma TiesInTileOrder(tiles: seq<Tile>)
    requires SortedBy(tiles, TileNumber)
    ensures var ranked := Sort(Filter(tiles, IsObtain), NegHours);
      forall i, j :: 0 <= i < j < |ranked| && ranked[i].medianHours == ranked[j].medianHours ==>
        ranked[i].tile <= ranked[j].tile
  {
    var obtain := Filter(tiles, IsObtain);
    var ranked := Sort(obtain, NegHours);
    FilterSorted(tiles, IsObtain, TileNumber);
    forall i, j | 0 <= i < j < |ranked| && ranked[i].medianHours == ranked[j].medianHours
      ensures ranked[i].tile <= ranked[j].tile
    {
      var h := NegHours(ranked[j]);
      var i', j' := KeyClassOrder(ranked, NegHours, i, j);
      SortStable(obtain, NegHours, h);
      KeyClassSorted(obtain, NegHours, h, TileNumber);
      assert TileNumber(KeyClass(obtain, NegHours, h)[i']) <= TileNumber(KeyClass(obtain, NegHours, h)[j']);
    }
  }

  // ---------------------------------------------------------------------------
  // Skip priority bands
  // ---------------------------------------------------------------------------

  datatype Priority = TopThreeSkip | StrongCandidate | Consider | NoPriority

  /** The text written in the Skip Priority column; each band has its own text. */
  function Label(p: Priority): (l: string)
    ensures p == TopThreeSkip <==> l == "TOP 3 SKIP"
    ensures p == StrongCandidate <==> l == "Strong candidate"
    ensures p == Consider <==> l == "Consider"
    ensures p == NoPriority <==> l == ""
  {
    match p
    case TopThreeSkip => "TOP 3 SKIP"
    case StrongCandidate => "Strong candidate"
    case Consider => "Consider"
    case NoPriority => ""
  }

  /** How strongly a band recommends skipping, from 3 down to 0. */
  function Strength(p: Priority): nat
  {
    match p
    case TopThreeSkip => 3
    case StrongCandidate => 2
    case Consider => 1
    case NoPriority => 0
  }

  /** The band of the row at zero-based position i of the ranking. */
  function SkipPriority(i: nat): (p: Priority)
    ensures p == TopThreeSkip <==> i < 3
    ensures p == StrongCandidate <==> 3 <= i < 10
    ensures p == Consider <==> 10 <= i < 20
    ensures p == NoPriority <==> 20 <= i
  {
    if i < 3 then TopThreeSkip
    else if i < 10 then StrongCandidate
    else if i < 20 then Consider
    else NoPriority
  }

  /** Later rows never get a stronger band. */
  lemma PriorityAntitone(i: nat, j: nat)
    requires i <= j
    ensures Strength(SkipPriority(j)) <= Strength(SkipPriority(i))
  {
  }

  /** How many of the first n rows fall in band p. */
  function CountBand(n: nat, p: Priority): nat
  {
    if n == 0 then 0
    else CountBand(n - 1, p) + (if SkipPriority(n - 1) == p then 1 else 0)
  }

  /** The number of rows of positions [lo, hi) among the first n. */
  function Overlap(n: nat, lo: nat, hi: nat): nat
    requires lo <= hi
  {
    if n <= lo then 0 else if n >= hi then hi - lo else n - lo
  }

  /** The bands hold at most 3, 7 and 10 rows, and every row past the 20th is unbanded. */
  lemma {:induction false} BandSizes(n: nat)
    ensures CountBand(n, TopThreeSkip) == Overlap(n, 0, 3)
    ensures CountBand(n, StrongCandidate) == Overlap(n, 3, 10)
    ensures CountBand(n, Consider) == Overlap(n, 10, 20)
    ensures CountBand(n, NoPriority) == if n <= 20 then 0 else n - 20
  {
    if n > 0 {
      BandSizes(n - 1);
    }
  }

  // ---------------------------------------------------------------------------
  // The rows of the sheet
  // ---------------------------------------------------------------------------

  datatype SkipRow = SkipRow(
    rank: nat,
    tile: int,
    description: string,
    medianHours: real,
    confidence: string,
    priority: Priority)

  /** Python's str.upper on ASCII letters. */
  function Upper(s: string): (u: string)
    ensures |u| == |s|
    ensures forall i :: 0 <= i < |s| ==> ('a' <= s[i] <= 'z' ==> u[i] as int == s[i] as int - 32)
    ensures forall i :: 0 <= i < |s| ==> (!('a' <= s[i] <= 'z') ==> u[i] == s[i])
  {
    seq(|s|, i requires 0 <= i < |s| => if 'a' <= s[i] <= 'z' then (s[i] as int - 32) as char else s[i])
  }

  /** One row per ranked tile: its one-based rank, its fields and its band. */
  function SkipRows(ranked: seq<Tile>): (rows: seq<SkipRow>)
    ensures |rows| == |ranked|
    ensures forall i :: 0 <= i < |rows| ==>
      rows[i] == SkipRow(i + 1, ranked[i].tile, ranked[i].description, ranked[i].medianHours,
                         Upper(ranked[i].confidence), SkipPriority(i))
  {
    seq(|ranked|, i requires 0 <= i < |ranked| =>
      SkipRow(i + 1, ranked[i].tile, ranked[i].description, ranked[i].medianHours,
              Upper(ranked[i].confidence), SkipPriority(i)))
  }

  /** On a ranking longest first, a stronger band always marks at least as many hours. */
  lemma StrongerBandMoreHours(ranked: seq<Tile>)
    requires forall i, j :: 0 <= i < j < |ranked| ==> ranked[i].medianHours >= ranked[j].medianHours
    ensures var rows := SkipRows(ranked);
      forall i, j :: 0 <= i < |rows| && 0 <= j < |rows| && Strength(rows[i].priority) > Strength(rows[j].priority) ==>
        rows[i].medianHours >= rows[j].medianHours
  {
    var rows := SkipRows(ranked);
    forall i, j | 0 <= i < |rows| && 0 <= j < |rows| && Strength(rows[i].priority) > Strength(rows[j].priority)
      ensures rows[i].medianHours >= rows[j].medianHours
    {
      if j <= i {
        PriorityAntitone(j, i);
      }
    }
  }
}
