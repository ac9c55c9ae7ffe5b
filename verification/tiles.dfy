/**
 * The tile list of the planner: one record per board tile, appended by
 * add_tile, add_movement and add_free, and later sorted by tile number.
 */
module Tiles {
  import opened Ordering

  /** One row of the tile list (a dict with these six keys in vibeslop.py). */
  datatype Tile = Tile(
    tile: int,
    description: string,
    medianHours: real,
    notes: string,
    confidence: string,
    category: string)

  /** The sort key of tiles.sort(key=lambda x: x["tile"]). */
  function TileNumber(t: Tile): real
  {
    t.tile as real
  }

  // ---------------------------------------------------------------------------
  // Decimal rendering of tile numbers (the f-string in add_movement)
  // ---------------------------------------------------------------------------

  function Digit(d: nat): (c: char)
    requires d < 10
    ensures '0' <= c <= '9'
  {
    ('0' as int + d) as char
  }

  function DigitValue(c: char): nat
  {
    if '0' <= c <= '9' then (c - '0') as nat else 0
  }

  /** The decimal digits of n, most significant first, without leading zeros. */
  function NatToString(n: nat): (s: string)
    ensures |s| >= 1 && forall i :: 0 <= i < |s| ==> '0' <= s[i] <= '9'
    ensures |s| > 1 ==> s[0] != '0'
  {
    if n < 10 then [Digit(n)] else NatToString(n / 10) + [Digit(n % 10)]
  }

  /** str(i) for a Python int: a minus sign before the digits of a negative number. */
  function IntToString(i: int): (s: string)
    ensures |s| >= 1
    ensures i < 0 <==> s[0] == '-'
  {
    if i < 0 then "-" + NatToString(-i) else NatToString(i)
  }

  /** The number a string of decimal digits denotes. */
  function ParseNat(s: string): nat
  {
    if s == [] then 0 else ParseNat(s[..|s| - 1]) * 10 + DigitValue(s[|s| - 1])
  }

  /** The number IntToString renders, read back. */
  function ParseInt(s: string): int
  {
    if s != [] && s[0] == '-' then -(ParseNat(s[1..]) as int) else ParseNat(s)
  }

  lemma DigitRoundTrip(d: nat)
    requires d < 10
    ensures DigitValue(Digit(d)) == d
  {
  }

  lemma {:induction false} NatToStringRoundTrip(n: nat)
    ensures ParseNat(NatToString(n)) == n
  {
    if n < 10 {
      DigitRoundTrip(n);
      assert [Digit(n)][..0] == [];
    } else {
      var q, d := n / 10, n % 10;
      assert n == q * 10 + d;
      NatToStringRoundTrip(q);
      DigitRoundTrip(d);
      var s := NatToString(q) + [Digit(d)];
      assert s[..|s| - 1] == NatToString(q);
      assert ParseNat(s) == ParseNat(NatToString(q)) * 10 + DigitValue(Digit(d));
    }
  }

  /** Rendering a tile number and reading it back gives the number. */
  lemma IntToStringRoundTrip(i: int)
    ensures ParseInt(IntToString(i)) == i
  {
    if i < 0 {
      var s := NatToString(-i);
      NatToStringRoundTrip(-i);
      assert ("-" + s)[1..] == s;
      assert ParseInt("-" + s) == -(ParseNat(s) as int);
    } else {
      var s := NatToString(i);
      NatToStringRoundTrip(i);
      assert s[0] != '-';
    }
  }

  // ---------------------------------------------------------------------------
  // The records of add_movement and add_free
  // ---------------------------------------------------------------------------

  const MOVE_PREFIX: string := "Move to tile #"

  /** The record add_movement appends: no hours, and a note naming the target tile. */
  function MovementTile(tileNum: int, description: string, target: int): (t: Tile)
    ensures t.tile == tileNum && t.description == description
    ensures t.medianHours == 0.0 && t.confidence == "n/a" && t.category == "movement"
    ensures |t.notes| > |MOVE_PREFIX| && t.notes[..|MOVE_PREFIX|] == MOVE_PREFIX
    ensures ParseInt(t.notes[|MOVE_PREFIX|..]) == target
  {
    var notes := MOVE_PREFIX + IntToString(target);
    assert notes[|MOVE_PREFIX|..] == IntToString(target);
    IntToStringRoundTrip(target);
    Tile(tileNum, description, 0.0, notes, "n/a", "movement")
  }

  /** The record add_free appends: no hours, and the note "Free tile". */
  function FreeTile(tileNum: int, description: string): (t: Tile)
    ensures t.tile == tileNum && t.description == description
    ensures t.medianHours == 0.0 && t.notes == "Free tile" && t.confidence == "n/a" && t.category == "free"
  {
    Tile(tileNum, description, 0.0, "Free tile", "n/a", "free")
  }

  /** The module-level list `tiles` and the functions that append to it. */
  class TileList {
    var tiles: seq<Tile>

    constructor()
      ensures tiles == []
    {
      tiles := [];
    }

    /** add_tile: appends one record; notes, confidence and category have defaults. */
    method AddTile(tileNum: int, description: string, medianHours: real,
                   notes: string := "", confidence: string := "high", category: string := "obtain")
      modifies this
      ensures tiles == old(tiles) + [Tile(tileNum, description, medianHours, notes, confidence, category)]
    {
      tiles := tiles + [Tile(tileNum, description, medianHours, notes, confidence, category)];
    }

    /** add_movement: appends one movement record pointing at target. */
    method AddMovement(tileNum: int, description: string, target: int)
      modifies this
      ensures tiles == old(tiles) + [MovementTile(tileNum, description, target)]
    {
      tiles := tiles + [MovementTile(tileNum, description, target)];
    }

    /** add_free: appends one free record. */
    method AddFree(tileNum: int, description: string)
      modifies this
      ensures tiles == old(tiles) + [FreeTile(tileNum, description)]
    {
      tiles := tiles + [FreeTile(tileNum, description)];
    }

    /**
     * tiles.sort(key=lambda x: x["tile"]): the same records in ascending tile
     * order, records with the same tile number keeping their order.
     */
    method SortByTile()
      modifies this
      ensures tiles == Sort(old(tiles), TileNumber)
      ensures SortedBy(tiles, TileNumber)
      ensures multiset(tiles) == multiset(old(tiles))
      ensures forall k :: KeyClass(tiles, TileNumber, k) == KeyClass(old(tiles), TileNumber, k)
    {
      SortSorted(tiles, TileNumber);
      SortPermutation(tiles, TileNumber);
      forall k
        ensures KeyClass(Sort(tiles, TileNumber), TileNumber, k) == KeyClass(tiles, TileNumber, k)
      {
        SortStable(tiles, TileNumber, k);
      }
      tiles := Sort(tiles, TileNumber);
    }
  }
}
