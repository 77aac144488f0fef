/** The cell record of the server-side engine: type codes, and the mutable Tile object. */
module Tiles {

  // Type codes a tile can carry; the numbers 1..8 are the revealed counts.
  const WALL: int := 0
  const UNREVEALED: int := -1
  const EMPTY: int := -2
  const UNREVEALED_KITTEN: int := -3
  const REVEALED_KITTEN: int := -4

  /** The codes the engine ever writes into a tile. */
  predicate IsTileCode(t: int) {
    t == WALL || t == UNREVEALED || t == EMPTY || t == UNREVEALED_KITTEN
    || t == REVEALED_KITTEN || 1 <= t <= 8
  }

  /** `isRevealed`: every code except the two hidden ones. */
  predicate IsRevealedType(t: int) {
    t != UNREVEALED && t != UNREVEALED_KITTEN
  }

  /** `isKitten`: hidden or shown, the cell holds a kitten. */
  predicate IsKittenType(t: int) {
    t == UNREVEALED_KITTEN || t == REVEALED_KITTEN
  }

  /** Walls, empty cells, numbers and shown kittens are the revealed codes. */
  lemma RevealedCodes(t: int)
    requires IsTileCode(t)
    ensures IsRevealedType(t) <==> (t == WALL || t == EMPTY || t == REVEALED_KITTEN || 1 <= t <= 8)
    ensures !IsRevealedType(t) <==> (t == UNREVEALED || t == UNREVEALED_KITTEN)
  {
  }

  /** Exactly the two kitten codes are kittens, and only a hidden kitten is both hidden and a kitten. */
  lemma KittenCodes(t: int)
    requires IsTileCode(t)
    ensures IsKittenType(t) <==> (t == UNREVEALED_KITTEN || t == REVEALED_KITTEN)
    ensures IsKittenType(t) && !IsRevealedType(t) <==> t == UNREVEALED_KITTEN
    ensures !IsKittenType(t) && !IsRevealedType(t) <==> t == UNREVEALED
  {
  }

  /** The value held by a Tile object. */
  datatype TileState = TileState(tileType: int, flagged: bool, kittenValue: int)

  /** What `toggleFlag` does to a tile's value: only the flag changes. */
  function Toggled(s: TileState): (r: TileState)
    ensures r.flagged == !s.flagged
    ensures r.tileType == s.tileType && r.kittenValue == s.kittenValue
  {
    s.(flagged := !s.flagged)
  }

  /** Toggling twice gives back the tile it started from. */
  lemma ToggledTwice(s: TileState)
    ensures Toggled(Toggled(s)) == s
  {
  }

  class Tile {
    var tileType: int
    var flagged: bool
    var kittenValue: int
    /** The board whose grid holds this tile; it never changes, so no two boards share a tile. */
    ghost const home: object?

    ghost function State(): TileState
      reads this
    {
      TileState(tileType, flagged, kittenValue)
    }

    /** A new tile carries the given type, no flag and kitten value 0. */
    constructor (t: int, ghost home: object?)
      ensures State() == TileState(t, false, 0) && this.home == home
    {
      tileType := t;
      flagged := false;
      kittenValue := 0;
      this.home := home;
    }

    method SetType(t: int)
      modifies this`tileType
      ensures State() == old(State()).(tileType := t)
    {
      tileType := t;
    }

    method SetFlagged(f: bool)
      modifies this`flagged
      ensures State() == old(State()).(flagged := f)
    {
      flagged := f;
    }

    method ToggleFlag()
      modifies this`flagged
      ensures State() == Toggled(old(State()))
    {
      flagged := !flagged;
    }

    method SetKittenValue(v: int)
      modifies this`kittenValue
      ensures State() == old(State()).(kittenValue := v)
    {
      kittenValue := v;
    }

    predicate IsRevealed()
      reads this
    {
      IsRevealedType(tileType)
    }

    predicate IsKitten()
      reads this
    {
      IsKittenType(tileType)
    }
  }
}
