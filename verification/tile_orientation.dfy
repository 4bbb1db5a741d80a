/** Turning directions between a placed tile's own frame and the board's
    frame (Placement.TileToGridDir and Placement.GridToTileDir of the tile
    package). Only their behaviour on the four legal orientations is known,
    from the tables in tile/placement_test.go; they are defined here as the
    quarter-turn arithmetic those tables describe. */
module Orientations {
  import opened Directions

  /** A legal clockwise orientation in degrees. */
  type Orientation = o: nat | o < 360 && o % 90 == 0

  /** The number of clockwise quarter turns. */
  function Quarters(o: Orientation): (q: nat)
    ensures q < 4 && o == 90 * q
  {
    if o == 0 then 0 else if o == 90 then 1 else if o == 180 then 2 else 3
  }

  /** The board direction that the tile's edge `d` faces. */
  function TileToGrid(o: Orientation, d: Direction): (g: Direction)
    ensures o == 0 ==> g == d
    ensures o == 180 ==> g == Compliment(d)
  {
    (d + Quarters(o)) % 4
  }

  /** The tile edge that faces board direction `d`. */
  function GridToTile(o: Orientation, d: Direction): (t: Direction)
    ensures o == 0 ==> t == d
    ensures o == 180 ==> t == Compliment(d)
  {
    (d + 4 - Quarters(o)) % 4
  }

  /** The two mappings undo each other. */
  lemma GridToTileUndoesTileToGrid(o: Orientation, d: Direction)
    ensures GridToTile(o, TileToGrid(o, d)) == d
    ensures TileToGrid(o, GridToTile(o, d)) == d
  {
    var q := Quarters(o);
    if d + q < 4 {
      assert TileToGrid(o, d) == d + q;
    } else {
      assert TileToGrid(o, d) == d + q - 4;
    }
    if d >= q {
      assert GridToTile(o, d) == d - q;
    } else {
      assert GridToTile(o, d) == d + 4 - q;
    }
  }

  /** Opposite edges of a tile face opposite board directions. */
  lemma TileToGridKeepsOpposites(o: Orientation, d: Direction)
    ensures TileToGrid(o, Compliment(d)) == Compliment(TileToGrid(o, d))
  {
  }

  /** The rows of the quarter-turn tables. */
  lemma QuarterTurnTables()
    ensures TileToGrid(90, North) == East && TileToGrid(90, East) == South
    ensures TileToGrid(90, South) == West && TileToGrid(90, West) == North
    ensures TileToGrid(270, North) == West && TileToGrid(270, East) == North
    ensures TileToGrid(270, South) == East && TileToGrid(270, West) == South
    ensures GridToTile(90, North) == West && GridToTile(90, East) == North
    ensures GridToTile(90, South) == East && GridToTile(90, West) == South
    ensures GridToTile(270, North) == East && GridToTile(270, East) == South
    ensures GridToTile(270, South) == West && GridToTile(270, West) == North
  {
  }
}
