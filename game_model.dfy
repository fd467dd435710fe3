/**
 * The parts of the game model that the view consumes. Coordinate, Colour and
 * the board belong to the game's own packages, which are not modelled; only
 * what the view reads from them is modelled here.
 */
module GameModel {
  import opened Wrappers

  /** The grid is Size by Size cells. */
  const Size := 8

  /** A board position (x, y); the view stores the cell for it at row y, column x. */
  datatype Coordinate = Coordinate(x: int, y: int)

  predicate OnGrid(c: Coordinate) {
    0 <= c.x < Size && 0 <= c.y < Size
  }

  /** The 64 positions of the grid. */
  function Cells(): (cs: set<Coordinate>)
    ensures forall c :: c in cs <==> OnGrid(c)
  {
    var cs := set x, y | 0 <= x < Size && 0 <= y < Size :: Coordinate(x, y);
    assert forall c :: OnGrid(c) ==> Coordinate(c.x, c.y) in cs;
    cs
  }

  /**
   * A constant of the jewel colour enumeration, identified by its name. The
   * enumeration itself is not part of this model: where its set of constants
   * matters, it is passed as a palette, the set of the constants' names.
   */
  datatype Colour = Colour(name: string)

  /** The constant whose image is shown on a cell without a jewel. */
  const Empty := Colour("Empty")

  /** The enumeration's valueOf: None where the name is no constant (Java throws). */
  function ValueOf(palette: set<string>, name: string): (r: Option<Colour>)
    ensures r.Some? <==> name in palette
    ensures r.Some? ==> r.value.name == name
  {
    if name in palette then Some(Colour(name)) else None
  }

  /**
   * What the view reads from the game's board: the image colour of the jewel at
   * a coordinate, or None where the board holds no jewel.
   */
  type Board = Coordinate -> Option<Colour>
}
