/**
 * The grid-updating, dispatching and observer part of the Gui frame: an 8x8
 * array of buttons indexed [y][x], the operations that overwrite their icons,
 * the click dispatcher, and the four observer callbacks that hand a task to the
 * single-thread executor.
 */
module GuiModel {
  import opened Wrappers
  import opened GameModel
  import opened GridView

  /** A cell widget, reduced to its identity and the icon it shows. */
  class Button {
    var icon: Icon

    constructor ()
      ensures icon == None
    {
      icon := None;
    }
  }

  /**
   * The view tasks the observer callbacks submit, each with the arguments of
   * its notification. Their bodies are not part of this model.
   */
  datatype Task =
    | SwapJewelAction(a: Coordinate, b: Coordinate)
    | ClearJewelAction(coordinates: seq<Coordinate>)
    | DropDownAction(from: Coordinate, to: Coordinate)
    | FillJewelAction(coordinate: Coordinate)

  class Gui {
    /** allButtons[y, x] is the button of Coordinate(x, y). */
    const allButtons: array2<Button?>
    /** The tasks submitted to the single-thread executor, oldest first. */
    var executor: seq<Task>
    /** The buttons held by allButtons. */
    ghost var buttons: set<Button>

    /** Every cell holds a button of its own. */
    ghost predicate Valid()
      reads this, allButtons
    {
      && allButtons.Length0 == Size && allButtons.Length1 == Size
      && (forall y, x :: 0 <= y < Size && 0 <= x < Size ==>
            allButtons[y, x] != null && allButtons[y, x] in buttons)
      && (forall y, x, y', x' ::
            0 <= y < Size && 0 <= x < Size && 0 <= y' < Size && 0 <= x' < Size &&
            allButtons[y, x] == allButtons[y', x']
            ==> y == y' && x == x')
    }

    /** The icon each cell shows. */
    ghost function View(): (v: View)
      reads this, allButtons, buttons
      requires Valid()
      ensures Complete(v)
    {
      map c | c in Cells() :: allButtons[c.y, c.x].icon
    }

    /** Builds the buttons, then shows every cell's image of the board. */
    constructor (board: Board)
      ensures Valid() && fresh(allButtons) && fresh(buttons)
      ensures View() == Projection(board)
      ensures executor == []
    {
      allButtons := new Button?[Size, Size];
      executor := [];
      new;
      CreateButtons();
      CreateGridPane(board);
    }

    /** Fills every entry of allButtons with a fresh button (the loop runs x outer, y inner). */
    method CreateButtons()
      requires allButtons.Length0 == Size && allButtons.Length1 == Size
      modifies allButtons, this`buttons
      ensures Valid() && fresh(buttons)
      ensures View() == map c | c in Cells() :: None
    {
      buttons := {};
      for x := 0 to Size
        invariant fresh(buttons)
        invariant forall i, j :: 0 <= i < x && 0 <= j < Size ==>
                    allButtons[i, j] != null && allButtons[i, j] in buttons && allButtons[i, j].icon == None
        invariant forall i, j, i', j' ::
                    0 <= i < x && 0 <= j < Size && 0 <= i' < x && 0 <= j' < Size &&
                    allButtons[i, j] == allButtons[i', j']
                    ==> i == i' && j == j'
      {
        for y := 0 to Size
          invariant fresh(buttons)
          invariant forall i, j :: (0 <= i < x && 0 <= j < Size) || (i == x && 0 <= j < y) ==>
                      allButtons[i, j] != null && allButtons[i, j] in buttons && allButtons[i, j].icon == None
          invariant forall i, j, i', j' ::
                      ((0 <= i < x && 0 <= j < Size) || (i == x && 0 <= j < y)) &&
                      ((0 <= i' < x && 0 <= j' < Size) || (i' == x && 0 <= j' < y)) &&
                      allButtons[i, j] == allButtons[i', j']
                      ==> i == i' && j == j'
        {
          var button := new Button();
          allButtons[x, y] := button;
          buttons := buttons + {button};
        }
      }
    }

    /** Shows every cell's image of the board, row by row; the layout work is not modelled. */
    method CreateGridPane(board: Board)
      requires Valid()
      modifies buttons
      ensures Valid()
      ensures View() == Projection(board)
    {
      BoardChanged(board);
    }

    /**
     * Finds the clicked button in row-major order and returns the coordinate
     * forwarded to the game's processJewel, or None when no cell matches.
     */
    method ActionPerformed(source: object) returns (forwarded: Option<Coordinate>)
      requires allButtons.Length0 == Size && allButtons.Length1 == Size
      ensures forwarded.Some? ==>
                OnGrid(forwarded.value) && allButtons[forwarded.value.y, forwarded.value.x] == source
      ensures forwarded.Some? ==>
                forall c :: OnGrid(c) && (c.y < forwarded.value.y || (c.y == forwarded.value.y && c.x < forwarded.value.x)) ==>
                  allButtons[c.y, c.x] != source
      ensures forwarded.None? <==> forall c :: OnGrid(c) ==> allButtons[c.y, c.x] != source
      ensures Valid() && forwarded.Some? ==>
                forall c :: OnGrid(c) && allButtons[c.y, c.x] == source ==> c == forwarded.value
    {
      for y := 0 to Size
        invariant forall c :: OnGrid(c) && c.y < y ==> allButtons[c.y, c.x] != source
      {
        for x := 0 to Size
          invariant forall c :: OnGrid(c) && (c.y < y || (c.y == y && c.x < x)) ==> allButtons[c.y, c.x] != source
        {
          if allButtons[y, x] == source {
            return Some(Coordinate(x, y));
          }
        }
      }
      return None;
    }

    /** Shows the board's image for coord: its jewel's colour, or Empty without a jewel. */
    method SetJewelImage(board: Board, coord: Coordinate)
      requires Valid() && OnGrid(coord)
      modifies allButtons[coord.y, coord.x]
      ensures Valid()
      ensures View() == SetJewel(old(View()), board, coord)
    {
      var jewel := board(coord);
      var icon;
      if jewel.None? {
        icon := Empty;
      } else {
        icon := jewel.value;
      }
      allButtons[coord.y, coord.x].icon := Some(icon);
    }

    /** Shows the highlighted variant of the image of the jewel at coord. */
    method HighLightJewel(board: Board, palette: set<string>, coord: Coordinate)
      requires Valid() && OnGrid(coord)
      requires HighlightColour(board, palette, coord).Ok?
      modifies allButtons[coord.y, coord.x]
      ensures Valid()
      ensures View() == Highlight(old(View()), board, palette, coord)
    {
      var colour := board(coord).value;
      var hl := ValueOf(palette, colour.name + "HL").value;
      allButtons[coord.y, coord.x].icon := Some(hl);
    }

    /** Shows the Empty image at coord, whatever the board holds. */
    method ClearJewelImage(coord: Coordinate)
      requires Valid() && OnGrid(coord)
      modifies allButtons[coord.y, coord.x]
      ensures Valid()
      ensures View() == ClearCell(old(View()), coord)
    {
      allButtons[coord.y, coord.x].icon := Some(Empty);
    }

    /** Redraws all 64 cells from the board, row by row. */
    method BoardChanged(board: Board)
      requires Valid()
      modifies buttons
      ensures Valid()
      ensures View() == Projection(board)
    {
      for y := 0 to Size
        invariant Valid()
        invariant forall c :: OnGrid(c) && c.y < y ==> View()[c] == Some(NormalColour(board, c))
      {
        for x := 0 to Size
          invariant Valid()
          invariant forall c :: OnGrid(c) && (c.y < y || (c.y == y && c.x < x)) ==>
                      View()[c] == Some(NormalColour(board, c))
        {
          SetJewelImage(board, Coordinate(x, y));
        }
      }
    }

    /** Highlights coord, then restores the normal image of the previous selection, if any. */
    method JewelSelected(board: Board, palette: set<string>, coord: Coordinate, previous: Option<Coordinate>)
      requires Valid() && OnGrid(coord)
      requires previous.Some? ==> OnGrid(previous.value)
      requires HighlightColour(board, palette, coord).Ok?
      modifies buttons
      ensures Valid()
      ensures View() == Select(old(View()), board, palette, coord, previous)
    {
      HighLightJewel(board, palette, coord);
      if previous.Some? {
        SetJewelImage(board, previous.value);
      }
    }

    /** Submits a swap task; the grid is not touched. */
    method JewelsSwapped(a: Coordinate, b: Coordinate)
      requires Valid()
      modifies this`executor
      ensures Valid() && View() == old(View())
      ensures executor == old(executor) + [SwapJewelAction(a, b)]
    {
      executor := executor + [SwapJewelAction(a, b)];
    }

    /** Submits a clear task for the listed coordinates; the grid is not touched. */
    method JewelsCleared(coordinates: seq<Coordinate>)
      requires Valid()
      modifies this`executor
      ensures Valid() && View() == old(View())
      ensures executor == old(executor) + [ClearJewelAction(coordinates)]
    {
      executor := executor + [ClearJewelAction(coordinates)];
    }

    /** Submits a drop task; the grid is not touched. */
    method JewelDropped(from: Coordinate, to: Coordinate)
      requires Valid()
      modifies this`executor
      ensures Valid() && View() == old(View())
      ensures executor == old(executor) + [DropDownAction(from, to)]
    {
      executor := executor + [DropDownAction(from, to)];
    }

    /** Submits a fill task; the grid is not touched. */
    method CoordinateFilled(coordinate: Coordinate)
      requires Valid()
      modifies this`executor
      ensures Valid() && View() == old(View())
      ensures executor == old(executor) + [FillJewelAction(coordinate)]
    {
      executor := executor + [FillJewelAction(coordinate)];
    }
  }
}
