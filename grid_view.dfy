/**
 * The abstract state of the 8x8 grid of cell widgets: for each coordinate, the
 * icon its button shows, named by the colour key the icon was fetched under.
 * The functions here say what each grid-updating operation of the view does to
 * that state; the Gui class is proved against them.
 */
module GridView {
  import opened Wrappers
  import opened GameModel

  /** A button's icon: the colour key of its image, or None before its first setIcon. */
  type Icon = Option<Colour>

  /** The icons of the grid, by coordinate. */
  type View = map<Coordinate, Icon>

  predicate Complete(v: View) {
    v.Keys == Cells()
  }

  /** The key setJewelImage fetches for c: the jewel's image colour, or Empty without a jewel. */
  function NormalColour(board: Board, c: Coordinate): (r: Colour)
    ensures board(c).None? ==> r == Empty
    ensures board(c).Some? ==> r == board(c).value
  {
    match board(c)
    case None => Empty
    case Some(colour) => colour
  }

  /** setJewelImage(c): c shows the board's image for it. */
  function SetJewel(v: View, board: Board, c: Coordinate): (r: View)
    ensures r.Keys == v.Keys + {c}
    ensures r[c] == Some(NormalColour(board, c))
    ensures forall d :: d in v && d != c ==> r[d] == v[d]
  {
    v[c := Some(NormalColour(board, c))]
  }

  /** clearJewelImage(c): c shows the Empty image, whatever the board holds. */
  function ClearCell(v: View, c: Coordinate): (r: View)
    ensures r.Keys == v.Keys + {c}
    ensures r[c] == Some(Empty)
    ensures forall d :: d in v && d != c ==> r[d] == v[d]
  {
    v[c := Some(Empty)]
  }

  /** Why highLightJewel throws: no jewel to dereference, or no highlighted constant. */
  datatype Fault = NoJewel(at: Coordinate) | NoHighlight(name: string)

  /**
   * The key highLightJewel fetches for c: the constant named by the jewel's
   * colour followed by "HL".
   */
  function HighlightColour(board: Board, palette: set<string>, c: Coordinate): (r: Result<Colour, Fault>)
    ensures board(c).None? ==> r == Err(NoJewel(c))
    ensures board(c).Some? ==>
              (r.Ok? <==> board(c).value.name + "HL" in palette)
    ensures board(c).Some? && r.Err? ==> r == Err(NoHighlight(board(c).value.name + "HL"))
    ensures r.Ok? ==> board(c).Some? && r.value.name == board(c).value.name + "HL"
  {
    match board(c)
    case None => Err(NoJewel(c))
    case Some(colour) =>
      match ValueOf(palette, colour.name + "HL")
      case None => Err(NoHighlight(colour.name + "HL"))
      case Some(hl) => Ok(hl)
  }

  /** highLightJewel(c): c shows the highlighted variant of its jewel's image. */
  function Highlight(v: View, board: Board, palette: set<string>, c: Coordinate): (r: View)
    requires HighlightColour(board, palette, c).Ok?
    ensures r.Keys == v.Keys + {c}
    ensures r[c] == Some(Colour(board(c).value.name + "HL"))
    ensures forall d :: d in v && d != c ==> r[d] == v[d]
  {
    v[c := Some(HighlightColour(board, palette, c).value)]
  }

  /**
   * jewelSelected(c, previous): highlight c, then restore the previous
   * selection's normal image. When previous is c itself, the restore wins.
   */
  function Select(v: View, board: Board, palette: set<string>, c: Coordinate, previous: Option<Coordinate>): (r: View)
    requires HighlightColour(board, palette, c).Ok?
    ensures r.Keys == v.Keys + {c} + (if previous.Some? then {previous.value} else {})
    ensures previous != Some(c) ==> r[c] == Some(HighlightColour(board, palette, c).value)
    ensures previous.Some? ==> r[previous.value] == Some(NormalColour(board, previous.value))
    ensures forall d :: d in v && d != c && previous != Some(d) ==> r[d] == v[d]
  {
    var h := Highlight(v, board, palette, c);
    if previous.Some? then SetJewel(h, board, previous.value) else h
  }

  /** The board as the view shows it when every cell is up to date. */
  function Projection(board: Board): (v: View)
    ensures Complete(v)
  {
    map c | c in Cells() :: Some(NormalColour(board, c))
  }

  /** A complete view equals the projection exactly when every cell shows its normal image. */
  lemma ProjectionCharacterised(v: View, board: Board)
    requires Complete(v)
    ensures v == Projection(board) <==> forall c :: OnGrid(c) ==> v[c] == Some(NormalColour(board, c))
  {
  }

  /** Redrawing any cell of an up-to-date view changes nothing. */
  lemma ProjectionIsFixpoint(board: Board, c: Coordinate)
    requires OnGrid(c)
    ensures SetJewel(Projection(board), board, c) == Projection(board)
  {
  }

  /** setJewelImage twice on one cell equals once. */
  lemma SetJewelIdempotent(v: View, board: Board, c: Coordinate)
    ensures SetJewel(SetJewel(v, board, c), board, c) == SetJewel(v, board, c)
  {
  }

  /** Selecting c with c itself as the previous selection shows c's normal image. */
  lemma ReselectRestores(v: View, board: Board, palette: set<string>, c: Coordinate)
    requires HighlightColour(board, palette, c).Ok?
    ensures Select(v, board, palette, c, Some(c)) == SetJewel(v, board, c)
  {
  }
}
