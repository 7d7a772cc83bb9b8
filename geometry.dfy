// Board geometry and the effect of placing and removing a tile, stated on
// values (Dinosaurs.java: offsetCount, updateTiles, updateBoardStates,
// removeTile, initializeBoardState).
//
// Corners are indexed [row][column] = [y][x] over a 4 x 5 grid, squares
// [y][x] over a 3 x 4 grid; the square (x, y) lies to the lower right of
// corner (x, y).
module Geometry {
  import opened Primitives
  import opened Tiles

  /** `TileType.stateFromOffset(dx, dy, orientation)` for each type: the state
      a tile lays on the corner at offset (dx, dy) from its anchor. The table
      is puzzle data that is not part of this model, so every property here
      holds for any table. */
  type Pattern = (TileType, int, int, Orientation) -> State

  predicate Vertical(o: Orientation) {
    o == NORTH || o == SOUTH
  }

  /** `offsetCount(tile, isY)`: the footprint's number of corner rows
      (isY) or columns (!isY); 3 x 2 for N/S and 2 x 3 for E/W. */
  function OffsetCount(t: Tile, isY: bool): (n: nat)
    ensures n == (if isY == Vertical(t.orientation) then 3 else 2)
  {
    var weast := t.orientation == WEST || t.orientation == EAST;
    var weast' := isY != weast;
    if weast' then 3 else 2
  }

  function Rows(t: Tile): nat { OffsetCount(t, true) }
  function Cols(t: Tile): nat { OffsetCount(t, false) }

  /** A tile touches 6 corners: 2 columns by 3 rows upright, 3 by 2 lying. */
  lemma FootprintHasSixCorners(t: Tile)
    ensures Rows(t) * Cols(t) == 6
    ensures Vertical(t.orientation) ==> Cols(t) == 2 && Rows(t) == 3
    ensures !Vertical(t.orientation) ==> Cols(t) == 3 && Rows(t) == 2
  {
  }

  /** Corner (c, r) is touched by tile t. */
  predicate InFootprint(t: Tile, c: int, r: int) {
    t.location.X <= c < t.location.X + Cols(t) && t.location.Y <= r < t.location.Y + Rows(t)
  }

  /** The tile's footprint lies inside the 5 x 4 corner grid (equivalently,
      its two squares lie inside the 4 x 3 square grid). */
  predicate Fits(t: Tile) {
    0 <= t.location.X && 0 <= t.location.Y
    && t.location.X + Cols(t) <= 5 && t.location.Y + Rows(t) <= 4
  }

  /** The square the tile covers besides its anchor square: below it when
      upright, to its right when lying. */
  function SecondSquare(t: Tile): Location {
    if Vertical(t.orientation) then Location(t.location.X, t.location.Y + 1)
    else Location(t.location.X + 1, t.location.Y)
  }

  predicate Covers(t: Tile, c: int, r: int) {
    (c == t.location.X && r == t.location.Y) || (c == SecondSquare(t).X && r == SecondSquare(t).Y)
  }

  /** Corner (c, r) is one of the four corners of square sq. */
  predicate CornerOfSquare(sq: Location, c: int, r: int) {
    sq.X <= c <= sq.X + 1 && sq.Y <= r <= sq.Y + 1
  }

  /** A fitting tile covers exactly two distinct squares of the grid, adjacent
      along its axis, and its six footprint corners are exactly the corners of
      those two squares. */
  lemma CoveredSquares(t: Tile)
    requires Fits(t)
    ensures t.location != SecondSquare(t) && |{t.location, SecondSquare(t)}| == 2
    ensures 0 <= SecondSquare(t).X < 4 && 0 <= SecondSquare(t).Y < 3
    ensures 0 <= t.location.X < 4 && 0 <= t.location.Y < 3
    ensures forall c, r :: InFootprint(t, c, r) <==>
              CornerOfSquare(t.location, c, r) || CornerOfSquare(SecondSquare(t), c, r)
  {
  }

  // ---- board values ----

  type Corners = seq<seq<State>>
  type Squares = seq<seq<Option<Tile>>>

  predicate CornersShape(g: Corners) {
    |g| == 4 && forall r :: 0 <= r < 4 ==> |g[r]| == 5
  }

  predicate SquaresShape(s: Squares) {
    |s| == 3 && forall r :: 0 <= r < 3 ==> |s[r]| == 4
  }

  /** What the board's three structures hold: `boardstates`, `tiles` and `tile_list`. */
  datatype BoardValue = BoardValue(corners: Corners, squares: Squares, tileList: map<TileType, Tile>)

  predicate ValueShape(v: BoardValue) {
    CornersShape(v.corners) && SquaresShape(v.squares)
  }

  /** The state tile t lays at footprint offset (dx, dy). */
  function TileCorner(pat: Pattern, t: Tile, dx: int, dy: int): State {
    pat(t.kind, dx, dy, t.orientation)
  }

  /** The pre-seeded corner grid: WATER where x + y is odd, EMPTY elsewhere. */
  function InitialCorners(): (g: Corners)
    ensures CornersShape(g)
    ensures forall r, c :: 0 <= r < 4 && 0 <= c < 5 ==> (g[r][c] == WATER <==> (r + c) % 2 == 1)
    ensures forall r, c :: 0 <= r < 4 && 0 <= c < 5 ==> g[r][c] in {WATER, EMPTY}
  {
    [[EMPTY, WATER, EMPTY, WATER, EMPTY],
     [WATER, EMPTY, WATER, EMPTY, WATER],
     [EMPTY, WATER, EMPTY, WATER, EMPTY],
     [WATER, EMPTY, WATER, EMPTY, WATER]]
  }

  function EmptySquares(): (s: Squares)
    ensures SquaresShape(s)
    ensures forall r, c :: 0 <= r < 3 && 0 <= c < 4 ==> s[r][c] == None
  {
    seq(3, r => seq(4, c => None))
  }

  function InitialValue(): (v: BoardValue)
    ensures ValueShape(v)
  {
    BoardValue(InitialCorners(), EmptySquares(), map[])
  }

  /** updateBoardStates at one corner: an EMPTY footprint corner takes the
      tile's state, every other corner keeps its own. */
  function PlacedCorner(g: Corners, pat: Pattern, t: Tile, r: int, c: int): State
    requires CornersShape(g) && 0 <= r < 4 && 0 <= c < 5
  {
    if InFootprint(t, c, r) && g[r][c] == EMPTY
    then TileCorner(pat, t, c - t.location.X, r - t.location.Y)
    else g[r][c]
  }

  /** removeTile at one corner: a RED or GREEN footprint corner that equals
      the tile's own state goes back to EMPTY. */
  function ClearedCorner(g: Corners, pat: Pattern, t: Tile, r: int, c: int): State
    requires CornersShape(g) && 0 <= r < 4 && 0 <= c < 5
  {
    if InFootprint(t, c, r) && (g[r][c] == RED || g[r][c] == GREEN)
       && g[r][c] == TileCorner(pat, t, c - t.location.X, r - t.location.Y)
    then EMPTY
    else g[r][c]
  }

  function PlacedSquare(s: Squares, t: Tile, r: int, c: int): Option<Tile>
    requires SquaresShape(s) && 0 <= r < 3 && 0 <= c < 4
  {
    if Covers(t, c, r) then Some(t) else s[r][c]
  }

  function ClearedSquare(s: Squares, t: Tile, r: int, c: int): Option<Tile>
    requires SquaresShape(s) && 0 <= r < 3 && 0 <= c < 4
  {
    if Covers(t, c, r) then None else s[r][c]
  }

  function PlacedCorners(g: Corners, pat: Pattern, t: Tile): (g': Corners)
    requires CornersShape(g)
    ensures CornersShape(g')
    ensures forall r, c :: 0 <= r < 4 && 0 <= c < 5 ==> g'[r][c] == PlacedCorner(g, pat, t, r, c)
  {
    seq(4, r requires 0 <= r < 4 => seq(5, c requires 0 <= c < 5 => PlacedCorner(g, pat, t, r, c)))
  }

  function ClearedCorners(g: Corners, pat: Pattern, t: Tile): (g': Corners)
    requires CornersShape(g)
    ensures CornersShape(g')
    ensures forall r, c :: 0 <= r < 4 && 0 <= c < 5 ==> g'[r][c] == ClearedCorner(g, pat, t, r, c)
  {
    seq(4, r requires 0 <= r < 4 => seq(5, c requires 0 <= c < 5 => ClearedCorner(g, pat, t, r, c)))
  }

  function PlacedSquares(s: Squares, t: Tile): (s': Squares)
    requires SquaresShape(s)
    ensures SquaresShape(s')
    ensures forall r, c :: 0 <= r < 3 && 0 <= c < 4 ==> s'[r][c] == PlacedSquare(s, t, r, c)
  {
    seq(3, r requires 0 <= r < 3 => seq(4, c requires 0 <= c < 4 => PlacedSquare(s, t, r, c)))
  }

  function ClearedSquares(s: Squares, t: Tile): (s': Squares)
    requires SquaresShape(s)
    ensures SquaresShape(s')
    ensures forall r, c :: 0 <= r < 3 && 0 <= c < 4 ==> s'[r][c] == ClearedSquare(s, t, r, c)
  {
    seq(3, r requires 0 <= r < 3 => seq(4, c requires 0 <= c < 4 => ClearedSquare(s, t, r, c)))
  }

  /** addTileToBoard on values. */
  function AddValue(v: BoardValue, pat: Pattern, t: Tile): (v': BoardValue)
    requires ValueShape(v)
    ensures ValueShape(v')
  {
    BoardValue(PlacedCorners(v.corners, pat, t), PlacedSquares(v.squares, t), v.tileList[t.kind := t])
  }

  /** removeTile(Tile) on values: `tile_list` is left as it was. */
  function RemoveValue(v: BoardValue, pat: Pattern, t: Tile): (v': BoardValue)
    requires ValueShape(v)
    ensures ValueShape(v')
  {
    BoardValue(ClearedCorners(v.corners, pat, t), ClearedSquares(v.squares, t), v.tileList)
  }

  /** Grids with the same cells are the same grid. */
  lemma CornersExt(g1: Corners, g2: Corners)
    requires CornersShape(g1) && CornersShape(g2)
    requires forall r, c :: 0 <= r < 4 && 0 <= c < 5 ==> g1[r][c] == g2[r][c]
    ensures g1 == g2
  {
    forall r | 0 <= r < 4 ensures g1[r] == g2[r] {
      assert forall c :: 0 <= c < 5 ==> g1[r][c] == g2[r][c];
    }
  }

  lemma SquaresExt(s1: Squares, s2: Squares)
    requires SquaresShape(s1) && SquaresShape(s2)
    requires forall r, c :: 0 <= r < 3 && 0 <= c < 4 ==> s1[r][c] == s2[r][c]
    ensures s1 == s2
  {
    forall r | 0 <= r < 3 ensures s1[r] == s2[r] {
      assert forall c :: 0 <= c < 4 ==> s1[r][c] == s2[r][c];
    }
  }

  /** What addTileToBoard does: the two covered squares hold the tile, only
      EMPTY footprint corners change (each to the tile's state), the tile is
      filed under its type, and nothing else changes. */
  lemma AddTileEffect(v: BoardValue, pat: Pattern, t: Tile)
    requires ValueShape(v) && Fits(t)
    ensures var v' := AddValue(v, pat, t);
      && v'.squares[t.location.Y][t.location.X] == Some(t)
      && v'.squares[SecondSquare(t).Y][SecondSquare(t).X] == Some(t)
      && (forall r, c :: 0 <= r < 3 && 0 <= c < 4 && !Covers(t, c, r) ==> v'.squares[r][c] == v.squares[r][c])
      && (forall r, c :: 0 <= r < 4 && 0 <= c < 5 && InFootprint(t, c, r) && v.corners[r][c] == EMPTY ==>
            v'.corners[r][c] == TileCorner(pat, t, c - t.location.X, r - t.location.Y))
      && (forall r, c :: 0 <= r < 4 && 0 <= c < 5 && (!InFootprint(t, c, r) || v.corners[r][c] != EMPTY) ==>
            v'.corners[r][c] == v.corners[r][c])
      && v'.tileList.Keys == v.tileList.Keys + {t.kind} && v'.tileList[t.kind] == t
      && (forall k :: k in v.tileList && k != t.kind ==> v'.tileList[k] == v.tileList[k])
  {
    CoveredSquares(t);
  }

  /** What removeTile does: the two covered squares are cleared, footprint
      corners that are RED or GREEN and equal to the tile's own state go back
      to EMPTY, nothing else changes, and `tile_list` keeps its entry. */
  lemma RemoveTileEffect(v: BoardValue, pat: Pattern, t: Tile)
    requires ValueShape(v) && Fits(t)
    ensures var v' := RemoveValue(v, pat, t);
      && v'.squares[t.location.Y][t.location.X] == None
      && v'.squares[SecondSquare(t).Y][SecondSquare(t).X] == None
      && (forall r, c :: 0 <= r < 3 && 0 <= c < 4 && !Covers(t, c, r) ==> v'.squares[r][c] == v.squares[r][c])
      && (forall r, c :: 0 <= r < 4 && 0 <= c < 5 ==>
            (v'.corners[r][c] != v.corners[r][c] <==>
               InFootprint(t, c, r) && v.corners[r][c] in {RED, GREEN}
               && v.corners[r][c] == TileCorner(pat, t, c - t.location.X, r - t.location.Y)))
      && (forall r, c :: 0 <= r < 4 && 0 <= c < 5 && v'.corners[r][c] != v.corners[r][c] ==> v'.corners[r][c] == EMPTY)
      && v'.tileList == v.tileList
  {
    CoveredSquares(t);
  }

  /** Neither placing nor removing a tile changes a WATER corner. */
  lemma WaterIsPermanent(v: BoardValue, pat: Pattern, t: Tile, r: int, c: int)
    requires ValueShape(v) && 0 <= r < 4 && 0 <= c < 5 && v.corners[r][c] == WATER
    ensures AddValue(v, pat, t).corners[r][c] == WATER
    ensures RemoveValue(v, pat, t).corners[r][c] == WATER
  {
  }

  /** Placing a tile never overwrites a coloured corner. */
  lemma ColourIsNotOverwritten(v: BoardValue, pat: Pattern, t: Tile, r: int, c: int)
    requires ValueShape(v) && 0 <= r < 4 && 0 <= c < 5 && v.corners[r][c] in {RED, GREEN}
    ensures AddValue(v, pat, t).corners[r][c] == v.corners[r][c]
  {
  }

  /** Every corner the tile touches agrees with the board on water versus
      land (the condition isPlacementConsistent computes). */
  predicate Consistent(g: Corners, pat: Pattern, t: Tile)
    requires CornersShape(g) && Fits(t)
  {
    forall dy, dx :: 0 <= dy < Rows(t) && 0 <= dx < Cols(t) ==>
      (TileCorner(pat, t, dx, dy) == WATER <==> g[t.location.Y + dy][t.location.X + dx] == WATER)
  }

  /** Placing a tile that is consistent with the board, over two free squares
      and over corners that are still EMPTY or WATER, and then removing it
      gives back both grids. */
  lemma AddThenRemoveRestores(v: BoardValue, pat: Pattern, t: Tile)
    requires ValueShape(v) && Fits(t)
    requires Consistent(v.corners, pat, t)
    requires v.squares[t.location.Y][t.location.X] == None
    requires v.squares[SecondSquare(t).Y][SecondSquare(t).X] == None
    requires forall r, c :: 0 <= r < 4 && 0 <= c < 5 && InFootprint(t, c, r) ==> v.corners[r][c] in {EMPTY, WATER}
    ensures RemoveValue(AddValue(v, pat, t), pat, t).corners == v.corners
    ensures RemoveValue(AddValue(v, pat, t), pat, t).squares == v.squares
  {
    var v' := RemoveValue(AddValue(v, pat, t), pat, t);
    forall r, c | 0 <= r < 4 && 0 <= c < 5 ensures v'.corners[r][c] == v.corners[r][c] {
      if InFootprint(t, c, r) {
        var dx, dy := c - t.location.X, r - t.location.Y;
        assert TileCorner(pat, t, dx, dy) == WATER <==> v.corners[t.location.Y + dy][t.location.X + dx] == WATER;
      }
    }
    CornersExt(v'.corners, v.corners);
    SquaresExt(v'.squares, v.squares);
  }

  // ---- sequences of codes (initializeBoardState, and the start of recsol) ----

  /** The i-th 4-character chunk of a code string. */
  function Chunk(s: string, i: nat): string
    requires 4 * i + 4 <= |s|
  {
    s[4 * i..4 * i + 4]
  }

  /** The first n chunks of s are codes of tiles that fit on the board. */
  predicate Placeable(s: string, n: nat) {
    4 * n <= |s| && forall i :: 0 <= i < n ==> ChunkPlaceable(s, i)
  }

  /** The i-th chunk of s is the code of a tile that fits on the board. */
  predicate ChunkPlaceable(s: string, i: nat)
    requires 4 * i + 4 <= |s|
  {
    WellFormedCode(Chunk(s, i)) && Fits(Decode(Chunk(s, i)))
  }

  /** The tile the i-th chunk of s denotes. */
  function ChunkTile(s: string, i: nat): (t: Tile)
    requires 4 * i + 4 <= |s| && ChunkPlaceable(s, i)
    ensures Fits(t)
  {
    Decode(Chunk(s, i))
  }

  /** The tiles the first n chunks of s denote, in order. */
  function DecodeChunks(s: string, n: nat): (ts: seq<Tile>)
    requires Placeable(s, n)
    ensures |ts| == n
    ensures forall i :: 0 <= i < n ==> Fits(ts[i])
  {
    if n == 0 then [] else DecodeChunks(s, n - 1) + [ChunkTile(s, n - 1)]
  }

  /** The board after adding the tiles of ts, one after another. */
  function ApplyTiles(v: BoardValue, pat: Pattern, ts: seq<Tile>): (v': BoardValue)
    requires ValueShape(v)
    ensures ValueShape(v')
  {
    if |ts| == 0 then v else AddValue(ApplyTiles(v, pat, ts[..|ts| - 1]), pat, ts[|ts| - 1])
  }

  /** The types of the tiles of ts. */
  function Kinds(ts: seq<Tile>): set<TileType>
  {
    if |ts| == 0 then {} else Kinds(ts[..|ts| - 1]) + {ts[|ts| - 1].kind}
  }

  /** Adding one more tile to a sequence adds one more placement. */
  lemma ApplyTilesSnoc(v: BoardValue, pat: Pattern, ts: seq<Tile>, t: Tile)
    requires ValueShape(v)
    ensures ApplyTiles(v, pat, ts + [t]) == AddValue(ApplyTiles(v, pat, ts), pat, t)
    ensures Kinds(ts + [t]) == Kinds(ts) + {t.kind}
  {
    assert (ts + [t])[..|ts|] == ts;
  }

  /** Adding tiles files exactly their types in `tile_list`. */
  lemma {:induction false} ApplyTilesKeys(v: BoardValue, pat: Pattern, ts: seq<Tile>)
    requires ValueShape(v)
    ensures ApplyTiles(v, pat, ts).tileList.Keys == v.tileList.Keys + Kinds(ts)
  {
    if |ts| > 0 {
      var front := ts[..|ts| - 1];
      ApplyTilesKeys(v, pat, front);
      AddValueKeys(ApplyTiles(v, pat, front), pat, ts[|ts| - 1]);
    }
  }

  lemma AddValueKeys(v: BoardValue, pat: Pattern, t: Tile)
    requires ValueShape(v)
    ensures AddValue(v, pat, t).tileList.Keys == v.tileList.Keys + {t.kind}
  {
  }

  /** A WATER corner stays WATER through any sequence of placements. */
  lemma {:induction false} ApplyTilesKeepsWater(v: BoardValue, pat: Pattern, ts: seq<Tile>, r: int, c: int)
    requires ValueShape(v)
    requires 0 <= r < 4 && 0 <= c < 5 && v.corners[r][c] == WATER
    ensures ApplyTiles(v, pat, ts).corners[r][c] == WATER
  {
    if |ts| > 0 {
      var front := ts[..|ts| - 1];
      ApplyTilesKeepsWater(v, pat, front, r, c);
      WaterIsPermanent(ApplyTiles(v, pat, front), pat, ts[|ts| - 1], r, c);
    }
  }
}
