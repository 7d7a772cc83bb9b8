// The game board (Dinosaurs.java): the corner states, the squares, the
// placed tiles, the placement checks, the candidate search and the
// recursive solver.
module DinoGame {
  import opened Decimal
  import opened Primitives
  import opened Tiles
  import opened Ordering
  import opened Geometry
  import opened Rules

  /** `dy, dx` comes before `i, j` in the row-major order of the footprint loops. */
  predicate Before(dy: int, dx: int, i: int, j: int) {
    dy < i || (dy == i && dx < j)
  }

  /** Corner (r, c) partway through a sweep of the footprint that has
      reached offset row i, column j: its new value (placed, or cleared when
      `clear`) once the sweep has passed it, its value in g otherwise. */
  function Swept(g: Corners, pat: Pattern, t: Tile, clear: bool, i: int, j: int, r: int, c: int): State
    requires CornersShape(g) && 0 <= r < 4 && 0 <= c < 5
  {
    if InFootprint(t, c, r) && Before(r - t.location.Y, c - t.location.X, i, j)
    then (if clear then ClearedCorner(g, pat, t, r, c) else PlacedCorner(g, pat, t, r, c))
    else g[r][c]
  }

  /** Visiting offset (j, i) changes that corner alone, from its old value
      to its new one. */
  lemma SweptStep(g: Corners, pat: Pattern, t: Tile, clear: bool, i: int, j: int)
    requires CornersShape(g) && Fits(t) && 0 <= i < Rows(t) && 0 <= j < Cols(t)
    ensures var r, c := t.location.Y + i, t.location.X + j;
      Swept(g, pat, t, clear, i, j, r, c) == g[r][c]
      && Swept(g, pat, t, clear, i, j + 1, r, c)
         == if clear then ClearedCorner(g, pat, t, r, c) else PlacedCorner(g, pat, t, r, c)
    ensures forall r, c :: 0 <= r < 4 && 0 <= c < 5 && (r != t.location.Y + i || c != t.location.X + j) ==>
      Swept(g, pat, t, clear, i, j + 1, r, c) == Swept(g, pat, t, clear, i, j, r, c)
  {
  }

  /** Finishing offset row i is starting row i + 1. */
  lemma SweptRow(g: Corners, pat: Pattern, t: Tile, clear: bool, i: int)
    ensures forall r, c :: 0 <= r < 4 && 0 <= c < 5 && CornersShape(g) ==>
      Swept(g, pat, t, clear, i, Cols(t), r, c) == Swept(g, pat, t, clear, i + 1, 0, r, c)
  {
  }

  /** A finished sweep has given every corner its new value. */
  lemma SweptAll(g: Corners, pat: Pattern, t: Tile, clear: bool)
    requires CornersShape(g)
    ensures forall r, c :: 0 <= r < 4 && 0 <= c < 5 ==>
      Swept(g, pat, t, clear, Rows(t), 0, r, c)
      == if clear then ClearedCorner(g, pat, t, r, c) else PlacedCorner(g, pat, t, r, c)
  {
  }

  /** The test the two footprint loops apply at offset (dx, dy): water
      meets water or land meets land (isPlacementConsistent, `peace` false),
      or no dinosaur lands on one of the other colour (isPlacementDangerous,
      `peace` true). */
  predicate CellOk(g: Corners, pat: Pattern, t: Tile, peace: bool, dx: int, dy: int)
    requires CornersShape(g) && Fits(t) && 0 <= dy < Rows(t) && 0 <= dx < Cols(t)
  {
    if peace then !Conflicts(TileCorner(pat, t, dx, dy), BoardCorner(g, t, dx, dy))
    else (TileCorner(pat, t, dx, dy) == WATER <==> BoardCorner(g, t, dx, dy) == WATER)
  }

  /** How many of the first n offsets of footprint row dy pass the test. */
  function OkInRow(g: Corners, pat: Pattern, t: Tile, peace: bool, dy: int, n: nat): nat
    requires CornersShape(g) && Fits(t) && 0 <= dy < Rows(t) && n <= Cols(t)
  {
    if n == 0 then 0
    else OkInRow(g, pat, t, peace, dy, n - 1) + (if CellOk(g, pat, t, peace, n - 1, dy) then 1 else 0)
  }

  /** How many offsets of the first m footprint rows pass the test: the
      value of the loops' `count` after m rows. */
  function OkInRows(g: Corners, pat: Pattern, t: Tile, peace: bool, m: nat): nat
    requires CornersShape(g) && Fits(t) && m <= Rows(t)
  {
    if m == 0 then 0
    else OkInRows(g, pat, t, peace, m - 1) + OkInRow(g, pat, t, peace, m - 1, Cols(t))
  }

  /** A row's count never exceeds its length, and reaches it exactly when
      every offset passes. */
  lemma {:induction false} OkInRowFull(g: Corners, pat: Pattern, t: Tile, peace: bool, dy: int, n: nat)
    requires CornersShape(g) && Fits(t) && 0 <= dy < Rows(t) && n <= Cols(t)
    ensures OkInRow(g, pat, t, peace, dy, n) <= n
    ensures OkInRow(g, pat, t, peace, dy, n) == n <==> forall dx :: 0 <= dx < n ==> CellOk(g, pat, t, peace, dx, dy)
  {
    if n > 0 {
      OkInRowFull(g, pat, t, peace, dy, n - 1);
    }
  }

  /** The same for the first m rows. */
  lemma {:induction false} OkInRowsFull(g: Corners, pat: Pattern, t: Tile, peace: bool, m: nat)
    requires CornersShape(g) && Fits(t) && m <= Rows(t)
    ensures OkInRows(g, pat, t, peace, m) <= m * Cols(t)
    ensures OkInRows(g, pat, t, peace, m) == m * Cols(t)
      <==> forall dy, dx :: 0 <= dy < m && 0 <= dx < Cols(t) ==> CellOk(g, pat, t, peace, dx, dy)
  {
    if m > 0 {
      OkInRowsFull(g, pat, t, peace, m - 1);
      OkInRowFull(g, pat, t, peace, m - 1, Cols(t));
      assert m * Cols(t) == (m - 1) * Cols(t) + Cols(t);
    }
  }

  /** isPlacementConsistent's count of six is consistency. */
  lemma SixAgreeIffConsistent(g: Corners, pat: Pattern, t: Tile)
    requires CornersShape(g) && Fits(t)
    ensures OkInRows(g, pat, t, false, Rows(t)) == 6 <==> Consistent(g, pat, t)
  {
    OkInRowsFull(g, pat, t, false, Rows(t));
    FootprintHasSixCorners(t);
    if OkInRows(g, pat, t, false, Rows(t)) == 6 {
      forall dy, dx | 0 <= dy < Rows(t) && 0 <= dx < Cols(t)
        ensures TileCorner(pat, t, dx, dy) == WATER <==> g[t.location.Y + dy][t.location.X + dx] == WATER
      {
        assert CellOk(g, pat, t, false, dx, dy);
      }
    }
  }

  /** On a consistent tile, isPlacementDangerous's count of six is safety. */
  lemma SixPeacefulIffSafe(g: Corners, pat: Pattern, t: Tile)
    requires CornersShape(g) && Fits(t) && Consistent(g, pat, t)
    ensures OkInRows(g, pat, t, true, Rows(t)) == 6 <==> !Dangerous(g, pat, t)
  {
    OkInRowsFull(g, pat, t, true, Rows(t));
    FootprintHasSixCorners(t);
    if OkInRows(g, pat, t, true, Rows(t)) == 6 {
      forall dy, dx | 0 <= dy < Rows(t) && 0 <= dx < Cols(t)
        ensures !Conflicts(TileCorner(pat, t, dx, dy), BoardCorner(g, t, dx, dy))
      {
        assert CellOk(g, pat, t, true, dx, dy);
      }
    }
  }

  /** The counting loop of isPlacementConsistent over the corner array b,
      whose contents are g: how many footprint corners put water on water
      or land on land. */
  method CountAgreeing(b: array2<State>, pat: Pattern, tile: Tile, ghost g: Corners) returns (count: nat)
    requires b.Length0 == 4 && b.Length1 == 5 && CornersShape(g) && Fits(tile)
    requires forall r, c :: 0 <= r < 4 && 0 <= c < 5 ==> b[r, c] == g[r][c]
    ensures count == OkInRows(g, pat, tile, false, Rows(tile))
  {
    var loc := tile.location;
    count := 0;
    var i := 0;
    while i < OffsetCount(tile, true)
      invariant 0 <= i <= Rows(tile)
      invariant count == OkInRows(g, pat, tile, false, i)
    {
      ghost var done := count;
      var j := 0;
      while j < OffsetCount(tile, false)
        invariant 0 <= j <= Cols(tile)
        invariant count == done + OkInRow(g, pat, tile, false, i, j)
      {
        var s1 := pat(tile.kind, j, i, tile.orientation);
        var s2 := b[loc.Y + i, loc.X + j];
        if (s1 == WATER && s2 == WATER) || (s1 != WATER && s2 != WATER) {
          count := count + 1;
        }
        j := j + 1;
      }
      i := i + 1;
    }
  }

  /** The counting loop of isPlacementDangerous: how many footprint corners
      do not put GREEN on RED or RED on GREEN. */
  method CountPeaceful(b: array2<State>, pat: Pattern, tile: Tile, ghost g: Corners) returns (count: nat)
    requires b.Length0 == 4 && b.Length1 == 5 && CornersShape(g) && Fits(tile)
    requires forall r, c :: 0 <= r < 4 && 0 <= c < 5 ==> b[r, c] == g[r][c]
    ensures count == OkInRows(g, pat, tile, true, Rows(tile))
  {
    var loc := tile.location;
    count := 0;
    var i := 0;
    while i < OffsetCount(tile, true)
      invariant 0 <= i <= Rows(tile)
      invariant count == OkInRows(g, pat, tile, true, i)
    {
      ghost var done := count;
      var j := 0;
      while j < OffsetCount(tile, false)
        invariant 0 <= j <= Cols(tile)
        invariant count == done + OkInRow(g, pat, tile, true, i, j)
      {
        var s := pat(tile.kind, j, i, tile.orientation);
        var s2 := b[loc.Y + i, loc.X + j];
        assert CellOk(g, pat, tile, true, j, i) <==> !Conflicts(s, s2);
        if s == GREEN {
          if s2 != RED {
            count := count + 1;
          }
        } else if s == RED {
          if s2 != GREEN {
            count := count + 1;
          }
        } else {
          count := count + 1;
        }
        j := j + 1;
      }
      i := i + 1;
    }
  }

  /** The pair test of violatesObjective, on the tile's box, is PairLand. */
  lemma PairStep(conn: string, t: Tile, k: nat, req: set<Location>)
    requires 4 * k + 4 <= |conn| && req == ReqLand(conn, t, k)
    ensures var isl := Chunk(conn, k);
      var x1, y1 := isl[0] as int - '0' as int, isl[1] as int - '0' as int;
      var x2, y2 := isl[2] as int - '0' as int, isl[3] as int - '0' as int;
      var minX, maxX := t.location.X, t.location.X + Cols(t);
      var minY, maxY := t.location.Y, t.location.Y + Rows(t);
      ReqLand(conn, t, k + 1) ==
        if x1 >= minX && x1 < maxX && y1 >= minY && y1 < maxY && x2 >= minX && x2 < maxX && y2 >= minY && y2 < maxY
        then req + {Location(x1, y1)} + {Location(x2, y2)}
        else req
  {
  }

  /** A lone code that fits is a one-tile code string. */
  lemma SingleCodePlaceable(p: string)
    requires WellFormedCode(p) && Fits(Decode(p))
    ensures Placeable(p, 1)
    ensures DecodeChunks(p, 1) == [Decode(p)]
    ensures Kinds(DecodeChunks(p, 1)) == {Decode(p).kind}
  {
    assert Chunk(p, 0) == p;
    assert DecodeChunks(p, 1) == DecodeChunks(p, 0) + [ChunkTile(p, 0)];
    assert DecodeChunks(p, 1)[..0] == [];
  }

  /** The board after adding the first n codes of s, one after another. */
  function ApplyChunks(v: BoardValue, pat: Pattern, s: string, n: nat): (v': BoardValue)
    requires ValueShape(v) && Placeable(s, n)
    ensures ValueShape(v')
  {
    if n == 0 then v else AddValue(ApplyChunks(v, pat, s, n - 1), pat, ChunkTile(s, n - 1))
  }

  /** Adding code i of a placeable string is one more step of ApplyChunks. */
  lemma ApplyChunksStep(v: BoardValue, pat: Pattern, s: string, i: nat, n: nat)
    requires ValueShape(v) && Placeable(s, n) && i < n
    ensures Placeable(s, i) && Placeable(s, i + 1)
    ensures WellFormedCode(Chunk(s, i)) && Fits(Decode(Chunk(s, i)))
    ensures ApplyChunks(v, pat, s, i + 1) == AddValue(ApplyChunks(v, pat, s, i), pat, Decode(Chunk(s, i)))
  {
    assert ChunkPlaceable(s, i);
  }

  /** Adding the codes one by one is adding their decoded tiles one by one. */
  lemma {:induction false} ApplyChunksIsApplyTiles(v: BoardValue, pat: Pattern, s: string, n: nat)
    requires ValueShape(v) && Placeable(s, n)
    ensures ApplyChunks(v, pat, s, n) == ApplyTiles(v, pat, DecodeChunks(s, n))
  {
    if n > 0 {
      ApplyChunksIsApplyTiles(v, pat, s, n - 1);
      ApplyTilesSnoc(v, pat, DecodeChunks(s, n - 1), ChunkTile(s, n - 1));
    }
  }

  /** The tile `new Tile(t.toString())` builds is t again. */
  function Reparse(t: Tile): (u: Tile)
    requires Fits(t)
    ensures u == t
  {
    ParseToString(t);
    Parse(ToString(t)).value
  }

  /** The tile list `clone` builds: each tile re-created from its code and
      filed under its type. */
  function Rebuilt(m: map<TileType, Tile>): (r: map<TileType, Tile>)
    requires TileListOk(m)
    ensures r == m
  {
    var r := map k | k in m :: Reparse(m[k]);
    assert r == m;
    r
  }

  /** A full tile list serialises to a solution string naming its tiles. */
  lemma SerializeWhenFull(m: map<TileType, Tile>)
    requires TileListOk(m)
    ensures |m| == 6 ==>
      && (forall j :: j in m)
      && IsSolutionString(Serialize(m))
      && forall k :: 0 <= k < 6 ==> Parse(Chunk(Serialize(m), k)) == Some(m[TypeOrder[k]])
  {
    if |m| == 6 {
      SixEntriesHoldEveryType(m);
      SerializeComplete(m);
    }
  }

  /** Index of a type letter in "abcdef", and of an orientation character in "NESW". */
  function LetterIndex(c: char): int {
    c as int - 'a' as int
  }

  function OrientIndex(c: char): int {
    if c == 'N' then 0 else if c == 'E' then 1 else if c == 'S' then 2 else if c == 'W' then 3 else 4
  }

  /** The loops' letter and orientation at index a and e sit at those indices. */
  lemma CodeIndices(a: nat, e: nat)
    requires a < 6 && e < 4
    ensures LetterIndex("abcdef"[a]) == a && OrientIndex("NESW"[e]) == e
  {
  }

  /** A candidate code is fixed by its type letter and orientation. */
  lemma CandidateCodeDetermined(l: Location, p: string, a: nat, o: nat)
    requires 0 <= l.X < 4 && 0 <= l.Y < 3 && a < 6 && o < 4
    requires IsCandidateCode(l, p) && LetterIndex(p[0]) == a && OrientIndex(p[3]) == o
    ensures p == Code("abcdef"[a], l, "NESW"[o])
  {
    CodeIsCandidateCode("abcdef"[a], l, "NESW"[o]);
  }

  /** The `found_land` loop of violatesObjective. */
  method CollectFoundLand(pat: Pattern, tile: Tile) returns (found: set<Location>)
    ensures found == FoundLand(pat, tile)
  {
    var loc := tile.location;
    found := {};
    var i := 0;
    while i < OffsetCount(tile, true)
      invariant 0 <= i <= Rows(tile) && found == LandInRows(pat, tile, i)
    {
      ghost var done := found;
      var j := 0;
      while j < OffsetCount(tile, false)
        invariant 0 <= j <= Cols(tile) && found == done + LandInRow(pat, tile, i, j)
      {
        var s := pat(tile.kind, j, i, tile.orientation);
        if s == RED || s == GREEN {
          assert LandAt(pat, tile, j, i) == {Location(loc.X + j, loc.Y + i)};
          found := found + {Location(loc.X + j, loc.Y + i)};
        } else {
          assert LandAt(pat, tile, j, i) == {};
        }
        j := j + 1;
      }
      i := i + 1;
    }
  }

  /** The `req_land` loop of violatesObjective. The box's top-left corner
      (minX, minY) is what violatesObjective reads from the code's own digit
      characters, which is the tile's anchor. */
  method CollectReqLand(conn: string, tile: Tile, minX: int, minY: int) returns (req: set<Location>)
    requires |conn| % 4 == 0 && minX == tile.location.X && minY == tile.location.Y
    ensures req == ReqLand(conn, tile, |conn| / 4)
  {
    req := {};
    var maxX := minX + OffsetCount(tile, false);
    var maxY := minY + OffsetCount(tile, true);
    ghost var m := |conn| / 4;
    assert |conn| == 4 * m;
    var k := 0;
    ghost var n := 0;
    while k < |conn|
      invariant 0 <= k <= |conn| && k == 4 * n
      invariant req == ReqLand(conn, tile, n)
    {
      var isl := conn[k..k + 4];
      assert isl == Chunk(conn, n);
      PairStep(conn, tile, n, req);
      var x1 := isl[0] as int - '0' as int;
      var y1 := isl[1] as int - '0' as int;
      var x2 := isl[2] as int - '0' as int;
      var y2 := isl[3] as int - '0' as int;
      if x1 >= minX && x1 < maxX && y1 >= minY && y1 < maxY && x2 >= minX && x2 < maxX && y2 >= minY && y2 < maxY {
        req := req + {Location(x1, y1)};
        req := req + {Location(x2, y2)};
      }
      k := k + 4;
      n := n + 1;
    }
  }

  /** `hS` holds exactly the candidates whose type letter comes before the
      a-th, or is the a-th with an orientation before the e-th. */
  ghost predicate CandidatesUpTo(hS: seq<string>, sel: string -> bool, l: Location, a: int, e: int)
    requires 0 <= l.X < 4 && 0 <= l.Y < 3
  {
    forall p :: p in hS <==>
      IsCandidateCode(l, p) && sel(p)
      && (LetterIndex(p[0]) < a || (LetterIndex(p[0]) == a && OrientIndex(p[3]) < e))
  }

  /** Trying the code of letter a and orientation e adds exactly that code. */
  lemma CandidateStep(hS: seq<string>, sel: string -> bool, l: Location, a: nat, e: nat, keep: bool)
    requires 0 <= l.X < 4 && 0 <= l.Y < 3 && a < 6 && e < 4
    requires StrictlySorted(hS) && CandidatesUpTo(hS, sel, l, a, e)
    requires keep == sel(Code("abcdef"[a], l, "NESW"[e]))
    ensures CandidatesUpTo(if keep then Insert(hS, Code("abcdef"[a], l, "NESW"[e])) else hS, sel, l, a, e + 1)
  {
    var tmp := Code("abcdef"[a], l, "NESW"[e]);
    CodeIsCandidateCode("abcdef"[a], l, "NESW"[e]);
    CodeIndices(a, e);
    assert LetterIndex(tmp[0]) == a && OrientIndex(tmp[3]) == e;
    var r := if keep then Insert(hS, tmp) else hS;
    forall p
      ensures p in r <==>
        IsCandidateCode(l, p) && sel(p)
        && (LetterIndex(p[0]) < a || (LetterIndex(p[0]) == a && OrientIndex(p[3]) < e + 1))
    {
      assert p in r <==> p in hS || (keep && p == tmp);
      if IsCandidateCode(l, p) && LetterIndex(p[0]) == a && OrientIndex(p[3]) == e {
        CandidateCodeDetermined(l, p, a, e);
      }
    }
  }

  /** Finishing a letter's four orientations is starting the next letter;
      after the sixth letter every selected candidate code has been tried. */
  lemma CandidateRow(hS: seq<string>, sel: string -> bool, l: Location, a: int)
    requires 0 <= l.X < 4 && 0 <= l.Y < 3
    requires CandidatesUpTo(hS, sel, l, a, 4)
    ensures CandidatesUpTo(hS, sel, l, a + 1, 0)
    ensures a == 6 ==> forall p :: p in hS <==> IsCandidateCode(l, p) && sel(p)
  {
  }

  /** `after` is the LinkedHashSet `before` with solution strings added at
      its end: still free of duplicates, `before` as a prefix, and every new
      element a well-formed solution. */
  predicate SolutionsExtend(before: seq<string>, after: seq<string>) {
    NoDuplicates(after) && |before| <= |after| && after[..|before|] == before
    && forall x :: x in after ==> x in before || IsSolutionString(x)
  }

  lemma SolutionsExtendTransitive(a: seq<string>, b: seq<string>, c: seq<string>)
    requires SolutionsExtend(a, b) && SolutionsExtend(b, c)
    ensures SolutionsExtend(a, c)
  {
    assert c[..|b|][..|a|] == c[..|a|];
  }

  /** A code the solver may add to a board holding the types in `kinds`:
      well formed, on the board, and of a type not yet placed. */
  predicate NextCode(kinds: set<TileType>, t: string) {
    WellFormedCode(t) && Fits(Decode(t)) && Decode(t).kind !in kinds
  }

  /** Every candidate findCandidatePlacements offers is such a code. */
  lemma CandidatesAreNextCodes(v: BoardValue, pat: Pattern, conn: string, l: Location, cands: seq<string>)
    requires ValueShape(v) && |conn| % 4 == 0 && 0 <= l.X < 4 && 0 <= l.Y < 3
    requires forall p :: p in cands <==> IsCandidate(v, pat, conn, l, p)
    ensures forall p :: p in cands ==> NextCode(v.tileList.Keys, p)
  {
    forall p | p in cands
      ensures NextCode(v.tileList.Keys, p)
    {
      ValidPlacementMeans(v, pat, conn, p);
    }
  }

  class Dinosaurs {
    /** The tile table `TileType.stateFromOffset`: each type's corner states by offset. */
    const pattern: Pattern
    /** The objective's connected-islands string, 4 digits per pair. */
    const connections: string
    /** `boardstates[y][x]`: the 4 x 5 corner states. */
    const boardstates: array2<State>
    /** `tiles[y][x]`: the tile covering each of the 4 x 3 squares. */
    const tiles: array2<Option<Tile>>
    /** `tile_list`: the placed tile of each type. */
    var tileList: map<TileType, Tile>

    /** The grids' dimensions and the objective string's length. */
    predicate Shape() {
      boardstates.Length0 == 4 && boardstates.Length1 == 5
      && tiles.Length0 == 3 && tiles.Length1 == 4
      && |connections| % 4 == 0
    }

    predicate Valid()
      reads this
    {
      Shape() && TileListOk(tileList)
    }

    /** The corner grid as a value. */
    ghost function Corners(): (g: Corners)
      reads boardstates
      requires Shape()
      ensures CornersShape(g)
      ensures forall r, c :: 0 <= r < 4 && 0 <= c < 5 ==> g[r][c] == boardstates[r, c]
    {
      var b := boardstates;
      seq(4, r requires 0 <= r < b.Length0 reads b => seq(5, c requires 0 <= c < b.Length1 reads b => b[r, c]))
    }

    /** The square grid as a value. */
    ghost function Squares(): (s: Squares)
      reads tiles
      requires Shape()
      ensures SquaresShape(s)
      ensures forall r, c :: 0 <= r < 3 && 0 <= c < 4 ==> s[r][c] == tiles[r, c]
    {
      var b := tiles;
      seq(3, r requires 0 <= r < b.Length0 reads b => seq(4, c requires 0 <= c < b.Length1 reads b => b[r, c]))
    }

    /** The whole board as a value. */
    ghost function Value(): (v: BoardValue)
      reads this, boardstates, tiles
      requires Shape()
      ensures ValueShape(v)
    {
      BoardValue(Corners(), Squares(), tileList)
    }

    /** `Dinosaurs(Objective)`: the pre-seeded corners, no tiles. */
    constructor(pattern: Pattern, connections: string)
      requires |connections| % 4 == 0
      ensures Valid() && fresh(boardstates) && fresh(tiles)
      ensures this.pattern == pattern && this.connections == connections
      ensures Value() == InitialValue()
    {
      this.pattern := pattern;
      this.connections := connections;
      boardstates := new State[4, 5]((r, c) requires 0 <= r < 4 && 0 <= c < 5 => InitialCorners()[r][c]);
      tiles := new Option<Tile>[3, 4]((r, c) => None);
      tileList := map[];
      new;
      CornersExt(Corners(), InitialCorners());
      SquaresExt(Squares(), EmptySquares());
    }

    /** `clone`: fresh copies of both grids, and a tile list rebuilt from
        each tile's code. */
    method Clone() returns (d: Dinosaurs)
      requires Valid()
      ensures fresh(d) && fresh(d.boardstates) && fresh(d.tiles)
      ensures d.Valid() && d.pattern == pattern && d.connections == connections
      ensures d.Value() == Value()
    {
      d := new Dinosaurs(pattern, connections);
      d.tileList := Rebuilt(tileList);
      forall r, c | 0 <= r < 4 && 0 <= c < 5 {
        d.boardstates[r, c] := boardstates[r, c];
      }
      forall r, c | 0 <= r < 3 && 0 <= c < 4 {
        d.tiles[r, c] := tiles[r, c];
      }
      CornersExt(d.Corners(), Corners());
      SquaresExt(d.Squares(), Squares());
      assert d.Corners() == Corners();
      assert d.Squares() == Squares();
      assert d.tileList == tileList;
      assert d.Value() == Value();
    }

    /** `getLocationState(location)`. */
    function GetLocationState(l: Location): (s: State)
      reads this, boardstates
      requires Valid() && 0 <= l.X < 5 && 0 <= l.Y < 4
      ensures s == Corners()[l.Y][l.X]
    {
      boardstates[l.Y, l.X]
    }

    /** `getLocationState(location, offsetX, offsetY)`. */
    function GetLocationStateAt(l: Location, dx: int, dy: int): (s: State)
      reads this, boardstates
      requires Valid() && 0 <= l.X + dx < 5 && 0 <= l.Y + dy < 4
      ensures s == Corners()[l.Y + dy][l.X + dx]
    {
      boardstates[l.Y + dy, l.X + dx]
    }

    /** `updateTiles`: the two squares of the tile point to it. */
    method UpdateTiles(t: Tile)
      requires Valid() && Fits(t)
      modifies tiles
      ensures Valid() && Squares() == PlacedSquares(old(Squares()), t)
    {
      ghost var s0 := Squares();
      CoveredSquares(t);
      tiles[t.location.Y, t.location.X] := Some(t);
      if t.orientation == NORTH || t.orientation == SOUTH {
        tiles[t.location.Y + 1, t.location.X] := Some(t);
      } else {
        tiles[t.location.Y, t.location.X + 1] := Some(t);
      }
      SquaresExt(Squares(), PlacedSquares(s0, t));
    }

    /** `updateBoardStates`: each EMPTY footprint corner takes the tile's state. */
    method UpdateBoardStates(t: Tile)
      requires Valid() && Fits(t)
      modifies boardstates
      ensures Valid() && Corners() == PlacedCorners(old(Corners()), pattern, t)
    {
      ghost var g0 := Corners();
      var i := 0;
      while i < OffsetCount(t, true)
        invariant 0 <= i <= Rows(t)
        invariant forall r, c :: 0 <= r < 4 && 0 <= c < 5 ==> boardstates[r, c] == Swept(g0, pattern, t, false, i, 0, r, c)
      {
        var j := 0;
        while j < OffsetCount(t, false)
          invariant 0 <= j <= Cols(t)
          invariant forall r, c :: 0 <= r < 4 && 0 <= c < 5 ==> boardstates[r, c] == Swept(g0, pattern, t, false, i, j, r, c)
        {
          SweptStep(g0, pattern, t, false, i, j);
          PlaceCornerAt(t, j, i, g0);
          j := j + 1;
        }
        SweptRow(g0, pattern, t, false, i);
        i := i + 1;
      }
      SweptAll(g0, pattern, t, false);
      CornersExt(Corners(), PlacedCorners(g0, pattern, t));
    }

    /** The body of updateBoardStates' loop at offset (dx, dy): an EMPTY
        corner takes the tile's own state there. */
    method PlaceCornerAt(t: Tile, dx: int, dy: int, ghost g0: Corners)
      requires Valid() && Fits(t) && 0 <= dy < Rows(t) && 0 <= dx < Cols(t) && CornersShape(g0)
      requires boardstates[t.location.Y + dy, t.location.X + dx] == g0[t.location.Y + dy][t.location.X + dx]
      modifies boardstates
      ensures Valid()
      ensures boardstates[t.location.Y + dy, t.location.X + dx]
        == PlacedCorner(g0, pattern, t, t.location.Y + dy, t.location.X + dx)
      ensures forall r, c :: 0 <= r < 4 && 0 <= c < 5 && (r != t.location.Y + dy || c != t.location.X + dx) ==>
        boardstates[r, c] == old(boardstates[r, c])
    {
      var s := GetLocationStateAt(t.location, dx, dy);
      if s == EMPTY {
        boardstates[t.location.Y + dy, t.location.X + dx] := pattern(t.kind, dx, dy, t.orientation);
      }
    }

    /** `removeTile(Tile)`: clear the two squares, and put back EMPTY where
        the tile's own dinosaur stands. `tile_list` keeps its entry. */
    method RemoveTile(t: Tile)
      requires Valid() && Fits(t)
      modifies boardstates, tiles
      ensures Valid() && Value() == RemoveValue(old(Value()), pattern, t)
    {
      ClearTiles(t);
      ClearBoardStates(t);
    }

    /** The first half of removeTile: the two squares point to nothing. */
    method ClearTiles(t: Tile)
      requires Valid() && Fits(t)
      modifies tiles
      ensures Valid() && Squares() == ClearedSquares(old(Squares()), t)
    {
      ghost var s0 := Squares();
      CoveredSquares(t);
      tiles[t.location.Y, t.location.X] := None;
      if t.orientation == NORTH || t.orientation == SOUTH {
        tiles[t.location.Y + 1, t.location.X] := None;
      } else {
        tiles[t.location.Y, t.location.X + 1] := None;
      }
      SquaresExt(Squares(), ClearedSquares(s0, t));
    }

    /** The second half of removeTile: a footprint corner where the tile's
        own RED or GREEN dinosaur stands goes back to EMPTY. */
    method ClearBoardStates(t: Tile)
      requires Valid() && Fits(t)
      modifies boardstates
      ensures Valid() && Corners() == ClearedCorners(old(Corners()), pattern, t)
    {
      ghost var g0 := Corners();
      var i := 0;
      while i < OffsetCount(t, true)
        invariant 0 <= i <= Rows(t)
        invariant forall r, c :: 0 <= r < 4 && 0 <= c < 5 ==> boardstates[r, c] == Swept(g0, pattern, t, true, i, 0, r, c)
      {
        var j := 0;
        while j < OffsetCount(t, false)
          invariant 0 <= j <= Cols(t)
          invariant forall r, c :: 0 <= r < 4 && 0 <= c < 5 ==> boardstates[r, c] == Swept(g0, pattern, t, true, i, j, r, c)
        {
          SweptStep(g0, pattern, t, true, i, j);
          ClearCornerAt(t, j, i, g0);
          j := j + 1;
        }
        SweptRow(g0, pattern, t, true, i);
        i := i + 1;
      }
      SweptAll(g0, pattern, t, true);
      CornersExt(Corners(), ClearedCorners(g0, pattern, t));
    }

    /** The body of removeTile's loop at offset (dx, dy): the corner goes
        back to EMPTY when it holds the tile's own RED or GREEN. */
    method ClearCornerAt(t: Tile, dx: int, dy: int, ghost g0: Corners)
      requires Valid() && Fits(t) && 0 <= dy < Rows(t) && 0 <= dx < Cols(t) && CornersShape(g0)
      requires boardstates[t.location.Y + dy, t.location.X + dx] == g0[t.location.Y + dy][t.location.X + dx]
      modifies boardstates
      ensures Valid()
      ensures boardstates[t.location.Y + dy, t.location.X + dx]
        == ClearedCorner(g0, pattern, t, t.location.Y + dy, t.location.X + dx)
      ensures forall r, c :: 0 <= r < 4 && 0 <= c < 5 && (r != t.location.Y + dy || c != t.location.X + dx) ==>
        boardstates[r, c] == old(boardstates[r, c])
    {
      var c := GetLocationStateAt(t.location, dx, dy);
      var s := pattern(t.kind, dx, dy, t.orientation);
      if (c == RED || c == GREEN) && c == s {
        boardstates[t.location.Y + dy, t.location.X + dx] := EMPTY;
      }
    }

    /** `addTileToBoard`. */
    method AddTileToBoard(p: string)
      requires Valid() && WellFormedCode(p) && Fits(Decode(p))
      modifies this, boardstates, tiles
      ensures Valid() && Value() == AddValue(old(Value()), pattern, Decode(p))
    {
      var tile := Decode(p);
      UpdateTiles(tile);
      UpdateBoardStates(tile);
      tileList := tileList[tile.kind := tile];
    }

    /** `updateTileOnBoard`: file the new tile, take the old one of its type
        off the board, and put the new one on. */
    method UpdateTileOnBoard(p: string)
      requires Valid() && WellFormedCode(p) && Fits(Decode(p)) && Decode(p).kind in tileList
      modifies this, boardstates, tiles
      ensures Valid()
      ensures Value() == AddValue(RemoveValue(old(Value()), pattern, old(tileList)[Decode(p).kind]), pattern, Decode(p))
    {
      var newTile := Decode(p);
      var oldTile := tileList[newTile.kind];
      tileList := tileList[newTile.kind := newTile];
      RemoveTile(oldTile);
      UpdateTiles(newTile);
      UpdateBoardStates(newTile);
    }

    /** `removeTile(char)`: take the placed tile of that type, if any, off the board. */
    method RemoveTileOfType(c: char)
      requires Valid() && 'a' <= c <= 'f'
      modifies boardstates, tiles
      ensures Valid()
      ensures TypeOfLetter(c).value in tileList ==>
        Value() == RemoveValue(old(Value()), pattern, tileList[TypeOfLetter(c).value])
      ensures TypeOfLetter(c).value !in tileList ==> Value() == old(Value())
    {
      var k := Decode([c] + "00N").kind;
      if k in tileList {
        RemoveTile(tileList[k]);
      }
    }

    /** `initializeBoardState`: add the codes of s one after another. */
    method InitializeBoardState(s: string)
      requires Valid() && Placeable(s, |s| / 4)
      modifies this, boardstates, tiles
      ensures Valid() && Value() == ApplyTiles(old(Value()), pattern, DecodeChunks(s, |s| / 4))
    {
      ghost var v0 := Value();
      var i := 0;
      while i < |s| / 4
        invariant 0 <= i <= |s| / 4
        invariant Valid() && Value() == ApplyChunks(v0, pattern, s, i)
      {
        AddCode(s, i, v0);
        i := i + 1;
      }
      ApplyChunksIsApplyTiles(v0, pattern, s, i);
    }

    /** One round of initializeBoardState's loop: add the i-th code of s. */
    method AddCode(s: string, i: nat, ghost v0: BoardValue)
      requires Valid() && ValueShape(v0) && Placeable(s, |s| / 4) && i < |s| / 4
      requires Value() == ApplyChunks(v0, pattern, s, i)
      modifies this, boardstates, tiles
      ensures Valid() && Placeable(s, i + 1) && Value() == ApplyChunks(v0, pattern, s, i + 1)
    {
      ApplyChunksStep(v0, pattern, s, i, |s| / 4);
      AddTileToBoard(Chunk(s, i));
    }

    /** `doesPlacementOverlap`. */
    function DoesPlacementOverlap(p: string): (r: bool)
      reads this, tiles
      requires Valid() && |p| >= 4 && IsDigit(p[1]) && IsDigit(p[2]) && OverlapInRange(p)
      ensures r == Overlap(Squares(), p)
    {
      var x := DigitValue(p[1]);
      var y := DigitValue(p[2]);
      match p[3]
      case 'N' | 'S' => tiles[y, x].Some? || tiles[y + 1, x].Some?
      case 'E' | 'W' => tiles[y, x].Some? || tiles[y, x + 1].Some?
      case _ => false
    }

    /** `isPlacementConsistent`: count the footprint corners where water
        meets water or land meets land; all six must. */
    method IsPlacementConsistent(p: string) returns (b: bool)
      requires Valid() && WellFormedCode(p) && Fits(Decode(p))
      ensures b == Consistent(Corners(), pattern, Decode(p))
    {
      var tile := Decode(p);
      ghost var g := Corners();
      var count := CountAgreeing(boardstates, pattern, tile, g);
      SixAgreeIffConsistent(g, pattern, tile);
      b := count == 6;
    }

    /** `isPlacementDangerous`: inconsistent, or some footprint corner puts a
        dinosaur on one of the other colour. */
    method IsPlacementDangerous(p: string) returns (b: bool)
      requires Valid() && WellFormedCode(p) && Fits(Decode(p))
      ensures b == Dangerous(Corners(), pattern, Decode(p))
    {
      var tile := Decode(p);
      ghost var g := Corners();
      var consistent := IsPlacementConsistent(p);
      if !consistent {
        return true;
      }
      var count := CountPeaceful(boardstates, pattern, tile, g);
      SixPeacefulIffSafe(g, pattern, tile);
      b := count != 6;
    }

    /** `violatesObjective`: dangerous; or a required corner of the tile's box
        left without a dinosaur; or more than one dinosaur with one of them
        off the required corners. */
    method ViolatesObjective(p: string) returns (b: bool)
      requires Valid() && WellFormedCode(p) && Fits(Decode(p))
      ensures b == Violates(Corners(), pattern, connections, Decode(p))
    {
      var dangerous := IsPlacementDangerous(p);
      if dangerous {
        return true;
      }
      var tile := Decode(p);
      var found := CollectFoundLand(pattern, tile);
      var minX := p[1] as int - '0' as int;
      var minY := p[2] as int - '0' as int;
      var req := CollectReqLand(connections, tile, minX, minY);
      if !(req <= found) {
        return true;
      }
      b := |found| > 1 && !(found <= req);
    }

    /** `validPlacement`: on the board, no overlap, objective kept. */
    method ValidPlacement(p: string) returns (b: bool)
      requires Valid() && ValidPlacementDefined(p)
      ensures b == ValidSpec(Value(), pattern, connections, p)
    {
      if !IsPlacementOnBoard(p) {
        return false;
      }
      OnBoardFits(p);
      if DoesPlacementOverlap(p) {
        return false;
      }
      var violates := ViolatesObjective(p);
      b := !violates;
    }

    /** `findCandidatePlacements`: every type and orientation at the square,
        kept when valid and of a type not yet placed, in a sorted set. */
    method FindCandidatePlacements(l: Location) returns (hS: seq<string>)
      requires Valid() && 0 <= l.X < 4 && 0 <= l.Y < 3
      ensures StrictlySorted(hS)
      ensures forall p :: p in hS <==> IsCandidate(Value(), pattern, connections, l, p)
    {
      var t := "abcdef";
      var o := "NESW";
      ghost var v := Value();
      ghost var sel := p => IsCandidate(v, pattern, connections, l, p);
      hS := [];
      var a := 0;
      while a < 6
        invariant 0 <= a <= 6 && StrictlySorted(hS) && Value() == v
        invariant CandidatesUpTo(hS, sel, l, a, 0)
      {
        var e := 0;
        while e < 4
          invariant 0 <= e <= 4 && StrictlySorted(hS) && Value() == v
          invariant CandidatesUpTo(hS, sel, l, a, e)
        {
          var tmp := Code(t[a], l, o[e]);
          CodeIsCandidateCode(t[a], l, o[e]);
          var valid := ValidPlacement(tmp);
          var keep := valid && TypeOfLetter(t[a]).value !in tileList;
          LetterRoundTrip(Decode(tmp).kind);
          assert keep == sel(tmp);
          CandidateStep(hS, sel, l, a, e, keep);
          if keep {
            hS := Insert(hS, tmp);
          }
          e := e + 1;
        }
        CandidateRow(hS, sel, l, a);
        a := a + 1;
      }
      CandidateRow(hS, sel, l, a);
    }

    /** `toString`: one code per placed tile, in strictly ascending type
        order, every placed tile's code among them; for a full board, a
        solution string naming each placed tile. */
    function ToString(): (s: string)
      reads this
      requires Valid()
      ensures SerializedForm(tileList, s)
      ensures |tileList| == 6 ==>
        && (forall j :: j in tileList)
        && IsSolutionString(s)
        && forall k :: 0 <= k < 6 ==> Parse(Chunk(s, k)) == Some(tileList[TypeOrder[k]])
    {
      SerializeWhenFull(tileList);
      Serialize(tileList)
    }

    /** `recsol`: copy d, add the codes of s (the same loop as
        initializeBoardState, since |s| is a multiple of 4), and either record
        a full board or search on from the copy. */
    method RecSol(d: Dinosaurs, s: string, sols: seq<string>) returns (out: seq<string>)
      requires Valid() && d.Valid() && d.pattern == pattern && d.connections == connections
      requires |s| % 4 == 0 && Placeable(s, |s| / 4)
      requires NoDuplicates(sols)
      ensures SolutionsExtend(sols, out)
      decreases AllTypes - (d.tileList.Keys + Kinds(DecodeChunks(s, |s| / 4))), 2
    {
      var dl := d.Clone();
      dl.InitializeBoardState(s);
      ApplyTilesKeys(d.Value(), pattern, DecodeChunks(s, |s| / 4));
      if |dl.tileList| == 6 {
        out := AddLinked(sols, dl.ToString());
      } else {
        out := SearchSquares(dl, sols);
      }
    }

    /** The else-branch of recsol: for every square this board leaves free,
        recurse on the candidates dl offers there. */
    method SearchSquares(dl: Dinosaurs, sols: seq<string>) returns (out: seq<string>)
      requires Valid() && dl.Valid() && dl.pattern == pattern && dl.connections == connections
      requires NoDuplicates(sols)
      ensures SolutionsExtend(sols, out)
      decreases AllTypes - dl.tileList.Keys, 1
    {
      out := sols;
      var i := 0;
      while i < 3
        invariant 0 <= i <= 3 && SolutionsExtend(sols, out)
      {
        var j := 0;
        while j < 4
          invariant 0 <= j <= 4 && SolutionsExtend(sols, out)
        {
          if tiles[i, j] == None {
            var cands := dl.FindCandidatePlacements(Location(j, i));
            CandidatesAreNextCodes(dl.Value(), pattern, connections, Location(j, i), cands);
            ghost var before := out;
            out := SearchCandidates(dl, cands, out);
            SolutionsExtendTransitive(sols, before, out);
          }
          j := j + 1;
        }
        i := i + 1;
      }
    }

    /** recsol's innermost loop: recurse on each candidate in turn. */
    method SearchCandidates(dl: Dinosaurs, cands: seq<string>, sols: seq<string>) returns (out: seq<string>)
      requires Valid() && dl.Valid() && dl.pattern == pattern && dl.connections == connections
      requires NoDuplicates(sols)
      requires forall t :: t in cands ==> NextCode(dl.tileList.Keys, t)
      ensures SolutionsExtend(sols, out)
      decreases AllTypes - dl.tileList.Keys, 0
    {
      out := sols;
      var k := 0;
      while k < |cands|
        invariant 0 <= k <= |cands| && SolutionsExtend(sols, out)
      {
        var t := cands[k];
        assert t in cands;
        SingleCodePlaceable(t);
        TypeOrderIsOrdinalOrder(Decode(t).kind);
        ghost var before := out;
        out := RecSol(dl, t, out);
        SolutionsExtendTransitive(sols, before, out);
        k := k + 1;
      }
    }

    /** `getSolutions`: solve from an empty board with the objective's
        initial placements. */
    method GetSolutions(initial: string) returns (sols: seq<string>)
      requires Valid() && |initial| % 4 == 0 && Placeable(initial, |initial| / 4)
      ensures NoDuplicates(sols)
      ensures forall x :: x in sols ==> IsSolutionString(x)
    {
      var d := new Dinosaurs(pattern, connections);
      sols := RecSol(d, initial, []);
    }
  }
}
