// The placement predicates of the board, on values: on-board, overlap,
// consistency, danger, objective and their conjunction, the candidate
// placements at a square, and the serialisation of a board
// (Dinosaurs.java: isPlacementOnBoard, doesPlacementOverlap,
// isPlacementConsistent, isPlacementDangerous, violatesObjective,
// validPlacement, findCandidatePlacements, toString).
module Rules {
  import opened Decimal
  import opened Primitives
  import opened Tiles
  import opened Ordering
  import opened Geometry

  // ---- isPlacementOnBoard and doesPlacementOverlap ----

  /** The digits the code carries as its x and y. */
  function CodeX(p: string): int requires |p| >= 2 { DigitValue(p[1]) }
  function CodeY(p: string): int requires |p| >= 3 { DigitValue(p[2]) }

  /** `isPlacementOnBoard`: upright codes need 0 <= y < 2, lying ones
      0 <= x < 3, and any other fourth character passes. */
  function IsPlacementOnBoard(p: string): (r: bool)
    requires |p| >= 4 && IsDigit(p[1]) && IsDigit(p[2])
    ensures p[3] in "NS" ==> (r <==> CodeY(p) < 2)
    ensures p[3] in "EW" ==> (r <==> CodeX(p) < 3)
    ensures p[3] !in "NESW" ==> r
  {
    var x := CodeX(p);
    var y := CodeY(p);
    match p[3]
    case 'N' | 'S' => y >= 0 && y < 2
    case 'E' | 'W' => x >= 0 && x < 3
    case _ => true
  }

  /** The anchor names one of the 4 x 3 squares. */
  predicate AnchorOnSquares(p: string)
    requires |p| >= 3
  {
    0 <= DigitValue(p[1]) < 4 && 0 <= DigitValue(p[2]) < 3
  }

  /** The squares `doesPlacementOverlap` reads are inside the grid. */
  predicate OverlapInRange(p: string)
    requires |p| >= 4 && IsDigit(p[1]) && IsDigit(p[2])
  {
    (p[3] in "NS" ==> CodeX(p) < 4 && CodeY(p) + 1 < 3)
    && (p[3] in "EW" ==> CodeX(p) + 1 < 4 && CodeY(p) < 3)
  }

  /** `doesPlacementOverlap`: for N/S the squares (x, y) and (x, y+1), for
      E/W the squares (x, y) and (x+1, y), are tested; for any other fourth
      character nothing is tested and the answer is false. */
  predicate Overlap(sq: Squares, p: string)
    requires SquaresShape(sq) && |p| >= 4 && IsDigit(p[1]) && IsDigit(p[2]) && OverlapInRange(p)
  {
    var x := CodeX(p);
    var y := CodeY(p);
    match p[3]
    case 'N' | 'S' => sq[y][x].Some? || sq[y + 1][x].Some?
    case 'E' | 'W' => sq[y][x].Some? || sq[y][x + 1].Some?
    case _ => false
  }

  /** For an anchor on the squares and a proper orientation, being "on the
      board" is the same as the whole footprint fitting. */
  lemma OnBoardIffFits(p: string)
    requires WellFormedCode(p) && AnchorOnSquares(p) && p[3] in "NESW"
    ensures IsPlacementOnBoard(p) <==> Fits(Decode(p))
  {
  }

  /** As written, the test ignores x for upright codes and y for lying ones,
      and lets every other fourth character through. */
  lemma OnBoardIgnoresOtherCoordinate(p: string, d: char)
    requires WellFormedCode(p) && IsDigit(d)
    ensures p[3] in "NS" ==> (IsPlacementOnBoard(p) <==> IsPlacementOnBoard(p[1 := d]))
    ensures p[3] in "EW" ==> (IsPlacementOnBoard(p) <==> IsPlacementOnBoard(p[2 := d]))
    ensures p[3] !in "NESW" ==> IsPlacementOnBoard(p)
  {
  }

  /** An on-board code anchored on a square fits the corner grid; this is
      what makes the later predicates' array reads safe. */
  lemma OnBoardFits(p: string)
    requires WellFormedCode(p) && AnchorOnSquares(p) && (p[3] in "NESW" || CodeY(p) < 2)
    requires IsPlacementOnBoard(p)
    ensures OverlapInRange(p) && Fits(Decode(p))
  {
  }

  /** A code overlaps iff one of the two squares its tile would cover is
      taken; a code with an unrecognised orientation never overlaps, even
      though it decodes to an upright tile. */
  lemma OverlapIffCoveredSquareTaken(sq: Squares, p: string)
    requires SquaresShape(sq) && WellFormedCode(p) && OverlapInRange(p)
    requires p[3] in "NESW" ==> Fits(Decode(p))
    ensures var t := Decode(p);
      Overlap(sq, p) <==>
        p[3] in "NESW"
        && (sq[t.location.Y][t.location.X].Some? || sq[SecondSquare(t).Y][SecondSquare(t).X].Some?)
  {
  }

  // ---- isPlacementConsistent, isPlacementDangerous ----

  /** A dinosaur of one colour meets one of the other. */
  predicate Conflicts(mine: State, board: State) {
    (mine == GREEN && board == RED) || (mine == RED && board == GREEN)
  }

  /** The board corner at footprint offset (dx, dy). */
  function BoardCorner(g: Corners, t: Tile, dx: int, dy: int): State
    requires CornersShape(g) && Fits(t) && 0 <= dy < Rows(t) && 0 <= dx < Cols(t)
  {
    g[t.location.Y + dy][t.location.X + dx]
  }

  /** The condition isPlacementDangerous computes: inconsistent, or some
      footprint corner puts GREEN on RED or RED on GREEN. */
  predicate Dangerous(g: Corners, pat: Pattern, t: Tile)
    requires CornersShape(g) && Fits(t)
  {
    !Consistent(g, pat, t)
    || exists dy, dx :: 0 <= dy < Rows(t) && 0 <= dx < Cols(t)
         && Conflicts(TileCorner(pat, t, dx, dy), BoardCorner(g, t, dx, dy))
  }

  // ---- violatesObjective ----

  predicate IsLand(s: State) {
    s == RED || s == GREEN
  }

  /** The corner at footprint offset (dx, dy), if the tile puts a dinosaur there. */
  function LandAt(pat: Pattern, t: Tile, dx: int, dy: int): set<Location>
  {
    if IsLand(TileCorner(pat, t, dx, dy)) then {Location(t.location.X + dx, t.location.Y + dy)} else {}
  }

  /** `found_land` after the first n columns of footprint row dy. */
  function LandInRow(pat: Pattern, t: Tile, dy: int, n: nat): set<Location>
  {
    if n == 0 then {} else LandInRow(pat, t, dy, n - 1) + LandAt(pat, t, n - 1, dy)
  }

  /** `found_land` after the first m footprint rows. */
  function LandInRows(pat: Pattern, t: Tile, m: nat): set<Location>
  {
    if m == 0 then {} else LandInRows(pat, t, m - 1) + LandInRow(pat, t, m - 1, Cols(t))
  }

  /** `found_land`: the corners where the tile puts a dinosaur, collected row
      by row as violatesObjective does. */
  function FoundLand(pat: Pattern, t: Tile): set<Location>
  {
    LandInRows(pat, t, Rows(t))
  }

  lemma {:induction false} LandInRowMember(pat: Pattern, t: Tile, dy: int, n: nat, l: Location)
    ensures l in LandInRow(pat, t, dy, n) <==>
      l.Y == t.location.Y + dy && t.location.X <= l.X < t.location.X + n
      && IsLand(TileCorner(pat, t, l.X - t.location.X, dy))
  {
    if n > 0 {
      LandInRowMember(pat, t, dy, n - 1, l);
    }
  }

  lemma {:induction false} LandInRowsMember(pat: Pattern, t: Tile, m: nat, l: Location)
    ensures l in LandInRows(pat, t, m) <==>
      t.location.Y <= l.Y < t.location.Y + m && t.location.X <= l.X < t.location.X + Cols(t)
      && IsLand(TileCorner(pat, t, l.X - t.location.X, l.Y - t.location.Y))
  {
    if m > 0 {
      LandInRowsMember(pat, t, m - 1, l);
      LandInRowMember(pat, t, m - 1, Cols(t), l);
    }
  }

  /** A corner is found land exactly when it is in the footprint and the tile
      puts a dinosaur on it. */
  lemma FoundLandMember(pat: Pattern, t: Tile, l: Location)
    ensures l in FoundLand(pat, t) <==>
      InFootprint(t, l.X, l.Y) && IsLand(TileCorner(pat, t, l.X - t.location.X, l.Y - t.location.Y))
  {
    LandInRowsMember(pat, t, Rows(t), l);
  }

  /** The endpoints a 4-character `x1y1x2y2` pair contributes to `req_land`:
      both, when both lie in the tile's footprint box, and none otherwise. */
  function PairLand(isl: string, t: Tile): set<Location>
    requires |isl| == 4
  {
    var x1, y1 := DigitValue(isl[0]), DigitValue(isl[1]);
    var x2, y2 := DigitValue(isl[2]), DigitValue(isl[3]);
    if InFootprint(t, x1, y1) && InFootprint(t, x2, y2)
    then {Location(x1, y1), Location(x2, y2)}
    else {}
  }

  /** `req_land` after the first n pairs of the connected-islands string. */
  function ReqLand(conn: string, t: Tile, n: nat): set<Location>
    requires 4 * n <= |conn|
  {
    if n == 0 then {} else ReqLand(conn, t, n - 1) + PairLand(Chunk(conn, n - 1), t)
  }

  /** Every required corner lies in the footprint. */
  lemma {:induction false} ReqLandInFootprint(conn: string, t: Tile, n: nat, l: Location)
    requires 4 * n <= |conn| && l in ReqLand(conn, t, n)
    ensures InFootprint(t, l.X, l.Y)
  {
    if n > 0 && l !in PairLand(Chunk(conn, n - 1), t) {
      ReqLandInFootprint(conn, t, n - 1, l);
    }
  }

  /** Pair k of the connected-islands string lies wholly in the tile's
      footprint box, and l is one of its two endpoints. */
  predicate PairRequires(conn: string, k: nat, t: Tile, l: Location)
    requires 4 * k + 4 <= |conn|
  {
    var x1, y1 := DigitValue(conn[4 * k]), DigitValue(conn[4 * k + 1]);
    var x2, y2 := DigitValue(conn[4 * k + 2]), DigitValue(conn[4 * k + 3]);
    InFootprint(t, x1, y1) && InFootprint(t, x2, y2)
    && (l == Location(x1, y1) || l == Location(x2, y2))
  }

  /** A corner is required exactly when some pair among the first n lies in
      the box and ends at it. */
  lemma {:induction false} ReqLandMember(conn: string, t: Tile, n: nat, l: Location)
    requires 4 * n <= |conn|
    ensures l in ReqLand(conn, t, n) <==> exists k :: 0 <= k < n && PairRequires(conn, k, t, l)
  {
    if n > 0 {
      ReqLandMember(conn, t, n - 1, l);
      var isl := Chunk(conn, n - 1);
      assert isl[0] == conn[4 * (n - 1)] && isl[1] == conn[4 * (n - 1) + 1];
      assert isl[2] == conn[4 * (n - 1) + 2] && isl[3] == conn[4 * (n - 1) + 3];
      assert l in PairLand(isl, t) <==> PairRequires(conn, n - 1, t, l);
      if l in ReqLand(conn, t, n) && l !in ReqLand(conn, t, n - 1) {
        assert PairRequires(conn, n - 1, t, l);
      }
    }
  }

  /** The condition violatesObjective computes. */
  predicate Violates(g: Corners, pat: Pattern, conn: string, t: Tile)
    requires CornersShape(g) && Fits(t) && |conn| % 4 == 0
  {
    var found := FoundLand(pat, t);
    var req := ReqLand(conn, t, |conn| / 4);
    Dangerous(g, pat, t) || !(req <= found) || (|found| > 1 && !(found <= req))
  }

  /** A placement that keeps the objective and puts down more than one
      dinosaur puts them on exactly the required corners of its box. */
  lemma KeptObjectiveIsExact(g: Corners, pat: Pattern, conn: string, t: Tile)
    requires CornersShape(g) && Fits(t) && |conn| % 4 == 0
    requires !Violates(g, pat, conn, t) && |FoundLand(pat, t)| > 1
    ensures FoundLand(pat, t) == ReqLand(conn, t, |conn| / 4)
    ensures Consistent(g, pat, t)
  {
  }

  // ---- validPlacement ----

  /** The codes validPlacement is defined on: well formed, and, when the
      code passes isPlacementOnBoard (so that the later checks read the
      arrays), anchored on a square and (for an unrecognised orientation,
      which decodes to NORTH) with room for an upright footprint. A code
      that fails isPlacementOnBoard is rejected before any array is read. */
  predicate ValidPlacementDefined(p: string) {
    WellFormedCode(p)
    && (IsPlacementOnBoard(p) ==> AnchorOnSquares(p) && (p[3] in "NESW" || CodeY(p) < 2))
  }

  /** `validPlacement`: on the board, no overlap, and no violation of the
      objective, evaluated left to right. */
  predicate ValidSpec(v: BoardValue, pat: Pattern, conn: string, p: string)
    requires ValueShape(v) && |conn| % 4 == 0 && ValidPlacementDefined(p)
  {
    IsPlacementOnBoard(p)
    && (OnBoardFits(p); !Overlap(v.squares, p))
    && !Violates(v.corners, pat, conn, Decode(p))
  }

  /** A well-formed code that fails isPlacementOnBoard is in the domain of
      validPlacement, whatever its anchor, and is rejected. */
  lemma OffBoardIsRejected(v: BoardValue, pat: Pattern, conn: string, p: string)
    requires ValueShape(v) && |conn| % 4 == 0 && WellFormedCode(p) && !IsPlacementOnBoard(p)
    ensures ValidPlacementDefined(p) && !ValidSpec(v, pat, conn, p)
  {
  }

  /** A valid placement is consistent, not dangerous, fits the grid, and
      covers two free squares. */
  lemma ValidPlacementMeans(v: BoardValue, pat: Pattern, conn: string, p: string)
    requires ValueShape(v) && |conn| % 4 == 0 && ValidPlacementDefined(p)
    requires ValidSpec(v, pat, conn, p)
    ensures Fits(Decode(p))
    ensures Consistent(v.corners, pat, Decode(p)) && !Dangerous(v.corners, pat, Decode(p))
    ensures p[3] in "NESW" ==>
      var t := Decode(p);
      v.squares[t.location.Y][t.location.X].None? && v.squares[SecondSquare(t).Y][SecondSquare(t).X].None?
  {
    OnBoardFits(p);
    OverlapIffCoveredSquareTaken(v.squares, p);
  }

  // ---- findCandidatePlacements ----

  /** `tile + loc + orientation`, where `loc` is `getX() + "" + getY()`. */
  function Code(letter: char, l: Location, o: char): (r: string)
    ensures |r| >= 4 && r[0] == letter && r[|r| - 1] == o
    ensures 0 <= l.X < 10 && 0 <= l.Y < 10 ==> r == [letter, DigitChar(l.X), DigitChar(l.Y), o]
  {
    [letter] + IntToString(l.X) + IntToString(l.Y) + [o]
  }

  /** The shape every candidate has: a type letter, the square's digits and
      one of N, E, S, W. */
  predicate IsCandidateCode(l: Location, p: string)
    requires 0 <= l.X < 4 && 0 <= l.Y < 3
  {
    |p| == 4 && 'a' <= p[0] <= 'f' && p[1] == DigitChar(l.X) && p[2] == DigitChar(l.Y) && p[3] in "NESW"
  }

  lemma CodeIsCandidateCode(letter: char, l: Location, o: char)
    requires 'a' <= letter <= 'f' && o in "NESW" && 0 <= l.X < 4 && 0 <= l.Y < 3
    ensures Code(letter, l, o) == [letter, DigitChar(l.X), DigitChar(l.Y), o]
    ensures IsCandidateCode(l, Code(letter, l, o))
  {
    SingleDigit(l.X);
    SingleDigit(l.Y);
  }

  /** Membership in `findCandidatePlacements(l)`: the right shape, a valid
      placement, and a type not yet in `tile_list`. */
  predicate IsCandidate(v: BoardValue, pat: Pattern, conn: string, l: Location, p: string)
    requires ValueShape(v) && |conn| % 4 == 0 && 0 <= l.X < 4 && 0 <= l.Y < 3
  {
    IsCandidateCode(l, p) && ValidSpec(v, pat, conn, p) && Decode(p).kind !in v.tileList
  }

  /** Candidates at one square sort by type letter, then by orientation
      character, so each type's orientations come E, N, S, W. */
  lemma CandidateOrder(l: Location, p: string, q: string)
    requires 0 <= l.X < 4 && 0 <= l.Y < 3 && IsCandidateCode(l, p) && IsCandidateCode(l, q)
    ensures LexLess(p, q) <==> p[0] < q[0] || (p[0] == q[0] && p[3] < q[3])
  {
    if p[0] != q[0] {
      LexLessAt(p, q, 0);
    } else if p[3] != q[3] {
      assert p[..3] == q[..3];
      LexLessAt(p, q, 3);
    } else {
      assert p == q;
      LexLessIrreflexive(p);
    }
  }

  lemma {:induction false} SubsetCard<T>(a: set<T>, b: set<T>)
    requires a <= b
    ensures |a| <= |b|
    decreases b
  {
    if b != {} {
      var x :| x in b;
      SubsetCard(a - {x}, b - {x});
    }
  }

  lemma AllTypesCount()
    ensures |AllTypes| == 6
  {
    assert AllTypes == {A} + {B} + {C} + {D} + {E} + {F};
  }

  /** A tile list with six entries holds every type. */
  lemma SixEntriesHoldEveryType(m: map<TileType, Tile>)
    requires |m| == 6
    ensures forall k :: k in m
  {
    forall k ensures k in m {
      if k !in m {
        forall j | j in m.Keys ensures j in AllTypes - {k} {
          TypeOrderIsOrdinalOrder(j);
        }
        SubsetCard(m.Keys, AllTypes - {k});
        TypeOrderIsOrdinalOrder(k);
        AllTypesCount();
        assert false;
      }
    }
  }

  /** Once every type is placed there is nothing left to propose. */
  lemma NoCandidatesOnFullBoard(v: BoardValue, pat: Pattern, conn: string, l: Location, p: string)
    requires ValueShape(v) && |conn| % 4 == 0 && 0 <= l.X < 4 && 0 <= l.Y < 3
    requires |v.tileList| == 6
    ensures !IsCandidate(v, pat, conn, l, p)
  {
    SixEntriesHoldEveryType(v.tileList);
  }

  // ---- toString and the solutions ----

  /** `tile_list` files each tile under its own type, and every tile fits. */
  predicate TileListOk(m: map<TileType, Tile>) {
    forall k :: k in m ==> m[k].kind == k && Fits(m[k])
  }

  /** The tiles of types TypeOrder[k..], in ordinal order, serialised. */
  function SerializeFrom(m: map<TileType, Tile>, k: nat): string
    requires k <= 6
    decreases 6 - k
  {
    if k == 6 then ""
    else (if TypeOrder[k] in m then ToString(m[TypeOrder[k]]) else "") + SerializeFrom(m, k + 1)
  }

  /** The ordinal of the type a code names, -1 for a code that does not parse. */
  function CodeOrdinal(c: string): (n: int)
    ensures n >= -1
    ensures Parse(c).Some? ==> n == Ordinal(Parse(c).value.kind)
  {
    match Parse(c)
    case None => -1
    case Some(t) => Ordinal(t.kind)
  }

  /** The code of the tile filed under t is one of r's 4-character codes. */
  predicate Listed(m: map<TileType, Tile>, r: string, t: TileType) {
    t in m && exists i :: 0 <= i < |r| / 4 && Chunk(r, i) == ToString(m[t])
  }

  /** The codes SerializeFrom(m, k) is made of: one per placed type of
      ordinal k or later, in ordinal order. */
  ghost function SerializedCodes(m: map<TileType, Tile>, k: nat): seq<string>
    requires k <= 6
    decreases 6 - k
  {
    if k == 6 then [] else (if TypeOrder[k] in m then [ToString(m[TypeOrder[k]])] else []) + SerializedCodes(m, k + 1)
  }

  ghost function Concat(cs: seq<string>): string {
    if cs == [] then "" else cs[0] + Concat(cs[1..])
  }

  lemma {:induction false} SerializeFromIsConcat(m: map<TileType, Tile>, k: nat)
    requires k <= 6
    ensures SerializeFrom(m, k) == Concat(SerializedCodes(m, k))
    decreases 6 - k
  {
    if k < 6 {
      SerializeFromIsConcat(m, k + 1);
      var cs, rest := SerializedCodes(m, k), SerializedCodes(m, k + 1);
      if TypeOrder[k] in m {
        var h := ToString(m[TypeOrder[k]]);
        assert cs == [h] + rest && cs[0] == h && cs[1..] == rest;
        assert SerializeFrom(m, k) == h + SerializeFrom(m, k + 1);
      } else {
        assert cs == rest;
        assert SerializeFrom(m, k) == SerializeFrom(m, k + 1);
      }
    }
  }

  /** Concatenated 4-character codes are read back one by one by Chunk. */
  lemma {:induction false} ChunkOfConcat(cs: seq<string>)
    requires forall i :: 0 <= i < |cs| ==> |cs[i]| == 4
    ensures |Concat(cs)| == 4 * |cs|
    ensures forall i :: 0 <= i < |cs| ==> Chunk(Concat(cs), i) == cs[i]
  {
    if cs != [] {
      ChunkOfConcat(cs[1..]);
      forall i | 0 <= i < |cs| ensures Chunk(Concat(cs), i) == cs[i] {
        if i == 0 {
          ChunkOfHead(cs[0], Concat(cs[1..]));
        } else {
          ChunkAfterHead(cs[0], Concat(cs[1..]), i - 1);
        }
      }
    }
  }

  /** The placed types of ordinal k or later. */
  ghost function KeysFrom(m: map<TileType, Tile>, k: nat): set<TileType>
    requires k <= 6
    decreases 6 - k
  {
    if k == 6 then {} else (if TypeOrder[k] in m then {TypeOrder[k]} else {}) + KeysFrom(m, k + 1)
  }

  lemma OrdinalOfTypeOrder(j: nat)
    requires j < 6
    ensures Ordinal(TypeOrder[j]) == j
  {
  }

  lemma {:induction false} KeysFromMember(m: map<TileType, Tile>, k: nat, t: TileType)
    requires k <= 6
    ensures t in KeysFrom(m, k) <==> t in m && Ordinal(t) >= k
    decreases 6 - k
  {
    if k < 6 {
      KeysFromMember(m, k + 1, t);
      TypeOrderIsOrdinalOrder(t);
      OrdinalOfTypeOrder(k);
    }
  }

  /** From ordinal 0 on, the placed types are all of tile_list's keys, at most six. */
  lemma KeysFromAll(m: map<TileType, Tile>)
    ensures KeysFrom(m, 0) == m.Keys && |m| <= 6
  {
    forall t ensures t in KeysFrom(m, 0) <==> t in m {
      KeysFromMember(m, 0, t);
    }
    forall j | j in m.Keys ensures j in AllTypes {
      TypeOrderIsOrdinalOrder(j);
    }
    SubsetCard(m.Keys, AllTypes);
    AllTypesCount();
  }

  /** Code c is the code of a placed tile whose type is TypeOrder[j] for some j >= k. */
  predicate InSerialized(m: map<TileType, Tile>, k: nat, c: string) {
    exists j :: k <= j < 6 && TypeOrder[j] in m &&
      c == ToString(m[TypeOrder[j]]) && Parse(c) == Some(m[TypeOrder[j]]) && CodeOrdinal(c) == j
  }

  /** The code of the tile filed under t is among cs. */
  predicate CodeListed(m: map<TileType, Tile>, cs: seq<string>, t: TileType) {
    t in m && ToString(m[t]) in cs
  }

  /** What SerializedCodes(m, k) is: one 4-character code per placed type of
      ordinal k or later, in strictly ascending ordinal order, and every
      such type's code. */
  ghost predicate CodesFrom(m: map<TileType, Tile>, k: nat, cs: seq<string>)
    requires k <= 6
  {
    && |cs| == |KeysFrom(m, k)|
    && (forall i :: 0 <= i < |cs| ==> |cs[i]| == 4 && InSerialized(m, k, cs[i]))
    && (forall i :: 0 <= i < |cs| ==> k <= CodeOrdinal(cs[i]))
    && (forall i, j :: 0 <= i < j < |cs| ==> CodeOrdinal(cs[i]) < CodeOrdinal(cs[j]))
    && (forall t {:trigger CodeListed(m, cs, t)} :: t in m && Ordinal(t) >= k ==> CodeListed(m, cs, t))
  }

  lemma {:induction false} SerializedCodesFrom(m: map<TileType, Tile>, k: nat)
    requires k <= 6
    ensures TileListOk(m) ==> CodesFrom(m, k, SerializedCodes(m, k))
    ensures m == map[] ==> SerializedCodes(m, k) == []
    decreases 6 - k
  {
    if k < 6 {
      SerializedCodesFrom(m, k + 1);
      if !TileListOk(m) {
      } else if TypeOrder[k] in m {
        var h := ToString(m[TypeOrder[k]]);
        assert SerializedCodes(m, k) == [h] + SerializedCodes(m, k + 1);
        HeadCodes(m, k, h, SerializedCodes(m, k + 1));
      } else {
        assert SerializedCodes(m, k) == SerializedCodes(m, k + 1);
        SkipCodes(m, k, SerializedCodes(m, k + 1));
      }
    }
  }

  /** A type that is not placed adds no code. */
  lemma SkipCodes(m: map<TileType, Tile>, k: nat, rest: seq<string>)
    requires k < 6 && TileListOk(m) && TypeOrder[k] !in m
    requires CodesFrom(m, k + 1, rest)
    ensures CodesFrom(m, k, rest)
  {
    assert KeysFrom(m, k) == KeysFrom(m, k + 1);
    forall i | 0 <= i < |rest| ensures InSerialized(m, k, rest[i]) {
      assert InSerialized(m, k + 1, rest[i]);
    }
    forall t | t in m && Ordinal(t) >= k ensures CodeListed(m, rest, t) {
      TypeOrderIsOrdinalOrder(t);
      assert Ordinal(t) >= k + 1;
    }
  }

  /** The k-th type's code in front of the later ones keeps the codes in
      ascending ordinal order and adds the k-th type. */
  lemma HeadCodes(m: map<TileType, Tile>, k: nat, head: string, rest: seq<string>)
    requires k < 6 && TileListOk(m) && TypeOrder[k] in m && head == ToString(m[TypeOrder[k]])
    requires CodesFrom(m, k + 1, rest)
    ensures CodesFrom(m, k, [head] + rest)
  {
    HeadCount(m, k, head, rest);
    HeadMembers(m, k, head, rest);
    HeadAscending(k, head, rest);
    HeadListed(m, k, head, rest);
  }

  lemma HeadCount(m: map<TileType, Tile>, k: nat, head: string, rest: seq<string>)
    requires k < 6 && TypeOrder[k] in m
    requires |rest| == |KeysFrom(m, k + 1)|
    ensures |[head] + rest| == |KeysFrom(m, k)|
  {
    KeysFromMember(m, k + 1, TypeOrder[k]);
    OrdinalOfTypeOrder(k);
    assert KeysFrom(m, k) == {TypeOrder[k]} + KeysFrom(m, k + 1);
  }

  lemma HeadMembers(m: map<TileType, Tile>, k: nat, head: string, rest: seq<string>)
    requires k < 6 && TileListOk(m) && TypeOrder[k] in m && head == ToString(m[TypeOrder[k]])
    requires forall i :: 0 <= i < |rest| ==> |rest[i]| == 4 && InSerialized(m, k + 1, rest[i])
    ensures CodeOrdinal(head) == k
    ensures forall i :: 0 <= i < |[head] + rest| ==> |([head] + rest)[i]| == 4 && InSerialized(m, k, ([head] + rest)[i])
  {
    OrdinalOfTypeOrder(k);
    ParseToString(m[TypeOrder[k]]);
    assert InSerialized(m, k, head);
    forall i | 0 <= i < |rest| ensures InSerialized(m, k, rest[i]) {
      assert InSerialized(m, k + 1, rest[i]);
    }
  }

  lemma HeadAscending(k: nat, head: string, rest: seq<string>)
    requires CodeOrdinal(head) == k
    requires forall i :: 0 <= i < |rest| ==> k + 1 <= CodeOrdinal(rest[i])
    requires forall i, j :: 0 <= i < j < |rest| ==> CodeOrdinal(rest[i]) < CodeOrdinal(rest[j])
    ensures forall i :: 0 <= i < |[head] + rest| ==> k <= CodeOrdinal(([head] + rest)[i])
    ensures forall i, j :: 0 <= i < j < |[head] + rest| ==> CodeOrdinal(([head] + rest)[i]) < CodeOrdinal(([head] + rest)[j])
  {
    var cs := [head] + rest;
    forall i, j | 0 <= i < j < |cs| ensures CodeOrdinal(cs[i]) < CodeOrdinal(cs[j]) {
      assert cs[j] == rest[j - 1];
      if i > 0 {
        assert cs[i] == rest[i - 1];
      }
    }
  }

  lemma HeadListed(m: map<TileType, Tile>, k: nat, head: string, rest: seq<string>)
    requires k < 6 && TypeOrder[k] in m && head == ToString(m[TypeOrder[k]])
    requires forall t {:trigger CodeListed(m, rest, t)} :: t in m && Ordinal(t) >= k + 1 ==> CodeListed(m, rest, t)
    ensures forall t {:trigger CodeListed(m, [head] + rest, t)} :: t in m && Ordinal(t) >= k ==> CodeListed(m, [head] + rest, t)
  {
    forall t | t in m && Ordinal(t) >= k ensures CodeListed(m, [head] + rest, t) {
      TypeOrderIsOrdinalOrder(t);
      if Ordinal(t) != k {
        assert CodeListed(m, rest, t);
      }
    }
  }

  /** SerializeFrom(m, 0) read four characters at a time is SerializedCodes(m, 0). */
  lemma SerializeIsCodes(m: map<TileType, Tile>)
    ensures m == map[] ==> SerializeFrom(m, 0) == ""
    ensures TileListOk(m) ==>
      && |SerializedCodes(m, 0)| == |m| && |m| <= 6
      && |SerializeFrom(m, 0)| == 4 * |m|
      && CodesFrom(m, 0, SerializedCodes(m, 0))
      && forall i :: 0 <= i < |m| ==> Chunk(SerializeFrom(m, 0), i) == SerializedCodes(m, 0)[i]
  {
    SerializeFromIsConcat(m, 0);
    SerializedCodesFrom(m, 0);
    KeysFromAll(m);
    if TileListOk(m) {
      ChunkOfConcat(SerializedCodes(m, 0));
    }
  }

  /** The serialisation of tile list m: one 4-character code per placed
      tile, each the code of a placed tile, naming types in strictly
      ascending ordinal order, with every placed tile's code among them. */
  predicate SerializedForm(m: map<TileType, Tile>, r: string) {
    && |r| == 4 * |m| && |r| <= 24
    && (forall i :: 0 <= i < |m| ==>
      && Parse(Chunk(r, i)).Some? && Parse(Chunk(r, i)).value in m.Values
      && Chunk(r, i) == ToString(Parse(Chunk(r, i)).value))
    && (forall i, j :: 0 <= i < j < |m| ==> CodeOrdinal(Chunk(r, i)) < CodeOrdinal(Chunk(r, j)))
    && (forall t {:trigger Listed(m, r, t)} :: t in m ==> Listed(m, r, t))
  }

  /** `Dinosaurs.toString`: the tiles sorted by type ordinal, each serialised. */
  function Serialize(m: map<TileType, Tile>): (r: string)
    ensures m == map[] ==> r == ""
    ensures TileListOk(m) ==> SerializedForm(m, r)
  {
    SerializeIsCodes(m);
    SerializeMembers(m);
    SerializeOrder(m);
    SerializeCover(m);
    SerializeFrom(m, 0)
  }

  lemma SerializeMembers(m: map<TileType, Tile>)
    ensures TileListOk(m) ==> |SerializeFrom(m, 0)| == 4 * |m| && forall i :: 0 <= i < |m| ==>
      && Parse(Chunk(SerializeFrom(m, 0), i)).Some? && Parse(Chunk(SerializeFrom(m, 0), i)).value in m.Values
      && Chunk(SerializeFrom(m, 0), i) == ToString(Parse(Chunk(SerializeFrom(m, 0), i)).value)
  {
    SerializeIsCodes(m);
    if TileListOk(m) {
      var cs := SerializedCodes(m, 0);
      forall i | 0 <= i < |m|
        ensures Parse(cs[i]).Some? && Parse(cs[i]).value in m.Values
        ensures cs[i] == ToString(Parse(cs[i]).value)
      {
        assert InSerialized(m, 0, cs[i]);
      }
    }
  }

  lemma SerializeOrder(m: map<TileType, Tile>)
    ensures TileListOk(m) ==> |SerializeFrom(m, 0)| == 4 * |m| && forall i, j :: 0 <= i < j < |m| ==>
      CodeOrdinal(Chunk(SerializeFrom(m, 0), i)) < CodeOrdinal(Chunk(SerializeFrom(m, 0), j))
  {
    SerializeIsCodes(m);
  }

  lemma SerializeCover(m: map<TileType, Tile>)
    ensures TileListOk(m) ==>
      forall t {:trigger Listed(m, SerializeFrom(m, 0), t)} :: t in m ==> Listed(m, SerializeFrom(m, 0), t)
  {
    SerializeIsCodes(m);
    if TileListOk(m) {
      CodesCover(m, SerializedCodes(m, 0), SerializeFrom(m, 0));
    }
  }

  /** A string read code by code as cs lists every tile whose code cs lists. */
  lemma CodesCover(m: map<TileType, Tile>, cs: seq<string>, r: string)
    requires forall t {:trigger CodeListed(m, cs, t)} :: t in m && Ordinal(t) >= 0 ==> CodeListed(m, cs, t)
    requires |r| == 4 * |cs| && forall i :: 0 <= i < |cs| ==> Chunk(r, i) == cs[i]
    ensures forall t {:trigger Listed(m, r, t)} :: t in m ==> Listed(m, r, t)
  {
    forall t | t in m ensures Listed(m, r, t) {
      assert CodeListed(m, cs, t);
      var i :| 0 <= i < |cs| && cs[i] == ToString(m[t]);
      assert Chunk(r, i) == cs[i];
    }
  }

  /** The k-th code of a 24-character solution decodes to a fitting tile of
      the k-th type, and serialises back to itself. */
  predicate SolutionChunk(x: string, k: nat)
    requires |x| == 24 && k < 6
  {
    var c := Chunk(x, k);
    WellFormedCode(c) && Decode(c).kind == TypeOrder[k] && Fits(Decode(c)) && ToString(Decode(c)) == c
  }

  /** A recorded solution: six codes, one per type in ordinal order. */
  predicate IsSolutionString(x: string) {
    |x| == 24 && forall k :: 0 <= k < 6 ==> SolutionChunk(x, k)
  }

  /** Dropping a 4-character head shifts the chunks by one. */
  lemma ChunkAfterHead(h: string, r: string, j: nat)
    requires |h| == 4 && 4 * j + 4 <= |r|
    ensures Chunk(h + r, j + 1) == Chunk(r, j)
  {
    assert (h + r)[4 * (j + 1)..4 * (j + 1) + 4] == r[4 * j..4 * j + 4];
  }

  lemma ChunkOfHead(h: string, r: string)
    requires |h| == 4
    ensures Chunk(h + r, 0) == h
  {
    assert (h + r)[..4] == h;
  }

  /** The k-th type's code. */
  function Piece(m: map<TileType, Tile>, j: nat): string
    requires j < 6 && forall k :: k in m
  {
    ToString(m[TypeOrder[j]])
  }

  lemma {:induction false} SerializeFromLayout(m: map<TileType, Tile>, k: nat)
    requires k <= 6 && TileListOk(m) && forall j :: j in m
    ensures |SerializeFrom(m, k)| == 4 * (6 - k)
    ensures forall j :: k <= j < 6 ==> Chunk(SerializeFrom(m, k), j - k) == Piece(m, j)
    decreases 6 - k
  {
    if k < 6 {
      ParseToString(m[TypeOrder[k]]);
      SerializeFromLayout(m, k + 1);
      var head, rest := Piece(m, k), SerializeFrom(m, k + 1);
      assert |head| == 4 && |rest| == 4 * (6 - (k + 1));
      assert SerializeFrom(m, k) == head + rest;
      forall j | k <= j < 6
        ensures Chunk(head + rest, j - k) == Piece(m, j)
      {
        if j == k {
          ChunkOfHead(head, rest);
        } else {
          ChunkAfterHead(head, rest, j - k - 1);
          assert Chunk(rest, j - (k + 1)) == Piece(m, j);
        }
      }
    }
  }

  /** A code that is some tile's serialisation is that tile's solution chunk. */
  lemma PieceIsSolutionChunk(x: string, m: map<TileType, Tile>, k: nat)
    requires |x| == 24 && k < 6 && TileListOk(m) && (forall j :: j in m)
    requires Chunk(x, k) == Piece(m, k)
    ensures SolutionChunk(x, k) && Parse(Chunk(x, k)) == Some(m[TypeOrder[k]])
  {
    ParseToString(m[TypeOrder[k]]);
  }

  /** A complete board serialises to a solution string from which each tile
      is read back. */
  lemma SerializeComplete(m: map<TileType, Tile>)
    requires TileListOk(m) && forall j :: j in m
    ensures IsSolutionString(Serialize(m))
    ensures forall k :: 0 <= k < 6 ==> Parse(Chunk(Serialize(m), k)) == Some(m[TypeOrder[k]])
  {
    var x := Serialize(m);
    SerializeFromLayout(m, 0);
    assert |x| == 24;
    forall k | 0 <= k < 6
      ensures SolutionChunk(x, k) && Parse(Chunk(x, k)) == Some(m[TypeOrder[k]])
    {
      PieceIsSolutionChunk(x, m, k);
    }
  }
}
