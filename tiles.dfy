// Tile types, tiles and the 4-character placement code `[type][x][y][orientation]`
// (Tile.java, and the type-name side of TileType.java).
module Tiles {
  import opened Decimal
  import opened Primitives

  /** The six tile types, in ordinal order. */
  datatype TileType = A | B | C | D | E | F

  /** The Java enum ordinal. */
  function Ordinal(k: TileType): (n: nat)
    ensures n < 6
  {
    match k
    case A => 0
    case B => 1
    case C => 2
    case D => 3
    case E => 4
    case F => 5
  }

  /** The types listed by ascending ordinal. */
  const TypeOrder: seq<TileType> := [A, B, C, D, E, F]

  /** Every tile type. */
  const AllTypes: set<TileType> := {A, B, C, D, E, F}

  lemma TypeOrderIsOrdinalOrder(k: TileType)
    ensures TypeOrder[Ordinal(k)] == k
    ensures k in AllTypes
  {
  }

  /** The enum constant's name. */
  function TypeName(k: TileType): string
  {
    match k
    case A => "A"
    case B => "B"
    case C => "C"
    case D => "D"
    case E => "E"
    case F => "F"
  }

  /** `tileType.toString().toLowerCase()`: the name shifted to lower case. */
  function Letter(k: TileType): (c: char)
    ensures 'a' <= c <= 'f'
  {
    (TypeName(k)[0] as int + 32) as char
  }

  /** `TileType.valueOf(Character.toString(c - 32))`: the type whose name is
      the character 32 code points below `c`; None where `valueOf` throws. */
  function TypeOfLetter(c: char): (r: Option<TileType>)
    ensures r.Some? <==> 'a' <= c <= 'f'
    ensures r.Some? ==> Letter(r.value) == c
  {
    var u := c as int - 32;
    if u == 'A' as int then Some(A)
    else if u == 'B' as int then Some(B)
    else if u == 'C' as int then Some(C)
    else if u == 'D' as int then Some(D)
    else if u == 'E' as int then Some(E)
    else if u == 'F' as int then Some(F)
    else None
  }

  /** Each type is named by its own letter. */
  lemma LetterRoundTrip(k: TileType)
    ensures TypeOfLetter(Letter(k)) == Some(k)
  {
  }

  /** A placed (or proposed) tile: type, anchor location and orientation. */
  datatype Tile = Tile(kind: TileType, location: Location, orientation: Orientation)

  /** `placementToOrientation`: 'E', 'S' and 'W' select their orientation;
      every other fourth character falls back to NORTH. */
  function PlacementToOrientation(p: string): (o: Orientation)
    requires |p| >= 4
    ensures p[3] in "NESW" <==> ToChar(o) == p[3]
    ensures p[3] !in "ESW" <==> o == NORTH
  {
    var i := NORTH;
    match p[3]
    case 'E' => EAST
    case 'S' => SOUTH
    case 'W' => WEST
    case _ => i
  }

  /** `placementToLocation`: the second and third characters minus '0'. */
  function PlacementToLocation(p: string): (l: Location)
    requires |p| >= 3
    ensures IsDigit(p[1]) && IsDigit(p[2]) ==> 0 <= l.X < 10 && 0 <= l.Y < 10
    ensures l.X + '0' as int == p[1] as int && l.Y + '0' as int == p[2] as int
  {
    Location(DigitValue(p[1]), DigitValue(p[2]))
  }

  /** The constructor `Tile(String placement)`. None stands for the exceptions
      it throws: a code shorter than four characters, or a first character
      that names no tile type. */
  function Parse(p: string): (r: Option<Tile>)
    ensures r.Some? <==> |p| >= 4 && 'a' <= p[0] <= 'f'
    ensures r.Some? ==> Letter(r.value.kind) == p[0]
  {
    if |p| < 4 then None
    else match TypeOfLetter(p[0])
      case None => None
      case Some(k) => Some(Tile(k, PlacementToLocation(p), PlacementToOrientation(p)))
  }

  /** The codes every board operation is given: four characters, a type
      letter and two digit coordinates (the fourth may be anything). */
  predicate WellFormedCode(p: string) {
    |p| == 4 && 'a' <= p[0] <= 'f' && IsDigit(p[1]) && IsDigit(p[2])
  }

  /** The tile a well-formed code denotes. */
  function Decode(p: string): (t: Tile)
    requires WellFormedCode(p)
    ensures Letter(t.kind) == p[0]
    ensures 0 <= t.location.X < 10 && 0 <= t.location.Y < 10
  {
    Parse(p).value
  }

  /** `Tile.toString`: lower-case type name, the decimal x and y, and the
      first character of the orientation's name. */
  function ToString(t: Tile): (s: string)
    ensures |s| >= 4 && s[0] == Letter(t.kind) && s[|s| - 1] == ToChar(t.orientation)
    ensures 0 <= t.location.X < 10 && 0 <= t.location.Y < 10 ==>
      s == [Letter(t.kind), DigitChar(t.location.X), DigitChar(t.location.Y), ToChar(t.orientation)]
  {
    [Letter(t.kind)] + IntToString(t.location.X) + IntToString(t.location.Y)
      + [OrientationName(t.orientation)[0]]
  }

  /** `compareTo`: the difference of the type ordinals. */
  function CompareTo(t: Tile, u: Tile): (r: int)
    ensures r == 0 <==> t.kind == u.kind
    ensures r < 0 <==> Ordinal(t.kind) < Ordinal(u.kind)
  {
    Ordinal(t.kind) - Ordinal(u.kind)
  }

  /** compareTo is antisymmetric. */
  lemma CompareToAntisymmetric(t: Tile, u: Tile)
    ensures CompareTo(t, u) == -CompareTo(u, t)
  {
  }

  /** Decoding the character of an orientation gives that orientation back. */
  lemma OrientationRoundTrip(p: string, o: Orientation)
    requires |p| >= 4 && p[3] == ToChar(o)
    ensures PlacementToOrientation(p) == o
  {
  }

  /** With single-digit coordinates a tile serialises to 4 characters, which
      parse back to the same tile. */
  lemma ParseToString(t: Tile)
    requires 0 <= t.location.X < 10 && 0 <= t.location.Y < 10
    ensures |ToString(t)| == 4
    ensures WellFormedCode(ToString(t))
    ensures Parse(ToString(t)) == Some(t)
  {
    var s := ToString(t);
    SingleDigit(t.location.X);
    SingleDigit(t.location.Y);
    assert s == [Letter(t.kind), DigitChar(t.location.X), DigitChar(t.location.Y), ToChar(t.orientation)];
    LetterRoundTrip(t.kind);
    OrientationRoundTrip(s, t.orientation);
  }

  /** Serialising a parsed code gives the code back, except that a fourth
      character other than N, E, S, W comes back as 'N'. */
  lemma ToStringParse(p: string)
    requires WellFormedCode(p)
    ensures ToString(Decode(p)) == p[..3] + [if p[3] in "NESW" then p[3] else 'N']
  {
    var t := Decode(p);
    SingleDigit(t.location.X);
    SingleDigit(t.location.Y);
    assert DigitChar(t.location.X) == p[1];
    assert DigitChar(t.location.Y) == p[2];
  }
}
