// The leaf types of the puzzle: corner states, orientations and locations.
module Primitives {
  import opened Decimal

  /** Java's nullable references, where a model needs them. */
  datatype Option<T> = None | Some(value: T)

  /** The state of a board corner (State.java). */
  datatype State = WATER | EMPTY | GREEN | RED

  /** The four orientations of a tile, in declaration order (Orientation.java). */
  datatype Orientation = NORTH | EAST | SOUTH | WEST

  /** The enum constant's name, as Java's `name()` / `toString()` returns it. */
  function OrientationName(o: Orientation): string
  {
    match o
    case NORTH => "NORTH"
    case EAST => "EAST"
    case SOUTH => "SOUTH"
    case WEST => "WEST"
  }

  /** `Orientation.toChar`: a switch that starts from 'N' and overrides it
      for the other three constants. */
  function ToChar(o: Orientation): (c: char)
    ensures c == OrientationName(o)[0]
    ensures c in "NESW"
  {
    var i := 'N';
    match o
    case NORTH => i
    case EAST => 'E'
    case SOUTH => 'S'
    case WEST => 'W'
  }

  /** Distinct orientations have distinct characters. */
  lemma ToCharInjective(o1: Orientation, o2: Orientation)
    ensures ToChar(o1) == ToChar(o2) <==> o1 == o2
  {
  }

  /** The sentinel coordinate of a location that is not on the board. */
  const OUT: int := -1

  /** An immutable corner coordinate (Location.java); the fields X and Y are
      the getters `getX` and `getY`, and the datatype constructor is the
      two-argument constructor. */
  datatype Location = Location(X: int, Y: int)
  {
    /** `equals(Object o)`: false for null, otherwise both coordinates agree. */
    function Equals(o: Option<Location>): (b: bool)
      ensures b ==> o.Some?
    {
      if o.None? then false else X == o.value.X && Y == o.value.Y
    }

    /** `toString`: `this.X + this.Y + ""` adds the coordinates (as 32-bit
        ints) before converting, so it renders their sum in Java's decimal
        form (which CanonicalUnique shows is the only string that does). */
    function ToString(): (s: string)
      ensures Canonical(s)
      ensures ParseInt(s) == AddInt32(X, Y)
      ensures -0x8000_0000 <= X + Y < 0x8000_0000 ==> ParseInt(s) == X + Y
    {
      IntToStringRoundTrip(AddInt32(X, Y));
      IntToString(AddInt32(X, Y))
    }
  }

  /** The no-argument constructor: both coordinates are OUT. */
  function OutLocation(): (l: Location)
    ensures l.X == -1 && l.Y == -1
  {
    Location(OUT, OUT)
  }

  /** The getters return exactly what the constructor was given. */
  lemma GettersReturnArguments(x: int, y: int)
    ensures Location(x, y).X == x && Location(x, y).Y == y
  {
  }

  /** `equals` is value equality; hence reflexive and symmetric, and false for null. */
  lemma EqualsIsValueEquality(a: Location, b: Location)
    ensures a.Equals(Some(b)) <==> a == b
    ensures a.Equals(Some(a))
    ensures a.Equals(Some(b)) == b.Equals(Some(a))
    ensures !a.Equals(None)
  {
  }

  /** `toString` renders the sum, so different locations can print alike. */
  lemma ToStringIsSum()
    ensures Location(1, 2).ToString() == "3"
    ensures Location(2, 1).ToString() == Location(1, 2).ToString()
    ensures OutLocation().ToString() == "-2"
  {
    SingleDigit(3);
  }
}
