# Dino game board, modelled in Dafny

This is a model of the board engine of the dinosaur-island domino puzzle (package
`arlob.dinogame`):

- **The board.** A 4 x 3 grid of squares is covered by six two-square tiles, one of
  each type `a`–`f`. The 5 x 4 grid of corners between the squares holds a
  `State` per corner:
  - WATER or EMPTY land at the start, seeded by parity;
  - RED or GREEN once a tile puts a dinosaur there.
- **Placement codes.** A tile is named by a four-character code: type letter, x
  digit, y digit, orientation `N`/`E`/`S`/`W`. For example `c00N`.
- **Placement rules.** These decide whether a code may be put down: on the
  board, no overlap, water against water (consistency), no RED over GREEN
  (danger), and the objective's required island connections.
- **The solver.** It offers the candidate codes for a free square in string
  order (`findCandidatePlacements`) and recurses over copies of the board
  (`recsol`). Every full six-tile board becomes a 24-character solution string.

Modules:

| file | module | models |
|---|---|---|
| `decimal.dfy` | `Decimal` | Java's `"" + n` and `c - '0'` on digits |
| `primitives.dfy` | `Primitives` | `State`, `Orientation` (`toChar`), `Location` |
| `tiles.dfy` | `Tiles` | tile types, `Tile` and the four-character codec |
| `ordering.dfy` | `Ordering` | `String.compareTo`, TreeSet and LinkedHashSet insertion |
| `geometry.dfy` | `Geometry` | footprints, and the effect of placing and removing a tile, on values |
| `rules.dfy` | `Rules` | the placement predicates, candidates and serialisation, as specification functions |
| `dinosaurs.dfy` | `DinoGame` | the class `Dinosaurs`: the grids as arrays, the mutators, the checking loops, the solver |

How the board is represented:

- `boardstates` and `tiles` are `array2` fields that the methods update in
  place. `tile_list` is a `map` field that they reassign.
- Every mutator is proved against a value-level function of the old board:
  - `AddValue` for `addTileToBoard`;
  - `RemoveValue` for `removeTile`;
  - `ApplyTiles` for `initializeBoardState`.
- Lemmas about those functions state what the source promises: which squares
  and corners change, WATER is permanent, and add-then-remove restores the
  grids.
- Each checking loop (`isPlacementConsistent`, `isPlacementDangerous`, the two
  set-building loops of `violatesObjective`, `findCandidatePlacements`) is a
  method. Its `ensures` ties the loop's result to a specification predicate of
  `Rules`, and lemmas explain what that predicate means.

Two inputs of the board come from outside this model:

- **The tile table.** It is the per-type corner pattern
  `TileType.stateFromOffset(dx, dy, orientation)`. The model takes it as a
  parameter of type `Pattern`, held in the constant field `pattern`. Every
  property holds for any table.
- **The objective.** Its connected-islands string is the constant field
  `connections`, four digits per pair. Its initial placements are the
  argument of `GetSolutions`.

Some behaviours of the code that look odd are kept as written:

- `Location.toString` renders the decimal of `X + Y`, not the two
  coordinates side by side.
- `isPlacementOnBoard` ignores x for upright codes and y for lying ones. It
  accepts any unrecognised orientation character.
- An unrecognised orientation character decodes to NORTH. `doesPlacementOverlap`
  then reports no overlap.
- `removeTile` keeps the removed tile's `tile_list` entry.
- `recsol` tests `this.tiles`, the grid of the board it was called on, and not
  that of the copy it is extending. It searches from every square that grid
  leaves free, not only the first.
- Candidates come in string order, so a type's orientations come E, N, S, W.

## Model

| member | source | states |
|---|---|---|
| Decimal.DigitValue | src/main/java/arlob/dinogame/Tile.java:62 | a digit character minus '0' is a value 0..9 |
| Decimal.DigitChar | src/main/java/arlob/dinogame/Tile.java:66 | the character of a single digit is a digit whose value is that digit |
| Decimal.NatToString | src/main/java/arlob/dinogame/Tile.java:66 | decimal rendering is a non-empty string of digits without a leading zero, a single digit exactly for numbers below ten |
| Decimal.NatToStringValue | src/main/java/arlob/dinogame/Tile.java:66 | the rendered digits read back as the number |
| Decimal.IntToStringRoundTrip | src/main/java/arlob/dinogame/Tile.java:66 | rendering any int, sign included, is undone by reading it back |
| Decimal.IntToString | src/main/java/arlob/dinogame/Tile.java:66 | a non-empty rendering that starts with '-' exactly for negative numbers, is digits after the sign with no leading zero, and so is canonical decimal form |
| Decimal.DigitsRendering | src/main/java/arlob/dinogame/Tile.java:66 | a digit string without leading zeros is exactly the rendering of the number it denotes |
| Decimal.CanonicalIsRendering | src/main/java/arlob/dinogame/Tile.java:66 | every canonical decimal string is the rendering of the number it reads as |
| Decimal.CanonicalUnique | src/main/java/arlob/dinogame/Location.java:28 | two canonical decimal strings for the same number are equal, so a canonical string with the right value is the rendering |
| Decimal.AddInt32 | src/main/java/arlob/dinogame/Location.java:28 | Java's int addition: the sum wrapped into 32 bits, congruent to it modulo 2^32, and equal to it when it fits |
| Decimal.SingleDigit | src/main/java/arlob/dinogame/Tile.java:66 | a coordinate 0..9 renders as one character |
| Primitives.ToChar | src/main/java/arlob/dinogame/Orientation.java:12-28 | the character is the first letter of the orientation's name, and one of N, E, S, W |
| Primitives.ToCharInjective | src/main/java/arlob/dinogame/Orientation.java:12-28 | distinct orientations have distinct characters, and equal ones equal characters |
| Primitives.Location.Equals | src/main/java/arlob/dinogame/Location.java:31-37 | equality to a null reference is false |
| Primitives.Location.ToString | src/main/java/arlob/dinogame/Location.java:27-29 | the string is in canonical decimal form (sign, digits, no leading zero) and reads back as the 32-bit sum of the coordinates, which is their sum when it does not overflow |
| Primitives.OutLocation | src/main/java/arlob/dinogame/Location.java:13-16 | the no-argument location is (-1, -1), the OUT sentinel |
| Primitives.GettersReturnArguments | src/main/java/arlob/dinogame/Location.java:8-24 | getX and getY return the constructor's arguments |
| Primitives.EqualsIsValueEquality | src/main/java/arlob/dinogame/Location.java:31-37 | equals holds iff both coordinates agree; reflexive, symmetric, false for null |
| Primitives.ToStringIsSum | src/main/java/arlob/dinogame/Location.java:27-29 | (1, 2) and (2, 1) both print "3", and OUT prints "-2" |
| Tiles.Ordinal | src/main/java/arlob/dinogame/Tile.java:69-71 | each type's ordinal is below 6 |
| Tiles.TypeOrderIsOrdinalOrder | src/main/java/arlob/dinogame/Dinosaurs.java:530 | the type order lists each type at its ordinal, and every type is in it |
| Tiles.Letter | src/main/java/arlob/dinogame/Tile.java:66 | the lower-cased type name is a letter a..f |
| Tiles.TypeOfLetter | src/main/java/arlob/dinogame/Tile.java:12 | a type is found exactly for a..f, and it is the type of that letter |
| Tiles.LetterRoundTrip | src/main/java/arlob/dinogame/Tile.java:12 | looking up a type's own letter gives that type |
| Tiles.PlacementToOrientation | src/main/java/arlob/dinogame/Tile.java:37-51 | a fourth character in NESW decodes to the orientation with that character; anything but E, S, W decodes to NORTH |
| Tiles.PlacementToLocation | src/main/java/arlob/dinogame/Tile.java:61-63 | the coordinates are the second and third characters minus '0', in 0..9 when those are digits |
| Tiles.Parse | src/main/java/arlob/dinogame/Tile.java:11-15 | a tile is built exactly when the code has at least four characters and starts a..f, and its type has that letter |
| Tiles.Decode | src/main/java/arlob/dinogame/Tile.java:11-15 | a well-formed code gives a tile of its letter's type at single-digit coordinates |
| Tiles.ToString | src/main/java/arlob/dinogame/Tile.java:65-67 | the code starts with the type's letter and ends with the orientation's character; with single-digit coordinates it is exactly letter, x digit, y digit, orientation |
| Tiles.CompareTo | src/main/java/arlob/dinogame/Tile.java:69-71 | zero iff the types agree, negative iff the first type's ordinal is smaller |
| Tiles.CompareToAntisymmetric | src/main/java/arlob/dinogame/Tile.java:69-71 | swapping the arguments negates the result |
| Tiles.OrientationRoundTrip | src/main/java/arlob/dinogame/Tile.java:37-51 | decoding toChar(o) gives o back |
| Tiles.ParseToString | src/main/java/arlob/dinogame/Tile.java:65-67 | a tile with single-digit coordinates prints as a well-formed four-character code that parses back to the same tile |
| Tiles.ToStringParse | src/main/java/arlob/dinogame/Tile.java:61-66 | printing a parsed code gives the code back, except that a fourth character outside NESW comes back as 'N' |
| Ordering.LexLess | src/main/java/arlob/dinogame/Dinosaurs.java:509 | a string is never below itself, a proper prefix comes first, and a string never comes before its own proper prefix |
| Ordering.LexLessIrreflexive | src/main/java/arlob/dinogame/Dinosaurs.java:509 | no string sorts before itself |
| Ordering.LexLessTransitive | src/main/java/arlob/dinogame/Dinosaurs.java:509 | the string order is transitive |
| Ordering.LexLessTotal | src/main/java/arlob/dinogame/Dinosaurs.java:509 | two distinct strings are ordered one way or the other |
| Ordering.LexLessAt | src/main/java/arlob/dinogame/Dinosaurs.java:509 | equal-length strings are ordered by their first differing character |
| Ordering.Insert | src/main/java/arlob/dinogame/Dinosaurs.java:519 | the TreeSet stays strictly sorted and gains exactly the added element |
| Ordering.AddLinked | src/main/java/arlob/dinogame/Dinosaurs.java:561 | the LinkedHashSet stays free of duplicates, keeps its old elements as a prefix, and gains exactly the added element |
| Geometry.OffsetCount | src/main/java/arlob/dinogame/Dinosaurs.java:387-393 | 3 along the tile's axis (rows for N/S, columns for E/W), 2 across it |
| Geometry.FootprintHasSixCorners | src/main/java/arlob/dinogame/Dinosaurs.java:387-393 | a footprint is 2 x 3 corners upright and 3 x 2 lying, always 6 corners |
| Geometry.CoveredSquares | src/main/java/arlob/dinogame/Dinosaurs.java:205-215 | a fitting tile covers two distinct squares of the grid, and its footprint is exactly their corners |
| Geometry.InitialCorners | src/main/java/arlob/dinogame/Dinosaurs.java:24-29 | the seeded corner grid is 4 x 5, WATER exactly where x + y is odd, EMPTY elsewhere |
| Geometry.EmptySquares | src/main/java/arlob/dinogame/Dinosaurs.java:48 | the initial square grid is 3 x 4 and holds no tile |
| Geometry.InitialValue | src/main/java/arlob/dinogame/Dinosaurs.java:24-49 | the initial board has both grids in shape |
| Geometry.PlacedCorners | src/main/java/arlob/dinogame/Dinosaurs.java:308-318 | after placing, each corner is the placed-corner rule applied to the old grid |
| Geometry.ClearedCorners | src/main/java/arlob/dinogame/Dinosaurs.java:228-237 | after removing, each corner is the cleared-corner rule applied to the old grid |
| Geometry.PlacedSquares | src/main/java/arlob/dinogame/Dinosaurs.java:205-215 | after placing, the covered squares hold the tile and the others keep theirs |
| Geometry.ClearedSquares | src/main/java/arlob/dinogame/Dinosaurs.java:218-226 | after removing, the covered squares are empty and the others keep theirs |
| Geometry.AddValue | src/main/java/arlob/dinogame/Dinosaurs.java:166-177 | adding a tile keeps both grids in shape |
| Geometry.RemoveValue | src/main/java/arlob/dinogame/Dinosaurs.java:217-238 | removing a tile keeps both grids in shape |
| Geometry.AddTileEffect | src/main/java/arlob/dinogame/Dinosaurs.java:166-177 | exactly the two covered squares point to the tile; only EMPTY footprint corners change, each to the tile's state; the tile is filed under its type; nothing else changes |
| Geometry.RemoveTileEffect | src/main/java/arlob/dinogame/Dinosaurs.java:217-238 | the two squares are emptied; a corner changes iff it is a footprint corner that is RED or GREEN and equal to the tile's own state, and then to EMPTY; tile_list is unchanged |
| Geometry.WaterIsPermanent | src/main/java/arlob/dinogame/Dinosaurs.java:313 | neither adding nor removing a tile changes a WATER corner |
| Geometry.ColourIsNotOverwritten | src/main/java/arlob/dinogame/Dinosaurs.java:313 | adding a tile never changes a RED or GREEN corner |
| Geometry.AddThenRemoveRestores | src/main/java/arlob/dinogame/Dinosaurs.java:217-238 | a consistent tile placed on free squares and on EMPTY or WATER corners, then removed, leaves both grids as they were |
| Geometry.DecodeChunks | src/main/java/arlob/dinogame/Dinosaurs.java:101-106 | a string of n placeable codes denotes n tiles, each fitting the board |
| Geometry.ApplyTiles | src/main/java/arlob/dinogame/Dinosaurs.java:101-106 | adding a sequence of tiles keeps both grids in shape |
| Geometry.ApplyTilesSnoc | src/main/java/arlob/dinogame/Dinosaurs.java:101-106 | one more code is one more addTileToBoard, and one more type |
| Geometry.ApplyTilesKeys | src/main/java/arlob/dinogame/Dinosaurs.java:176 | after adding tiles, tile_list holds the old types plus exactly the added ones |
| Geometry.AddValueKeys | src/main/java/arlob/dinogame/Dinosaurs.java:176 | adding a tile adds exactly its type to tile_list |
| Geometry.ApplyTilesKeepsWater | src/main/java/arlob/dinogame/Dinosaurs.java:313 | a WATER corner stays WATER through any sequence of placements |
| Rules.IsPlacementOnBoard | src/main/java/arlob/dinogame/Dinosaurs.java:138-155 | for N/S true iff y < 2, for E/W true iff x < 3, and true for any other fourth character |
| Rules.OnBoardIffFits | src/main/java/arlob/dinogame/Dinosaurs.java:138-155 | for an anchor on the squares and a NESW orientation, on the board iff the whole footprint fits |
| Rules.OnBoardIgnoresOtherCoordinate | src/main/java/arlob/dinogame/Dinosaurs.java:138-155 | N/S codes ignore x, E/W codes ignore y, and other orientation characters always pass |
| Rules.OnBoardFits | src/main/java/arlob/dinogame/Dinosaurs.java:138-155 | an on-board code lies inside both grids, so the later checks read only inside them |
| Rules.OverlapIffCoveredSquareTaken | src/main/java/arlob/dinogame/Dinosaurs.java:261-281 | overlap iff the orientation is NESW and one of the tile's two squares is taken |
| Rules.LandInRowMember | src/main/java/arlob/dinogame/Dinosaurs.java:457-465 | a row's found land is exactly the row's corners where the tile puts a dinosaur |
| Rules.LandInRowsMember | src/main/java/arlob/dinogame/Dinosaurs.java:457-465 | the same for the first m rows |
| Rules.FoundLandMember | src/main/java/arlob/dinogame/Dinosaurs.java:455-465 | found_land is exactly the footprint corners where the tile puts RED or GREEN |
| Rules.ReqLandMember | src/main/java/arlob/dinogame/Dinosaurs.java:474-486 | a corner is in req_land exactly when some pair of the objective lies wholly in the tile's box and ends at that corner |
| Rules.ReqLandInFootprint | src/main/java/arlob/dinogame/Dinosaurs.java:467-486 | every required corner lies in the tile's footprint box |
| Rules.KeptObjectiveIsExact | src/main/java/arlob/dinogame/Dinosaurs.java:489-493 | a non-violating tile with more than one dinosaur is consistent, and its dinosaurs stand exactly on the required corners |
| Rules.OffBoardIsRejected | src/main/java/arlob/dinogame/Dinosaurs.java:496-498 | a well-formed code that fails isPlacementOnBoard is in the domain of validPlacement, whatever its anchor, and is rejected |
| Rules.ValidPlacementMeans | src/main/java/arlob/dinogame/Dinosaurs.java:496-498 | a valid placement fits, is consistent, is not dangerous, and (for NESW) covers two free squares |
| Rules.CodeIsCandidateCode | src/main/java/arlob/dinogame/Dinosaurs.java:512-516 | the code built from letter, square and orientation is those four characters |
| Rules.Code | src/main/java/arlob/dinogame/Dinosaurs.java:512-516 | the code starts with the letter and ends with the orientation; for single-digit squares it is exactly letter, x digit, y digit, orientation |
| Rules.CandidateOrder | src/main/java/arlob/dinogame/Dinosaurs.java:509-519 | candidates at one square sort by type letter, then by orientation character (E, N, S, W) |
| Rules.SixEntriesHoldEveryType | src/main/java/arlob/dinogame/Dinosaurs.java:560 | a tile list with six entries holds every type |
| Rules.NoCandidatesOnFullBoard | src/main/java/arlob/dinogame/Dinosaurs.java:518 | on a board holding all six types no code is a candidate |
| Rules.Serialize | src/main/java/arlob/dinogame/Dinosaurs.java:527-533 | the empty tile list prints as ""; a well-formed one prints as SerializedForm: exactly one four-character code per placed tile, each the printed code of a placed tile, their types in strictly ascending ordinal order, and every placed tile's code among them |
| Rules.CodeOrdinal | src/main/java/arlob/dinogame/Dinosaurs.java:530 | the ordinal of the type a code names, the key `sorted()` orders the tiles by |
| Rules.SerializeFromIsConcat | src/main/java/arlob/dinogame/Dinosaurs.java:530 | the printed string is the concatenation of the placed tiles' codes in ordinal order |
| Rules.ChunkOfConcat | src/main/java/arlob/dinogame/Dinosaurs.java:530 | concatenated four-character codes are read back one by one |
| Rules.KeysFromMember | src/main/java/arlob/dinogame/Dinosaurs.java:530 | the types listed from ordinal k on are exactly the placed types of ordinal at least k |
| Rules.KeysFromAll | src/main/java/arlob/dinogame/Dinosaurs.java:530 | from ordinal 0 on they are all of tile_list's keys, at most six |
| Rules.OrdinalOfTypeOrder | src/main/java/arlob/dinogame/Dinosaurs.java:530 | the j-th type in ordinal order has ordinal j |
| Rules.SerializedCodesFrom | src/main/java/arlob/dinogame/Dinosaurs.java:530 | the codes printed from type k on: one per placed type of ordinal k or later, each a placed tile's code, ordinals strictly ascending and at least k, none missing |
| Rules.HeadCodes | src/main/java/arlob/dinogame/Dinosaurs.java:530 | putting the k-th type's code first keeps that description, one ordinal lower |
| Rules.SkipCodes | src/main/java/arlob/dinogame/Dinosaurs.java:530 | a type that is not placed contributes no code |
| Rules.HeadCount | src/main/java/arlob/dinogame/Dinosaurs.java:530 | the k-th type's code adds one to the count of placed types |
| Rules.HeadMembers | src/main/java/arlob/dinogame/Dinosaurs.java:530 | the k-th type's code names a placed tile of ordinal k |
| Rules.HeadAscending | src/main/java/arlob/dinogame/Dinosaurs.java:530 | a code of ordinal k before codes of larger ascending ordinals keeps them ascending |
| Rules.HeadListed | src/main/java/arlob/dinogame/Dinosaurs.java:530 | adding the k-th type's code leaves no placed type of ordinal k or more unlisted |
| Rules.SerializeIsCodes | src/main/java/arlob/dinogame/Dinosaurs.java:527-533 | the printed string holds four characters per placed tile and reads back code by code as those codes |
| Rules.SerializeMembers | src/main/java/arlob/dinogame/Dinosaurs.java:530 | each printed code parses to a placed tile and is that tile's own code |
| Rules.SerializeOrder | src/main/java/arlob/dinogame/Dinosaurs.java:530 | the printed codes' types are in strictly ascending ordinal order |
| Rules.SerializeCover | src/main/java/arlob/dinogame/Dinosaurs.java:530 | every placed tile's code is printed |
| Rules.CodesCover | src/main/java/arlob/dinogame/Dinosaurs.java:530 | a string read code by code as a list of codes contains each code the list contains |
| Rules.SerializeFromLayout | src/main/java/arlob/dinogame/Dinosaurs.java:527-533 | on a full board each type's code sits at its ordinal's four-character slot |
| Rules.PieceIsSolutionChunk | src/main/java/arlob/dinogame/Dinosaurs.java:527-533 | a slot holding a tile's code parses back to that tile |
| Rules.SerializeComplete | src/main/java/arlob/dinogame/Dinosaurs.java:527-533 | a full board prints as a 24-character solution, one code per type in ordinal order, each parsing back to the placed tile |
| DinoGame.OkInRowFull | src/main/java/arlob/dinogame/Dinosaurs.java:374-381 | a row's count is at most its length, and equal to it iff every offset of the row passes |
| DinoGame.OkInRowsFull | src/main/java/arlob/dinogame/Dinosaurs.java:373-382 | the count of the first m rows is at most m times the width, and equal to it iff every offset passes |
| DinoGame.SixAgreeIffConsistent | src/main/java/arlob/dinogame/Dinosaurs.java:367-385 | a count of six agreeing corners is exactly consistency |
| DinoGame.SixPeacefulIffSafe | src/main/java/arlob/dinogame/Dinosaurs.java:414-429 | for a consistent tile, a count of six peaceful corners is exactly "not dangerous" |
| DinoGame.CountAgreeing | src/main/java/arlob/dinogame/Dinosaurs.java:373-382 | the loop counts the footprint corners where water meets water or land meets land |
| DinoGame.CountPeaceful | src/main/java/arlob/dinogame/Dinosaurs.java:414-427 | the loop counts the footprint corners that do not put GREEN on RED or RED on GREEN |
| DinoGame.PairStep | src/main/java/arlob/dinogame/Dinosaurs.java:474-486 | one pass of the pair loop adds both endpoints iff both lie in the tile's box |
| DinoGame.SingleCodePlaceable | src/main/java/arlob/dinogame/Dinosaurs.java:554-558 | a single fitting code is a one-tile code string of its own type |
| DinoGame.ApplyChunks | src/main/java/arlob/dinogame/Dinosaurs.java:101-106 | adding the first n codes keeps both grids in shape |
| DinoGame.ApplyChunksStep | src/main/java/arlob/dinogame/Dinosaurs.java:102-104 | adding code i is one more addTileToBoard of its decoded tile |
| DinoGame.ApplyChunksIsApplyTiles | src/main/java/arlob/dinogame/Dinosaurs.java:101-106 | adding the codes one by one is adding their decoded tiles one by one |
| DinoGame.Reparse | src/main/java/arlob/dinogame/Dinosaurs.java:83 | re-creating a fitting tile from its own code gives the same tile |
| DinoGame.Rebuilt | src/main/java/arlob/dinogame/Dinosaurs.java:80-85 | the tile list clone rebuilds equals the original |
| DinoGame.SerializeWhenFull | src/main/java/arlob/dinogame/Dinosaurs.java:560-561 | a tile list with six entries holds every type and prints as a solution naming its tiles |
| DinoGame.CollectFoundLand | src/main/java/arlob/dinogame/Dinosaurs.java:455-465 | the loop builds found_land |
| DinoGame.CollectReqLand | src/main/java/arlob/dinogame/Dinosaurs.java:467-486 | the loop builds req_land from the box read off the code's digits |
| DinoGame.CandidateStep | src/main/java/arlob/dinogame/Dinosaurs.java:515-520 | trying one letter and orientation adds exactly that code when it is selected |
| DinoGame.CandidateRow | src/main/java/arlob/dinogame/Dinosaurs.java:514-522 | after the six letters every selected candidate code has been tried |
| DinoGame.SolutionsExtendTransitive | src/main/java/arlob/dinogame/Dinosaurs.java:570-572 | extending the solution set twice is extending it once |
| DinoGame.CandidatesAreNextCodes | src/main/java/arlob/dinogame/Dinosaurs.java:570-571 | every candidate is a well-formed fitting code of a type not yet placed, the step that makes recsol terminate |
| DinoGame.Dinosaurs.constructor | src/main/java/arlob/dinogame/Dinosaurs.java:24-58 | a new board has the seeded corners, no tiles and an empty tile list |
| DinoGame.Dinosaurs.Clone | src/main/java/arlob/dinogame/Dinosaurs.java:71-91 | the copy has fresh grids and the same board value |
| DinoGame.Dinosaurs.GetLocationState | src/main/java/arlob/dinogame/Dinosaurs.java:337-339 | the state at the location |
| DinoGame.Dinosaurs.GetLocationStateAt | src/main/java/arlob/dinogame/Dinosaurs.java:341-343 | the state at the location shifted by the offsets |
| DinoGame.Dinosaurs.UpdateTiles | src/main/java/arlob/dinogame/Dinosaurs.java:205-215 | the square grid becomes PlacedSquares of the old one |
| DinoGame.Dinosaurs.UpdateBoardStates | src/main/java/arlob/dinogame/Dinosaurs.java:308-318 | the corner grid becomes PlacedCorners of the old one |
| DinoGame.Dinosaurs.PlaceCornerAt | src/main/java/arlob/dinogame/Dinosaurs.java:311-315 | one footprint corner takes its placed value and no other corner changes |
| DinoGame.Dinosaurs.RemoveTile | src/main/java/arlob/dinogame/Dinosaurs.java:217-238 | the board becomes RemoveValue of the old one |
| DinoGame.Dinosaurs.ClearTiles | src/main/java/arlob/dinogame/Dinosaurs.java:218-226 | the square grid becomes ClearedSquares of the old one |
| DinoGame.Dinosaurs.ClearBoardStates | src/main/java/arlob/dinogame/Dinosaurs.java:228-237 | the corner grid becomes ClearedCorners of the old one |
| DinoGame.Dinosaurs.ClearCornerAt | src/main/java/arlob/dinogame/Dinosaurs.java:230-235 | one footprint corner takes its cleared value and no other corner changes |
| DinoGame.Dinosaurs.AddTileToBoard | src/main/java/arlob/dinogame/Dinosaurs.java:166-177 | the board becomes AddValue of the old one |
| DinoGame.Dinosaurs.UpdateTileOnBoard | src/main/java/arlob/dinogame/Dinosaurs.java:179-188 | the old tile of the type is removed and the new one added; the removal keeps the new tile_list entry |
| DinoGame.Dinosaurs.RemoveTileOfType | src/main/java/arlob/dinogame/Dinosaurs.java:240-245 | the placed tile of that type is removed; without one, nothing changes |
| DinoGame.Dinosaurs.InitializeBoardState | src/main/java/arlob/dinogame/Dinosaurs.java:101-106 | the board becomes the old one with the decoded codes added in order |
| DinoGame.Dinosaurs.AddCode | src/main/java/arlob/dinogame/Dinosaurs.java:103-104 | one round of the loop adds the i-th code |
| DinoGame.Dinosaurs.DoesPlacementOverlap | src/main/java/arlob/dinogame/Dinosaurs.java:261-281 | the answer is the overlap predicate on the square grid |
| DinoGame.Dinosaurs.IsPlacementConsistent | src/main/java/arlob/dinogame/Dinosaurs.java:367-385 | true iff every footprint corner agrees with the board on water versus land |
| DinoGame.Dinosaurs.IsPlacementDangerous | src/main/java/arlob/dinogame/Dinosaurs.java:404-430 | true iff inconsistent or some footprint corner puts GREEN on RED or RED on GREEN |
| DinoGame.Dinosaurs.ViolatesObjective | src/main/java/arlob/dinogame/Dinosaurs.java:445-494 | true iff dangerous, or req_land not within found_land, or more than one dinosaur with found_land not within req_land |
| DinoGame.Dinosaurs.ValidPlacement | src/main/java/arlob/dinogame/Dinosaurs.java:496-498 | on the board, no overlap and no violation, evaluated left to right, on every well-formed code for which Java does not throw |
| DinoGame.Dinosaurs.FindCandidatePlacements | src/main/java/arlob/dinogame/Dinosaurs.java:508-525 | a strictly sorted set holding exactly the valid codes at the square whose type is not yet placed |
| DinoGame.Dinosaurs.ToString | src/main/java/arlob/dinogame/Dinosaurs.java:527-533 | the tile list in SerializedForm: one code per placed tile, in strictly ascending type order, every placed tile's code among them; a full board prints as a 24-character solution whose codes parse back to the placed tiles, in type order |
| DinoGame.Dinosaurs.RecSol | src/main/java/arlob/dinogame/Dinosaurs.java:551-576 | the solution set keeps its old elements in order, stays free of duplicates, and gains only solution strings |
| DinoGame.Dinosaurs.SearchSquares | src/main/java/arlob/dinogame/Dinosaurs.java:563-575 | the same, over every square `this.tiles` leaves free |
| DinoGame.Dinosaurs.SearchCandidates | src/main/java/arlob/dinogame/Dinosaurs.java:570-572 | the same, over the candidates in order |
| DinoGame.Dinosaurs.GetSolutions | src/main/java/arlob/dinogame/Dinosaurs.java:541-549 | the result has no duplicates and every element is a 24-character solution, one code per type in ordinal order |

## Left out

- TileType.java is not part of this model. Its `stateFromOffset` table is the
  `Pattern` parameter, so the examples in the doc comments about `a00N` and
  `c00N` cannot be stated.
- Objective.java is not part of this model:
  - the connected-islands string is the field `connections`;
  - the initial state is the argument of `GetSolutions`;
  - `getObjective` and the difficulty constructor `Dinosaurs(int)` are dropped.
- `Location.hashCode` uses float division and is left out. It is a fixed
  function of the coordinates, so it agrees with `equals`. Java's HashSet of
  locations is therefore a Dafny `set`, and HashMap is a `map`.
- Java exceptions become preconditions or `None`. This covers:
  - an index outside the arrays;
  - `valueOf` on a non-type letter;
  - `updateTileOnBoard` on a type that is not placed, which fails on null;
  - `substring` past the end of the objective's connected-islands string,
    which the constructor's `|connections| % 4 == 0` rules out;
  - `substring` past the end of the code string in recsol, which the
    `|s| % 4 == 0` of `RecSol` and `GetSolutions` rules out.
- Codes have digit coordinates and exactly four characters
  (`WellFormedCode`). Java reads only the first four characters, so it would
  also place `a00Nx` as `a00N`; longer codes are not modelled.
  `Character.getNumericValue` and `- '0'` on other characters are not
  modelled.
- `ValidPlacementDefined` excludes only the well-formed codes that make Java
  throw, because isPlacementOnBoard passes them and a later check then reads
  outside an array:
  - N/S with y < 2 and x >= 4;
  - E/W with x < 3 and y >= 3;
  - any other fourth character with x >= 4 or y >= 2.
  
  A code that fails isPlacementOnBoard is in the domain and rejected
  (`OffBoardIsRejected`).
- Location coordinates are unbounded `int`s. The board only ever holds
  0..9 and OUT, so 32-bit overflow can arise only in `toString`, where
  `AddInt32` models the wrap-around.
- The `null` corner state that `updateBoardStates` also tests is left out. The
  grid is seeded and the pattern always returns a state, so it never arises.
- Java's arrays of arrays become `array2` fields, a fixed reference each.
  `clone` fills fresh arrays with the same contents and rebuilds the tile list
  from each tile's code. Its `CloneNotSupportedException` fallback and the
  identity of the Tile objects are not modelled.
- Some loops live in helper methods of their own. The source's order of
  steps is kept.
  - Loop bodies: `AddCode` (initializeBoardState), `PlaceCornerAt`
    (updateBoardStates) and `ClearCornerAt` (removeTile).
  - Whole nested loops: `CountAgreeing` (isPlacementConsistent),
    `CountPeaceful` (isPlacementDangerous), and `CollectFoundLand` and
    `CollectReqLand` (violatesObjective).
  - The else-branch of recsol: `SearchSquares` holds the loop over squares,
    and `SearchCandidates` the loop over one square's candidates.
  
  `CountAgreeing` and `CountPeaceful` read the corner array directly, where
  Java calls `getLocationState`.
- recsol's add loop is modelled by `InitializeBoardState`. For a code string
  whose length is a multiple of four, as every string recsol receives is, the
  two loops are the same.
- DinoGame.Dinosaurs.RecSol: states that every recorded string is a
  well-formed six-tile solution and that the LinkedHashSet only grows. It
  does not state that the recorded boards satisfy the objective, nor that
  every solution is found.
- DinoGame.Dinosaurs.GetSolutions: the same limits as RecSol.
- DinoGame.Dinosaurs.SearchSquares: the same limits as RecSol. It does not
  state that the added strings come from boards built by placing
  `IsCandidate` codes, nor that every candidate's solutions are added.
  Stating that would need a specification of the whole search tree as a
  function, which the model does not define.
- DinoGame.Dinosaurs.SearchCandidates: the same limits as SearchSquares.
- The commented-out debug printers are not modelled.
- Concurrency does not arise: the code is sequential.
