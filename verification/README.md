# Carcassonne simulator core in Dafny

This project models the rules core of a Go Carcassonne simulator and
proves properties of it. The model covers:

- the tile catalog and its edge signatures;
- the square feature matrix and its rotations;
- compass directions and grid points;
- the board that tiles are placed on and removed from: open positions,
  neighbour references and feature links;
- placement enumeration, including the river rule;
- feature chains and their scoring;
- decks and the deck builders;
- players, meeples and the two AI players;
- the engine's five-stage turn machine: Draw, PlaceTile, PlaceMeeple,
  Score and Pass;
- the helpers of the older generation that still carry tests: legacy
  placement search, orientation arithmetic, road segments and road
  compilation, and image coordinates.

The Go code works on pointers. In the model, tiles and features live in
an arena: maps keyed by integer ids. A pointer compare becomes an id
compare, and a link map becomes a set of ids. Every operation is a pure
function from one world to the next. A Go panic or error return becomes
the `Err` case of a `Result`. Randomness is an explicit stream of draws
(`Randoms.Rng`), or a pick index chosen by the caller. Go's truncating
`/` and `%` are written out in `GoInt`.

Three operations of the source are wrong in ways the Findings table
records: the removal of a tile, the river filter and the castle score.
The model keeps each as written next to its corrected form. The engine
and the AI player run the corrected forms. Each member this affects is
listed under "## Left out", together with the lemma that relates it to
the written behaviour.

Each source generation keeps its own modules:

- The engine generation (`engine/...`) is modelled by these modules:
  - Arena, Boards, BoardFacts, BoardRemoval, RemovalFacts,
    RemovalFindings, FeatureLinks, FeatureKinds;
  - Placements, Rivers;
  - FeatureChains, Graphs;
  - Players, PlayerAI;
  - Decks, DeckFactory;
  - Engines, EngineFacts, EngineInvariant.
- The older board and tile generation (`board/...`, `tile/...`,
  `src/tile/...`) is modelled by LegacyPlacement, Orientations and
  Roads.
- The shared utilities are modelled by Directions, Points, Matrices and
  ImageCoordinates.

`VisitFeatureLinks` of engine/player.go (lines 130-154) runs the same
stack traversal as `traverseFeatureLinks` of engine/featureChain.go, so
`Graphs.VisitLinks` models both.

## Model

| member | source | states |
|---|---|---|
| GoInt.Rem | matrix/matrix.go:29 | Go's `%`: dividend equals divisor times Go's quotient plus the remainder, the remainder is smaller than the divisor in magnitude and takes the sign of the dividend |
| GoInt.NonNegativeAgrees | imageHelpers/coordinate.go:11-12 | on non-negative operands Go's `/` and `%` agree with Dafny's |
| Directions.Inner | util/directions/direction.go:41-59 | the first entry is North exactly for a top corner (else South), the second is West exactly for a left corner (else East) |
| Directions.ListIsInOrder | util/directions/direction.go:34-39 | the direction list is North, East, South, West, each at its own index |
| Directions.ComplimentIsHalfTurn | util/directions/direction.go:27-32 | the opposite of a direction is two quarter turns on, has no fixed point and undoes itself |
| Directions.InnerTopLeftIsNorthWest | util/directions/direction.go:41-49 | the top-left corner yields North then West, which is not the South/East pair the doc comment names |
| Points.OrthogonalNeighbours | util/point.go:14-21 | four neighbours in the order North, South, East, West, and a point is among them exactly when it lies across some edge |
| Points.StepOffsets | util/point.go:23-49 | North lowers y, South raises it, East raises x and West lowers it, each by one |
| Points.EdgePosRoundTrip | util/point.go:51-64 | stepping across an edge and back across the opposite edge returns to the start |
| Points.EdgePosConverse | util/point.go:51-64 | q lies across edge d of p exactly when p lies across the opposite edge of q |
| Points.EdgePosDistinct | util/point.go:14-21 | a point's four neighbours differ from it and from one another |
| ImageCoordinates.IndexToPoint | imageHelpers/coordinate.go:9-14 | a zero width fails (a division by zero); otherwise the pixel recombines to the index, and a non-negative index gives x within the row and y non-negative |
| ImageCoordinates.RowMajor | imageHelpers/coordinate.go:5-7 | one pixel right adds one to the index and one pixel down adds the width |
| ImageCoordinates.IndexRoundTrip | imageHelpers/coordinate.go:5-14 | for a non-zero width, every index comes back unchanged from a trip to a pixel and back |
| ImageCoordinates.PointRoundTrip | imageHelpers/coordinate.go:5-14 | a pixel with 0 <= x < width and y >= 0 comes back unchanged from a trip to an index and back |
| Orientations.Quarters | tile/orientation.go:3 | a legal orientation is 90 times a quarter-turn count below four |
| Orientations.TileToGrid | tile/placement_test.go:46-67 | orientation 0 keeps every side and 180 maps each side to its opposite |
| Orientations.GridToTile | tile/placement_test.go:69-90 | orientation 0 keeps every direction and 180 maps each direction to its opposite |
| Orientations.GridToTileUndoesTileToGrid | tile/placement_test.go:46-90 | the grid-to-tile and tile-to-grid mappings are inverse to each other at every orientation |
| Orientations.TileToGridKeepsOpposites | tile/placement_test.go:46-67 | opposite sides of a tile face opposite board directions |
| Orientations.QuarterTurnTables | tile/placement_test.go:53-89 | the 90 and 270 rows of both test tables hold |
| LegacyPlacement.LimitToOrientation | tile/orientation.go:5-11 | a negative count fails; otherwise the result fits in sixteen bits, and while the product by 90 stays within int64 it is in the orientation list and is 90 times the count modulo four |
| LegacyPlacement.LimitToOrientationOverflows | tile/orientation.go:10 | the smallest count whose product by 90 overflows int64 gives 65250, which is not an orientation |
| GoInt.Wrap64 | tile/orientation.go:10 | the wrapped product is the int64 value that agrees with the exact product modulo 2^64, and equals it when it is in range |
| GoInt.ToUint16 | tile/orientation.go:10 | the uint16 conversion is below 2^16, agrees with its operand modulo 2^16, and keeps an operand already in range |
| LegacyPlacement.LimitToOrientationIsPeriodic | tile/orientation.go:10 | counts that agree modulo four give the same orientation, while the product by 90 stays within int64 |
| LegacyPlacement.ShiftMovesSlots | board/board_placement.go:108-115 | one shift moves the kind in slot j to slot j + 1 mod 4 |
| LegacyPlacement.FourShiftsAreIdentity | board/board_placement.go:108-115 | four shifts restore the edge-feature array |
| LegacyPlacement.CompareEft | board/board_placement.go:117-133 | true exactly when every non-blank requirement equals the array's kind on that side; blank requirements never matter |
| LegacyPlacement.FirstFit | board/board_placement.go:54-61 | none exactly when no quarter-turn count fits; otherwise the smallest count that fits |
| LegacyPlacement.IsTilePlaceable | board/board_placement.go:48-64 | fails exactly when no orientation fits; otherwise 90 times the first fitting quarter-turn count |
| LegacyPlacement.PlaceableOrientations | board/board_placement.go:66-83 | an orientation is listed exactly when it is 90k for a count k < 4 that fits; the list is strictly ascending |
| LegacyPlacement.PlaceableAgrees | board/board_placement.go:48-83 | IsTilePlaceable fails exactly when the placeable list is empty, and otherwise returns its first entry |
| LegacyPlacement.AtPosition | board/board_placement.go:97-101 | the placements at one position are exactly that position paired with each listed orientation |
| LegacyPlacement.Ptp | board/board_placement.go:90-106 | a placement is emitted exactly when its position is among those searched and its orientation is placeable there |
| LegacyPlacement.TileDirection | src/tile/placement.go:13-24 | the result is in -3..3, and in 0..3 below 450 degrees; it equals the direction minus the quarter-turn count, modulo four |
| LegacyPlacement.TileDirectionAgreesWithTest | src/tile/placement_test.go:30-43 | orientation 0 is the identity and 180 swaps opposite sides, as the test expects |
| LegacyPlacement.TileDirectionQuarterTurns | src/tile/placement_test.go:35-38 | at 90 degrees North maps to West and at 270 to East, the opposite turn from the test's rows |
| LegacyPlacement.CorrectedTileDirectionMatchesTest | src/tile/placement_test.go:28-49 | the forward quarter turn meets all sixteen rows of the test |
| LegacyPlacement.WrittenAndCorrectedTileDirection | src/tile/placement.go:13-24 | on the legal orientations the written turn is the grid-to-tile table of tile/placement_test.go and the forward turn the tile-to-grid table, and the forward turn undoes the written one |
| LegacyPlacement.CompareFrom | board/board_placement.go:117-133 | the comparison from one side on holds exactly when every later non-blank requirement equals the array's kind |
| LegacyPlacement.FittingFrom | board/board_placement.go:66-83 | lists exactly the orientations of fitting counts from i on, in increasing order |
| Matrices.NewMatrix | matrix/matrix.go:10-17 | size rows of size cells, every cell holding the zero value |
| Matrices.Set | matrix/matrix.go:66-78 | writing goes through the flat slot y*size+x, which only has to lie inside the storage: every cell at that slot reads back the new value and every other cell is unchanged |
| Matrices.SlotCell | matrix/matrix.go:66-68 | each slot of the flat storage belongs to exactly one cell, at column slot mod size of row slot div size |
| Matrices.SetPastRowEnd | matrix/matrix.go:75-78 | writing one column past the end of row 0 lands on the first cell of row 1 |
| Matrices.IndexTestRows | matrix/matrix_test.go:7-43 | the flat slot numbers the index test pins down for a 7x7 matrix |
| Matrices.Extensionality | matrix/matrix.go:122-133 | two well-formed matrices of one size that agree on every cell are equal |
| Matrices.Transpose | matrix/matrix.go:80-92 | cell (y, x) of the result holds cell (x, y) of the input |
| Matrices.ReverseRows | matrix/matrix.go:94-106 | each cell receives the cell at the mirrored x of its row |
| Matrices.ReverseColumns | matrix/matrix.go:108-120 | each cell receives the cell at the mirrored y of its column |
| Matrices.Rotate90 | matrix/matrix.go:51-54 | cell (x, y) of the result holds cell (y, size-1-x): a clockwise quarter turn |
| Matrices.Rotate180 | matrix/matrix.go:56-59 | cell (x, y) of the result holds cell (size-1-x, size-1-y) |
| Matrices.Rotate270 | matrix/matrix.go:61-64 | cell (x, y) of the result holds cell (size-1-y, x) |
| Matrices.Rotate | matrix/matrix.go:27-49 | fails exactly for an angle that is not a multiple of 90; reduced angles 90, 180 and 270 turn the matrix, and 0 and the negative quarter turns leave it unchanged, because the negative cases have empty bodies |
| Matrices.QuarterTurnsSurviveReduction | matrix/matrix.go:29 | Go's reduction modulo 360 stays strictly within -360..360 and keeps an angle a multiple of 90 or not |
| Matrices.Copy | matrix/matrix.go:19-25 | the copy is cell-for-cell equal to the original |
| Matrices.EqualFrom | matrix/matrix.go:122-133 | true exactly when every cell from the scan position on agrees |
| Matrices.EqualIsEquality | matrix/matrix.go:122-133 | Equal holds exactly when the two matrices are the same value |
| Matrices.FourQuarterTurnsAreIdentity | matrix/matrix_test.go:134-165 | four quarter turns restore the matrix |
| Matrices.TwoHalfTurnsAreIdentity | matrix/matrix_test.go:167-191 | two half turns restore the matrix |
| Matrices.ThreeQuartersThenOneIsIdentity | matrix/matrix_test.go:193-217 | a three-quarter turn followed by a quarter turn restores the matrix |
| Matrices.TwoQuartersAreAHalf | matrix/matrix.go:51-59 | two quarter turns equal one half turn |
| Matrices.RotateByAnglesRestores | matrix/matrix_test.go:219-253 | Rotate(270) then Rotate(90) restores the matrix, and so does Rotate(180) twice |
| Matrices.TransposeIsInvolution | matrix/matrix.go:80-92 | transposing twice restores the matrix |
| Matrices.Rotate90At | matrix/matrix.go:51-54 | the cell a quarter turn reads from is on the matrix, and the turned matrix holds its value |
| FeatureTypes.Code | engine/tile/feature.go:17-25 | codes are below seven and zero exactly for the None kind |
| FeatureTypes.CodeIsInjective | engine/tile/feature.go:17-25 | two kinds have the same code exactly when they are the same kind |
| EdgeSignatures.Compatible | engine/tile/edgeSignature.go:7-23 | true exactly when every non-blank side of the open signature equals the tile's side |
| EdgeSignatures.CompatibleWithUnconstrained | engine/tile/edgeSignature.go:11-14 | an all-blank signature accepts every tile, and a blank side never changes the outcome |
| EdgeSignatures.RiverCount | engine/tile/edgeSignature.go:28-33 | at least one river side from i on exactly when some side there is river; at least two exactly when two different sides there are |
| EdgeSignatures.IsRiverCurving | engine/tile/edgeSignature.go:25-48 | true exactly when two sides are river and some river side faces a side that is not river |
| EdgeSignatures.Contains | engine/tile/edgeSignature.go:50-53 | true exactly when some side has the kind |
| EdgeSignatures.CompatibleUnderTurn | engine/tile/edgeSignature.go:7-23 | turning a tile and an open position together does not change whether the tile fits |
| EdgeSignatures.CurvingUnderTurn | engine/tile/edgeSignature.go:25-48 | whether a river curves does not depend on the tile's orientation |
| EdgeSignatures.CurvingExamples | engine/tile/edgeSignature.go:25-48 | a straight river does not curve, a north-east river does, and a lone river mouth does not |
| EdgeSignatures.CompatibleFrom | engine/tile/edgeSignature.go:9-20 | the loop from one side on accepts exactly when every later non-blank open side equals the tile's side |
| EdgeSignatures.UnpairedRiverFrom | engine/tile/edgeSignature.go:39-45 | true exactly when some river side from i on faces a side that is not river |
| EdgeSignatures.TurnKeepsRiverPairs | engine/tile/edgeSignature.go:28-33 | a quarter turn does not change whether a signature has at least two river sides |
| EdgeSignatures.TurnKeepsUnpaired | engine/tile/edgeSignature.go:39-45 | a quarter turn does not change whether some river side faces a side that is not river |
| ReferenceTiles.ContainsString | engine/tile/tile.go:40-42 | true exactly when the pattern occurs somewhere in the string |
| ReferenceTiles.IsRiverTile | engine/tile/tile.go:40-42 | a group is a river tile exactly when "River" occurs in its name |
| ReferenceTiles.IsRiverTerminus | engine/tile/tile.go:40-46 | a group is the terminus exactly when its name is "RiverTerminus", and then it is also a river tile by the "River" test |
| ReferenceTiles.RiverNameExamples | engine/tile/tile.go:40-46 | "RiverStraight" is a river tile but not the terminus; "Rive" is not a river tile |
| Randoms.Below | engine/deck/deck.go:39-43 | a draw below the bound, advancing the stream by one draw |
| Randoms.BelowReachesAll | engine/placement.go:189-196 | every value below the bound is the draw of some stream |
| Decks.Scry | engine/deck/deck.go:13-20 | fails exactly on an empty deck; otherwise the front group |
| Decks.Pop | engine/deck/deck.go:22-33 | fails exactly on an empty deck; otherwise the taken group followed by the rest is the old deck |
| Decks.Remaining | engine/deck/deck.go:35-37 | zero exactly when the deck is empty |
| Decks.Prepend | engine/deck/deck.go:45-47 | the group is on top of the unchanged old deck |
| Decks.Append | engine/deck/deck.go:49-51 | the unchanged old deck with the group at the bottom |
| Decks.ScryIsPopFront | engine/deck/deck.go:13-33 | Scry succeeds exactly when Pop does, and shows the group Pop takes |
| Decks.PopUndoesPrepend | engine/deck/deck.go:22-47 | Pop after Prepend gives back the group and the original deck; the count grows by one |
| Decks.AppendKeepsFront | engine/deck/deck.go:22-51 | appending to a non-empty deck leaves what Pop takes unchanged, and Pop commutes with Append |
| Decks.Swap | engine/deck/deck.go:40-42 | the two positions exchange their groups and every other position keeps its own |
| Decks.ShuffleFrom | engine/deck/deck.go:39-43 | the length is kept and exactly one draw is used per position above the first |
| Decks.Shuffle | engine/deck/deck.go:39-43 | the length is kept and the stream advances by one draw per position above the first |
| Decks.ShufflePermutes | engine/deck/deck.go:39-43 | shuffling keeps every group with its number of copies |
| Decks.ShuffleFromFixed | engine/deck/deck.go:39-43 | draws that always pick the position itself leave the order unchanged |
| Decks.SwapKeepsMultiset | engine/deck/deck.go:40-42 | a swap keeps every group with its number of copies |
| DeckFactory.CountFor | engine/deck/deck_factory.go:25-28 | a name missing from the deck list, or given a non-positive count, adds no copies; otherwise its count |
| DeckFactory.Copies | engine/deck/deck_factory.go:26-28 | exactly n copies of the group |
| DeckFactory.RiverGroups | engine/deck/deck_factory.go:9-19 | a group is kept exactly when it is visited, is a river tile and is not the terminus |
| DeckFactory.LandGroups | engine/deck/deck_factory.go:42-48 | a group is kept exactly when it is visited and is not a river tile |
| DeckFactory.Stacked | engine/deck/deck_factory.go:23-29 | the stack holds only groups it was given |
| DeckFactory.StackedCounts | engine/deck/deck_factory.go:23-29 | the stack's length is the total count, and a group that occurs once gets exactly its listed copies |
| DeckFactory.FindTerminus | engine/deck/deck_factory.go:31 | none exactly when no visited group is the terminus; otherwise a visited terminus group |
| DeckFactory.BuildRiverDeck | engine/deck/deck_factory.go:8-39 | fails exactly when the game data has no terminus group |
| DeckFactory.RiverDeckShape | engine/deck/deck_factory.go:8-39 | the river deck starts and ends with the terminus; between them every tile is a non-terminus river group, each with its listed number of copies |
| DeckFactory.DistinctFilter | engine/deck/deck_factory.go:11-19 | the filters keep visited groups free of repeats |
| DeckFactory.LandDeckShape | engine/deck/deck_factory.go:41-63 | the main deck holds only groups that are not river tiles, each with its listed number of copies, and nothing else |
| DeckFactory.CopiesCount | engine/deck/deck_factory.go:26-28 | the copies hold n of the group and none of any other |
| Arena.HasFeature | engine/tile/tile.go:48-56 | true exactly when the feature is one of the tile's features |
| Arena.RefMap | engine/tile/factory.go:35-48 | keyed by exactly the reference features; each maps to the new feature made for its last occurrence, within the fresh id range |
| Arena.NewFeatures | engine/tile/factory.go:35-48 | exactly the fresh ids, each a copy of its reference feature's kind with the new tile as parent and no links |
| Arena.Lookup | engine/tile/factory.go:51-53 | nil exactly when the map has no entry for the reference feature |
| Arena.NewTileFromReference | engine/tile/factory.go:10-23 | a nil reference fails; otherwise a fresh tile with one fresh feature per reference feature, the world still valid and nothing old changed |
| Arena.FreshTileIsValid | engine/tile/factory.go:28-57 | the tile the factory builds is valid, new, and maps each reference feature to its own fresh clone |
| Arena.AddTileValid | engine/tile/factory.go:10-23 | adding a tile with no neighbours whose features are fresh and belong to it keeps the old world's tiles and features as they were |
| Boards.TileAt | engine/board/board.go:35-40 | some tile exactly when the cell is occupied, and then the tile on it |
| Boards.OpenSig | engine/board/board.go:210-226 | each side carries the kind of the facing side of the tile across it, and Blank where there is no tile |
| Boards.OpenSigLocal | engine/board/board.go:210-226 | the signature depends only on the tiles on the four neighbouring cells and their references |
| Boards.OpenSigFits | engine/board/board.go:210-226 | a tile fits an open position exactly when each side it shares with a placed tile matches that tile's facing side; a position with no placed neighbour accepts every tile |
| Boards.EdgePix | engine/board/board.go:228-277 | seven raster cells per side, all inside the 7x7 raster |
| Boards.EdgePixFacing | engine/board/board.go:156-173 | the i-th pixel of a side and the i-th pixel of the facing side of the neighbour are adjacent cells of the board-wide raster |
| Boards.LinkSide | engine/board/board.go:113-125 | only neighbour references change |
| Boards.LinkNeighboursResolve | engine/board/board.go:111-126 | the neighbour references it writes name tiles of the arena |
| Boards.LinkNeighboursEffect | engine/board/board.go:111-126 | each on-board side of the tile names the tile across it (nil when vacant), that tile names it back on the opposite side, and every other reference stays |
| Boards.AddOpen | engine/board/board.go:145-151 | the map gains or updates the position; the list gains it only when the map lacked it; list and map stay matched |
| Boards.IndexOf | engine/board/board.go:196-199 | the first index holding the point, or the list's length when none does |
| Boards.SwapRemove | engine/board/board.go:195-204 | the list loses exactly one occurrence of the point, if it held one |
| Boards.RemoveOpenKeepsMatch | engine/board/board.go:195-207 | removing a position from both list and map keeps them matched |
| Boards.OpenSidesKeys | engine/board/board.go:135-151 | the open positions afterwards are the old ones plus the vacant on-board sides |
| Boards.OpenSidesValues | engine/board/board.go:146-151 | an opened side gets the signature the world gives it, and every other open position keeps its own |
| Boards.OpenSidesList | engine/board/board.go:145-148 | the list gains only the sides the loop opened and stays matched with the map |
| Boards.SidePairsMember | engine/board/board.go:162-190 | a pair is listed for a side exactly when one of its pixels yields it |
| Boards.CrossPairsMembers | engine/board/board.go:135-193 | a pair of features is linked exactly when some shared side and some pixel of it yield the pair |
| Boards.AddLink | engine/board/board.go:187-188 | the same features; only link sets change |
| Boards.AddLinksMembers | engine/board/board.go:187-188 | a feature gains exactly the partners the pairs give it, in either position, when both ends exist |
| Boards.Linked | engine/board/board.go:129-133 | the cell holds the tile, the count goes up by one, and nothing but tiles changes |
| Boards.PlaceTile | engine/board/board.go:128-208 | the cell holds the tile, the count goes up by one, the tile records its position, and the position is no longer open |
| Boards.Reopened | engine/board/board.go:135-207 | the grid and count are kept and the placed position is no longer open in the map or in a repeat-free list |
| Boards.PlaceTileValid | engine/board/board.go:128-208 | placing a tile on the board keeps every id resolving |
| Boards.PlaceTileParts | engine/board/board.go:128-208 | the tiles are those after linking neighbours and the features are the old ones with the cross-edge links added |
| Boards.LinkNeighboursFrom | engine/board/board.go:111-126 | linking from one side on keeps every tile's shape and changes nothing but neighbour slots |
| Boards.LinkNeighbours | engine/board/board.go:111-126 | linkNeighbours keeps every tile's shape and changes nothing but neighbour slots |
| Boards.OpenSidesFrom | engine/board/board.go:137-151 | the open-position half of the side loop changes only the open list and map of the board |
| Boards.AddLinks | engine/board/board.go:183-189 | linking pairs keeps the set of features and changes nothing but their links |
| Boards.PlaceTileRemovesPos | engine/board/board.go:196-204 | when the open list had no repeats, the filled cell is no longer listed after PlaceTile |
| Graphs.ReachSelf | engine/featureChain.go:32-33 | the start feature, pushed first, is reachable from itself |
| Graphs.ReachStep | engine/featureChain.go:39-42 | a feature linked from a reachable feature is reachable too |
| Graphs.ClosedHoldsReachable | engine/featureChain.go:31-48 | a set holding the start and closed under links holds every feature reachable from the start |
| Graphs.VisitLinks | engine/featureChain.go:31-48 | the stack traversal ends with a set that holds the start, holds only features of the arena, is closed under links and holds only reachable features |
| Graphs.PushUnvisited | engine/featureChain.go:39-43 | the inner loop keeps the old stack as a prefix, pushes only unvisited features, and leaves every linked feature visited or stacked |
| Graphs.VisitLinksIsComplete | engine/featureChain.go:31-48 | every feature reachable from the start is visited, so nothing of the chain is missed |
| FeatureChains.LinkGraph | engine/featureChain.go:39 | the graph has a node per feature whose successors are exactly that feature's links |
| FeatureChains.ResolvedGraphIsClosed | engine/featureChain.go:39-42 | when every link names a feature of the arena, following links never leaves the arena |
| FeatureChains.Widen | engine/featureChain.go:39-42 | one round keeps the set, adds every successor of a member and nothing that is not a member or a successor |
| FeatureChains.Closure | engine/featureChain.go:36-47 | the result contains the seed, stays inside the arena and is closed under links |
| FeatureChains.Component | engine/featureChain.go:31-48 | the chain of a feature holds the feature, stays inside the arena and is closed under links |
| FeatureChains.ClosureReachable | engine/featureChain.go:31-48 | if the seed is reachable from the start, so is everything the closure adds |
| FeatureChains.ComponentIsReachable | engine/featureChain.go:31-48 | a feature is in the chain if and only if it is reachable from the start by links |
| FeatureChains.ComponentUnique | engine/featureChain.go:31-48 | any closed set of reachable features holding the start is the chain itself |
| FeatureChains.TraverseFeatureLinks | engine/featureChain.go:31-48 | the traversal visits exactly the chain of the start feature, whatever order the links are listed in |
| FeatureChains.TilesOf | engine/featureChain.go:46 | a tile is visited if and only if some visited feature lies on it |
| FeatureChains.EdgeCount | engine/featureChain.go:56-61 | at most four sides carry the feature, and the count is zero exactly when no side names it |
| FeatureChains.TypeScore | engine/featureChain.go:77-86 | only roads and castles are worth anything per tile |
| FeatureChains.ShieldsIn | engine/featureChain.go:84-88 | the result is exactly the visited features of kind Shield |
| FeatureChains.ChainScore | engine/featureChain.go:71-93 | a road scores one per tile, a castle two per tile plus two per visited Shield, any other kind nothing |
| FeatureChains.ChainMeeples | engine/featureChain.go:95-103 | a meeple belongs to the chain if and only if it is attached to a visited feature |
| FeatureChains.CountOf | engine/featureChain.go:105-116 | a player's count is at most the chain's meeples and is positive exactly when the player has a meeple there |
| FeatureChains.MostOf | engine/featureChain.go:121-129 | the result bounds every player's count and is reached by some player unless it is zero |
| FeatureChains.Owners | engine/featureChain.go:118-140 | the list starts with two empty slots and names a player exactly when the player has a meeple on the chain and as many as anyone |
| FeatureChains.TiedFrom | engine/featureChain.go:133-139 | a player from the given one upward is listed exactly when the player's non-zero count equals the top, and no empty slot is added |
| FeatureChains.NewChainScoreAgainstWritten | engine/featureChain.go:71-93 | a chain's score is the score computeScore as written gives, plus for a castle two points per Shield on its tiles |
| FeatureChains.NewChain | engine/featureChain.go:18-28 | the chain visits exactly the features reachable from the start, the tiles they lie on, is complete by the edge test, and carries the score, meeples and owners of that chain |
| FeatureChains.DirectPlusPotential | engine/featureChain.go:142-156 | the score is split between the two, and one of them is always zero |
| FeatureChains.HasOwnerIffSomeOwner | engine/featureChain.go:172-184 | when every meeple on the chain belongs to a player of the game, hasOwner holds exactly when isOwner holds for some player |
| FeatureChains.DistanceFromOwner | engine/featureChain.go:158-170 | for a player of the game the distance is never negative and is zero exactly when the player has as many meeples as anyone |
| FeatureChains.OwnersAreClosest | engine/featureChain.go:118-170 | the owners are exactly the players with a meeple at distance zero, and a chain holding a meeple of the game has some owner |
| FeatureChains.OwnerExists | engine/featureChain.go:118-140 | a chain carrying a meeple of a player in the game has at least one owner |
| FeatureChains.LoneFeatureClosedIffNoSide | engine/featureChain.go:53-69 | an unlinked feature forms a chain alone, closed exactly when it touches no side of its tile |
| FeatureChains.ChainIsOneKind | engine/featureChain.go:31-48 | when links join features of one kind only, every feature of the chain has the start's kind |
| FeatureChains.ShieldBonusUnreachable | engine/featureChain.go:84-88 | a castle chain visits no Shield feature, so its written score is just two per tile |
| FeatureKinds.CellPairSameKind | engine/board/board.go:183-188 | a pair linked at one edge pixel joins two live features of one kind, since both reference features share a kind and each tile's map keeps kinds |
| FeatureKinds.CrossPairsSameKind | engine/board/board.go:135-190 | every pair PlaceTile links across the placed tile's sides joins features of one kind |
| FeatureKinds.CrossPairSameKind | engine/board/board.go:135-190 | one linked pair comes from some pixel of some side, so it joins features of one kind |
| FeatureKinds.SidePairSameKind | engine/board/board.go:162-189 | a pair some pixel of one side yields joins features of one kind |
| FeatureKinds.AddLinksKeepsSameKind | engine/board/board.go:187-188 | adding links between features of one kind keeps every link within one kind |
| FeatureKinds.PlaceKeepsKinds | engine/board/board.go:128-208 | PlaceTile keeps every mapped feature of its reference kind and every link within one kind |
| FeatureKinds.LinkedKeepsKinds | engine/board/board.go:129-133 | placing the tile and linking neighbours changes no tile's feature map and no feature |
| FeatureKinds.LastOccurrenceOf | engine/tile/factory.go:35-45 | every reference feature has a last occurrence in the list, the one whose clone the map keeps |
| FeatureKinds.NewTileMapKind | engine/tile/factory.go:35-45 | the clone the factory's map names for a reference feature has that feature's kind |
| FeatureKinds.FreshMapKinds | engine/tile/factory.go:28-57 | after the factory adds a tile, every tile's map still names features of the reference kinds |
| FeatureKinds.FreshLinksKinds | engine/tile/factory.go:36-43 | the factory's new features have no links, so links still join one kind only |
| FeatureKinds.FreshTileKeepsKinds | engine/tile/factory.go:28-57 | the factory keeps every mapped feature of its reference kind and every link within one kind |
| FeatureChains.ShieldsOnTiles | engine/featureChain.go:84-88 | a feature is counted exactly when it is a Shield lying on one of the chain's tiles |
| FeatureChains.CorrectedChainScore | engine/featureChain.go:71-93 | a road scores one per tile, a castle two per tile plus two per Shield on its tiles, any other kind nothing |
| FeatureChains.CorrectedScoreDominates | engine/featureChain.go:71-93 | the corrected score is never below the written one and equals it on everything but castles |
| FeatureChains.ShieldWorld | engine/featureChain.go:79-88 | the example has two linked castle halves on two tiles and a Shield on the second tile |
| FeatureChains.ShieldExample | engine/featureChain.go:79-88 | in that example the chain is the two castle halves, the written score is 4 and the corrected one is 6 |
| FeatureChains.ShieldExampleScores | engine/featureChain.go:79-88 | any arena shaped like the example scores 4 as written and 6 corrected |
| FeatureChains.ShieldExampleWritten | engine/featureChain.go:79-88 | computeScore as written gives the example castle 4, missing the Shield on its tile |
| FeatureChains.ShieldExampleCorrected | engine/featureChain.go:79-88 | the corrected score gives the example castle 6, counting the Shield on its tile |
| Players.NewPlayer | engine/player.go:20-40 | a new player has a score of 0 and seven distinct meeples of power 1, all belonging to it and none on a feature |
| Players.Pool | engine/meeple.go:9-14 | a meeple is in the player's pool exactly when it is one of the player's meeples and sits on no feature |
| Players.AttachedMeeples | engine/featureChain.go:98-101 | a meeple is attached to a feature exactly when its feature is that feature, so the two directions of attachment agree |
| Players.AvailableMeepleWithPower | engine/playerAI.go:100-108 | the meeple found is one of the player's, unplaced and strong enough; none is found exactly when no unplaced meeple is strong enough |
| Players.FreshPlayerHasMeeple | engine/player.go:20-40 | a new player can pay a cost of 1 with the first meeple, cannot pay 2, and has all seven meeples in the pool |
| Players.PoolOfFresh | engine/player.go:30-37 | when none of a player's meeples is placed, the pool is all of them in order |
| Players.PoolIgnoresName | engine/player.go:11-18 | the pool depends on the player's meeples alone |
| Players.OlderDeterminePlacement | engine/player.go:42-65 | there is no choice exactly when there are no options, and any choice is one of the options |
| Players.BestScoring | engine/player.go:49-57 | the scan keeps a score reached by the kept option and at least every feature score of the remaining options |
| Players.BestIn | engine/player.go:51-56 | a feature score replaces the kept one only when strictly greater, and the result is at least every remaining score |
| Players.MaxScore | engine/player.go:51-56 | the result bounds every entry and is an entry unless it is 0 |
| Players.OlderChoosesBest | engine/player.go:42-65 | when some option scores above zero, the chosen option's best feature score is at least every score of every option |
| Players.OlderFallsBackToDraw | engine/player.go:59-62 | when no option scores above zero, the random draw modulo the option count picks the option |
| Placements.ConnectionsFrom | engine/placement.go:119-138 | each connection pairs a side of the candidate facing a placed tile with the feature on the facing side of that tile, at most one per side, in side order |
| Placements.ConnectionsFromComplete | engine/placement.go:119-138 | every side from the start on that faces a placed tile yields a connection |
| Placements.Connections | engine/placement.go:119-138 | a side has a connection exactly when it faces a placed tile on the board, and connections come in side order |
| Placements.PlaceableOrientations | engine/placement.go:108-143 | the four-slot buffer holds orientation i in slot i when its signature is compatible with the open position, and nil otherwise |
| Placements.SharedConnections | engine/placement.go:97-138 | every connection the position gains comes from some fitting orientation |
| Placements.FromBuffer | engine/placement.go:92-100 | every filled slot yields a placement at the position, each placement comes from a filled slot, and all share the position's connections |
| Placements.FilledFrom | engine/placement.go:92-93 | the filled slots, strictly ascending, and all of them |
| Placements.FromBufferInSlotOrder | engine/placement.go:92-100 | the placements appear in the order of the filled slots, one per slot |
| Placements.PlacementsAt | engine/placement.go:87-103 | the placements at one open position are exactly its fitting orientations, all carrying that position's shared connections |
| Placements.AgentPlacements | engine/placement.go:75-106 | every placement sits on a listed open position |
| Placements.AgentPlacementsSplit | engine/placement.go:87-103 | enumerating a concatenated list concatenates the enumerations, so positions come out in list order |
| Placements.AgentPlacementsSound | engine/placement.go:75-106 | every enumerated placement is on an open position, names a catalog tile whose signature fits there, and carries the position's shared connections |
| Placements.AgentPlacementsComplete | engine/placement.go:75-106 | every fitting orientation of every listed position is enumerated |
| Placements.ConnectionsShared | engine/placement.go:97 | all placements at one position carry the very same connections, whichever orientation they use |
| Placements.SeedPair | engine/placement.go:170-182 | each quadrant yields two seed placements |
| Placements.FirstTilePlacement | engine/placement.go:145-187 | the first tile has eight candidates, two per quadrant at a quarter of the board from the middle, with no connections and the orientations Inner picks |
| Placements.SeedCellsOnBoard | engine/placement.go:149-168 | on a non-empty board every seed cell is on the board, and from size four the four quadrants use four different cells |
| Placements.SeedOrientations | engine/placement.go:153-170 | the top-left pair uses North and West, top-right North and East, bottom-left South and West, bottom-right South and East |
| Placements.PossibleAfterFirst | engine/placement.go:48-55 | once a tile is down, every candidate sits on a listed open position with a fitting catalog tile, and every fitting orientation of a listed position is a candidate |
| Placements.RandomPlacement | engine/placement.go:189-196 | no placement exactly when the list is empty, otherwise one of the listed placements |
| Placements.RandomPlacementReachesAll | engine/placement.go:189-196 | every listed placement is chosen by some draw |
| PlayerAI.CostOf | engine/playerAI.go:143-186 | no evaluation for a chain scoring below 1 or owned by others; otherwise a meeple costs nothing exactly when the player owns the chain, meeples come back only from a closed chain and then all of them, the score is direct exactly when the chain is closed, and every owner slot would gain the score |
| PlayerAI.OnTile | engine/playerAI.go:137-141 | a feature is marked visited exactly when it is on the chain and on the tile |
| PlayerAI.EvalFeatures | engine/playerAI.go:128-192 | every evaluation is of the chain through a not yet visited feature of the tile, and no evaluated feature lies on the chain of an earlier one |
| PlayerAI.EvalFeaturesCovers | engine/playerAI.go:128-192 | a feature worth evaluating is left out only when the chain of an earlier feature of the tile passed through it |
| PlayerAI.CoversSkipped | engine/playerAI.go:129-132 | skipping a visited feature leaves the coverage of the later features intact |
| PlayerAI.CoversFollowed | engine/playerAI.go:134-188 | following an unvisited feature covers it when worth it and covers the tile's features its chain passes through |
| PlayerAI.TileEvaluations | engine/playerAI.go:126-192 | the evaluations of a placed tile cover its features as the loop promises, one per chain worth evaluating |
| PlayerAI.EvaluatePlacement | engine/playerAI.go:118-197 | an evaluation fails exactly for an unknown reference tile or a cell off the board, and otherwise keeps the board's size and the catalog |
| PlayerAI.EvaluatesPlacedTile | engine/playerAI.go:123-192 | the evaluations are those of the fresh tile placed on the board, which was not in the arena before |
| PlayerAI.EvaluateRestoresBoard | engine/playerAI.go:123-124 | evaluating a placement on a vacant cell leaves the grid, tile count and open positions as they were, and the open list up to order |
| PlayerAI.EvaluatedWorld | engine/playerAI.go:194 | the world after an evaluation is the placed world with the tile removed again |
| PlayerAI.WrittenEvaluationReopens | engine/playerAI.go:123-124 | with the removal as written, evaluating a vacant cell gives back the grid and the count but leaves the cell open; on an empty board the open positions then no longer match the board |
| PlayerAI.EvaluateEach | engine/playerAI.go:80-81 | there is one result per option, an error exactly for an option off the board |
| PlayerAI.Collect | engine/playerAI.go:80-93 | the collection fails exactly when some evaluation failed, and otherwise keeps every evaluation in order |
| PlayerAI.EvaluateAll | engine/playerAI.go:80-93 | the evaluations of all options fail exactly when some option is off the board, and otherwise there is one per option |
| PlayerAI.EvaluateAllInOrder | engine/playerAI.go:80-81 | the j-th collected evaluation is the one EvaluatePlacement makes of the j-th option |
| PlayerAI.BestOverCosts | engine/playerAI.go:83-91 | a cost evaluation replaces the kept one only when it ranks strictly higher, and the kept rank is at least every remaining one |
| PlayerAI.BestOverFeatures | engine/playerAI.go:82-92 | the kept rank bounds every cost evaluation of the option's remaining features and is reached by an offered evaluation when positive |
| PlayerAI.BestOverOptions | engine/playerAI.go:80-93 | the kept rank bounds every cost evaluation of the remaining options and is reached by an offered evaluation when positive |
| PlayerAI.Choose | engine/playerAI.go:95-115 | a successful choice is one of the options, and the choice fails only when the current player is out of range |
| PlayerAI.DeterminePlacement | engine/playerAI.go:70-116 | no placement and no meeple move exactly when there are no options, and otherwise a successful choice is one of the options |
| PlayerAI.ChoosesBest | engine/playerAI.go:95-115 | a meeple move is made exactly when some evaluation ranks above zero; without one the random placement is taken, with one the option of a top-ranked evaluation, the first pooled meeple of enough power, the chain's meeples (or the selected one when it closes a chain holding none) and the direct score |
| PlayerAI.DetermineEvaluatesAll | engine/playerAI.go:70-116 | the choice fails on an option off the board, and otherwise is the choice over the evaluations of all options, succeeding whenever the current player is in range |
| Engines.Ordinal | engine/turnStage/turnStage.go:5-11 | every stage has a value below five |
| Engines.Next | engine/engine.go:150-182 | the next stage's value is one more than the current one's, modulo five |
| Engines.Decimal | engine/engine.go:75 | the written number is a non-empty run of decimal digits |
| Engines.NewPlayers | engine/engine.go:74-77 | there is one player per index from the given one, each with no score and seven meeples, and the meeple ids are exactly the block of the players created, each meeple unplaced, of power 1 and owned by its creator |
| Engines.InitGame | engine/engine.go:55-94 | the game fails exactly for more players than colours or game data without a river start; otherwise it starts at the Draw stage with the first player, nothing held or placed, the river record fresh, an empty board of the given size, no tiles or features in the arena, and every player at score 0 with unplaced meeples |
| Engines.TakeNextTile | engine/engine.go:279-295 | taking fails exactly when both decks are empty; the river deck is drawn from while it has tiles, and the main deck after, one tile from the front |
| Engines.EndGame | engine/engine.go:310-316 | the game is over afterwards |
| Engines.Playable | engine/engine.go:125-129 | outside the river turns every placement is kept, and the river filter keeps only placements it was given |
| Engines.Requeue | engine/engine.go:134-139 | the unplayable group goes back into the main deck, which gains exactly that group, and nothing but the deck and the random stream changes |
| Engines.TryDraw | engine/engine.go:115-141 | a try leaves the board, players, meeples, placed tile and stage alone, keeps the decks to catalog groups, and an unplayable group is one of the catalog |
| Engines.DrawFrom | engine/engine.go:113-148 | the draw loop leaves the board, players, meeples and placed tile alone and keeps the decks to catalog groups |
| Engines.RiverAfter | engine/engine.go:267-274 | a river tile becomes the last river tile, a curving one also records its orientation as the last turn and ends the first river turn, and a non-river tile changes nothing |
| Engines.PutTile | engine/engine.go:263-265 | a fresh tile, new to the arena, goes onto the placement's cell, the count goes up by one, the tile records its cell, and the arena stays valid |
| Engines.PlaceTileFor | engine/engine.go:263-277 | placing fails exactly for an unknown reference tile or a cell off the board; otherwise the tile is put down, the river record is updated, and nothing else of the engine changes |
| Engines.LastWithParent | engine/engine.go:249-253 | the result is the last feature of the tile cloned from the reference feature, and none exactly when no feature of the tile is |
| Engines.PlaceMeepleOnFeature | engine/engine.go:230-261 | without a tile placed, a decision or a selected meeple nothing happens; otherwise the move fails exactly when the tile has no feature cloned from the decided reference feature, and else only the selected meeple moves, onto that feature of the placed tile |
| Engines.PlaceOnFeatures | engine/engine.go:249-260 | the meeple goes onto the last matching feature and no other meeple moves; no matching feature is an error |
| Engines.ScoreFinishedFeature | engine/engine.go:186-227 | without a decision nothing changes; a returned meeple on no feature is an error; otherwise every returned meeple leaves its feature, the rest stay, and exactly the players owning the returned meeples gain a positive decided score |
| Engines.PayOwners | engine/engine.go:212-225 | a player gains the score exactly when it is positive and the player is an owner of the returned meeples, and every other score stays |
| Engines.GoToNextTurn | engine/engine.go:297-308 | the turn fails exactly when the main deck is empty; otherwise the next player in order, wrapping to the first, takes a counted turn with no tile placed, and nothing else changes |
| Engines.DrawStage | engine/engine.go:105-150 | the Draw stage leaves the board, players and meeples alone |
| Engines.PlaceTileStage | engine/engine.go:152-165 | without a placement the stage fails, and it never changes players or meeples |
| Engines.PlaceMeepleStage | engine/engine.go:167-169 | only the meeples and the stage change |
| Engines.ScoreStage | engine/engine.go:171-173 | only the players, the meeples and the stage change |
| Engines.PassStage | engine/engine.go:175-182 | the stage is Draw again afterwards, whether or not the game ended |
| Engines.Step | engine/engine.go:96-184 | a finished game does not move, and a current player out of range is an error |
| Engines.RiverEnd | engine/engine.go:268 | a cell exactly when a river tile has been recorded and it is in the arena |
| EngineFacts.StageCycle | engine/engine.go:150-182 | five stage steps return to the start and no fewer do |
| EngineFacts.OrdinalInjective | engine/turnStage/turnStage.go:5-11 | different stages have different values |
| EngineFacts.TakeNextTileTakesOne | engine/engine.go:279-295 | taking a tile removes exactly that one group from the decks and changes nothing else |
| EngineFacts.TryDrawFacts | engine/engine.go:115-141 | a try ends the game exactly when both decks are empty; otherwise it uses one tile, holds a catalog group, offers only placements of it on the current board, and counts as drawn exactly when it offers some |
| EngineFacts.DrawFromFacts | engine/engine.go:113-150 | the draw loop either moves to PlaceTile offering placements of the held group, or stays at Draw offering nothing; the game ends only when a try finds both decks empty, and otherwise exactly one tile is used up |
| EngineFacts.StepStage | engine/engine.go:96-184 | every stage but Draw moves to the next one; Draw moves to PlaceTile with something offered, or stays at Draw with nothing offered |
| EngineFacts.DrawStepUsesOneTile | engine/engine.go:105-150 | the Draw stage ends the game exactly when both decks are empty, and otherwise uses up exactly one tile |
| EngineFacts.PlaceStepPutsTile | engine/engine.go:152-165 | no placement is an error; a placement fails exactly for an unknown tile or a cell off the board; otherwise a fresh tile fills the cell, is recorded for the turn, the count rises by one, and the meeple decision is kept |
| EngineFacts.PassStepRotates | engine/engine.go:175-182 | the Pass stage returns to Draw, ends the game exactly when the main deck is empty, and otherwise hands the turn to the next player, wrapping around |
| EngineFacts.ScoreStepPaysOwners | engine/engine.go:171-173 | the Score stage takes the returned meeples off their features, and a player's score rises exactly when the decided score is positive and the player owns the returned meeples |
| EngineInvariant.AddedTileKeepsNeighbours | engine/tile/factory.go:10-23 | a new tile off the board, with no neighbours, keeps the neighbour references mirroring the grid |
| EngineInvariant.AddedTileKeepsSig | engine/board/board.go:210-226 | a new tile off the board changes no open-position signature |
| EngineInvariant.AddedTileKeepsOpen | engine/board/board.go:210-226 | a new tile off the board keeps the open positions exactly the frontier with current signatures |
| EngineInvariant.FreshTileKeepsBoard | engine/engine.go:264 | cloning a tile from its reference changes nothing of the board's consistency |
| EngineInvariant.PutTileKeepsKinds | engine/engine.go:263-265 | putting a fresh tile on the board keeps every mapped feature of its reference feature's kind and every link within one kind |
| EngineInvariant.SoundCastleChainsShieldless | engine/featureChain.go:84-88 | in every state the invariant covers, a castle chain visits no Shield feature and its written score is two per tile |
| EngineInvariant.PutTileKeepsBoard | engine/engine.go:263-265 | putting a fresh tile on a vacant cell keeps the neighbours mirroring the grid, the open positions exact and the count equal to the occupied cells |
| EngineInvariant.PlacedKeepsBoard | engine/board/board.go:128-208 | placing an unplaced tile on a vacant cell keeps the board consistent |
| EngineInvariant.PlacedCount | engine/board/board.go:130 | filling a vacant cell makes the count one more, matching the occupied cells |
| EngineInvariant.CandidatesVacant | engine/placement.go:48-55 | every candidate placement names a vacant cell |
| EngineInvariant.ShuffledFrom | engine/deck/deck.go:39-43 | a shuffled pile holds only groups of the pile |
| EngineInvariant.InitDecksListed | engine/engine.go:80-81 | both decks of a new game hold only catalog groups |
| EngineInvariant.InitGameSound | engine/engine.go:55-94 | a new game satisfies the engine invariant |
| EngineInvariant.StepKeepsSound | engine/engine.go:96-184 | every step keeps the invariant, provided the tile is placed where an offered placement says |
| EngineInvariant.DrawStepKeepsSound | engine/engine.go:105-150 | the Draw stage keeps the invariant and offers only vacant cells |
| EngineInvariant.SoundFromParts | engine/engine.go:96-184 | a consistent board, listed decks, an arena tile placed, owned meeples and features of their reference kinds, linked only within one kind, make up the invariant |
| EngineInvariant.ListMatchedIsListed | engine/board/board.go:17 | the open list names only open positions |
| EngineInvariant.PlaceStepKeepsSound | engine/engine.go:152-165 | the PlaceTile stage keeps the invariant when the placement was offered |
| EngineInvariant.PlacedSound | engine/engine.go:161-165 | after a fresh tile fills a vacant cell with nothing else changed, the invariant holds |
| EngineInvariant.SoundFrame | engine/engine.go:167-182 | a change that keeps the world, decks and offers keeps the invariant while every meeple still belongs to a player |
| EngineInvariant.MeepleStageOwned | engine/engine.go:230-261 | placing a meeple keeps every meeple with its player |
| EngineInvariant.MeepleStepKeepsSound | engine/engine.go:167-169 | the PlaceMeeple stage keeps the invariant |
| EngineInvariant.ScoreStageOwned | engine/engine.go:186-227 | scoring keeps every meeple with its player |
| EngineInvariant.ScoreStepKeepsSound | engine/engine.go:171-173 | the Score stage keeps the invariant |
| EngineInvariant.PassStepKeepsSound | engine/engine.go:175-182 | the Pass stage keeps the invariant |
| Rivers.NextCurve | engine/engine.go:356 | for a recorded turn that is not negative, the next curve is half a turn further, within one full turn |
| Rivers.Judge | engine/engine.go:327-367 | a connection decides nothing unless it is a river feature facing the last river tile; such a connection of a curving group counts as a curve when no curve has been laid yet, when it is the first curve, or when its orientation is half a turn from the last curve; of a straight group it counts as straight; without a last river tile it is an error |
| Rivers.SweepConnections | engine/engine.go:327-368 | the connections of one placement add only that placement, and fail exactly when there is a connection and no last river tile |
| Rivers.Sweep | engine/engine.go:323-369 | the first pass lists only given placements, and fails exactly when some placement has a connection and there is no last river tile |
| Rivers.RestrictRiver | engine/engine.go:318-409 | the filter as written fails exactly when the first pass does, and keeps only given placements |
| Rivers.CorrectedRestrictRiver | engine/engine.go:371-406 | the corrected filter fails exactly when the first pass does, and keeps only given placements |
| Rivers.Verdicts | engine/engine.go:327-368 | there is one verdict per connection |
| Rivers.HasVerdictStep | engine/engine.go:327-368 | a verdict occurs in a list exactly when it is the first or occurs in the rest |
| Rivers.SweepConnectionsListed | engine/engine.go:327-368 | a placement enters the straight, respectively curve, list exactly when one of its connections is judged so |
| Rivers.SweepListed | engine/engine.go:323-369 | a placement is in the straight list exactly when it continues the river straight on, and in the curve list exactly when it continues it with an allowed curve |
| Rivers.ListedOne | engine/engine.go:323-369 | the lists of the first placement and of the rest together list each placement as its connections say |
| Rivers.RestrictRiverSound | engine/engine.go:318-409 | both filters keep only placements that continue the river, keep every straight continuation, and add at most one curve |
| Rivers.CorrectedKeepsCurve | engine/engine.go:371-406 | the corrected filter keeps a curve whenever one is allowed |
| Rivers.CurveCatalog | engine/engine.go:345-349 | the example catalog has the one curving river tile |
| Rivers.WrittenDiffersOnLoneCurve | engine/engine.go:371-406 | the written and the corrected river filter give different results exactly when a single curve is allowed, and the written one then keeps only the straight placements |
| Rivers.LoneCurveExample | engine/engine.go:371-406 | with one allowed curve after the first river tile, the filter as written leaves nothing to place while the corrected one keeps the curve |
| Roads.CreateRoadSegment | tile/road_segment.go:41-56 | a non-road feature is an error; a road feature gets a segment of its tile and feature, touching the feature's edges, with all four edge slots empty |
| Roads.FeaturesByType | tile/tile.go:56-67 | a feature is kept exactly when it is of the asked kind, and no more features come out than went in |
| Roads.SetEdges | tile/road_segment.go:85-87 | a slot on one of the edges takes the new segment and every other slot keeps its value |
| Roads.AssignedSlotNamesFeature | tile/road_segment.go:83-88 | a slot the assignment changes holds the segment of some road feature touching that edge |
| Roads.LastAssignmentWins | tile/road_segment.go:83-88 | when several road features touch an edge, the last of them decides the slot |
| Roads.UntouchedSlot | tile/road_segment.go:83-88 | a slot no road feature touches keeps its value |
| Roads.ComputeRoadSegments | tile/road_segment.go:78-91 | one fresh segment per road feature with consecutive ids; a slot is filled exactly when a road feature touches that edge, and it names a segment touching that edge; with no shared edges every edge of a road feature holds that feature's segment |
| Roads.ComputedSlots | tile/road_segment.go:78-91 | the slots are filled exactly on road edges, name the created segments, and hold each feature's segment on its edges when features share no edge |
| Roads.NewSegments | tile/road_segment.go:83-84 | the created segments have exactly the consecutive ids, one per road feature, each a fresh segment of its feature |
| Roads.SlotsAreOccupiedEdges | tile/road_segment.go:83-88 | a slot is filled exactly when some road feature touches it, and features with no shared edge own their edges |
| Roads.SlotsNameTheirFeature | tile/road_segment.go:83-88 | every filled slot names a created segment whose feature touches that edge |
| Roads.LastWriter | tile/road_segment.go:83-88 | for an edge some feature touches there is a last feature touching it |
| Roads.UniqueRoadSegments | tile/road_segment.go:58-75 | the result holds exactly the segments in the slots, with no empty entry and no duplicate |
| Roads.ContainsSegment | board/road.go:54-62 | the scan finds a segment exactly when the road holds it |
| Roads.SegmentGraph | board/road.go:39-48 | a segment's successors include every segment an edge slot names, and never leave the arena |
| Roads.Members | board/road.go:31-36 | a segment is a member exactly when the road lists it |
| Roads.CompileRoadFromSegment | board/road.go:10-52 | a nil start is an error; otherwise the road starts with the start segment, lists no segment twice, stays in the arena, holds every segment an edge of a listed segment names, and holds only segments reachable from the start |
| Roads.CompileStep | board/road.go:26-49 | one round of the loop keeps the road free of duplicates and reachable, keeps every continuation collected or waiting, and either grows the road or shrinks the stack |
| Roads.AppendStep | board/road.go:36-48 | appending a new segment and pushing its edges keeps the road free of duplicates, reachable and pending-closed, and leaves fewer segments to collect |
| Roads.AppendReachable | board/road.go:36 | appending a reachable segment not yet on the road keeps the road free of duplicates and reachable |
| Roads.AppendPending | board/road.go:36-48 | after appending a segment and pushing its edges, every continuation of a road segment is on the road or on the stack |
| Roads.AppendShrinks | board/road.go:36 | appending a segment not yet on the road leaves fewer segments to collect |
| Roads.PushEdges | board/road.go:39-48 | the old stack stays as a prefix, every connected edge segment is pushed, and everything pushed is reachable from the start |
| Roads.CompiledRoadIsWholeRoad | board/road.go:10-52 | every segment reachable from the start is on the compiled road |
| Roads.EdgeLinks | tile/road_segment.go:23-35 | a link is found for an edge exactly when the neighbour across it, read through both tiles' orientations, holds a segment on the matching edge |
| Roads.AllLinks | tile/road_segment.go:16-37 | a link is found exactly when one of the tile's segments meets a neighbour's segment across one of its feature's edges |
| Roads.ApplyLink | tile/road_segment.go:32-33 | the neighbour's segment points back at the tile's segment and the tile's segment points at it; no other slot and no segment's identity changes |
| Roads.ApplyLinks | tile/road_segment.go:16-37 | applying links keeps every segment's identity and keeps the arena well formed |
| Roads.ApplyLinksFrame | tile/road_segment.go:16-37 | a slot that no link writes keeps its value |
| Roads.ApplyLinksLastWrite | tile/road_segment.go:32-33 | both slots of a link hold its connection at the end unless a later link writes one of them |
| Roads.IntegrateRoads | tile/road_segment.go:14-39 | integrating a tile keeps the arena's segments and keeps it well formed |
| Roads.IntegrateRoadsLinksBothWays | tile/road_segment.go:14-39 | when no two links compete for a slot, each meeting of the tile's segment with a neighbour's segment is recorded in both directions |
| Roads.IntegrateRoadsKeepsOtherSlots | tile/road_segment.go:14-39 | slots that no found link writes keep their value |
| BoardFacts.NewBoardMatches | engine/board/board.go:21-30 | a new board, whose grid is empty, meets the neighbour invariant as long as no tile has neighbours |
| BoardFacts.NeighbourSymmetry | engine/board/board.go:111-126 | neighbour references are symmetric: if tile u names v across side d, v names u across the opposite side |
| BoardFacts.PlaceTileTiles | engine/board/board.go:128-133 | the tiles PlaceTile leaves are linkNeighbours applied to the tiles with t moved to its new cell |
| BoardFacts.PlaceKeepsNeighbours | engine/board/board.go:128-133 | placing a tile that is not yet on the board on a vacant cell keeps every placed tile's cell and neighbour slots matching the grid, and tiles off the board without neighbours |
| BoardFacts.LinkedMatch | engine/board/board.go:111-126 | linking the tile just put on its cell gives a world whose neighbour slots match the grid |
| BoardFacts.SlotsOfPlaced | engine/board/board.go:111-126 | under the invariant, the slots of the tile on a cell name the tiles across each side of that cell |
| BoardFacts.NewBoardOpenExact | engine/board/board.go:21-30 | a new board has no open positions and none are due |
| BoardFacts.FrontierAfterPlace | engine/board/board.go:135-151 | after a placement the frontier loses the filled cell and gains the vacant on-board cells next to it, and nothing else changes |
| BoardFacts.OccupiedAfterPlace | engine/board/board.go:135-151 | a side of a cell is occupied after a placement exactly when it was before or it faces the new tile |
| BoardFacts.AddedSideIsAdjacentVacant | engine/board/board.go:137-151 | the sides the open-position loop adds are exactly the on-board cells next to the new tile that were vacant |
| BoardFacts.ReopenedParts | engine/board/board.go:135-207 | the open positions PlaceTile leaves are those the loop added minus the filled cell, in the list and in the map |
| BoardFacts.PlaceKeepsOpen | engine/board/board.go:128-208 | PlaceTile on a vacant cell keeps the open positions exactly the frontier, listed once each, each with the signature its neighbours give it |
| BoardFacts.PlaceOpenKeys | engine/board/board.go:135-207 | after PlaceTile the list matches the map and the map's keys are exactly the frontier |
| BoardFacts.PlaceOpenList | engine/board/board.go:146-148 | after PlaceTile each open position is listed exactly once |
| BoardFacts.PlaceOpenSet | engine/board/board.go:137-207 | after PlaceTile an open position is one of the frontier cells, and every frontier cell is open |
| BoardFacts.PlaceOpenValues | engine/board/board.go:151 | after PlaceTile every open position carries the signature computed from its current neighbours |
| BoardFacts.OpenSigAwayFrom | engine/board/board.go:210-226 | a cell not next to the new tile keeps its signature |
| BoardRemoval.ClearSide | engine/board/board.go:43-50 | one round of the neighbour clearing keeps every tile's shape and changes nothing but neighbour slots |
| BoardRemoval.ClearNeighboursFrom | engine/board/board.go:43-50 | the whole neighbour clearing keeps every tile's shape and changes nothing but neighbour slots |
| BoardRemoval.DropOpen | engine/board/board.go:84-97 | dropping a cell removes exactly that key from the open map, keeps the grid, and keeps the list matching the map |
| BoardRemoval.ClearFeatureLinks | engine/board/board.go:100-106 | clearing one feature's links keeps the set of features |
| BoardRemoval.ClearLinks | engine/board/board.go:100-106 | clearing the links of the tile's features keeps the set of features |
| BoardRemoval.Detached | engine/board/board.go:43-60 | the detached world has the cell emptied and the count one lower, the same catalog and arenas, and every tile keeps its reference |
| BoardRemoval.OrphanLoop | engine/board/board.go:65-98 | the orphan check never touches the grid, only drops open positions, and keeps the signatures of those it keeps |
| BoardRemoval.RemoveTileAt | engine/board/board.go:32-109 | removing from a vacant cell changes nothing; otherwise the cell is emptied, the count drops by one, and the size, catalog and tile set stay |
| BoardRemoval.Refresh | engine/board/board.go:56-57 | one refreshed cell is open exactly when it is on the frontier, with its current signature, and no other cell changes |
| BoardRemoval.RefreshAll | engine/board/board.go:56-97 | refreshing keeps the grid and keeps the list matching the map |
| BoardRemoval.CorrectedRemoveTileAt | engine/board/board.go:32-109 | the intended removal empties the cell as RemoveTileAt does, keeps the list matching the map, and keeps every tile's reference |
| FeatureLinks.AddLinksSymmetric | engine/board/board.go:183-189 | adding links pair by pair in both directions keeps every link mirrored |
| FeatureLinks.ClearFeatureLinksEffect | engine/board/board.go:100-106 | clearing a feature's links leaves it with none and no feature linking to it, keeps every other link, and keeps links mirrored |
| FeatureLinks.ClearLinksEffect | engine/board/board.go:100-106 | clearing the links of each of the tile's features does the same for all of them at once |
| FeatureLinks.PlaceKeepsLinksSymmetric | engine/board/board.go:152-191 | PlaceTile keeps feature links mirrored |
| FeatureLinks.RemoveClearsLinks | engine/board/board.go:100-106 | both removals leave the removed tile's features unlinked, every other link in place, and the links mirrored |
| RemovalFacts.FrontierOnGrid | engine/board/board.go:65-98 | whether a cell is on the frontier depends only on the grid and the size |
| RemovalFacts.RefreshAllEffect | engine/board/board.go:56-97 | after the refresh every refreshed cell is open exactly when it is on the frontier, with its current signature |
| RemovalFacts.RefreshAllKeeps | engine/board/board.go:56-97 | a cell the refresh does not visit keeps its open status and signature |
| RemovalFacts.RefreshAllRefreshes | engine/board/board.go:56-97 | a visited cell is open afterwards exactly when it is on the frontier |
| RemovalFacts.RefreshedCells | engine/board/board.go:66 | the cells refreshed are the emptied cell and the four cells next to it |
| RemovalFacts.RemovalParts | engine/board/board.go:32-109 | the corrected removal of an occupied cell is the detached world with those cells refreshed |
| RemovalFacts.CorrectedRemoveKeepsOpen | engine/board/board.go:32-109 | the corrected removal keeps the open positions exactly the frontier, each listed once, each with its current signature |
| RemovalFacts.CorrectedRemoveKeys | engine/board/board.go:56-97 | after the corrected removal the list matches the map and the open keys are exactly the frontier |
| RemovalFacts.CorrectedRemoveValues | engine/board/board.go:56-57 | after the corrected removal every open position carries its current signature |
| RemovalFacts.OpenExactUnique | engine/board/board.go:210-226 | two exact worlds that agree on grid, size, catalog and references have the same open map and lists that are permutations of each other |
| RemovalFacts.SameMembersPermutation | engine/board/board.go:146-148 | two duplicate-free lists with the same members are permutations of each other |
| RemovalFacts.PlaceKeepsReferences | engine/board/board.go:128-208 | PlaceTile changes no tile's reference |
| RemovalFacts.PlaceThenRemove | engine/board/board.go:32-208 | placing a tile on a vacant cell and removing it again with the corrected removal gives back the grid, the count and the open map, and the list up to order |
| RemovalFacts.RemovePlaced | engine/board/board.go:32-109 | removing the tile just put on a vacant cell gives back the board from before the placement |
| RemovalFindings.OrphanLoopAfterFlag | engine/board/board.go:65-98 | once the flag is set the orphan check drops nothing |
| RemovalFindings.OrphanLoopKeeps | engine/board/board.go:65-98 | the orphan check drops only cells it visits |
| RemovalFindings.FlagFromNorth | engine/board/board.go:66-81 | when the northern cell has a placed neighbour the orphan check leaves the board as it is |
| RemovalFindings.NorthFlagKeepsAll | engine/board/board.go:32-109 | in that case RemoveTileAt keeps every open position and adds the emptied cell |
| RemovalFindings.RemoveReopensPos | engine/board/board.go:56-57 | RemoveTileAt as written always re-opens the cell it empties |
| RemovalFindings.StickyFlagKeepsOrphan | engine/board/board.go:65-98 | on an L-shaped board RemoveTileAt keeps an open cell no tile touches, while the corrected removal drops it |
| RemovalFindings.StickyFlagOn | engine/board/board.go:65-98 | from any exact world with the L-shaped grid, RemoveTileAt leaves a cell off the frontier open |
| RemovalFindings.StickyCorrected | engine/board/board.go:32-109 | from the same worlds the corrected removal stays exact and drops that cell |
| RemovalFindings.SignatureGoesStale | engine/board/board.go:56-98 | after RemoveTileAt a surviving open cell still shows Road toward the emptied cell, where its current signature has Blank |
| RemovalFindings.StaleOn | engine/board/board.go:56-98 | the stale signature follows in every exact world with the L-shaped grid whose cell (0,1) faces a road |
| RemovalFindings.KeptSignature | engine/board/board.go:56-98 | an open entry that survives untouched keeps Road although its side now faces a vacant cell |
| RemovalFindings.VacatedCellReopened | engine/board/board.go:56-57 | removing the only tile re-opens its cell although nothing touches it; the corrected removal leaves no open position |
| RemovalFindings.ReopenedOn | engine/board/board.go:56-57 | the same holds from any world with a single tile in the middle |
| RemovalFindings.ReopenedCorrected | engine/board/board.go:32-109 | from those worlds the corrected removal stays exact with no open position |
| RemovalFindings.EmptyGridNoOpen | engine/board/board.go:21-30 | with no tile on the board an exact world has no open position |

## Left out

- Rendering, images and the feature raster's pixel art: drawing, camera and input code, and the BMP and YAML loaders. The catalog of reference tiles, with each tile's 7x7 feature raster, is an input (`ReferenceTiles.Catalog`).
- I/O and clocks: the timing print in RemoveTileAt (engine/board/board.go:33, 108), uuids, JSON export and file writes.
- Concurrency: Agent.PossibleTilePlacements splits the open list over goroutines joined by a WaitGroup. The model enumerates serially, in open-list order (`Placements.AgentPlacements`).
- Floating point: scoreMeepleCostEval (engine/playerAI.go:42-68) becomes the caller's `rank` function in `PlayerAI.DeterminePlacement`. The river tie-break by Euclidean distance (engine/engine.go:371-406) becomes the caller's `curvePick` index into the allowed curves.
- Go map iteration order: wherever the source ranges over a map, the model uses a sequence in a fixed order. DeterminePlacement's ties go to the first evaluation ranked strictly higher in that order. UniqueRoadSegements keeps segments in order of first occurrence.
- Randomness: rand.Shuffle and rand.Intn become an explicit stream of draws (`Randoms.Rng`). Only the Fisher-Yates structure is modelled, not Go's generator.
- Superseded generations: board/board.go, src/board/board.go, the game/ packages, board/road/road.go, tile/farm_segment.go and board/farm.go. Their helpers that carry tests are modelled in LegacyPlacement, Orientations and Roads.
- The flood-fill catalog compiler under imageHelpers/ (other than coordinate.go) and aiLink/aiLink.go work on images and are not part of this model.
- MaxMeeples, numRemainingMeeples, GetAvailableMeepleWithPower, FeatureType.Score, Matrix.GetPt, IsInBounds, and Placement.TileToGridDir and GridToTileDir of the tile package are not part of this model's sources. Orientations.TileToGrid and Orientations.GridToTile encode the tables of tile/placement_test.go. The model takes seven meeples per player, the first pooled meeple whose power covers the cost, one point per road tile and two per castle tile, and bounds 0 <= x, y < size.
- The older EvaluatePlacement (engine/player.go:77-128) is not modelled. Its feature scores are the `scores` parameter of `Players.OlderDeterminePlacement`.
- Engines.ScoreFinishedFeature: the returned meeples are a set of meeple ids rather than a slice, so a meeple listed twice is returned once. The source panics on the second copy, because the first pass set that meeple's feature to nil (engine/engine.go:198, 207). The per-player score change is stated as the new scores rather than as a separate map.
- Engines.PlaceTileFor and PlayerAI.EvaluatePlacement: a placement off the board, which the Go matrix write would panic on or write to another cell, returns `Err`. So does an unknown reference tile.
- Engines.Step: a current-player index outside the player list, which Go would panic on, returns `Err`.
- Matrices.Rotate: the negative cases -270, -180 and -90 are empty in the source and are no-ops in the model.
- Orientations.Quarters: orientations are limited to the four legal values. The engine never builds any other.
- BoardRemoval.RemoveTileAt: its contract states only the grid and the count. What the orphan check does to the open positions is stated by the lemmas of RemovalFindings.
- Roads.IntegrateRoads: its contract states only that the arena stays well formed. The two-way linking and the frame are stated by IntegrateRoadsLinksBothWays and IntegrateRoadsKeepsOtherSlots.
- Engines.Playable: the river filter the engine runs is the corrected one, which keeps a lone allowed curve (see Findings). The source's filter drops it, and such a river tile goes back into the main deck where the model plays the curve. Rivers.WrittenDiffersOnLoneCurve states exactly when the two filters differ.
- Engines.TryDraw: it keeps placements with the corrected river filter, as Engines.Playable does.
- Engines.DrawFrom: it keeps placements with the corrected river filter, as Engines.Playable does.
- Engines.DrawStage: it keeps placements with the corrected river filter, as Engines.Playable does.
- Engines.Step: its Draw stage runs the corrected river filter, and its PlaceTile stage leaves out the board mutation of the AI's evaluations (see Engines.PlaceTileStage).
- EngineFacts.TryDrawFacts: its facts are about the corrected river filter, as Engines.Playable runs it.
- PlayerAI.EvaluatePlacement: the tile is taken off with the corrected removal, not with RemoveTileAt as written (see Findings). PlayerAI.WrittenEvaluationReopens states what the written removal leaves behind.
- PlayerAI.EvaluateRestoresBoard: it states the restoration the corrected removal achieves. With the removal as written the evaluated cell stays open, so the source does not restore the open positions.
- PlayerAI.EvaluatedWorld: the world it describes is the one after the corrected removal, not after the removal as written.
- PlayerAI.EvaluateEach: every option is evaluated on the same world. In the source each evaluation runs on the board the previous one left behind. The grids agree, but the open positions differ.
- PlayerAI.EvaluateAll: it evaluates every option on the same world, as PlayerAI.EvaluateEach does.
- PlayerAI.EvaluateAllInOrder: the j-th evaluation is taken on the world given, not on the board the earlier evaluations left behind.
- PlayerAI.DeterminePlacement: it returns the choice without the board mutation the source's evaluations leave on the live board.
- PlayerAI.DetermineEvaluatesAll: it ties the choice to evaluations on the unmutated world.
- Engines.PlaceTileStage: the placement is a parameter, and the AI's evaluations before it leave the board untouched. In the source they re-open evaluated cells (PlayerAI.WrittenEvaluationReopens).
- EngineInvariant.PlaceStepKeepsSound: the invariant holds of the model's PlaceTile stage. With the source's evaluations the open positions stop matching the placed tiles from the first turn on.
- EngineInvariant.StepKeepsSound: it holds of the model's Step, whose evaluations leave the board untouched and whose river filter is the corrected one, not of the source's.
- RemovalFacts.PlaceThenRemove: it states the round trip for the corrected removal. The source's evaluator calls the removal as written, for which the round trip fails on the open positions.
- FeatureChains.NewChain: the chain's score is the corrected one, which counts the Shields on a castle's tiles (see Findings). FeatureChains.NewChainScoreAgainstWritten states how it differs from the written score. The evaluations of PlayerAI and the points the engine pays carry the corrected score.
- DeckFactory.BuildRiverDeck: without a group named "RiverTerminus" the source looks up nil and builds a deck with nil tiles at both ends, which fail only once drawn. The model returns `Err` at once.
- Engines.InitGame: it fails as DeckFactory.BuildRiverDeck does when the game data has no terminus group. The source starts a game whose river deck holds nil tiles.
- Matrices.EqualFrom: Equal, EqualFrom and EqualIsEquality require both matrices to have one size. The source's Equal (matrix/matrix.go:122-133) panics when the second matrix is smaller and compares cells at mismatched positions when it is larger. Every caller in matrix/matrix_test.go passes matrices of one size.
- Matrices.Get: it requires both coordinates on the matrix. The source reads any cell whose flat slot lies in the storage, the way Matrices.Set writes one.
- LegacyPlacement.OpenSignature: open-position signatures hold at most four entries. With a longer slice the source's CompareEft would index past the tile's four-entry array and panic.
- LegacyPlacement.LimitToOrientationIsPeriodic: it is stated only while the product by 90 stays within int64. Past that bound the wrapped product breaks the period (LegacyPlacement.LimitToOrientationOverflows).
- Go-level inconsistencies, such as types declared twice across engine/player.go and engine/featureChain.go, are not behaviour and are not modelled.

## Findings

| source | as written | input that shows it | evidently intended | confidence | as-written member | corrected member |
|---|---|---|---|---|---|---|
| engine/board/board.go:65-98 | `hasNeighbours` is set once, outside the loop over the four cells, and never reset | 3x3 board with tiles on (0,0), (1,0) and (1,1); remove (1,1). The northern cell (1,0) sets the flag, so (1,2) is not dropped although no tile touches it | each cell next to the removed tile is checked on its own and dropped when it has no placed neighbour | high, not executed | RemovalFindings.StickyFlagOn | RemovalFindings.StickyCorrected |
| engine/board/board.go:56-98 | open positions that survive the removal keep the signature they had against the removed tile | the same removal: open cell (0,1) still shows Road on its eastern side, which now faces a vacant cell | every open cell next to the removed tile gets its signature recomputed | high, not executed | RemovalFindings.SignatureGoesStale | RemovalFacts.CorrectedRemoveKeepsOpen |
| engine/board/board.go:56-57 | the emptied cell is always re-opened | remove the only tile of a 3x3 board: its cell stays open with nothing placed | the emptied cell is open only when a placed tile touches it | high, not executed | RemovalFindings.VacatedCellReopened | RemovalFindings.ReopenedCorrected |
| engine/featureChain.go:84-88 | castle chains add a bonus per visited Shield feature, but links join only features of one kind, so a castle chain never visits a Shield | two castle halves on two tiles, a Shield on the second tile: score 4 | two points per Shield on the chain's tiles: score 6 | medium, not executed | FeatureChains.ShieldExampleWritten | FeatureChains.ShieldExampleCorrected |
| engine/engine.go:371-406 | the allowed curves are used only when there is more than one, so a single allowed curve is dropped | a river tile whose only fitting placements are one curve, after the first river tile | a single allowed curve is kept | medium, not executed | Rivers.LoneCurveExample | Rivers.CorrectedKeepsCurve |
| src/tile/placement.go:13-24 | the direction is shifted back by the quarter-turn count | orientation 90, direction North gives West, where src/tile/placement_test.go:35 expects East | the forward turn the test's rows describe. The written turn is the grid-to-tile table of tile/placement_test.go:76, so the test may be checking the inverse mapping rather than the code being wrong | low, not executed | LegacyPlacement.TileDirectionQuarterTurns | LegacyPlacement.CorrectedTileDirectionMatchesTest |
