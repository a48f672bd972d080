# Polyomino enumeration, modelled in Dafny

The program counts the one-sided polyominoes of each size `n`: shapes equal up to
translation and rotation, with mirror images kept apart. Generation 1
holds the single cell. Generation `n` is grown from generation `n - 1` like this:

- take every parent shape and every one of its cells;
- try each of the four unit steps from that cell;
- skip the step when the target cell is already in the parent;
- otherwise build the shape made of the parent's cells plus the target, and insert
  it into a hash set.

A shape is built (`S::new`) in two steps. Its cells are moved so that their bounding
box starts at the origin. Then it is put into canonical form: among the four rotations
by 0, 90, 180 and 270 degrees, it keeps the one whose packed bit grid (one integer
per row, bit `x` set for the cell `(x, y)`) is lexicographically least, taking the
first such rotation. Shapes are equal and hash alike exactly when their grids agree,
so the set keeps one shape per rotation class. Mirror images stay distinct. The fold
over the parents runs in parallel; its partial results are merged by adding counters
and extending sets.

The model has seven modules:

- `Vector`: integer points.
- `Rotation`: the two rotation tables.
- `BoundingBox`: two-point boxes: `from`, `min`, `max`, and rotating or translating a box.
- `Grid`: rows as naturals, bit sets, the grid of a point list, the lexicographic order, and the first least element.
- `ShapeMinimal`: the canonicaliser on points already aligned with the origin, with the test in the same file.
- `ShapeWithGrid`: equality, hashing, display, and construction.
- `Poly`: the growth loops, the fold and merge, one generation, and the driver.

The closure of the fold is imperative in the source, so it is modelled by two
methods, `ExpandPoint` and `ExpandParent`. Each is proved equal to a recursive
specification (`TryMoves`, `TryPoints`), and the counting, key and validity laws are
proved about those specifications. `GenerateShapesWithSize` walks the previous set in
an arbitrary order, chosen nondeterministically. It is proved to produce exactly the
grids of all children of all parents, whatever that order. `FoldSplit` and the merge
laws show that every split of the parents into parallel parts gives the same result.

## Model

| member | source | states |
|---|---|---|
| Vector.NegPartIsMinusMin | src/poly_2d/shape/shape_minimal.rs:21-24 | the realign offset `-min(c, 0)` is how far the rotated coordinate lies below zero, and is never negative |
| Rotation.TableEntries | src/poly_2d/rotation.rs:3-8 | the table has four entries, the matrices for 0, 90, 180 and 270 degrees counter-clockwise |
| Rotation.RotationTable | src/poly_2d/rotation.rs:3-8 | each entry turns a point by its angle: identity, `(-y, x)`, `(-x, -y)`, `(y, -x)` |
| Rotation.TurnIsTableEntry | src/poly_2d/rotation.rs:3-15 | the per-angle turn equals the matrix product with the entry of either table |
| Rotation.MulVec | src/poly_2d/rotation.rs:10-15 | multiplying a point by an `ROTATIONS8` entry turns it by that entry's angle |
| Rotation.TurnLinear | src/poly_2d/rotation.rs:3-8 | each turn maps the difference of two points to the difference of their turns |
| Rotation.HalfTurnIsTwoQuarterTurns | src/poly_2d/rotation.rs:3-8 | the 180 degree entry is the 90 degree entry applied twice |
| Rotation.ThreeQuarterTurnInverts | src/poly_2d/rotation.rs:3-8 | the 270 degree entry undoes the 90 degree entry, in either order |
| Rotation.QuarterTurnHasOrderFour | src/poly_2d/rotation.rs:3-8 | four quarter turns give back every point |
| Rotation.ApplyTwice | src/poly_2d/rotation.rs:3-8 | the table is closed under composition: entry `i` then entry `j` is entry `(i + j) mod 4` |
| Rotation.NoReflections | src/poly_2d/rotation.rs:3-8 | every entry has determinant 1, so none of them is a mirror |
| Rotation.NarrowTableAgrees | src/poly_2d/rotation.rs:3-15 | the i8 and i32 tables hold the same matrices in the same order |
| Rotation.RotationKeepsAdjacency | src/poly_2d/rotation.rs:3-8 | turning two cells keeps them edge-adjacent exactly when they were |
| Rotation.RotationInjective | src/poly_2d/rotation.rs:3-8 | turning two cells gives the same cell exactly when they were the same |
| BoundingBox.MinOf | src/poly_2d/shape/bounding_box_two_points.rs:15-16 | the minimum of a non-empty list is one of its elements and no element is smaller |
| BoundingBox.MaxOf | src/poly_2d/shape/bounding_box_two_points.rs:19-20 | the maximum of a non-empty list is one of its elements and no element is larger |
| BoundingBox.From | src/poly_2d/shape/bounding_box_two_points.rs:12-23 | every point lies in the box, and each of its four sides is touched by some point |
| BoundingBox.PerAxisExtremes | src/poly_2d/shape/shape_minimal.rs:148-160 | the per-axis min/max box of the minimal shape's `Bounds::from` contains every point and each side is touched |
| BoundingBox.Witnesses | src/poly_2d/shape/bounding_box_two_points.rs:12-23 | a tight box has a point on each of its four sides |
| BoundingBox.FromUnique | src/poly_2d/shape/bounding_box_two_points.rs:12-23 | a box that contains the points and is touched on all four sides is the one `from` computes |
| BoundingBox.Min | src/poly_2d/shape/bounding_box_two_points.rs:25-30 | the lower corner is below both stored points and takes each coordinate from one of them |
| BoundingBox.Max | src/poly_2d/shape/bounding_box_two_points.rs:32-37 | the upper corner is above both stored points and takes each coordinate from one of them |
| BoundingBox.CornersNormalised | src/poly_2d/shape/bounding_box_two_points.rs:25-37 | `min` is below `max`; both ignore the order of the two points; on an ordered box they give back the points |
| BoundingBox.RotateAll | src/poly_2d/shape/shape_minimal.rs:39-41 | each point of the list is multiplied by the matrix, in order |
| BoundingBox.Rotate | src/poly_2d/shape/bounding_box_two_points.rs:40-49 | `rotation * box` rotates both corners; the extent of the result is the box's extent rotated as a vector |
| BoundingBox.TurnInBox | src/poly_2d/shape/bounding_box_two_points.rs:40-49 | a point inside a box stays inside the rotated box, after normalising its corners |
| BoundingBox.RotateAllTurns | src/poly_2d/shape/bounding_box_two_points.rs:40-49 | rotating a list by table entry `i` turns each point by that entry's angle |
| BoundingBox.TurnedInside | src/poly_2d/shape/bounding_box_two_points.rs:40-49 | the rotated points lie in the rotated box of the original points |
| BoundingBox.TurnedCorners | src/poly_2d/shape/bounding_box_two_points.rs:40-49 | each side of the rotated box is touched by a rotated point |
| BoundingBox.RotateFrom | src/poly_2d/shape/bounding_box_two_points.rs:40-49 | the box of the rotated points is the rotated box with its corners normalised by `min` and `max` |
| BoundingBox.BoxAdd | src/poly_2d/shape/bounding_box_two_points.rs:51-60 | both corners move by the vector, so the extent is kept |
| BoundingBox.BoxSub | src/poly_2d/shape/bounding_box_two_points.rs:62-71 | both corners move back by the vector, so the extent is kept |
| BoundingBox.AddThenSub | src/poly_2d/shape/bounding_box_two_points.rs:51-71 | adding then subtracting a vector, or the reverse, gives back the box |
| BoundingBox.FromTranslate | src/poly_2d/shape/bounding_box_two_points.rs:12-23 | the box of translated points is the translated box |
| BoundingBox.FromAppend | src/poly_2d/shape/bounding_box_two_points.rs:12-23 | appending a point widens the box to cover it and changes nothing else |
| BoundingBox.FromWithin | src/poly_2d/shape/bounding_box_two_points.rs:12-23 | the box lies inside every box that holds all the points |
| Grid.SetBit | src/poly_2d/shape/shape_minimal.rs:31 | `row \|= 1 << x` sets bit `x` and leaves every other bit as it was |
| Grid.AddBit | src/poly_2d/shape/shape_minimal.rs:31 | adding the one-hot value of an unset bit sets exactly that bit |
| Grid.ZeroHasNoBits | src/poly_2d/shape/shape_minimal.rs:28 | a zeroed row has no bit set |
| Grid.Zeros | src/poly_2d/shape/shape_minimal.rs:28 | the fresh grid has `height` rows, all zero |
| Grid.GridOf | src/poly_2d/shape/shape_minimal.rs:28-32 | the grid of a point list has one row per line of the box |
| Grid.GridOfStep | src/poly_2d/shape/shape_minimal.rs:29-32 | each point ORs its bit into its row and leaves the other rows alone |
| Grid.GridBits | src/poly_2d/shape/shape_minimal.rs:28-32 | bit `x` of row `y` is set exactly when `(x, y)` is one of the points |
| Grid.SameGridSameCells | src/poly_2d/shape/shape_with_grid.rs:15-19 | equal grids mean the same set of cells |
| Grid.BitsDetermineRow | src/poly_2d/shape/shape_minimal.rs:31 | two rows with the same bits are the same number |
| Grid.SameCellsSameGrid | src/poly_2d/shape/shape_with_grid.rs:15-19 | the same set of cells gives the same grid, whatever the order or repetition of the points |
| Grid.LexLeReflexive | src/poly_2d/shape/shape_minimal.rs:36 | the grid order (`Vec` comparison) is reflexive |
| Grid.LexLeAntisymmetric | src/poly_2d/shape/shape_minimal.rs:36 | the grid order is antisymmetric |
| Grid.LexLeTransitive | src/poly_2d/shape/shape_minimal.rs:36 | the grid order is transitive |
| Grid.LexLeTotal | src/poly_2d/shape/shape_minimal.rs:36 | the grid order is total |
| Grid.FirstMinimum | src/poly_2d/shape/shape_minimal.rs:36-37 | `min_by_key` picks an element no greater than any other, and strictly below every element before it |
| Grid.FirstMinimumStep | src/poly_2d/shape/shape_minimal.rs:36 | extending the list by one element keeps the earlier choice unless the new element is strictly smaller |
| Grid.FirstMinimumUnique | src/poly_2d/shape/shape_minimal.rs:36-37 | the first least element is the only index with both properties |
| ShapeMinimal.PlaceIsMatrixProduct | src/poly_2d/shape/shape_minimal.rs:20-30 | placing a point is `rotation * p + realign_offset`, and the realigned bounds are the absolute rotated bounds |
| ShapeMinimal.Candidate | src/poly_2d/shape/shape_minimal.rs:20-41 | candidate `i` places every point by rotation `i` and has the realigned bounds |
| ShapeMinimal.PlaceInBounds | src/poly_2d/shape/shape_minimal.rs:20-25 | a point of the box lands in the realigned box, which is the box with its sides swapped on odd turns |
| ShapeMinimal.CandidateAligned | src/poly_2d/shape/shape_minimal.rs:13-14 | every candidate is again aligned with the origin, and its grid fits its row count |
| ShapeMinimal.PlaceExplicit | src/poly_2d/shape/shape_minimal.rs:20-30 | a placed point, written out per angle in terms of the bounds |
| ShapeMinimal.TurnedPointNormalised | src/poly_2d/shape/shape_minimal.rs:20-30 | rotating a point and re-aligning by the rotated box equals aligning first, then placing |
| ShapeMinimal.TurnedBoundsRealigned | src/poly_2d/shape/shape_minimal.rs:20-25 | the extent of the rotated box is the realigned bounds |
| ShapeMinimal.PlaceCompose | src/poly_2d/shape/shape_minimal.rs:20-30 | placing by `i` and then by `j` in the new bounds is placing by `(i + j) mod 4` |
| ShapeMinimal.PlaceInjective | src/poly_2d/shape/shape_minimal.rs:30 | placing two points gives the same cell exactly when they were the same |
| ShapeMinimal.PlaceAdjacent | src/poly_2d/shape/shape_minimal.rs:30 | placing keeps edge adjacency in both directions |
| ShapeMinimal.CandidateCompose | src/poly_2d/shape/shape_minimal.rs:20-41 | candidate `j` of candidate `i` is candidate `(i + j) mod 4` |
| ShapeMinimal.CandidateTight | src/poly_2d/shape/shape_minimal.rs:13-14 | if the shape touches both axes and its far sides, so does every candidate |
| ShapeMinimal.CandidateIdentity | src/poly_2d/shape/shape_minimal.rs:20-30 | the 0 degree candidate is the shape itself |
| ShapeMinimal.CandidateGrid | src/poly_2d/shape/shape_minimal.rs:28-32 | the grid of candidate `i` has one row per line of its realigned box |
| ShapeMinimal.CandidateGrids | src/poly_2d/shape/shape_minimal.rs:16-35 | the four grids, one per rotation in table order |
| ShapeMinimal.CanonicalChoice | src/poly_2d/shape/shape_minimal.rs:36-37 | the chosen rotation is one of the four |
| ShapeMinimal.CanonicalGrid | src/poly_2d/shape/shape_minimal.rs:36-37 | the canonical grid is no greater than any candidate grid |
| ShapeMinimal.CanonicalForm | src/poly_2d/shape/shape_minimal.rs:15-44 | the result is aligned, keeps the point count, has the bounds or their swap, and its grid is the canonical grid |
| ShapeMinimal.CanonicalIsFirstLeast | src/poly_2d/shape/shape_minimal.rs:36-43 | the result is the first candidate whose grid is least |
| ShapeMinimal.CanonicalKeepsPoints | src/poly_2d/shape/shape_minimal.rs:39-41 | the result keeps the point count, distinctness and edge adjacency of every pair of points |
| ShapeMinimal.CandidateGridShift | src/poly_2d/shape/shape_minimal.rs:16-35 | the candidate grids of candidate `k` are the original grids shifted cyclically by `k` |
| ShapeMinimal.CanonicalGridRotationInvariant | src/poly_2d/shape/shape_minimal.rs:15-44 | every rotation of a shape has the same canonical grid |
| ShapeMinimal.CanonicalIdempotent | src/poly_2d/shape/shape_minimal.rs:15-44 | canonicalising a canonical form changes nothing |
| ShapeMinimal.UniqueLeastFullyInvariant | src/poly_2d/shape/shape_minimal.rs:15-44 | when one rotation's grid is strictly least, every rotation has the same canonical form, points included |
| ShapeMinimal.RotationGrid | src/poly_2d/shape/shape_minimal.rs:20-34 | the grid the loop fills for rotation `i` is candidate `i`'s grid |
| ShapeMinimal.CanonicalCloneWithGrid | src/poly_2d/shape/shape_minimal.rs:15-44 | returns the first rotation with the least grid, realigned to the origin, together with that grid |
| ShapeMinimal.QuarterTurnCandidate | src/poly_2d/shape/shape_minimal.rs:20-30 | the 90 degree candidate sends `(x, y)` to `(bounds.y - y, x)` and swaps the bounds |
| ShapeMinimal.HalfTurnCandidate | src/poly_2d/shape/shape_minimal.rs:20-30 | the 180 degree candidate sends `(x, y)` to `(bounds.x - x, bounds.y - y)` and keeps the bounds |
| ShapeMinimal.ThreeQuarterTurnCandidate | src/poly_2d/shape/shape_minimal.rs:20-30 | the 270 degree candidate sends `(x, y)` to `(y, bounds.x - x)` and swaps the bounds |
| ShapeMinimal.Rot90IsCandidate | src/poly_2d/shape/shape_minimal.rs:58-124 | the test's `rot90` fixture is the 90 degree candidate of `rot0` |
| ShapeMinimal.Rot180IsCandidate | src/poly_2d/shape/shape_minimal.rs:58-124 | the test's `rot180` fixture is the 180 degree candidate of `rot0` |
| ShapeMinimal.Rot270IsCandidate | src/poly_2d/shape/shape_minimal.rs:58-124 | the test's `rot270` fixture is the 270 degree candidate of `rot0` |
| ShapeMinimal.Rot0Grid | src/poly_2d/shape/shape_minimal.rs:58-69 | the grid of `rot0` is `[3, 14]` |
| ShapeMinimal.Rot90Grid | src/poly_2d/shape/shape_minimal.rs:77-88 | the grid of `rot90` is `[2, 3, 1, 1]` |
| ShapeMinimal.Rot180Grid | src/poly_2d/shape/shape_minimal.rs:94-105 | the grid of `rot180` is `[7, 12]` |
| ShapeMinimal.Rot270Grid | src/poly_2d/shape/shape_minimal.rs:113-124 | the grid of `rot270` is `[2, 2, 3, 1]` |
| ShapeMinimal.TestCandidateGrids | src/poly_2d/shape/shape_minimal.rs:126-139 | the four candidate grids of `rot0`, in table order |
| ShapeMinimal.TestGridOrder | src/poly_2d/shape/shape_minimal.rs:36 | the 270 degree grid is strictly least of the four |
| ShapeMinimal.StrictChoice | src/poly_2d/shape/shape_minimal.rs:36-37 | a rotation whose grid is strictly below every other is the one chosen, and it is the unique least |
| ShapeMinimal.TestChoice | src/poly_2d/shape/shape_minimal.rs:126-139 | canonicalising `rot0` chooses the 270 degree rotation, the unique least |
| ShapeMinimal.TestCanonicalForm | src/poly_2d/shape/shape_minimal.rs:126-139 | canonicalising `rot0` gives `rot270` |
| ShapeMinimal.TestCandidateCanonicalises | src/poly_2d/shape/shape_minimal.rs:126-139 | every rotation of `rot0` canonicalises to `rot270` |
| ShapeMinimal.ShouldCanonicalizeAt | src/poly_2d/shape/shape_minimal.rs:126-139 | each of the four fixtures, built from a zero parameter, canonicalises to `rot270` |
| ShapeMinimal.ShouldCanonicalize | src/poly_2d/shape/shape_minimal.rs:126-139 | each of the four fixtures canonicalises to `rot270`, as the test asserts |
| ShapeMinimal.TestCanonicalGrid | src/poly_2d/shape/shape_minimal.rs:126-139 | the canonical grid of `rot0` is `[2, 2, 3, 1]` |
| ShapeMinimal.TestCanonicalFirstRow | src/poly_2d/shape/shape_minimal.rs:126-139 | the canonical grid of `rot0` starts with the row 2 |
| ShapeMinimal.MirrorReflects | src/poly_2d/rotation.rs:3-8 | the mirror pentomino is `rot0` with each `x` replaced by `bounds.x - x` |
| ShapeMinimal.MirrorIsReflection | src/poly_2d/rotation.rs:3-8 | the mirror pentomino is `rot0` reflected in the vertical middle line of its box |
| ShapeMinimal.Mirror270IsCandidate | src/poly_2d/shape/shape_minimal.rs:20-30 | the 270 degree candidate of the mirror pentomino is the listed shape |
| ShapeMinimal.Mirror270GridPrefix | src/poly_2d/shape/shape_minimal.rs:28-32 | the first three cells of that candidate give the rows `[1, 3, 0, 0]` |
| ShapeMinimal.Mirror270Grid | src/poly_2d/shape/shape_minimal.rs:28-32 | the grid of that candidate is `[1, 3, 2, 2]` |
| ShapeMinimal.CanonicalFirstRow | src/poly_2d/shape/shape_minimal.rs:36-37 | the first row of the canonical grid is no greater than the first row of any candidate's grid |
| ShapeMinimal.MirrorCanonicalFirstRow | src/poly_2d/shape/shape_minimal.rs:36-37 | the canonical grid of the mirror pentomino starts with a row no greater than 1 |
| ShapeMinimal.FirstRows | src/poly_2d/shape/shape_minimal.rs:36-37 | the canonical grids of `rot0` and its mirror start with 2 and with at most 1 |
| ShapeMinimal.MirrorNotIdentifiedAt | src/poly_2d/rotation.rs:3-8 | `rot0` and its mirror image have different canonical grids |
| ShapeMinimal.MirrorNotIdentified | src/poly_2d/rotation.rs:3-8 | with no reflection in the table, `rot0` and its mirror image are different shapes: their canonical grids differ |
| ShapeWithGrid.Eq | src/poly_2d/shape/shape_with_grid.rs:15-19 | shapes are equal when their grids are; the laws are the lemmas below |
| ShapeWithGrid.HashInput | src/poly_2d/shape/shape_with_grid.rs:21-28 | the hasher is fed the grid alone |
| ShapeWithGrid.EqIsEquivalence | src/poly_2d/shape/shape_with_grid.rs:15-19 | grid equality is reflexive, symmetric and transitive, as the derived `Eq` marker requires |
| ShapeWithGrid.HashAgreesWithEq | src/poly_2d/shape/shape_with_grid.rs:21-28 | equal shapes hash alike under every hash function on grids |
| ShapeWithGrid.EqIffSameCells | src/poly_2d/shape/shape_with_grid.rs:15-19 | two well-formed shapes are equal exactly when they have the same set of cells |
| ShapeWithGrid.SameCellsEq | src/poly_2d/shape/shape_with_grid.rs:15-19 | two well-formed shapes with the same cells are equal |
| ShapeWithGrid.SameCellsSameBox | src/poly_2d/shape/bounding_box_two_points.rs:12-23 | two lists with the same cells have the same tight box |
| ShapeWithGrid.TightSameCells | src/poly_2d/shape/bounding_box_two_points.rs:12-23 | a tight box depends only on the set of cells |
| ShapeWithGrid.NormalisedAligned | src/poly_2d/shape/shape_minimal.rs:13-14 | points moved to the origin meet the canonicaliser's precondition |
| ShapeWithGrid.New | src/poly_2d/poly.rs:97 | a new shape keeps the number of points |
| ShapeWithGrid.NewWellFormed | src/poly_2d/poly.rs:97 | a new shape is well formed: box at the origin, tight, and a grid with one bit per cell; its grid is the canonical grid |
| ShapeWithGrid.NewKeepsPoints | src/poly_2d/poly.rs:97 | construction keeps distinctness and edge adjacency of every pair of points |
| ShapeWithGrid.NewTranslationInvariant | src/poly_2d/poly.rs:97 | translating the points does not change the shape built |
| ShapeWithGrid.NormalisedRotate | src/poly_2d/shape/shape_minimal.rs:20-30 | rotating points then moving them to the origin gives the matching candidate |
| ShapeWithGrid.NewRotationInvariant | src/poly_2d/poly.rs:97 | rotated points build an equal shape, so rotations are one set entry |
| ShapeWithGrid.NormalisedOfNew | src/poly_2d/poly.rs:97 | the points of a new shape, moved to the origin, are the canonical form |
| ShapeWithGrid.NewIdempotent | src/poly_2d/poly.rs:97 | rebuilding a shape from its own points gives it back |
| ShapeWithGrid.WellFormedGridBits | src/poly_2d/shape/shape_with_grid.rs:30-42 | bit `x` of row `y` is set exactly when `(x, y)` is a cell |
| ShapeWithGrid.RowTextChars | src/poly_2d/shape/shape_with_grid.rs:33-36 | column `i` of a printed row is `O` exactly when bit `i` is set, and a blank otherwise |
| ShapeWithGrid.TextLines | src/poly_2d/shape/shape_with_grid.rs:32-38 | line `y` of the output is row `y` printed |
| ShapeWithGrid.TextChar | src/poly_2d/shape/shape_with_grid.rs:30-42 | the output has one line of `max().x + 1` cells per row; each character is `O`, a blank or the newline |
| ShapeWithGrid.Display | src/poly_2d/shape/shape_with_grid.rs:30-42 | the printed grid has `max().x + 2` characters per row: the cells and a newline |
| ShapeWithGrid.Fmt | src/poly_2d/shape/shape_with_grid.rs:30-42 | what `fmt` writes is the printed grid |
| Poly.MoveAdjacent | src/poly_2d/poly.rs:68 | `S::moves()` (`Moves`) holds the four unit steps, and every move goes to an edge-adjacent cell |
| Poly.Build | src/poly_2d/poly.rs:97 | `S::new` as the engine calls it; its laws are `BuildMakesValid` and the `New` lemmas |
| Poly.Insert | src/poly_2d/poly.rs:98 | inserting adds the shape's grid, keeps every stored shape and adds at most one entry |
| Poly.KeyedNoDuplicates | src/poly_2d/poly.rs:98 | the set never holds two equal shapes |
| Poly.Merge | src/poly_2d/poly.rs:106-109 | the counters add up; the sets are united and the left shape wins on equal grids |
| Poly.MergeIdentity | src/poly_2d/poly.rs:105 | the empty tally is an identity of the merge |
| Poly.MergeAssociative | src/poly_2d/poly.rs:104-110 | the merge is associative, so any grouping of parallel parts gives the same result |
| Poly.MergeCommutative | src/poly_2d/poly.rs:104-110 | swapping the parts gives the same counts, the same grids and equal shapes |
| Poly.AppendExtent | src/poly_2d/poly.rs:85-95 | adding a neighbour widens the box by at most one cell along each axis |
| Poly.GrowPlaceable | src/poly_2d/poly.rs:92-97 | the child of a growable parent fits a grid row |
| Poly.ChildPoints | src/poly_2d/poly.rs:92-95 | the child's points are the parent's points followed by the new point |
| Poly.Try | src/poly_2d/poly.rs:84-98 | each move counts one target, and one candidate exactly when the target is free |
| Poly.ExpandPoint | src/poly_2d/poly.rs:83-99 | the move loop computes the tally of the four moves from point `k` |
| Poly.ExpandParent | src/poly_2d/poly.rs:80-102 | the closure computes the tally of all moves from all the parent's points |
| Poly.FreeMovesNext | src/poly_2d/poly.rs:86-90 | a move adds itself to the free moves exactly when its target is free |
| Poly.TryMovesCounts | src/poly_2d/poly.rs:83-99 | `j` moves count `j` targets and one candidate per free move; at most one new shape each |
| Poly.TryPointsCounts | src/poly_2d/poly.rs:82-100 | `k` points count `4k` targets and one candidate per free move; at most one new shape each |
| Poly.MoveGridsNext | src/poly_2d/poly.rs:86-98 | a free move adds its child's grid |
| Poly.PointGridsNext | src/poly_2d/poly.rs:82-100 | each point adds the grids of its four moves |
| Poly.TryKeys | src/poly_2d/poly.rs:86-98 | one move adds exactly its child's grid when the target is free, and nothing otherwise |
| Poly.TryKeeps | src/poly_2d/poly.rs:98 | one move keeps every shape stored so far |
| Poly.TryMovesKeys | src/poly_2d/poly.rs:83-99 | the moves from a point add exactly the grids of its free children |
| Poly.TryMovesKeeps | src/poly_2d/poly.rs:83-99 | the moves from a point keep every stored shape and keep the set keyed |
| Poly.TryPointsKeys | src/poly_2d/poly.rs:82-100 | the closure adds exactly the grids of the parent's free children |
| Poly.TryPointsKeeps | src/poly_2d/poly.rs:82-100 | the closure keeps every stored shape and keeps the set keyed |
| Poly.ValidGrowable | src/poly_2d/poly.rs:81-95 | a valid shape of fewer than 31 cells is its own box and can grow by one cell |
| Poly.AppendDistinct | src/poly_2d/poly.rs:86-95 | skipping occupied targets keeps the child's cells distinct |
| Poly.AppendGrown | src/poly_2d/poly.rs:85-95 | a child adds a cell next to an existing one, so stays connected |
| Poly.GrownTransfer | src/poly_2d/poly.rs:97 | a list with the same pairwise adjacency as a connected list is connected |
| Poly.NewExtent | src/poly_2d/poly.rs:97 | building a shape keeps its box extent or swaps it |
| Poly.ChildExtent | src/poly_2d/poly.rs:92-97 | a child of a generation-`n` shape fits in a box of `n + 1` cells |
| Poly.ChildValid | src/poly_2d/poly.rs:86-97 | each child of a valid generation-`n` shape is a valid generation-`(n + 1)` shape |
| Poly.SingleValid | src/poly_2d/poly.rs:70-73 | the one-cell shape is valid for generation 1 |
| Poly.OneCellIsMonomino | src/poly_2d/poly.rs:72 | every well-formed one-cell shape at the origin is the monomino |
| Poly.SingleShape | src/poly_2d/poly.rs:72 | the one cell at any point builds the monomino |
| Poly.OneCellSet | src/poly_2d/poly.rs:72 | the set holding just the monomino is a valid generation 1 |
| Poly.SingleCell | src/poly_2d/poly.rs:72 | `S::new` of the origin cell is the monomino |
| Poly.TryMovesHolds | src/poly_2d/poly.rs:83-99 | if every shape built from this parent has a property, the loop keeps it for all stored shapes |
| Poly.TryPointsHolds | src/poly_2d/poly.rs:82-100 | the closure keeps, for all stored shapes, any property every child has |
| Poly.BuildMakesValid | src/poly_2d/poly.rs:86-97 | every shape built from a valid parent plus a free neighbour is valid one size up |
| Poly.ChildrenAdd | src/poly_2d/poly.rs:77-103 | the children of one more parent are that parent's offspring added |
| Poly.Fold | src/poly_2d/poly.rs:76-103 | the fold closure over the parents, one after another; its laws are the `Fold` lemmas below |
| Poly.FoldKeys | src/poly_2d/poly.rs:77-103 | the fold stores exactly the grids of all children of the parents folded |
| Poly.FoldKeeps | src/poly_2d/poly.rs:77-103 | the fold keeps every stored shape and keeps the set keyed |
| Poly.FoldHolds | src/poly_2d/poly.rs:77-103 | the fold keeps any property every child has |
| Poly.FoldCounts | src/poly_2d/poly.rs:77-103 | the fold counts four targets per parent cell, and at most that many candidates and new shapes |
| Poly.PointTotalUniform | src/poly_2d/poly.rs:82 | when every parent has `c` cells, the parents hold `c` times their number of cells in total |
| Poly.InsertUnder | src/poly_2d/poly.rs:98 | inserting into a union adds to its right part when the left part lacks the grid |
| Poly.TryMerge | src/poly_2d/poly.rs:84-98 | one move on a merged tally is the move on the right part, merged |
| Poly.TryMovesMerge | src/poly_2d/poly.rs:83-99 | the move loop commutes with merging a left part |
| Poly.TryPointsMerge | src/poly_2d/poly.rs:82-100 | the closure commutes with merging a left part |
| Poly.FoldMerge | src/poly_2d/poly.rs:76-110 | the fold commutes with merging a left part |
| Poly.FoldAppend | src/poly_2d/poly.rs:76-103 | folding two runs of parents is folding the second from the first's result |
| Poly.FoldSplit | src/poly_2d/poly.rs:76-110 | folding parents split into two parallel parts and reducing them equals one sequential fold |
| Poly.ElemsOfAll | src/poly_2d/poly.rs:75-77 | an enumeration visiting every key visits every parent |
| Poly.ValidMembers | src/poly_2d/poly.rs:75-77 | every parent enumerated from a valid generation is valid |
| Poly.GenerationValid | src/poly_2d/poly.rs:76-110 | folding valid parents gives a valid next generation |
| Poly.GenerationCounts | src/poly_2d/poly.rs:76-110 | the fold counts four targets per cell of each parent |
| Poly.GenerationKeys | src/poly_2d/poly.rs:75-110 | the next generation holds exactly the grids of all children of all parents, whatever the order |
| Poly.SingletonHolds | src/poly_2d/poly.rs:72 | a one-element set is keyed and has its element's properties |
| Poly.GenerationOfValid | src/poly_2d/poly.rs:75-110 | from a valid generation the fold gives a valid next one and counts `4 (n - 1)` targets per parent |
| Poly.GenerateShapesWithSize | src/poly_2d/poly.rs:61-115 | size 1 is the monomino with both counters 1; otherwise every parent is enumerated once, the set holds exactly the grids of all children, `points_tried` is four per parent cell and `polys_tried` the number of free targets; the result is valid when the parents are |
| Poly.AddGeneration | src/poly_2d/poly.rs:49-56 | `entry(n).or_insert(polys)` stores generation `n` only if absent and keeps all other sizes |
| Poly.GenerateShapesUpToSize | src/poly_2d/poly.rs:43-59 | sizes `1..=max_n` are stored, each a valid generation, 1 the monomino, each later one the children of the one before |

## Left out

- `S::new` and `S::moves()` are defined outside the modelled files. They are modelled as translating the points to the origin and then canonicalising them, and as the four unit steps `(1,0), (-1,0), (0,1), (0,-1)`.
- Poly.Build: a list whose box is wider than a row builds an empty shape. The engine never builds such a list (`GrowPlaceable`).
- Integer widths are not modelled: `i8` minimal shapes, `i32` points, `u64` rows, and the `usize` counters. Instead every grid row is required to hold at most 31 cells (`RowWidth`). This is the width at which the `i32` rows of the minimal shape and the `u64` rows agree, and no shift or addition can overflow.
- Hash values: only the hash input is modelled, so equal shapes hash alike.
- Formatter errors, `Debug` output, logging, timing and `report_performance` are not modelled. The counters it receives are modelled.
- `report_polys`, `generate_polys`, `NUM`, the command line, the library entry points, the naive enumerator, the snake shapes and the shared helpers are not part of this model.
- Rayon's work splitting and scheduling are not modelled. The fold runs over an arbitrary enumeration of the previous set, and `FoldSplit` with the merge laws covers any split into parts.
- Poly.GenerateShapesWithSize: validity of the result, and `points_tried` as the closed form `4 (n - 1)` per parent, are proved only from a valid previous generation.
- Completeness is not proved: nothing shows that every polyomino of size `n` appears.
- The known counts for `n = 2, 3, 4` are not proved.
- Mirror images count as different shapes, as in the source (`MirrorNotIdentified`). No reflection is modelled.
- ShapeMinimal.UniqueLeastFullyInvariant: the result's points match across rotations only when one rotation's grid is strictly least. A symmetric shape may keep its points in another order. The grid is invariant for every shape (`CanonicalGridRotationInvariant`).
- The canonicaliser takes `ROTATIONS8` as a fixed table, not as a parameter. That table is the only one ever passed to it.
