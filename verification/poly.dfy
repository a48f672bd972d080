/** The enumeration engine: generation `n` is grown from generation `n - 1` by
    adding one unit step to one point of each parent shape in every free
    direction, building the canonical shape of each result and collecting the
    results in a set keyed by grid. The parallel fold over the parents is
    modelled as a sequential fold over an arbitrary enumeration of the set,
    together with the merge laws that make every split give the same result. */
module Poly {
  import opened Vector
  import opened Grid
  import opened BoundingBox
  import opened ShapeMinimal
  import opened ShapeWithGrid

  /** `S::moves()`: the four unit axis steps, in the order they are tried. */
  const Moves: seq<Vec2> := [Vec2(1, 0), Vec2(-1, 0), Vec2(0, 1), Vec2(0, -1)]

  /** Each move is one unit step: the target shares an edge with its origin. */
  lemma MoveAdjacent(p: Vec2, j: nat)
    requires j < 4
    ensures Adjacent(p, Add(p, Moves[j]))
    ensures -1 <= Moves[j].x <= 1 && -1 <= Moves[j].y <= 1
  {
  }

  // ---------------------------------------------------------------------------
  // Sets of shapes

  /** `HashSet<ShapeWithGrid>`: shapes are equal and hash alike exactly when their
      grids agree, so a set holds at most one shape per grid and is a map from
      grid to the shape stored for it. */
  type ShapeSet = map<Grid, ShapeWithGrid>

  /** Every stored shape sits under its own grid. */
  predicate Keyed(ss: ShapeSet) {
    forall g | g in ss :: ss[g].grid == g
  }

  /** `b` holds every grid of `a`, with the same shape stored under it. */
  predicate Extends(a: ShapeSet, b: ShapeSet) {
    forall g | g in a :: g in b && b[g] == a[g]
  }

  lemma ExtendsTransitive(a: ShapeSet, b: ShapeSet, c: ShapeSet)
    requires Extends(a, b) && Extends(b, c)
    ensures Extends(a, c)
  {
  }

  /** `insert`: a shape equal to one already present leaves the set unchanged
      (the stored shape is kept); otherwise the shape is added under its grid. */
  function Insert(ss: ShapeSet, s: ShapeWithGrid): (r: ShapeSet)
    ensures r.Keys == ss.Keys + {s.grid}
    ensures Extends(ss, r)
    ensures Keyed(ss) ==> Keyed(r)
    ensures |r| <= |ss| + 1
  {
    if s.grid in ss then ss else ss[s.grid := s]
  }

  /** Two distinct entries of a keyed set are never equal shapes. */
  lemma KeyedNoDuplicates(ss: ShapeSet, g: Grid, h: Grid)
    requires Keyed(ss) && g in ss && h in ss && g != h
    ensures !Eq(ss[g], ss[h])
  {
  }

  // ---------------------------------------------------------------------------
  // The accumulator and its merge

  /** `(points_tried, polys_tried, new_polys)`. */
  datatype Tally = Tally(pointsTried: nat, polysTried: nat, shapes: ShapeSet)

  /** The identity both the fold and the reduce start from. */
  const Empty: Tally := Tally(0, 0, map[])

  /** The reduce step: `a.2.extend(b.2)` adds `b`'s shapes to `a`'s, keeping
      `a`'s shape where both hold an equal one; the counters add up. */
  function Merge(a: Tally, b: Tally): (r: Tally)
    ensures r.pointsTried == a.pointsTried + b.pointsTried
    ensures r.polysTried == a.polysTried + b.polysTried
    ensures r.shapes.Keys == a.shapes.Keys + b.shapes.Keys
    ensures forall g | g in a.shapes :: r.shapes[g] == a.shapes[g]
    ensures forall g | g in b.shapes && g !in a.shapes :: r.shapes[g] == b.shapes[g]
  {
    Tally(a.pointsTried + b.pointsTried, a.polysTried + b.polysTried, b.shapes + a.shapes)
  }

  /** `Empty` is a two-sided identity of the merge. */
  lemma MergeIdentity(a: Tally)
    ensures Merge(Empty, a) == a
    ensures Merge(a, Empty) == a
  {
    assert Merge(Empty, a).shapes == a.shapes;
    assert Merge(a, Empty).shapes == a.shapes;
  }

  /** The merge is associative. */
  lemma MergeAssociative(a: Tally, b: Tally, c: Tally)
    ensures Merge(Merge(a, b), c) == Merge(a, Merge(b, c))
  {
    assert Merge(Merge(a, b), c).shapes == Merge(a, Merge(b, c)).shapes;
  }

  /** The merge is commutative up to shape equality: the counters, the grids
      held and the grid of the shape under each key agree either way. */
  lemma MergeCommutative(a: Tally, b: Tally)
    requires Keyed(a.shapes) && Keyed(b.shapes)
    ensures Merge(a, b).pointsTried == Merge(b, a).pointsTried
    ensures Merge(a, b).polysTried == Merge(b, a).polysTried
    ensures Merge(a, b).shapes.Keys == Merge(b, a).shapes.Keys
    ensures forall g | g in Merge(a, b).shapes :: Eq(Merge(a, b).shapes[g], Merge(b, a).shapes[g])
  {
  }

  // ---------------------------------------------------------------------------
  // Growing one parent

  /** A parent whose box is at most `RowWidth - 2` wide and high: any child still
      fits a grid row. */
  predicate Growable(pts: seq<Vec2>) {
    |pts| > 0 && Le(Sub(From(pts).p1, From(pts).p0), Vec2(RowWidth - 2, RowWidth - 2))
  }

  /** One step from a point of a list widens the box by at most one cell along
      each axis. */
  lemma AppendExtent(pts: seq<Vec2>, p: Vec2, j: nat)
    requires |pts| > 0 && p in pts && j < 4
    ensures var e := Sub(From(pts).p1, From(pts).p0);
      var e' := Sub(From(pts + [Add(p, Moves[j])]).p1, From(pts + [Add(p, Moves[j])]).p0);
      e'.x <= e.x + 1 && e'.y <= e.y + 1
  {
    var f := From(pts);
    FromAppend(pts, Add(p, Moves[j]));
    assert InBox(p, f.p0, f.p1);
    MoveAdjacent(p, j);
  }

  /** Adding a step from a point of a growable parent gives a placeable list. */
  lemma GrowPlaceable(pts: seq<Vec2>, i: nat, j: nat)
    requires Growable(pts) && i < |pts| && j < 4
    ensures Placeable(pts + [Add(pts[i], Moves[j])])
  {
    AppendExtent(pts, pts[i], j);
  }

  /** The target of move `j` from point `i` is not a cell of the parent. */
  predicate FreeAt(pts: seq<Vec2>, i: nat, j: nat)
    requires i < |pts| && j < 4
  {
    Add(pts[i], Moves[j]) !in pts
  }

  /** The parent's points followed by the target of move `m` from point `i`. */
  function ChildPoints(pts: seq<Vec2>, i: nat, m: nat): (c: seq<Vec2>)
    requires i < |pts| && m < 4
    ensures |c| == |pts| + 1 && c[..|pts|] == pts && c[|pts|] == Add(pts[i], Moves[m])
  {
    pts + [Add(pts[i], Moves[m])]
  }

  /** `S::new` as the engine calls it: `New` on every list whose box fits a grid
      row. The engine never builds a wider list (`GrowPlaceable`); those map to
      an empty shape so that the constructor is total, as in the source. */
  function Build(pts: seq<Vec2>): ShapeWithGrid {
    if Placeable(pts) then New(pts) else ShapeWithGrid([], Box(Origin, Origin), [])
  }

  /** The loop body for move `m` from point `i`, with `make` as the shape
      constructor: count the target; if it is free, count a candidate and
      insert the shape made from the parent's points plus the target. */
  function Try(t: Tally, make: seq<Vec2> -> ShapeWithGrid, pts: seq<Vec2>, i: nat, m: nat): (r: Tally)
    requires i < |pts| && m < 4
    ensures r.pointsTried == t.pointsTried + 1
    ensures r.polysTried == t.polysTried + (if FreeAt(pts, i, m) then 1 else 0)
  {
    if !FreeAt(pts, i, m) then Tally(t.pointsTried + 1, t.polysTried, t.shapes)
    else Tally(t.pointsTried + 1, t.polysTried + 1, Insert(t.shapes, make(ChildPoints(pts, i, m))))
  }

  /** The inner loop after the first `j` moves from point `i`. */
  function TryMoves(t: Tally, make: seq<Vec2> -> ShapeWithGrid, pts: seq<Vec2>, i: nat, j: nat): Tally
    requires i < |pts| && j <= 4
  {
    if j == 0 then t else Try(TryMoves(t, make, pts, i, j - 1), make, pts, i, j - 1)
  }

  /** The outer loop after the first `k` points. */
  function TryPoints(t: Tally, make: seq<Vec2> -> ShapeWithGrid, pts: seq<Vec2>, k: nat): Tally
    requires k <= |pts|
  {
    if k == 0 then t else TryMoves(TryPoints(t, make, pts, k - 1), make, pts, k - 1, 4)
  }

  /** The inner loop of the fold closure, for point `k` of a parent: for each
      move, count the target, skip it when the parent already holds it, and
      otherwise count a candidate and insert the shape made from the parent's
      points plus the target. */
  method ExpandPoint(points: seq<Vec2>, k: nat, t: Tally, make: seq<Vec2> -> ShapeWithGrid) returns (r: Tally)
    requires k < |points|
    ensures r == TryMoves(t, make, points, k, 4)
  {
    var pointsTried, polysTried, newPolys := t.pointsTried, t.polysTried, t.shapes;
    var p := points[k];
    for j := 0 to |Moves|
      invariant Tally(pointsTried, polysTried, newPolys) == TryMoves(t, make, points, k, j)
    {
      ghost var before := Tally(pointsTried, polysTried, newPolys);
      assert TryMoves(t, make, points, k, j + 1) == Try(before, make, points, k, j);
      pointsTried := pointsTried + 1;
      var newPoint := Add(p, Moves[j]);
      if newPoint in points {
        continue;
      }
      polysTried := polysTried + 1;
      var newPoints := points + [newPoint];
      assert newPoints == ChildPoints(points, k, j);
      var newPoly := make(newPoints);
      newPolys := Insert(newPolys, newPoly);
    }
    r := Tally(pointsTried, polysTried, newPolys);
  }

  /** The fold closure for one parent, with `make` as `S::new`: the inner loop
      for each of the parent's points in turn. */
  method ExpandParent(parent: ShapeWithGrid, t: Tally, make: seq<Vec2> -> ShapeWithGrid) returns (r: Tally)
    ensures r == TryPoints(t, make, parent.points, |parent.points|)
  {
    var points := parent.points;
    r := t;
    for k := 0 to |points|
      invariant r == TryPoints(t, make, points, k)
    {
      r := ExpandPoint(points, k, r, make);
    }
  }

  // ---------------------------------------------------------------------------
  // What one parent contributes

  /** The moves among the first `j` whose target from point `i` is free. */
  function FreeMoves(pts: seq<Vec2>, i: nat, j: nat): (ms: set<nat>)
    requires i < |pts| && j <= 4
    ensures forall m | m in ms :: m < j
  {
    set m: nat | m < j && FreeAt(pts, i, m)
  }

  /** The number of (point, move) pairs among the first `k` points whose target
      is free, counted point by point. */
  function FreeCount(pts: seq<Vec2>, k: nat): nat
    requires k <= |pts|
  {
    if k == 0 then 0 else FreeCount(pts, k - 1) + |FreeMoves(pts, k - 1, 4)|
  }

  /** One more move adds that move to the free ones exactly when its target is
      free. */
  lemma FreeMovesNext(pts: seq<Vec2>, i: nat, m: nat)
    requires i < |pts| && m < 4
    ensures FreeMoves(pts, i, m + 1) == FreeMoves(pts, i, m) + (if FreeAt(pts, i, m) then {m} else {})
    ensures |FreeMoves(pts, i, m + 1)| == |FreeMoves(pts, i, m)| + (if FreeAt(pts, i, m) then 1 else 0)
  {
    if FreeAt(pts, i, m) {
      assert FreeMoves(pts, i, m + 1) == FreeMoves(pts, i, m) + {m};
    } else {
      assert FreeMoves(pts, i, m + 1) == FreeMoves(pts, i, m);
    }
  }

  /** The inner loop tries `j` targets, counts the free ones as candidates,
      and adds at most one shape per candidate. */
  lemma {:induction false} TryMovesCounts(t: Tally, make: seq<Vec2> -> ShapeWithGrid, pts: seq<Vec2>, i: nat, j: nat)
    requires i < |pts| && j <= 4
    ensures TryMoves(t, make, pts, i, j).pointsTried == t.pointsTried + j
    ensures TryMoves(t, make, pts, i, j).polysTried == t.polysTried + |FreeMoves(pts, i, j)|
    ensures |FreeMoves(pts, i, j)| <= j
    ensures |TryMoves(t, make, pts, i, j).shapes| <= |t.shapes| + |FreeMoves(pts, i, j)|
  {
    if j == 0 {
      assert FreeMoves(pts, i, 0) == {};
    } else {
      TryMovesCounts(t, make, pts, i, j - 1);
      FreeMovesNext(pts, i, j - 1);
    }
  }

  /** The outer loop tries four targets per point, counts exactly the free
      ones as candidates, and adds at most one shape per candidate. */
  lemma {:induction false} TryPointsCounts(t: Tally, make: seq<Vec2> -> ShapeWithGrid, pts: seq<Vec2>, k: nat)
    requires k <= |pts|
    ensures TryPoints(t, make, pts, k).pointsTried == t.pointsTried + 4 * k
    ensures TryPoints(t, make, pts, k).polysTried == t.polysTried + FreeCount(pts, k)
    ensures FreeCount(pts, k) <= 4 * k
    ensures |TryPoints(t, make, pts, k).shapes| <= |t.shapes| + FreeCount(pts, k)
  {
    if k > 0 {
      TryPointsCounts(t, make, pts, k - 1);
      TryMovesCounts(TryPoints(t, make, pts, k - 1), make, pts, k - 1, 4);
    }
  }

  /** The grids of the candidates of free targets among the first `j` moves
      from point `i`. */
  function MoveGrids(pts: seq<Vec2>, make: seq<Vec2> -> ShapeWithGrid, i: nat, j: nat): set<Grid>
    requires i < |pts| && j <= 4
  {
    set m: nat | m < j && FreeAt(pts, i, m) :: make(ChildPoints(pts, i, m)).grid
  }

  /** The grids of the candidates of free targets from the first `k` points. */
  function PointGrids(pts: seq<Vec2>, make: seq<Vec2> -> ShapeWithGrid, k: nat): set<Grid>
    requires k <= |pts|
  {
    set i: nat, m: nat | i < k && m < 4 && FreeAt(pts, i, m) :: make(ChildPoints(pts, i, m)).grid
  }

  /** One more move adds its candidate's grid exactly when its target is free. */
  lemma MoveGridsNext(pts: seq<Vec2>, make: seq<Vec2> -> ShapeWithGrid, i: nat, m: nat)
    requires i < |pts| && m < 4
    ensures MoveGrids(pts, make, i, m + 1) ==
      MoveGrids(pts, make, i, m) + (if FreeAt(pts, i, m) then {make(ChildPoints(pts, i, m)).grid} else {})
  {
    var before, after := MoveGrids(pts, make, i, m), MoveGrids(pts, make, i, m + 1);
    var added: set<Grid> := if FreeAt(pts, i, m) then {make(ChildPoints(pts, i, m)).grid} else {};
    forall g | g in after ensures g in before + added {
      var m': nat :| m' < m + 1 && FreeAt(pts, i, m') && g == make(ChildPoints(pts, i, m')).grid;
      if m' < m {
        assert g in before;
      } else {
        assert m' == m && FreeAt(pts, i, m);
        assert g in added;
      }
    }
    forall g | g in before ensures g in after {
      var m': nat :| m' < m && FreeAt(pts, i, m') && g == make(ChildPoints(pts, i, m')).grid;
      assert m' < m + 1;
    }
  }

  /** One more point adds the grids of its own moves. */
  lemma PointGridsNext(pts: seq<Vec2>, make: seq<Vec2> -> ShapeWithGrid, k: nat)
    requires k < |pts|
    ensures PointGrids(pts, make, k + 1) == PointGrids(pts, make, k) + MoveGrids(pts, make, k, 4)
  {
    var before, after, moves := PointGrids(pts, make, k), PointGrids(pts, make, k + 1), MoveGrids(pts, make, k, 4);
    forall g | g in after ensures g in before + moves {
      var i: nat, m: nat :| i < k + 1 && m < 4 && FreeAt(pts, i, m) && g == make(ChildPoints(pts, i, m)).grid;
      if i < k {
        assert g in before;
      } else {
        assert g in moves;
      }
    }
    forall g | g in before ensures g in after {
      var i: nat, m: nat :| i < k && m < 4 && FreeAt(pts, i, m) && g == make(ChildPoints(pts, i, m)).grid;
      assert i < k + 1;
    }
    forall g | g in moves ensures g in after {
      var m: nat :| m < 4 && FreeAt(pts, k, m) && g == make(ChildPoints(pts, k, m)).grid;
      assert k < k + 1;
    }
  }

  lemma UnionAssociative<T>(a: set<T>, b: set<T>, c: set<T>)
    ensures (a + b) + c == a + (b + c)
  {
  }

  /** One step adds its candidate's grid when the target is free. */
  lemma TryKeys(t: Tally, make: seq<Vec2> -> ShapeWithGrid, pts: seq<Vec2>, i: nat, m: nat)
    requires i < |pts| && m < 4
    ensures Try(t, make, pts, i, m).shapes.Keys ==
      t.shapes.Keys + (if FreeAt(pts, i, m) then {make(ChildPoints(pts, i, m)).grid} else {})
  {
  }

  /** One step never replaces a stored shape and keeps every shape under its
      own grid. */
  lemma TryKeeps(t: Tally, make: seq<Vec2> -> ShapeWithGrid, pts: seq<Vec2>, i: nat, m: nat)
    requires i < |pts| && m < 4
    ensures Extends(t.shapes, Try(t, make, pts, i, m).shapes)
    ensures Keyed(t.shapes) ==> Keyed(Try(t, make, pts, i, m).shapes)
  {
  }

  /** One more move extends the inner loop's grids by that move's shape's grid
      when its target is free. */
  lemma MoveKeysStep(t: Tally, make: seq<Vec2> -> ShapeWithGrid, pts: seq<Vec2>, i: nat, m: nat)
    requires i < |pts| && m < 4
    requires TryMoves(t, make, pts, i, m).shapes.Keys == t.shapes.Keys + MoveGrids(pts, make, i, m)
    ensures TryMoves(t, make, pts, i, m + 1).shapes.Keys == t.shapes.Keys + MoveGrids(pts, make, i, m + 1)
  {
    var u := TryMoves(t, make, pts, i, m);
    var added: set<Grid> := if FreeAt(pts, i, m) then {make(ChildPoints(pts, i, m)).grid} else {};
    assert TryMoves(t, make, pts, i, m + 1) == Try(u, make, pts, i, m);
    TryKeys(u, make, pts, i, m);
    MoveGridsNext(pts, make, i, m);
    UnionAssociative(t.shapes.Keys, MoveGrids(pts, make, i, m), added);
  }

  /** The inner loop adds exactly the grids of its free targets' shapes. */
  lemma {:induction false} TryMovesKeys(t: Tally, make: seq<Vec2> -> ShapeWithGrid, pts: seq<Vec2>, i: nat, j: nat)
    requires i < |pts| && j <= 4
    ensures TryMoves(t, make, pts, i, j).shapes.Keys == t.shapes.Keys + MoveGrids(pts, make, i, j)
  {
    if j == 0 {
      assert MoveGrids(pts, make, i, 0) == {};
    } else {
      TryMovesKeys(t, make, pts, i, j - 1);
      MoveKeysStep(t, make, pts, i, j - 1);
    }
  }

  /** The inner loop never replaces a stored shape and keeps every shape under
      its own grid. */
  lemma {:induction false} TryMovesKeeps(t: Tally, make: seq<Vec2> -> ShapeWithGrid, pts: seq<Vec2>, i: nat, j: nat)
    requires i < |pts| && j <= 4
    ensures Extends(t.shapes, TryMoves(t, make, pts, i, j).shapes)
    ensures Keyed(t.shapes) ==> Keyed(TryMoves(t, make, pts, i, j).shapes)
  {
    if j > 0 {
      var u := TryMoves(t, make, pts, i, j - 1);
      TryMovesKeeps(t, make, pts, i, j - 1);
      TryKeeps(u, make, pts, i, j - 1);
      ExtendsTransitive(t.shapes, u.shapes, Try(u, make, pts, i, j - 1).shapes);
    }
  }

  /** One more point extends the outer loop's grids by that point's moves'
      grids. */
  lemma PointKeysStep(t: Tally, make: seq<Vec2> -> ShapeWithGrid, pts: seq<Vec2>, k: nat)
    requires 0 < k <= |pts|
    requires TryPoints(t, make, pts, k - 1).shapes.Keys == t.shapes.Keys + PointGrids(pts, make, k - 1)
    ensures TryPoints(t, make, pts, k).shapes.Keys == t.shapes.Keys + PointGrids(pts, make, k)
  {
    var u := TryPoints(t, make, pts, k - 1);
    TryMovesKeys(u, make, pts, k - 1, 4);
    PointGridsNext(pts, make, k - 1);
    UnionAssociative(t.shapes.Keys, PointGrids(pts, make, k - 1), MoveGrids(pts, make, k - 1, 4));
  }

  /** The outer loop adds exactly the grids of its points' free targets'
      shapes. */
  lemma {:induction false} TryPointsKeys(t: Tally, make: seq<Vec2> -> ShapeWithGrid, pts: seq<Vec2>, k: nat)
    requires k <= |pts|
    ensures TryPoints(t, make, pts, k).shapes.Keys == t.shapes.Keys + PointGrids(pts, make, k)
  {
    if k == 0 {
      assert PointGrids(pts, make, 0) == {};
    } else {
      TryPointsKeys(t, make, pts, k - 1);
      PointKeysStep(t, make, pts, k);
    }
  }

  /** The outer loop never replaces a stored shape and keeps every shape under
      its own grid. */
  lemma {:induction false} TryPointsKeeps(t: Tally, make: seq<Vec2> -> ShapeWithGrid, pts: seq<Vec2>, k: nat)
    requires k <= |pts|
    ensures Extends(t.shapes, TryPoints(t, make, pts, k).shapes)
    ensures Keyed(t.shapes) ==> Keyed(TryPoints(t, make, pts, k).shapes)
  {
    if k > 0 {
      var u := TryPoints(t, make, pts, k - 1);
      TryPointsKeeps(t, make, pts, k - 1);
      TryMovesKeeps(u, make, pts, k - 1, 4);
      ExtendsTransitive(t.shapes, u.shapes, TryMoves(u, make, pts, k - 1, 4).shapes);
    }
  }

  // ---------------------------------------------------------------------------
  // Valid shapes

  /** Point `k` shares an edge with an earlier point. */
  predicate NeighbourBefore(pts: seq<Vec2>, k: nat)
    requires k < |pts|
  {
    exists j | 0 <= j < k :: Adjacent(pts[j], pts[k])
  }

  /** Every point after the first shares an edge with an earlier one: the cells
      were added one neighbour at a time, so they are connected. */
  predicate Grown(pts: seq<Vec2>) {
    forall k: nat | 0 < k < |pts| :: NeighbourBefore(pts, k)
  }

  /** The cell structure of a shape of generation `n`: well formed, `n` distinct
      connected cells, and a box less than `n` cells wide and high. */
  predicate ValidCells(s: ShapeWithGrid, n: nat) {
    && WellFormed(s)
    && |s.points| == n
    && Distinct(s.points)
    && Grown(s.points)
    && s.gridBounds.p1.x < n && s.gridBounds.p1.y < n
  }

  /** `New` leaves the shape as it is: its points are already the canonical
      rotation at the origin. */
  predicate Canonical(s: ShapeWithGrid) {
    Placeable(s.points) && New(s.points) == s
  }

  /** What every shape of generation `n` satisfies. */
  predicate ValidShape(s: ShapeWithGrid, n: nat) {
    ValidCells(s, n) && Canonical(s)
  }

  /** A set of shapes of generation `n`, each stored under its own grid. */
  predicate ValidSet(ss: ShapeSet, n: nat) {
    Keyed(ss) && AllHold(ss, ValidOf(n))
  }

  /** A shape of fewer than `RowWidth` cells can grow by one cell. */
  lemma ValidGrowable(s: ShapeWithGrid, n: nat)
    requires ValidCells(s, n) && n < RowWidth
    ensures From(s.points) == s.gridBounds
    ensures Growable(s.points)
  {
    FromUnique(s.points, s.gridBounds);
    SubOrigin(s.gridBounds.p1);
  }

  lemma AppendDistinct(pts: seq<Vec2>, q: Vec2)
    requires Distinct(pts) && q !in pts
    ensures Distinct(pts + [q])
  {
    var c := pts + [q];
    forall a, b | 0 <= a < b < |c| ensures c[a] != c[b] {
      assert c[a] == pts[a] && pts[a] in pts;
      if b < |pts| {
        assert c[b] == pts[b];
      }
    }
  }

  lemma AppendGrown(pts: seq<Vec2>, i: nat, q: Vec2)
    requires Grown(pts) && i < |pts| && Adjacent(pts[i], q)
    ensures Grown(pts + [q])
  {
    var c := pts + [q];
    forall k: nat | 0 < k < |c| ensures NeighbourBefore(c, k) {
      if k < |pts| {
        assert NeighbourBefore(pts, k);
        var j :| 0 <= j < k && Adjacent(pts[j], pts[k]);
        assert c[j] == pts[j] && c[k] == pts[k];
      } else {
        assert c[i] == pts[i] && c[k] == q;
      }
    }
  }

  /** Connectivity carries over between point lists with the same adjacency,
      index by index. */
  lemma GrownTransfer(a: seq<Vec2>, b: seq<Vec2>)
    requires |a| == |b| && Grown(a)
    requires forall x, y | 0 <= x < |a| && 0 <= y < |a| :: Adjacent(b[x], b[y]) <==> Adjacent(a[x], a[y])
    ensures Grown(b)
  {
    forall k: nat | 0 < k < |b| ensures NeighbourBefore(b, k) {
      assert NeighbourBefore(a, k);
      var j :| 0 <= j < k && Adjacent(a[j], a[k]);
      assert Adjacent(b[j], b[k]);
    }
  }

  /** The new shape's box has the extents of the points' box, or those extents
      swapped. */
  lemma NewExtent(pts: seq<Vec2>)
    requires Placeable(pts)
    ensures var e := Sub(From(pts).p1, From(pts).p0);
      New(pts).gridBounds.p1 == e || New(pts).gridBounds.p1 == Vec2(e.y, e.x)
  {
    NormalisedAligned(pts);
  }

  /** A child of a shape of generation `n` fits a box at most `n` cells wide
      and high. */
  lemma ChildExtent(s: ShapeWithGrid, n: nat, i: nat, m: nat)
    requires ValidCells(s, n) && n < RowWidth && i < n && m < 4
    ensures Placeable(ChildPoints(s.points, i, m))
    ensures New(ChildPoints(s.points, i, m)).gridBounds.p1.x <= n
    ensures New(ChildPoints(s.points, i, m)).gridBounds.p1.y <= n
  {
    ValidGrowable(s, n);
    GrowPlaceable(s.points, i, m);
    AppendExtent(s.points, s.points[i], m);
    NewExtent(ChildPoints(s.points, i, m));
  }

  /** Adding a free neighbour cell to a shape of generation `n` builds a shape of
      generation `n + 1`. */
  lemma ChildValid(s: ShapeWithGrid, n: nat, i: nat, m: nat)
    requires ValidCells(s, n) && n < RowWidth && i < n && m < 4 && FreeAt(s.points, i, m)
    ensures ValidShape(Build(ChildPoints(s.points, i, m)), n + 1)
  {
    var c := ChildPoints(s.points, i, m);
    ChildExtent(s, n, i, m);
    var r := New(c);
    assert Build(c) == r;
    assert WellFormed(r) by {
      NewWellFormed(c);
    }
    assert Distinct(r.points) && Grown(r.points) by {
      assert c == s.points + [c[n]];
      AppendDistinct(s.points, c[n]);
      MoveAdjacent(s.points[i], m);
      AppendGrown(s.points, i, c[n]);
      NewKeepsPoints(c);
      GrownTransfer(c, r.points);
    }
    assert Canonical(r) by {
      NewIdempotent(c);
    }
  }

  /** A single cell's box is that cell, so it fits a grid row. */
  lemma SinglePlaceable(p: Vec2)
    ensures From([p]) == Box(p, p)
    ensures Placeable([p])
  {
    assert [p][0] == p;
    assert Tight([p], Box(p, p));
    FromUnique([p], Box(p, p));
  }

  /** A well-formed shape of one cell in a one-by-one box is of generation 1. */
  lemma OneCellValid(r: ShapeWithGrid)
    requires WellFormed(r) && |r.points| == 1 && r.gridBounds.p1 == Vec2(0, 0)
    ensures ValidCells(r, 1)
  {
    assert Distinct(r.points);
    assert Grown(r.points);
  }

  /** A single cell anywhere builds a well-formed shape in a one-by-one box. */
  lemma SingleWellFormed(p: Vec2)
    ensures Placeable([p])
    ensures WellFormed(Build([p])) && |Build([p]).points| == 1
    ensures Build([p]).gridBounds.p1 == Vec2(0, 0)
  {
    SinglePlaceable(p);
    NewWellFormed([p]);
    NewExtent([p]);
    assert Sub(p, p) == Vec2(0, 0);
  }

  /** A single cell anywhere builds a well-formed one-cell shape. */
  lemma SingleCells(p: Vec2)
    ensures Placeable([p])
    ensures ValidCells(Build([p]), 1)
  {
    SingleWellFormed(p);
    OneCellValid(Build([p]));
  }

  /** A single cell anywhere builds a shape that `New` leaves as it is. */
  lemma SingleCanonical(p: Vec2)
    ensures Placeable([p])
    ensures Canonical(Build([p]))
  {
    SinglePlaceable(p);
    NewIdempotent([p]);
  }

  /** A single cell anywhere builds a shape of generation 1. */
  lemma SingleValid(p: Vec2)
    ensures Placeable([p])
    ensures ValidShape(Build([p]), 1)
  {
    SingleCells(p);
    SingleCanonical(p);
  }

  /** The one-cell shape: the cell at the origin, its one-by-one box and the
      grid whose single row has bit 0 set. */
  const MonominoShape: ShapeWithGrid := ShapeWithGrid([Origin], Box(Origin, Origin), [1])

  /** The grid of the origin alone is one row with bit 0 set. */
  lemma OriginGrid()
    ensures Fits([Origin], 1) && GridOf([Origin], 1) == [1]
  {
    assert [Origin][..0] == [];
    assert Zeros(1) == [0];
    assert SetBit(0, 0) == 1;
  }

  /** A well-formed shape of one cell in a one-by-one box is the one-cell
      shape. */
  lemma OneCellIsMonomino(r: ShapeWithGrid)
    requires WellFormed(r) && |r.points| == 1 && r.gridBounds.p1 == Vec2(0, 0)
    ensures r == MonominoShape
  {
    assert r.points[0] in r.points;
    assert r.points == [Origin];
    OriginGrid();
  }

  /** A single cell anywhere builds the one-cell shape. */
  lemma SingleShape(p: Vec2)
    ensures Placeable([p])
    ensures Build([p]) == MonominoShape
  {
    SingleWellFormed(p);
    OneCellIsMonomino(Build([p]));
  }

  /** Two well-formed one-cell shapes in one-by-one boxes are the same shape. */
  lemma OneCellSame(a: ShapeWithGrid, b: ShapeWithGrid)
    requires WellFormed(a) && |a.points| == 1 && a.gridBounds.p1 == Vec2(0, 0)
    requires WellFormed(b) && |b.points| == 1 && b.gridBounds.p1 == Vec2(0, 0)
    ensures a == b
  {
    OneCellIsMonomino(a);
    OneCellIsMonomino(b);
  }

  /** A well-formed one-cell shape in a one-by-one box is left as it is by `New`. */
  lemma OneCellCanonical(r: ShapeWithGrid)
    requires WellFormed(r) && |r.points| == 1 && r.gridBounds.p1 == Vec2(0, 0)
    ensures Canonical(r)
  {
    var p := r.points[0];
    assert r.points == [p];
    SingleWellFormed(p);
    OneCellSame(r, Build([p]));
  }

  /** The set holding a well-formed one-cell shape in a one-by-one box is a
      valid set of generation 1. */
  lemma OneCellSet(r: ShapeWithGrid)
    requires WellFormed(r) && |r.points| == 1 && r.gridBounds.p1 == Vec2(0, 0)
    ensures ValidSet(map[r.grid := r], 1)
  {
    OneCellValid(r);
    OneCellCanonical(r);
    assert ValidOf(1)(r);
    SingletonHolds(r, ValidOf(1));
  }

  /** `S::new(vec![(0, 0)])`: the shape of generation 1. */
  method SingleCell() returns (s: ShapeWithGrid)
    ensures s == MonominoShape
    ensures WellFormed(s) && |s.points| == 1 && s.gridBounds.p1 == Vec2(0, 0)
  {
    s := Build([Origin]);
    SingleWellFormed(Origin);
    SingleShape(Origin);
  }

  // ---------------------------------------------------------------------------
  // Properties every inserted shape has

  /** Every stored shape has property `ok`. */
  predicate AllHold(ss: ShapeSet, ok: ShapeWithGrid -> bool) {
    forall g {:trigger ok(ss[g])} | g in ss :: ok(ss[g])
  }

  /** Every free target of `pts` makes a shape with property `ok`. */
  predicate MakesOk(make: seq<Vec2> -> ShapeWithGrid, pts: seq<Vec2>, ok: ShapeWithGrid -> bool) {
    forall i: nat, m: nat | i < |pts| && m < 4 && FreeAt(pts, i, m) :: ok(make(ChildPoints(pts, i, m)))
  }

  /** One step keeps a property every stored and every made shape has. */
  lemma TryHolds(t: Tally, make: seq<Vec2> -> ShapeWithGrid, pts: seq<Vec2>, i: nat, m: nat, ok: ShapeWithGrid -> bool)
    requires i < |pts| && m < 4
    requires AllHold(t.shapes, ok) && MakesOk(make, pts, ok)
    ensures AllHold(Try(t, make, pts, i, m).shapes, ok)
  {
  }

  lemma {:induction false} TryMovesHolds(t: Tally, make: seq<Vec2> -> ShapeWithGrid, pts: seq<Vec2>, i: nat, j: nat, ok: ShapeWithGrid -> bool)
    requires i < |pts| && j <= 4
    requires AllHold(t.shapes, ok) && MakesOk(make, pts, ok)
    ensures AllHold(TryMoves(t, make, pts, i, j).shapes, ok)
  {
    if j > 0 {
      TryMovesHolds(t, make, pts, i, j - 1, ok);
      TryHolds(TryMoves(t, make, pts, i, j - 1), make, pts, i, j - 1, ok);
    }
  }

  lemma {:induction false} TryPointsHolds(t: Tally, make: seq<Vec2> -> ShapeWithGrid, pts: seq<Vec2>, k: nat, ok: ShapeWithGrid -> bool)
    requires k <= |pts|
    requires AllHold(t.shapes, ok) && MakesOk(make, pts, ok)
    ensures AllHold(TryPoints(t, make, pts, k).shapes, ok)
  {
    if k > 0 {
      TryPointsHolds(t, make, pts, k - 1, ok);
      TryMovesHolds(TryPoints(t, make, pts, k - 1), make, pts, k - 1, 4, ok);
    }
  }

  /** Validity for generation `n` as a property of shapes. */
  function ValidOf(n: nat): ShapeWithGrid -> bool {
    s => ValidShape(s, n)
  }

  /** `Build` grows every shape of generation `n` into shapes of generation
      `n + 1`. */
  lemma BuildMakesValid(s: ShapeWithGrid, n: nat)
    requires ValidCells(s, n) && n < RowWidth
    ensures MakesOk(Build, s.points, ValidOf(n + 1))
  {
    forall i: nat, m: nat | i < |s.points| && m < 4 && FreeAt(s.points, i, m)
      ensures ValidOf(n + 1)(Build(ChildPoints(s.points, i, m)))
    {
      ChildValid(s, n, i, m);
    }
  }

  // ---------------------------------------------------------------------------
  // The fold over the parents

  /** The fold closure applied to each parent of `ps` in turn, from `t`. */
  function Fold(t: Tally, make: seq<Vec2> -> ShapeWithGrid, ps: seq<ShapeWithGrid>): Tally
    decreases |ps|
  {
    if ps == [] then t
    else
      var last := ps[|ps| - 1];
      TryPoints(Fold(t, make, ps[..|ps| - 1]), make, last.points, |last.points|)
  }

  /** The shapes listed in `ps`. */
  function Elems(ps: seq<ShapeWithGrid>): set<ShapeWithGrid> {
    set s | s in ps
  }

  /** The grids of the shapes one parent grows into. */
  function Offspring(make: seq<Vec2> -> ShapeWithGrid, s: ShapeWithGrid): set<Grid> {
    PointGrids(s.points, make, |s.points|)
  }

  /** The grids of the shapes any of `parents` grows into. */
  function Children(make: seq<Vec2> -> ShapeWithGrid, parents: set<ShapeWithGrid>): set<Grid> {
    set s, g | s in parents && g in Offspring(make, s) :: g
  }

  /** One more parent adds its own offspring. */
  lemma ChildrenAdd(make: seq<Vec2> -> ShapeWithGrid, parents: set<ShapeWithGrid>, s: ShapeWithGrid)
    ensures Children(make, parents + {s}) == Children(make, parents) + Offspring(make, s)
  {
    var after := Children(make, parents + {s});
    forall g | g in after ensures g in Children(make, parents) + Offspring(make, s) {
      var s': ShapeWithGrid :| s' in parents + {s} && g in Offspring(make, s');
      if s' in parents {
        assert g in Children(make, parents);
      }
    }
    forall g | g in Offspring(make, s) ensures g in after {
      assert s in parents + {s};
    }
  }

  /** The shapes of a fold's parents are those of all but the last, and the last. */
  lemma ElemsLast(ps: seq<ShapeWithGrid>)
    requires ps != []
    ensures Elems(ps) == Elems(ps[..|ps| - 1]) + {ps[|ps| - 1]}
  {
    assert ps == ps[..|ps| - 1] + [ps[|ps| - 1]];
  }

  /** The fold adds exactly the grids its parents grow into. */
  lemma {:induction false} FoldKeys(t: Tally, make: seq<Vec2> -> ShapeWithGrid, ps: seq<ShapeWithGrid>)
    ensures Fold(t, make, ps).shapes.Keys == t.shapes.Keys + Children(make, Elems(ps))
    decreases |ps|
  {
    if ps == [] {
      assert Children(make, Elems(ps)) == {};
    } else {
      var init, last := ps[..|ps| - 1], ps[|ps| - 1];
      var u := Fold(t, make, init);
      FoldKeys(t, make, init);
      TryPointsKeys(u, make, last.points, |last.points|);
      ElemsLast(ps);
      ChildrenAdd(make, Elems(init), last);
      UnionAssociative(t.shapes.Keys, Children(make, Elems(init)), Offspring(make, last));
    }
  }

  /** The fold never replaces a stored shape and keeps every shape under its
      own grid. */
  lemma {:induction false} FoldKeeps(t: Tally, make: seq<Vec2> -> ShapeWithGrid, ps: seq<ShapeWithGrid>)
    ensures Extends(t.shapes, Fold(t, make, ps).shapes)
    ensures Keyed(t.shapes) ==> Keyed(Fold(t, make, ps).shapes)
    decreases |ps|
  {
    if ps != [] {
      var init, last := ps[..|ps| - 1], ps[|ps| - 1];
      var u := Fold(t, make, init);
      FoldKeeps(t, make, init);
      TryPointsKeeps(u, make, last.points, |last.points|);
      ExtendsTransitive(t.shapes, u.shapes, Fold(t, make, ps).shapes);
    }
  }

  /** A property every made shape has holds of every shape the fold stores. */
  lemma {:induction false} FoldHolds(t: Tally, make: seq<Vec2> -> ShapeWithGrid, ps: seq<ShapeWithGrid>, ok: ShapeWithGrid -> bool)
    requires AllHold(t.shapes, ok)
    requires forall k | 0 <= k < |ps| :: MakesOk(make, ps[k].points, ok)
    ensures AllHold(Fold(t, make, ps).shapes, ok)
    decreases |ps|
  {
    if ps != [] {
      var init, last := ps[..|ps| - 1], ps[|ps| - 1];
      assert forall k | 0 <= k < |init| :: init[k] == ps[k];
      FoldHolds(t, make, init, ok);
      TryPointsHolds(Fold(t, make, init), make, last.points, |last.points|, ok);
    }
  }

  /** The number of free targets over all of `ps`'s parents. */
  function FreeTotal(ps: seq<ShapeWithGrid>): nat
    decreases |ps|
  {
    if ps == [] then 0
    else FreeTotal(ps[..|ps| - 1]) + FreeCount(ps[|ps| - 1].points, |ps[|ps| - 1].points|)
  }

  /** The number of points over all of `ps`'s parents. */
  function PointTotal(ps: seq<ShapeWithGrid>): nat
    decreases |ps|
  {
    if ps == [] then 0 else PointTotal(ps[..|ps| - 1]) + |ps[|ps| - 1].points|
  }

  /** The fold tries four targets per point of every parent, counts exactly
      the free ones as candidates, and adds at most one shape per candidate. */
  lemma {:induction false} FoldCounts(t: Tally, make: seq<Vec2> -> ShapeWithGrid, ps: seq<ShapeWithGrid>)
    ensures Fold(t, make, ps).pointsTried == t.pointsTried + 4 * PointTotal(ps)
    ensures Fold(t, make, ps).polysTried == t.polysTried + FreeTotal(ps)
    ensures FreeTotal(ps) <= 4 * PointTotal(ps)
    ensures |Fold(t, make, ps).shapes| <= |t.shapes| + FreeTotal(ps)
    decreases |ps|
  {
    if ps != [] {
      var init, last := ps[..|ps| - 1], ps[|ps| - 1];
      FoldCounts(t, make, init);
      TryPointsCounts(Fold(t, make, init), make, last.points, |last.points|);
    }
  }

  /** When every parent has `c` points, the fold holds `c` points per parent. */
  lemma {:induction false} PointTotalUniform(ps: seq<ShapeWithGrid>, c: nat)
    requires forall k | 0 <= k < |ps| :: |ps[k].points| == c
    ensures PointTotal(ps) == c * |ps|
    decreases |ps|
  {
    if ps != [] {
      var init := ps[..|ps| - 1];
      assert forall k | 0 <= k < |init| :: init[k] == ps[k];
      PointTotalUniform(init, c);
      assert c * |ps| == c * |init| + c;
    }
  }

  // ---------------------------------------------------------------------------
  // Splitting the fold: the parallel schedule does not matter

  /** Adding an entry under a key the preferred map lacks commutes with the
      union. */
  lemma UpdateUnder<K, V>(a: map<K, V>, b: map<K, V>, k: K, v: V)
    requires k !in a
    ensures (b + a)[k := v] == b[k := v] + a
  {
  }

  /** Adding an entry under a key the preferred map holds is hidden by it. */
  lemma UpdateHidden<K, V>(a: map<K, V>, b: map<K, V>, k: K, v: V)
    requires k in a
    ensures b[k := v] + a == b + a
  {
  }

  /** Inserting below a set that takes precedence is inserting into the
      union. */
  lemma InsertUnder(a: ShapeSet, b: ShapeSet, s: ShapeWithGrid)
    ensures Insert(b + a, s) == Insert(b, s) + a
  {
    if s.grid in a {
      UpdateHidden(a, b, s.grid, s);
    } else if s.grid !in b {
      UpdateUnder(a, b, s.grid, s);
    }
  }

  /** Merging a tally in front commutes with one step. */
  lemma TryMerge(a: Tally, b: Tally, make: seq<Vec2> -> ShapeWithGrid, pts: seq<Vec2>, i: nat, m: nat)
    requires i < |pts| && m < 4
    ensures Try(Merge(a, b), make, pts, i, m) == Merge(a, Try(b, make, pts, i, m))
  {
    var lhs, rhs := Try(Merge(a, b), make, pts, i, m), Merge(a, Try(b, make, pts, i, m));
    assert lhs.shapes == rhs.shapes by {
      if FreeAt(pts, i, m) {
        InsertUnder(a.shapes, b.shapes, make(ChildPoints(pts, i, m)));
      }
    }
  }

  lemma {:induction false} TryMovesMerge(a: Tally, b: Tally, make: seq<Vec2> -> ShapeWithGrid, pts: seq<Vec2>, i: nat, j: nat)
    requires i < |pts| && j <= 4
    ensures TryMoves(Merge(a, b), make, pts, i, j) == Merge(a, TryMoves(b, make, pts, i, j))
  {
    if j > 0 {
      TryMovesMerge(a, b, make, pts, i, j - 1);
      TryMerge(a, TryMoves(b, make, pts, i, j - 1), make, pts, i, j - 1);
    }
  }

  lemma {:induction false} TryPointsMerge(a: Tally, b: Tally, make: seq<Vec2> -> ShapeWithGrid, pts: seq<Vec2>, k: nat)
    requires k <= |pts|
    ensures TryPoints(Merge(a, b), make, pts, k) == Merge(a, TryPoints(b, make, pts, k))
  {
    if k > 0 {
      TryPointsMerge(a, b, make, pts, k - 1);
      TryMovesMerge(a, TryPoints(b, make, pts, k - 1), make, pts, k - 1, 4);
    }
  }

  /** Folding from a merged tally is merging in front of the fold. */
  lemma {:induction false} FoldMerge(a: Tally, b: Tally, make: seq<Vec2> -> ShapeWithGrid, ps: seq<ShapeWithGrid>)
    ensures Fold(Merge(a, b), make, ps) == Merge(a, Fold(b, make, ps))
    decreases |ps|
  {
    if ps != [] {
      var init, last := ps[..|ps| - 1], ps[|ps| - 1];
      FoldMerge(a, b, make, init);
      TryPointsMerge(a, Fold(b, make, init), make, last.points, |last.points|);
    }
  }

  /** Folding two runs of parents one after the other. */
  lemma {:induction false} FoldAppend(t: Tally, make: seq<Vec2> -> ShapeWithGrid, xs: seq<ShapeWithGrid>, ys: seq<ShapeWithGrid>)
    ensures Fold(t, make, xs + ys) == Fold(Fold(t, make, xs), make, ys)
    decreases |ys|
  {
    if ys == [] {
      assert xs + ys == xs;
    } else {
      var init := ys[..|ys| - 1];
      assert (xs + ys)[..|xs + ys| - 1] == xs + init;
      assert (xs + ys)[|xs + ys| - 1] == ys[|ys| - 1];
      FoldAppend(t, make, xs, init);
    }
  }

  /** Folding the two halves of the parents separately from `Empty` and
      reducing the two tallies gives the sequential fold: the result does not
      depend on how the parallel iterator splits the work. */
  lemma FoldSplit(make: seq<Vec2> -> ShapeWithGrid, xs: seq<ShapeWithGrid>, ys: seq<ShapeWithGrid>)
    ensures Fold(Empty, make, xs + ys) == Merge(Fold(Empty, make, xs), Fold(Empty, make, ys))
  {
    var a := Fold(Empty, make, xs);
    FoldAppend(Empty, make, xs, ys);
    MergeIdentity(a);
    FoldMerge(a, Empty, make, ys);
  }

  // ---------------------------------------------------------------------------
  // One generation

  /** The shapes listed under `keys` in `prev`, once every key of `prev` is
      listed, are the shapes `prev` holds. */
  lemma ElemsOfAll(prev: ShapeSet, keys: seq<Grid>, order: seq<ShapeWithGrid>)
    requires |keys| == |order|
    requires forall k | 0 <= k < |order| :: keys[k] in prev && order[k] == prev[keys[k]]
    requires forall g | g in prev :: g in keys
    ensures Elems(order) == prev.Values
  {
    forall v | v in prev.Values ensures v in Elems(order) {
      var g :| g in prev && prev[g] == v;
      var k :| 0 <= k < |keys| && keys[k] == g;
      assert order[k] == v;
    }
  }

  /** Every shape of a valid set has the cells of its generation. */
  lemma ValidMembers(prev: ShapeSet, n: nat, keys: seq<Grid>, order: seq<ShapeWithGrid>)
    requires ValidSet(prev, n)
    requires |keys| == |order|
    requires forall k | 0 <= k < |order| :: keys[k] in prev && order[k] == prev[keys[k]]
    ensures forall k | 0 <= k < |order| :: ValidCells(order[k], n) && |order[k].points| == n
  {
    forall k | 0 <= k < |order| ensures ValidCells(order[k], n) {
      assert ValidOf(n)(prev[keys[k]]);
    }
  }

  /** The fold over shapes of generation `n - 1` holds a valid set of
      generation `n`. */
  lemma GenerationValid(order: seq<ShapeWithGrid>, n: nat)
    requires 1 < n <= RowWidth
    requires forall k | 0 <= k < |order| :: ValidCells(order[k], n - 1)
    ensures ValidSet(Fold(Empty, Build, order).shapes, n)
  {
    forall k | 0 <= k < |order| ensures MakesOk(Build, order[k].points, ValidOf(n)) {
      BuildMakesValid(order[k], n - 1);
    }
    FoldHolds(Empty, Build, order, ValidOf(n));
    FoldKeeps(Empty, Build, order);
  }

  /** The fold over shapes of generation `n - 1` tries four targets per cell of
      every parent. */
  lemma GenerationCounts(make: seq<Vec2> -> ShapeWithGrid, order: seq<ShapeWithGrid>, c: nat)
    requires forall k | 0 <= k < |order| :: |order[k].points| == c
    ensures Fold(Empty, make, order).pointsTried == 4 * (c * |order|)
  {
    FoldCounts(Empty, make, order);
    PointTotalUniform(order, c);
  }

  /** The fold over an enumeration of all of `prev`'s entries holds exactly the
      grids `prev`'s shapes grow into. */
  lemma GenerationKeys(prev: ShapeSet, keys: seq<Grid>, order: seq<ShapeWithGrid>)
    requires |keys| == |order|
    requires forall k | 0 <= k < |order| :: keys[k] in prev && order[k] == prev[keys[k]]
    requires forall g | g in prev :: g in keys
    ensures Fold(Empty, Build, order).shapes.Keys == Children(Build, prev.Values)
  {
    ElemsOfAll(prev, keys, order);
    FoldKeys(Empty, Build, order);
  }

  /** A set of one shape with property `ok` holds only shapes with `ok`. */
  lemma SingletonHolds(s: ShapeWithGrid, ok: ShapeWithGrid -> bool)
    requires ok(s)
    ensures Keyed(map[s.grid := s]) && AllHold(map[s.grid := s], ok)
  {
  }

  /** The fold over an enumeration of a valid set of generation `n - 1` holds
      a valid set of generation `n` and tries four targets per cell. */
  lemma GenerationOfValid(prev: ShapeSet, keys: seq<Grid>, order: seq<ShapeWithGrid>, n: nat)
    requires 1 < n <= RowWidth && ValidSet(prev, n - 1)
    requires |keys| == |order| == |prev|
    requires forall k | 0 <= k < |order| :: keys[k] in prev && order[k] == prev[keys[k]]
    ensures ValidSet(Fold(Empty, Build, order).shapes, n)
    ensures Fold(Empty, Build, order).pointsTried == 4 * ((n - 1) * |prev|)
  {
    ValidMembers(prev, n - 1, keys, order);
    GenerationValid(order, n);
    GenerationCounts(Build, order, n - 1);
  }

  /** `generate_shapes_with_size`: generation 1 is the single cell; generation
      `n` collects, over every parent of generation `n - 1`, the shape built
      from the parent's points plus each free neighbouring cell. The counters
      are the number of targets tried and of candidate shapes built. */
  method GenerateShapesWithSize(n: nat, known: map<nat, ShapeSet>)
    returns (polys: ShapeSet, pointsTried: nat, polysTried: nat, ghost keys: seq<Grid>, ghost order: seq<ShapeWithGrid>)
    requires 1 <= n <= RowWidth
    requires n > 1 ==> n - 1 in known
    ensures n == 1 ==> polys == map[MonominoShape.grid := MonominoShape] && pointsTried == 1 && polysTried == 1
    ensures n > 1 ==> |keys| == |order| == |known[n - 1]|
    ensures n > 1 ==> forall k | 0 <= k < |order| :: keys[k] in known[n - 1] && order[k] == known[n - 1][keys[k]]
    ensures n > 1 ==> forall a, b | 0 <= a < b < |keys| :: keys[a] != keys[b]
    ensures n > 1 ==> forall g | g in known[n - 1] :: g in keys
    ensures n > 1 ==> polys.Keys == Children(Build, known[n - 1].Values)
    ensures n > 1 ==> pointsTried == 4 * PointTotal(order) && polysTried == FreeTotal(order)
    ensures Keyed(polys)
    ensures polysTried <= pointsTried && |polys| <= polysTried
    ensures n == 1 || ValidSet(known[n - 1], n - 1) ==> ValidSet(polys, n)
    ensures n > 1 && ValidSet(known[n - 1], n - 1) ==> pointsTried == 4 * ((n - 1) * |known[n - 1]|)
  {
    if n == 1 {
      var single := SingleCell();
      OneCellSet(single);
      return map[single.grid := single], 1, 1, [], [];
    }
    var prev := known[n - 1];
    var remaining := prev.Keys;
    keys, order := [], [];
    var acc := Empty;
    while remaining != {}
      invariant remaining <= prev.Keys
      invariant |keys| == |order| && |order| + |remaining| == |prev|
      invariant forall k | 0 <= k < |order| :: keys[k] in prev && order[k] == prev[keys[k]]
      invariant forall k | 0 <= k < |keys| :: keys[k] !in remaining
      invariant forall a, b | 0 <= a < b < |keys| :: keys[a] != keys[b]
      invariant forall g | g in prev && g !in remaining :: g in keys
      invariant acc == Fold(Empty, Build, order)
      decreases |remaining|
    {
      var g :| g in remaining;
      var parent := prev[g];
      acc := ExpandParent(parent, acc, Build);
      assert (order + [parent])[..|order|] == order;
      keys, order := keys + [g], order + [parent];
      remaining := remaining - {g};
    }
    polys, pointsTried, polysTried := acc.shapes, acc.pointsTried, acc.polysTried;
    assert polys.Keys == Children(Build, prev.Values) by {
      GenerationKeys(prev, keys, order);
    }
    assert Keyed(polys) && polysTried <= pointsTried && |polys| <= polysTried
      && pointsTried == 4 * PointTotal(order) && polysTried == FreeTotal(order) by {
      FoldKeeps(Empty, Build, order);
      FoldCounts(Empty, Build, order);
    }
    if ValidSet(prev, n - 1) {
      GenerationOfValid(prev, keys, order, n);
    }
  }

  // ---------------------------------------------------------------------------
  // The driver

  /** One round of the driver: generation `n` is computed from the generations
      known so far and stored under `n`, unless a set is stored there already
      (`entry(n).or_insert(polys)`). */
  method AddGeneration(n: nat, known: map<nat, ShapeSet>) returns (next: map<nat, ShapeSet>)
    requires 1 <= n <= RowWidth
    requires n > 1 ==> n - 1 in known
    ensures n in known ==> next == known
    ensures forall k :: k in next <==> k in known || k == n
    ensures forall k | k in known :: next[k] == known[k]
    ensures n !in known && n == 1 ==> next[n] == map[MonominoShape.grid := MonominoShape]
    ensures n !in known && n > 1 ==> next[n].Keys == Children(Build, known[n - 1].Values)
    ensures n !in known && (n == 1 || ValidSet(known[n - 1], n - 1)) ==> ValidSet(next[n], n)
  {
    var polys, pointsTried, polysTried;
    ghost var keys, order;
    polys, pointsTried, polysTried, keys, order := GenerateShapesWithSize(n, known);
    next := known;
    if n !in known {
      next := known[n := polys];
      forall k | k in known ensures next[k] == known[k] {
        assert k != n;
      }
    }
  }

  /** `generate_shapes_up_to_size`: generations `1..=max_n` in order, each grown
      from the one before and stored under its size. */
  method GenerateShapesUpToSize(maxN: nat) returns (known: map<nat, ShapeSet>)
    requires maxN <= RowWidth
    ensures forall n: nat :: n in known <==> 1 <= n <= maxN
    ensures forall n | n in known :: ValidSet(known[n], n)
    ensures 1 in known ==> known[1] == map[MonominoShape.grid := MonominoShape]
    ensures forall n | n in known && n > 1 :: n - 1 in known && known[n].Keys == Children(Build, known[n - 1].Values)
  {
    known := map[];
    for n := 1 to maxN + 1
      invariant forall k: nat :: k in known <==> 1 <= k < n
      invariant forall k | k in known :: ValidSet(known[k], k)
      invariant 1 in known ==> known[1] == map[MonominoShape.grid := MonominoShape]
      invariant forall k | k in known && k > 1 :: k - 1 in known && known[k].Keys == Children(Build, known[k - 1].Values)
    {
      ghost var prev := known;
      known := AddGeneration(n, known);
      forall k | k in known ensures ValidSet(known[k], k) {
        if k != n {
          assert known[k] == prev[k];
        }
      }
      forall k | k in known && k > 1 ensures k - 1 in known && known[k].Keys == Children(Build, known[k - 1].Values) {
        assert known[k - 1] == prev[k - 1];
        if k != n {
          assert known[k] == prev[k];
        }
      }
    }
  }
}
