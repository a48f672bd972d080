/** `ShapeWithGrid`: the shape the enumeration stores. Its points, the box of its
    grid and the packed grid itself; equality and hashing look at the grid only,
    so two shapes are the same entry of a set exactly when their grids agree.
    Construction (`new`) moves the points to the origin and canonicalises them
    over the four rotations; display prints the grid as rows of `O` and blanks. */
module ShapeWithGrid {
  import opened Vector
  import opened Rotation
  import opened Grid
  import opened BoundingBox
  import opened ShapeMinimal

  datatype ShapeWithGrid = ShapeWithGrid(points: seq<Vec2>, gridBounds: Box, grid: Grid)

  /** `PartialEq::eq`: only the grids are compared. */
  predicate Eq(a: ShapeWithGrid, b: ShapeWithGrid) {
    a.grid == b.grid
  }

  /** The derived `Eq` marker is justified: the relation is an equivalence. */
  lemma EqIsEquivalence(a: ShapeWithGrid, b: ShapeWithGrid, c: ShapeWithGrid)
    ensures Eq(a, a)
    ensures Eq(a, b) ==> Eq(b, a)
    ensures Eq(a, b) && Eq(b, c) ==> Eq(a, c)
  {
  }

  /** `Hash::hash`: the value fed to the hasher is the grid alone. */
  function HashInput(s: ShapeWithGrid): Grid {
    s.grid
  }

  /** Equal shapes hash alike, whatever the hash function on grids. */
  lemma HashAgreesWithEq(a: ShapeWithGrid, b: ShapeWithGrid, h: Grid -> int)
    ensures Eq(a, b) ==> h(HashInput(a)) == h(HashInput(b))
  {
  }

  /** What every constructed shape satisfies: a non-empty point list whose box
      is exactly `[0, p1]` with extents that fit a row, and a grid of `p1.y + 1`
      rows holding one bit per point. */
  predicate WellFormed(s: ShapeWithGrid) {
    && |s.points| > 0
    && s.gridBounds.p0 == Origin
    && 0 <= s.gridBounds.p1.x < RowWidth
    && 0 <= s.gridBounds.p1.y < RowWidth
    && Tight(s.points, s.gridBounds)
    && Fits(s.points, s.gridBounds.p1.y + 1)
    && s.grid == GridOf(s.points, s.gridBounds.p1.y + 1)
  }

  /** Same members, same tight box. */
  lemma TightSameCells(a: seq<Vec2>, b: seq<Vec2>, box: Box)
    requires Tight(a, box)
    requires forall p :: p in a <==> p in b
    ensures Tight(b, box)
  {
    var q0, q1, q2, q3 := Witnesses(a, box);
    var i0 :| 0 <= i0 < |b| && b[i0] == q0;
    var i1 :| 0 <= i1 < |b| && b[i1] == q1;
    var i2 :| 0 <= i2 < |b| && b[i2] == q2;
    var i3 :| 0 <= i3 < |b| && b[i3] == q3;
  }

  /** For well-formed shapes, equality of grids is equality of cell sets: the
      set semantics of the enumeration identifies exactly the shapes that
      occupy the same cells. */
  lemma EqIffSameCells(a: ShapeWithGrid, b: ShapeWithGrid)
    requires WellFormed(a) && WellFormed(b)
    ensures Eq(a, b) <==> forall p :: p in a.points <==> p in b.points
  {
    if Eq(a, b) {
      SameGridSameCells(a.points, b.points, a.gridBounds.p1.y + 1);
    }
    if forall p :: p in a.points <==> p in b.points {
      SameCellsEq(a, b);
    }
  }

  /** Well-formed shapes holding the same cells have the same box, hence the
      same grid. */
  lemma SameCellsEq(a: ShapeWithGrid, b: ShapeWithGrid)
    requires WellFormed(a) && WellFormed(b)
    requires forall p :: p in a.points <==> p in b.points
    ensures Eq(a, b)
  {
    assert a.gridBounds == b.gridBounds by {
      SameCellsSameBox(a.points, b.points, a.gridBounds, b.gridBounds);
    }
    SameCellsSameGrid(a.points, b.points, a.gridBounds.p1.y + 1);
  }

  /** Point lists holding the same cells have only one tight box. */
  lemma SameCellsSameBox(a: seq<Vec2>, b: seq<Vec2>, ba: Box, bb: Box)
    requires |b| > 0 && Tight(a, ba) && Tight(b, bb)
    requires forall p :: p in a <==> p in b
    ensures ba == bb
  {
    TightSameCells(a, b, ba);
    FromUnique(b, ba);
    FromUnique(b, bb);
  }

  // ---------------------------------------------------------------------------
  // Construction

  /** The extents of the points' box fit a grid row. */
  predicate Placeable(pts: seq<Vec2>) {
    |pts| > 0 && Le(Sub(From(pts).p1, From(pts).p0), Vec2(RowWidth - 1, RowWidth - 1))
  }

  /** The points moved so that their box starts at the origin, with the far
      corner of that box as bounds. */
  function Normalised(pts: seq<Vec2>): (m: ShapeMinimal)
    requires |pts| > 0
    ensures |m.points| == |pts|
  {
    var f := From(pts);
    ShapeMinimal(Translate(pts, Sub(Origin, From(pts).p0)), Sub(f.p1, f.p0))
  }

  /** Normalised points meet the canonicaliser's precondition, and their box is
      exactly `[0, bounds]`. */
  lemma NormalisedAligned(pts: seq<Vec2>)
    requires Placeable(pts)
    ensures Aligned(Normalised(pts))
    ensures Tight(Normalised(pts).points, Box(Origin, Normalised(pts).bounds))
  {
    var f := From(pts);
    var m := Normalised(pts);
    FromTranslate(pts, Sub(Origin, f.p0));
    assert From(m.points) == Box(Origin, m.bounds);
  }

  /** The canonical form of the normalised points is tight in its own box. */
  lemma CanonicalTight(pts: seq<Vec2>)
    requires Placeable(pts)
    ensures Aligned(Normalised(pts))
    ensures Tight(CanonicalForm(Normalised(pts)).points, Box(Origin, CanonicalForm(Normalised(pts)).bounds))
  {
    var m := Normalised(pts);
    NormalisedAligned(pts);
    CanonicalIsFirstLeast(m);
    CandidateTight(m, CanonicalChoice(m));
  }

  /** `ShapeWithGrid::new`: move the points to the origin, then keep the
      rotation whose grid is least, as the minimal shape's canonicaliser does.
      The result keeps the number of points; `NewWellFormed` states the rest. */
  function New(pts: seq<Vec2>): (s: ShapeWithGrid)
    requires Placeable(pts)
    ensures |s.points| == |pts|
  {
    var m := Normalised(pts);
    NormalisedAligned(pts);
    var c := CanonicalForm(m);
    ShapeWithGrid(c.points, Box(Origin, c.bounds), CanonicalGrid(m))
  }

  /** A new shape is well formed, and its grid is the canonical grid of the
      normalised points. */
  lemma NewWellFormed(pts: seq<Vec2>)
    requires Placeable(pts)
    ensures WellFormed(New(pts))
    ensures Aligned(Normalised(pts)) && New(pts).grid == CanonicalGrid(Normalised(pts))
  {
    var m := Normalised(pts);
    CanonicalTight(pts);
    var c := CanonicalForm(m);
    var g := CanonicalGrid(m);
    assert g == GridOf(c.points, c.bounds.y + 1);
    MinimalWellFormed(c, g);
  }

  /** An aligned minimal shape that is tight in its box, with its grid, makes a
      well-formed grid-carrying shape. */
  lemma MinimalWellFormed(c: ShapeMinimal, g: Grid)
    requires Aligned(c) && |c.points| > 0 && Tight(c.points, Box(Origin, c.bounds))
    requires Fits(c.points, c.bounds.y + 1) && g == GridOf(c.points, c.bounds.y + 1)
    ensures WellFormed(ShapeWithGrid(c.points, Box(Origin, c.bounds), g))
  {
  }

  /** Bit `x` of row `y` of a well-formed shape is set exactly when `(x, y)`
      is one of its points. */
  lemma WellFormedGridBits(s: ShapeWithGrid, x: nat, y: nat)
    requires WellFormed(s) && y < |s.grid|
    ensures BitSet(s.grid[y], x) <==> Vec2(x, y) in s.points
  {
    GridBits(s.points, s.gridBounds.p1.y + 1, x, y);
  }

  /** A translation followed by a placement keeps two cells apart and keeps
      their adjacency, both ways. */
  lemma MotionKeepsPair(p: Vec2, q: Vec2, v: Vec2, i: nat, b: Vec2)
    requires i < 4
    ensures Place(Add(p, v), i, b) == Place(Add(q, v), i, b) <==> p == q
    ensures Adjacent(Place(Add(p, v), i, b), Place(Add(q, v), i, b)) <==> Adjacent(p, q)
  {
    PlaceInjective(Add(p, v), Add(q, v), i, b);
    PlaceAdjacent(Add(p, v), Add(q, v), i, b);
  }

  /** Point `a` of a new shape is input point `a` moved to the origin's box
      and placed by the chosen rotation. */
  lemma NewPoints(pts: seq<Vec2>)
    requires Placeable(pts)
    ensures Aligned(Normalised(pts))
    ensures forall a | 0 <= a < |pts| ::
      New(pts).points[a] == Place(Add(pts[a], Sub(Origin, From(pts).p0)), CanonicalChoice(Normalised(pts)), Normalised(pts).bounds)
  {
    NormalisedAligned(pts);
  }

  /** Points moved by one translation and one placement keep distinctness
      and adjacency, position by position. */
  lemma MotionKeepsPoints(pts: seq<Vec2>, r: seq<Vec2>, v: Vec2, i: nat, b: Vec2)
    requires i < 4 && |r| == |pts|
    requires forall a | 0 <= a < |pts| :: r[a] == Place(Add(pts[a], v), i, b)
    ensures Distinct(pts) ==> Distinct(r)
    ensures forall a, c | 0 <= a < |pts| && 0 <= c < |pts| :: Adjacent(r[a], r[c]) <==> Adjacent(pts[a], pts[c])
  {
    forall a, c | 0 <= a < |pts| && 0 <= c < |pts|
      ensures r[a] == r[c] <==> pts[a] == pts[c]
      ensures Adjacent(r[a], r[c]) <==> Adjacent(pts[a], pts[c])
    {
      MotionKeepsPair(pts[a], pts[c], v, i, b);
    }
  }

  /** The new shape's points are the input points in the same order, each moved
      by one rigid motion: distinctness and adjacency are kept. */
  lemma NewKeepsPoints(pts: seq<Vec2>)
    requires Placeable(pts)
    ensures Distinct(pts) ==> Distinct(New(pts).points)
    ensures forall a, b | 0 <= a < |pts| && 0 <= b < |pts| ::
      Adjacent(New(pts).points[a], New(pts).points[b]) <==> Adjacent(pts[a], pts[b])
  {
    NewPoints(pts);
    MotionKeepsPoints(pts, New(pts).points, Sub(Origin, From(pts).p0), CanonicalChoice(Normalised(pts)), Normalised(pts).bounds);
  }

  /** Translation invariance: moving every point by the same vector builds the
      same shape. */
  lemma NewTranslationInvariant(pts: seq<Vec2>, v: Vec2)
    requires Placeable(pts)
    ensures Placeable(Translate(pts, v))
    ensures New(Translate(pts, v)) == New(pts)
  {
    var tp := Translate(pts, v);
    FromTranslate(pts, v);
    var a := Normalised(tp);
    var b := Normalised(pts);
    assert forall k | 0 <= k < |pts| :: a.points[k] == b.points[k];
    assert a == b;
  }

  /** Normalising rotated points is taking a candidate of the normalised points. */
  lemma NormalisedRotate(pts: seq<Vec2>, i: nat)
    requires |pts| > 0 && i < 4
    ensures |RotateAll(Rotations[i], pts)| > 0
    ensures Normalised(RotateAll(Rotations[i], pts)) == Candidate(Normalised(pts), i)
  {
    var f := From(pts);
    var rp := RotateAll(Rotations[i], pts);
    RotateFrom(i, pts);
    RotateAllTurns(i, pts);
    var a := Normalised(rp);
    var c := Candidate(Normalised(pts), i);
    assert Le(f.p0, f.p1) by {
      assert pts[0] in pts;
      assert InBox(pts[0], f.p0, f.p1);
    }
    forall k | 0 <= k < |pts| ensures a.points[k] == c.points[k] {
      TurnedPointNormalised(pts[k], i, f.p0, f.p1);
    }
    TurnedBoundsRealigned(i, f.p0, f.p1);
  }

  /** The grid of a new shape is the canonical grid of its normalised points. */
  lemma NewGrid(pts: seq<Vec2>)
    requires Placeable(pts)
    ensures Aligned(Normalised(pts)) && New(pts).grid == CanonicalGrid(Normalised(pts))
  {
    NormalisedAligned(pts);
  }

  /** Rotated points fit a grid row when the points do. */
  lemma RotatedPlaceable(pts: seq<Vec2>, i: nat)
    requires Placeable(pts) && i < 4
    ensures Placeable(RotateAll(Rotations[i], pts))
    ensures Normalised(RotateAll(Rotations[i], pts)) == Candidate(Normalised(pts), i)
  {
    var m := Normalised(pts);
    var rp := RotateAll(Rotations[i], pts);
    assert Aligned(m) by {
      NormalisedAligned(pts);
    }
    assert |rp| > 0 && Normalised(rp) == Candidate(m, i) by {
      NormalisedRotate(pts, i);
    }
    assert Aligned(Candidate(m, i)) by {
      CandidateAligned(m, i);
    }
  }

  /** Rotation invariance: the four rotations of a point list build equal
      shapes (the same grid). */
  lemma NewRotationInvariant(pts: seq<Vec2>, i: nat)
    requires Placeable(pts) && i < 4
    ensures Placeable(RotateAll(Rotations[i], pts))
    ensures Eq(New(RotateAll(Rotations[i], pts)), New(pts))
  {
    var m := Normalised(pts);
    var rp := RotateAll(Rotations[i], pts);
    RotatedPlaceable(pts, i);
    NewGrid(pts);
    NewGrid(rp);
    CanonicalGridRotationInvariant(m, i);
  }

  /** A minimal shape whose box is exactly `[0, bounds]` is its own
      normalisation. */
  lemma NormalisedAtOrigin(c: ShapeMinimal)
    requires |c.points| > 0 && Tight(c.points, Box(Origin, c.bounds))
    ensures From(c.points) == Box(Origin, c.bounds)
    ensures Normalised(c.points) == c
  {
    FromUnique(c.points, Box(Origin, c.bounds));
    TranslateByNothing(c.points, Origin);
    SubOrigin(c.bounds);
  }

  /** An aligned minimal shape whose box is exactly `[0, bounds]` fits a grid
      row. */
  lemma AlignedPlaceable(c: ShapeMinimal)
    requires Aligned(c) && |c.points| > 0 && Tight(c.points, Box(Origin, c.bounds))
    ensures Placeable(c.points)
  {
    FromUnique(c.points, Box(Origin, c.bounds));
    SubOrigin(c.bounds);
  }

  /** The points of a new shape, normalised again, are the canonical form they
      came from. */
  lemma NormalisedOfNew(pts: seq<Vec2>)
    requires Placeable(pts)
    ensures Aligned(Normalised(pts))
    ensures Placeable(New(pts).points)
    ensures Normalised(New(pts).points) == CanonicalForm(Normalised(pts))
  {
    var m := Normalised(pts);
    CanonicalTight(pts);
    var c := CanonicalForm(m);
    assert New(pts).points == c.points;
    AlignedPlaceable(c);
    NormalisedAtOrigin(c);
  }

  /** Idempotence: building a shape from the points of a built shape gives that
      shape back, points, order, box and grid included. */
  lemma NewIdempotent(pts: seq<Vec2>)
    requires Placeable(pts)
    ensures Placeable(New(pts).points)
    ensures New(New(pts).points) == New(pts)
  {
    var m := Normalised(pts);
    NormalisedOfNew(pts);
    CanonicalIdempotent(m);
  }

  // ---------------------------------------------------------------------------
  // Display

  /** The character for bit `i` of a row: `O` when set, a blank otherwise. */
  function Cell(row: Row, i: nat): char {
    if BitSet(row, i) then 'O' else ' '
  }

  /** The first `w` cells of a row, left to right. */
  function RowText(row: Row, w: nat): (t: string)
    ensures |t| == w
  {
    if w == 0 then [] else RowText(row, w - 1) + [Cell(row, w - 1)]
  }

  /** One printed row: its cells and a newline. */
  function Line(row: Row, w: nat): (t: string)
    ensures |t| == w + 1
  {
    RowText(row, w) + "\n"
  }

  /** The printed grid, rows in order. */
  function Text(g: Grid, w: nat): (t: string)
    ensures |t| == |g| * (w + 1)
  {
    if g == [] then [] else Text(g[..|g| - 1], w) + Line(g[|g| - 1], w)
  }

  /** `0..max().x + 1` as a count: empty when the bound is not positive. */
  function Width(s: ShapeWithGrid): nat {
    var hi := Max(s.gridBounds).x + 1;
    if hi <= 0 then 0 else hi
  }

  /** What `Display::fmt` writes. */
  function Display(s: ShapeWithGrid): (t: string)
    ensures |t| == |s.grid| * (Width(s) + 1)
  {
    Text(s.grid, Width(s))
  }

  /** Cell `i` of a printed row is `O` exactly when bit `i` of the row is set,
      and no row text contains a newline. */
  lemma {:induction false} RowTextChars(row: Row, w: nat, i: nat)
    requires i < w
    ensures RowText(row, w)[i] == (if BitSet(row, i) then 'O' else ' ')
  {
    if i < w - 1 {
      RowTextChars(row, w - 1, i);
    }
  }

  lemma MulMono(a: nat, b: nat, c: nat)
    requires a <= b
    ensures a * c <= b * c
  {
  }

  lemma MulSucc(a: nat, c: nat)
    ensures 0 <= a * c && (a + 1) * c == a * c + c
  {
  }

  /** Line `y` of the output is row `y` printed. */
  lemma {:induction false} TextLines(g: Grid, w: nat, y: nat)
    requires y < |g|
    ensures (y + 1) * (w + 1) <= |Text(g, w)|
    ensures Text(g, w)[y * (w + 1)..(y + 1) * (w + 1)] == Line(g[y], w)
  {
    var n := |g| - 1;
    var t, pre := Text(g, w), Text(g[..n], w);
    MulSucc(y, w + 1);
    var lo: int, hi: int := y * (w + 1), (y + 1) * (w + 1);
    assert t == pre + Line(g[n], w);
    if y < n {
      MulMono(y + 1, n, w + 1);
      TextLines(g[..n], w, y);
      assert g[..n][y] == g[y];
      SliceLeft(pre, Line(g[n], w), lo, hi);
    } else {
      SliceRight(pre, Line(g[n], w), lo, hi);
    }
  }

  lemma SliceLeft(a: string, b: string, lo: int, hi: int)
    requires 0 <= lo <= hi <= |a|
    ensures (a + b)[lo..hi] == a[lo..hi]
  {
  }

  lemma SliceRight(a: string, b: string, lo: int, hi: int)
    requires lo == |a| && hi == |a| + |b|
    ensures (a + b)[lo..hi] == b
  {
  }

  /** Character `i` of line `y`: the cell for bit `i` of row `y`, and a newline
      after the last cell. The output has one newline-terminated line per row,
      each `w + 1` characters long. */
  lemma TextChar(g: Grid, w: nat, y: nat, i: nat)
    requires y < |g| && i <= w
    ensures |Text(g, w)| == |g| * (w + 1)
    ensures y * (w + 1) + i < |Text(g, w)|
    ensures Text(g, w)[y * (w + 1) + i] == (if i == w then '\n' else if BitSet(g[y], i) then 'O' else ' ')
  {
    TextLines(g, w, y);
    MulSucc(y, w + 1);
    var t := Text(g, w);
    assert t[y * (w + 1) + i] == t[y * (w + 1)..(y + 1) * (w + 1)][i];
    if i < w {
      RowTextChars(g[y], w, i);
    }
  }

  /** `Display::fmt`: for each row, one character per column of the box and a
      newline. */
  method Fmt(s: ShapeWithGrid) returns (out: string)
    ensures out == Display(s)
  {
    var w := Width(s);
    out := [];
    for y := 0 to |s.grid|
      invariant out == Text(s.grid[..y], w)
    {
      var row := s.grid[y];
      for x := 0 to w
        invariant out == Text(s.grid[..y], w) + RowText(row, x)
      {
        var present := BitSet(row, x);
        out := out + [if present then 'O' else ' '];
      }
      out := out + "\n";
      assert s.grid[..y + 1][..y] == s.grid[..y];
    }
    assert s.grid[..|s.grid|] == s.grid;
  }
}
