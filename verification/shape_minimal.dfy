/** `ShapeMinimal` and its canonicaliser `canonical_clone_with_grid`: try the four
    table rotations in order, re-align each to the origin using the rotated
    bounds, pack it into a bit grid, keep the rotation with the lexicographically
    smallest grid (the first one on ties), and return the points mapped by it. */
module ShapeMinimal {
  import opened Vector
  import opened Rotation
  import opened Grid
  import opened BoundingBox

  /** Points in narrow coordinates plus the far corner of their box (the near
      corner is the origin). */
  datatype ShapeMinimal = ShapeMinimal(points: seq<Vec2>, bounds: Vec2)

  /** What the canonicaliser assumes of its input: every point lies between the
      origin and `bounds`, and the bounds fit in a grid row. */
  predicate Aligned(s: ShapeMinimal) {
    && 0 <= s.bounds.x < RowWidth
    && 0 <= s.bounds.y < RowWidth
    && forall p | p in s.points :: InBox(p, Origin, s.bounds)
  }

  /** `realign_offset`: `-min(c, 0)` for each coordinate `c` of the rotated bounds. */
  function RealignOffset(i: nat, b: Vec2): Vec2
    requires i < 4
  {
    var rb := Turn(i, b);
    Vec2(NegPart(rb.x), NegPart(rb.y))
  }

  /** `realigned_bounds`: the absolute value of the rotated bounds. */
  function RealignedBounds(i: nat, b: Vec2): Vec2
    requires i < 4
  {
    Abs(Turn(i, b))
  }

  /** `rotation * point + realign_offset`. */
  function Place(p: Vec2, i: nat, b: Vec2): Vec2
    requires i < 4
  {
    Add(Turn(i, p), RealignOffset(i, b))
  }

  /** Placement is the product with entry `i` of the narrow table plus the
      offset computed from the product of that entry with the bounds. */
  lemma PlaceIsMatrixProduct(p: Vec2, i: nat, b: Vec2)
    requires i < 4
    ensures var rb := Apply(Rotations8[i], b);
      && Place(p, i, b) == Add(Apply(Rotations8[i], p), Vec2(-MinInt(rb.x, 0), -MinInt(rb.y, 0)))
      && RealignedBounds(i, b) == Abs(rb)
  {
    TurnIsTableEntry(i, p);
    TurnIsTableEntry(i, b);
    NegPartIsMinusMin(Turn(i, b).x);
    NegPartIsMinusMin(Turn(i, b).y);
  }

  /** The shape rotated by table entry `i` and re-aligned, points in input order. */
  function Candidate(s: ShapeMinimal, i: nat): (r: ShapeMinimal)
    requires i < 4
    ensures |r.points| == |s.points|
    ensures forall k | 0 <= k < |s.points| :: r.points[k] == Place(s.points[k], i, s.bounds)
    ensures r.bounds == RealignedBounds(i, s.bounds)
  {
    ShapeMinimal(seq(|s.points|, k requires 0 <= k < |s.points| => Place(s.points[k], i, s.bounds)),
                 RealignedBounds(i, s.bounds))
  }

  /** Re-alignment puts a point of the box `[0, b]` into the box `[0, |R b|]`;
      the new bounds keep the extents for 0 and 180 degrees and swap them for 90
      and 270 degrees. */
  lemma PlaceInBounds(p: Vec2, i: nat, b: Vec2)
    requires i < 4 && Le(Origin, b) && InBox(p, Origin, b)
    ensures InBox(Place(p, i, b), Origin, RealignedBounds(i, b))
    ensures RealignedBounds(i, b) == (if i % 2 == 0 then b else Vec2(b.y, b.x))
  {
  }

  /** Every candidate satisfies the canonicaliser's own precondition again. */
  lemma CandidateAligned(s: ShapeMinimal, i: nat)
    requires i < 4 && Aligned(s)
    ensures Aligned(Candidate(s, i))
    ensures Fits(Candidate(s, i).points, Candidate(s, i).bounds.y + 1)
    ensures Candidate(s, i).bounds == (if i % 2 == 0 then s.bounds else Vec2(s.bounds.y, s.bounds.x))
  {
    var c := Candidate(s, i);
    PlaceInBounds(Origin, i, s.bounds);
    forall q | q in c.points ensures InBox(q, Origin, c.bounds) {
      var k :| 0 <= k < |c.points| && c.points[k] == q;
      PlaceInBounds(s.points[k], i, s.bounds);
    }
  }

  /** Placement written out per angle, for bounds with non-negative extents. */
  lemma PlaceExplicit(p: Vec2, i: nat, b: Vec2)
    requires i < 4 && Le(Origin, b)
    ensures Place(p, i, b) == (if i == 0 then p
                               else if i == 1 then Vec2(b.y - p.y, p.x)
                               else if i == 2 then Vec2(b.x - p.x, b.y - p.y)
                               else Vec2(p.y, b.x - p.x))
    ensures RealignedBounds(i, b) == (if i % 2 == 0 then b else Vec2(b.y, b.x))
  {
  }

  /** The normalised corners of a box: the extents are the absolute corner
      difference, and the least corner is the first corner moved by the
      negative part of that difference. */
  lemma NormalisedCorners(a: Vec2, c: Vec2)
    ensures Sub(Max(Box(a, c)), Min(Box(a, c))) == Abs(Sub(c, a))
    ensures Min(Box(a, c)) == Add(a, Vec2(MinInt(c.x - a.x, 0), MinInt(c.y - a.y, 0)))
  {
  }

  /** A point turned by entry `i` and moved by the least corner of the turned
      box lands where the canonicaliser places the normalised point. */
  lemma TurnedPointNormalised(p: Vec2, i: nat, lo: Vec2, hi: Vec2)
    requires i < 4
    ensures Add(Turn(i, p), Sub(Origin, TurnedBox(i, lo, hi).p0)) == Place(Add(p, Sub(Origin, lo)), i, Sub(hi, lo))
  {
    assert Add(p, Sub(Origin, lo)) == Sub(p, lo);
    TurnLinear(i, p, lo);
    TurnLinear(i, hi, lo);
    NormalisedCorners(Turn(i, lo), Turn(i, hi));
  }

  /** The extents of the turned box are the re-aligned bounds of the box's
      extents. */
  lemma TurnedBoundsRealigned(i: nat, lo: Vec2, hi: Vec2)
    requires i < 4
    ensures Sub(TurnedBox(i, lo, hi).p1, TurnedBox(i, lo, hi).p0) == RealignedBounds(i, Sub(hi, lo))
  {
    TurnLinear(i, hi, lo);
    NormalisedCorners(Turn(i, lo), Turn(i, hi));
  }

  /** Placing by entry `i` and then, within the new bounds, by entry `j` is
      placing by entry `(i + j) % 4`: the offsets depend only on the bounds. */
  lemma PlaceCompose(p: Vec2, i: nat, j: nat, b: Vec2)
    requires i < 4 && j < 4 && Le(Origin, b)
    ensures Place(Place(p, i, b), j, RealignedBounds(i, b)) == Place(p, (i + j) % 4, b)
    ensures RealignedBounds(j, RealignedBounds(i, b)) == RealignedBounds((i + j) % 4, b)
  {
    if i == 0 {
      if j == 0 {
        assert (i + j) % 4 == 0;
        PlaceExplicit(p, 0, b);
        PlaceExplicit(Place(p, 0, b), 0, RealignedBounds(0, b));
        PlaceExplicit(p, 0, b);
      } else if j == 1 {
        assert (i + j) % 4 == 1;
        PlaceExplicit(p, 0, b);
        PlaceExplicit(Place(p, 0, b), 1, RealignedBounds(0, b));
        PlaceExplicit(p, 1, b);
      } else if j == 2 {
        assert (i + j) % 4 == 2;
        PlaceExplicit(p, 0, b);
        PlaceExplicit(Place(p, 0, b), 2, RealignedBounds(0, b));
        PlaceExplicit(p, 2, b);
      } else if j == 3 {
        assert (i + j) % 4 == 3;
        PlaceExplicit(p, 0, b);
        PlaceExplicit(Place(p, 0, b), 3, RealignedBounds(0, b));
        PlaceExplicit(p, 3, b);
      }
    } else if i == 1 {
      if j == 0 {
        assert (i + j) % 4 == 1;
        PlaceExplicit(p, 1, b);
        PlaceExplicit(Place(p, 1, b), 0, RealignedBounds(1, b));
        PlaceExplicit(p, 1, b);
      } else if j == 1 {
        assert (i + j) % 4 == 2;
        PlaceExplicit(p, 1, b);
        PlaceExplicit(Place(p, 1, b), 1, RealignedBounds(1, b));
        PlaceExplicit(p, 2, b);
      } else if j == 2 {
        assert (i + j) % 4 == 3;
        PlaceExplicit(p, 1, b);
        PlaceExplicit(Place(p, 1, b), 2, RealignedBounds(1, b));
        PlaceExplicit(p, 3, b);
      } else if j == 3 {
        assert (i + j) % 4 == 0;
        PlaceExplicit(p, 1, b);
        PlaceExplicit(Place(p, 1, b), 3, RealignedBounds(1, b));
        PlaceExplicit(p, 0, b);
      }
    } else if i == 2 {
      if j == 0 {
        assert (i + j) % 4 == 2;
        PlaceExplicit(p, 2, b);
        PlaceExplicit(Place(p, 2, b), 0, RealignedBounds(2, b));
        PlaceExplicit(p, 2, b);
      } else if j == 1 {
        assert (i + j) % 4 == 3;
        PlaceExplicit(p, 2, b);
        PlaceExplicit(Place(p, 2, b), 1, RealignedBounds(2, b));
        PlaceExplicit(p, 3, b);
      } else if j == 2 {
        assert (i + j) % 4 == 0;
        PlaceExplicit(p, 2, b);
        PlaceExplicit(Place(p, 2, b), 2, RealignedBounds(2, b));
        PlaceExplicit(p, 0, b);
      } else if j == 3 {
        assert (i + j) % 4 == 1;
        PlaceExplicit(p, 2, b);
        PlaceExplicit(Place(p, 2, b), 3, RealignedBounds(2, b));
        PlaceExplicit(p, 1, b);
      }
    } else if i == 3 {
      if j == 0 {
        assert (i + j) % 4 == 3;
        PlaceExplicit(p, 3, b);
        PlaceExplicit(Place(p, 3, b), 0, RealignedBounds(3, b));
        PlaceExplicit(p, 3, b);
      } else if j == 1 {
        assert (i + j) % 4 == 0;
        PlaceExplicit(p, 3, b);
        PlaceExplicit(Place(p, 3, b), 1, RealignedBounds(3, b));
        PlaceExplicit(p, 0, b);
      } else if j == 2 {
        assert (i + j) % 4 == 1;
        PlaceExplicit(p, 3, b);
        PlaceExplicit(Place(p, 3, b), 2, RealignedBounds(3, b));
        PlaceExplicit(p, 1, b);
      } else if j == 3 {
        assert (i + j) % 4 == 2;
        PlaceExplicit(p, 3, b);
        PlaceExplicit(Place(p, 3, b), 3, RealignedBounds(3, b));
        PlaceExplicit(p, 2, b);
      }
    }
  }

  /** Two points of the same input stay apart after placement. */
  lemma PlaceInjective(p: Vec2, q: Vec2, i: nat, b: Vec2)
    requires i < 4
    ensures Place(p, i, b) == Place(q, i, b) <==> p == q
  {
  }

  /** Placement keeps edge adjacency between cells, both ways. */
  lemma PlaceAdjacent(p: Vec2, q: Vec2, i: nat, b: Vec2)
    requires i < 4
    ensures Adjacent(Place(p, i, b), Place(q, i, b)) <==> Adjacent(p, q)
  {
  }

  /** Re-aligning a re-aligned candidate: candidate `j` of candidate `i` is
      candidate `(i + j) % 4`, point by point and in the same order. */
  lemma CandidateCompose(s: ShapeMinimal, i: nat, j: nat)
    requires i < 4 && j < 4 && Le(Origin, s.bounds)
    ensures Candidate(Candidate(s, i), j) == Candidate(s, (i + j) % 4)
  {
    var a := Candidate(Candidate(s, i), j);
    var c := Candidate(s, (i + j) % 4);
    forall k | 0 <= k < |s.points| ensures a.points[k] == c.points[k] {
      PlaceCompose(s.points[k], i, j, s.bounds);
    }
    PlaceCompose(Origin, i, j, s.bounds);
  }

  /** When the input touches both axes and its far corner (its box is exactly
      `[0, bounds]`), every candidate does so within its own bounds. */
  lemma CandidateTight(s: ShapeMinimal, i: nat)
    requires i < 4 && Aligned(s) && Tight(s.points, Box(Origin, s.bounds))
    ensures Tight(Candidate(s, i).points, Box(Origin, Candidate(s, i).bounds))
  {
    var j0, j1, j2, j3 := EdgeIndices(s.points, s.bounds);
    if i == 0 {
      TightWitnesses(s, 0, j0, j1, j2, j3);
    } else if i == 1 {
      TightWitnesses(s, 1, j3, j0, j1, j2);
    } else if i == 2 {
      TightWitnesses(s, 2, j2, j3, j0, j1);
    } else {
      TightWitnesses(s, 3, j1, j2, j3, j0);
    }
  }

  /** Indices of points on the two axes and the two far edges of a tight box. */
  lemma EdgeIndices(pts: seq<Vec2>, b: Vec2) returns (j0: nat, j1: nat, j2: nat, j3: nat)
    requires Tight(pts, Box(Origin, b))
    ensures j0 < |pts| && j1 < |pts| && j2 < |pts| && j3 < |pts|
    ensures pts[j0].x == 0 && pts[j1].y == 0 && pts[j2].x == b.x && pts[j3].y == b.y
  {
    j0 :| 0 <= j0 < |pts| && pts[j0].x == 0;
    j1 :| 0 <= j1 < |pts| && pts[j1].y == 0;
    j2 :| 0 <= j2 < |pts| && pts[j2].x == b.x;
    j3 :| 0 <= j3 < |pts| && pts[j3].y == b.y;
  }

  /** An aligned shape with a point on each axis and on each far edge is tight. */
  lemma TightFromEdges(t: ShapeMinimal, a: nat, b: nat, c: nat, d: nat)
    requires Aligned(t)
    requires a < |t.points| && b < |t.points| && c < |t.points| && d < |t.points|
    requires t.points[a].x == 0 && t.points[b].y == 0
    requires t.points[c].x == t.bounds.x && t.points[d].y == t.bounds.y
    ensures Tight(t.points, Box(Origin, t.bounds))
  {
  }

  /** Placing four points of an aligned shape by entry `i` puts the first on
      the new y axis, the second on the new x axis and the last two on the far
      edges, when they start on the matching edges of the input. */
  lemma TightWitnesses(s: ShapeMinimal, i: nat, a: nat, b: nat, c: nat, d: nat)
    requires i < 4 && Aligned(s)
    requires a < |s.points| && b < |s.points| && c < |s.points| && d < |s.points|
    requires var e := s.bounds;
      var pa, pb, pc, pd := s.points[a], s.points[b], s.points[c], s.points[d];
      if i == 0 then pa.x == 0 && pb.y == 0 && pc.x == e.x && pd.y == e.y
      else if i == 1 then pa.y == e.y && pb.x == 0 && pc.y == 0 && pd.x == e.x
      else if i == 2 then pa.x == e.x && pb.y == e.y && pc.x == 0 && pd.y == 0
      else pa.y == 0 && pb.x == e.x && pc.y == e.y && pd.x == 0
    ensures Tight(Candidate(s, i).points, Box(Origin, Candidate(s, i).bounds))
  {
    var t := Candidate(s, i);
    assert t.points[a].x == 0 && t.points[b].y == 0 && t.points[c].x == t.bounds.x && t.points[d].y == t.bounds.y by {
      PlaceExplicit(s.points[a], i, s.bounds);
      PlaceExplicit(s.points[b], i, s.bounds);
      PlaceExplicit(s.points[c], i, s.bounds);
      PlaceExplicit(s.points[d], i, s.bounds);
    }
    CandidateAligned(s, i);
    TightFromEdges(t, a, b, c, d);
  }

  /** The identity entry leaves an aligned shape as it is. */
  lemma CandidateIdentity(s: ShapeMinimal)
    requires Le(Origin, s.bounds)
    ensures Candidate(s, 0) == s
  {
    var c := Candidate(s, 0);
    assert forall k | 0 <= k < |s.points| :: c.points[k] == s.points[k];
  }

  /** The grid of rotation `i`: `bounds.y + 1` rows, bit `x` of row `y` set for
      each re-aligned point `(x, y)`. */
  function CandidateGrid(s: ShapeMinimal, i: nat): (g: Grid)
    requires i < 4 && Aligned(s)
    ensures |g| == Candidate(s, i).bounds.y + 1
  {
    CandidateAligned(s, i);
    GridOf(Candidate(s, i).points, Candidate(s, i).bounds.y + 1)
  }

  /** The four rotation grids in table order. */
  function CandidateGrids(s: ShapeMinimal): (gs: seq<Grid>)
    requires Aligned(s)
    ensures |gs| == 4 && forall i | 0 <= i < 4 :: gs[i] == CandidateGrid(s, i)
  {
    [CandidateGrid(s, 0), CandidateGrid(s, 1), CandidateGrid(s, 2), CandidateGrid(s, 3)]
  }

  /** The table index `min_by_key` keeps. */
  function CanonicalChoice(s: ShapeMinimal): (k: nat)
    requires Aligned(s)
    ensures k < 4
  {
    FirstMinimum(CandidateGrids(s))
  }

  /** The winning grid (the fourth tuple component the source discards). */
  function CanonicalGrid(s: ShapeMinimal): (g: Grid)
    requires Aligned(s)
    ensures forall j | 0 <= j < 4 :: LexLe(g, CandidateGrid(s, j))
  {
    CandidateGrid(s, CanonicalChoice(s))
  }

  /** `canonical_clone_with_grid`: the points mapped by the winning rotation and
      offset, in input order, with the re-aligned bounds. */
  function CanonicalForm(s: ShapeMinimal): (r: ShapeMinimal)
    requires Aligned(s)
    ensures Aligned(r)
    ensures |r.points| == |s.points|
    ensures r.bounds == s.bounds || r.bounds == Vec2(s.bounds.y, s.bounds.x)
    ensures CanonicalGrid(s) == GridOf(r.points, r.bounds.y + 1)
  {
    CandidateAligned(s, CanonicalChoice(s));
    Candidate(s, CanonicalChoice(s))
  }

  /** The result is the candidate with the least grid, and every earlier
      candidate's grid is strictly greater: ties go to the first rotation in
      table order. */
  lemma CanonicalIsFirstLeast(s: ShapeMinimal)
    requires Aligned(s)
    ensures CanonicalForm(s) == Candidate(s, CanonicalChoice(s))
    ensures forall j | 0 <= j < 4 :: LexLe(CandidateGrid(s, CanonicalChoice(s)), CandidateGrid(s, j))
    ensures forall j | 0 <= j < CanonicalChoice(s) :: !LexLe(CandidateGrid(s, j), CandidateGrid(s, CanonicalChoice(s)))
  {
  }

  /** The output holds the input's points in the same order, each moved by one
      rotation and one offset: count, distinctness and adjacency are kept. */
  lemma CanonicalKeepsPoints(s: ShapeMinimal)
    requires Aligned(s)
    ensures |CanonicalForm(s).points| == |s.points|
    ensures Distinct(s.points) ==> Distinct(CanonicalForm(s).points)
    ensures forall a, b | 0 <= a < |s.points| && 0 <= b < |s.points| ::
      Adjacent(CanonicalForm(s).points[a], CanonicalForm(s).points[b]) <==> Adjacent(s.points[a], s.points[b])
  {
    var k := CanonicalChoice(s);
    var r := CanonicalForm(s);
    forall a, b | 0 <= a < |s.points| && 0 <= b < |s.points|
      ensures (r.points[a] == r.points[b] <==> s.points[a] == s.points[b])
      ensures Adjacent(r.points[a], r.points[b]) <==> Adjacent(s.points[a], s.points[b])
    {
      PlaceInjective(s.points[a], s.points[b], k, s.bounds);
      PlaceAdjacent(s.points[a], s.points[b], k, s.bounds);
    }
  }

  /** The grids of a rotated candidate are the original grids shifted cyclically. */
  lemma CandidateGridShift(s: ShapeMinimal, k: nat, j: nat)
    requires Aligned(s) && k < 4 && j < 4
    ensures Aligned(Candidate(s, k))
    ensures CandidateGrid(Candidate(s, k), j) == CandidateGrid(s, (k + j) % 4)
  {
    CandidateAligned(s, k);
    CandidateCompose(s, k, j);
  }

  /** The rotation that, after a turn by entry `k`, lands on entry `m`. */
  lemma TurnsToReach(k: nat, m: nat) returns (j: nat)
    requires k < 4 && m < 4
    ensures j < 4 && (k + j) % 4 == m
  {
    j := if k <= m then m - k else m + 4 - k;
  }

  /** Different rotations after the same turn land on different entries. */
  lemma TurnsDiffer(k: nat, i: nat, j: nat)
    requires k < 4 && i < 4 && j < 4 && i != j
    ensures (k + i) % 4 != (k + j) % 4
  {
  }

  /** Rotation invariance: canonicalising any of the four rotations of a shape
      gives the same grid as canonicalising the shape. */
  lemma CanonicalGridRotationInvariant(s: ShapeMinimal, k: nat)
    requires Aligned(s) && k < 4
    ensures Aligned(Candidate(s, k))
    ensures CanonicalGrid(Candidate(s, k)) == CanonicalGrid(s)
  {
    var t := Candidate(s, k);
    CandidateAligned(s, k);
    var m := CanonicalChoice(s);
    var m' := CanonicalChoice(t);
    var gs := CanonicalGrid(s);
    var gt := CanonicalGrid(t);
    CandidateGridShift(s, k, m');
    assert gt == CandidateGrid(s, (k + m') % 4);
    assert LexLe(gs, gt);
    var back := TurnsToReach(k, m);
    CandidateGridShift(s, k, back);
    assert CandidateGrid(t, back) == gs;
    assert LexLe(gt, gs);
    LexLeAntisymmetric(gt, gs);
  }

  /** Idempotence: the canonical form is its own canonical form, points, order
      and bounds included (the identity rotation wins on the tie with itself). */
  lemma CanonicalIdempotent(s: ShapeMinimal)
    requires Aligned(s)
    ensures CanonicalForm(CanonicalForm(s)) == CanonicalForm(s)
    ensures CanonicalGrid(CanonicalForm(s)) == CanonicalGrid(s)
  {
    var m := CanonicalChoice(s);
    var t := CanonicalForm(s);
    CandidateAligned(s, m);
    var gs := CandidateGrids(t);
    CandidateIdentity(t);
    assert gs[0] == CanonicalGrid(s);
    forall j | 0 <= j < 4 ensures LexLe(gs[0], gs[j]) {
      CandidateGridShift(s, m, j);
      assert gs[j] == CandidateGrid(s, (m + j) % 4);
    }
    FirstMinimumUnique(gs, 0);
    CanonicalGridRotationInvariant(s, m);
  }

  /** The chosen rotation's grid differs from the other three. */
  predicate UniqueLeast(s: ShapeMinimal)
    requires Aligned(s)
  {
    forall j | 0 <= j < 4 && j != CanonicalChoice(s) :: CandidateGrid(s, j) != CandidateGrid(s, CanonicalChoice(s))
  }

  /** When one rotation's grid is strictly smaller than the other three, the
      whole canonical form (points in order, bounds) is the same for all four
      rotations of the shape. */
  lemma UniqueLeastFullyInvariant(s: ShapeMinimal, k: nat)
    requires Aligned(s) && k < 4
    requires UniqueLeast(s)
    ensures Aligned(Candidate(s, k))
    ensures CanonicalForm(Candidate(s, k)) == CanonicalForm(s)
  {
    var m := CanonicalChoice(s);
    var t := Candidate(s, k);
    CandidateAligned(s, k);
    var j := TurnsToReach(k, m);
    var gs := CandidateGrids(t);
    forall i | 0 <= i < 4 ensures LexLe(gs[j], gs[i]) && (i < j ==> !LexLe(gs[i], gs[j])) {
      CandidateGridShift(s, k, i);
      CandidateGridShift(s, k, j);
      if i < j && LexLe(gs[i], gs[j]) {
        LexLeAntisymmetric(gs[i], gs[j]);
        TurnsDiffer(k, i, j);
      }
    }
    FirstMinimumUnique(gs, j);
    CandidateCompose(s, k, j);
  }

  /** The grid of rotation `i`, filled in place: a zeroed vector of
      `bounds.y + 1` rows, then one bit OR-ed in per rotated and re-aligned point. */
  method RotationGrid(s: ShapeMinimal, i: nat) returns (grid: Grid)
    requires i < 4 && Aligned(s)
    ensures grid == CandidateGrid(s, i)
  {
    var rotatedBounds := MulVec(i, s.bounds);
    var realignOffset := Vec2(-MinInt(rotatedBounds.x, 0), -MinInt(rotatedBounds.y, 0));
    var realignedBounds := Abs(rotatedBounds);
    NegPartIsMinusMin(rotatedBounds.x);
    NegPartIsMinusMin(rotatedBounds.y);
    CandidateAligned(s, i);
    ghost var pts := Candidate(s, i).points;
    assert realignedBounds == Candidate(s, i).bounds;
    ghost var h := realignedBounds.y + 1;
    assert Fits(pts, h);
    assert forall k | 0 <= k < |s.points| :: pts[k] == Add(Turn(i, s.points[k]), realignOffset);
    var rows := new Row[realignedBounds.y + 1](_ => 0);
    for k := 0 to |s.points|
      invariant rows.Length == h
      invariant Fits(pts[..k], h)
      invariant rows[..] == GridOf(pts[..k], h)
    {
      var rotated := MulVec(i, s.points[k]);
      var pointRotated := Add(rotated, realignOffset);
      GridOfStep(pts, h, k);
      rows[pointRotated.y] := SetBit(rows[pointRotated.y], pointRotated.x);
    }
    assert pts[..|s.points|] == pts;
    grid := rows[..];
  }

  /** `canonical_clone_with_grid` as the source runs it: the per-rotation grids
      are built in table order and the running minimum is replaced only by a
      strictly smaller grid. Returns the shape and the winning grid. */
  method CanonicalCloneWithGrid(s: ShapeMinimal) returns (r: ShapeMinimal, grid: Grid)
    requires Aligned(s)
    ensures r == CanonicalForm(s) && grid == CanonicalGrid(s)
  {
    ghost var gs := CandidateGrids(s);
    var best := 0;
    grid := RotationGrid(s, 0);
    for i := 1 to 4
      invariant best == FirstMinimum(gs[..i]) && grid == gs[best]
    {
      var g := RotationGrid(s, i);
      FirstMinimumStep(gs, i);
      if !LexLe(grid, g) {
        best, grid := i, g;
      }
    }
    assert gs[..4] == gs;
    r := Candidate(s, best);
  }

  // The pentomino of the source's unit test, in its four orientations. The
  // fixtures `Rot0()` .. `Rot270()` are the source's; the `...At(z)` forms take
  // the coordinate 0 as a parameter `z` (the lemmas about them require
  // `z == 0`), which keeps the concrete computations below small for the solver.

  function Rot0(): ShapeMinimal { Rot0At(0) }
  function Rot90(): ShapeMinimal { Rot90At(0) }
  function Rot180(): ShapeMinimal { Rot180At(0) }
  function Rot270(): ShapeMinimal { Rot270At(0) }

  /** The test pentomino as written. */
  function Rot0At(z: int): ShapeMinimal {
    ShapeMinimal([Vec2(z, z), Vec2(1, z), Vec2(1, 1), Vec2(2, 1), Vec2(3, 1)], Vec2(3, 1))
  }

  /** The test pentomino turned by 90 degrees. */
  function Rot90At(z: int): ShapeMinimal {
    ShapeMinimal([Vec2(1, z), Vec2(1, 1), Vec2(z, 1), Vec2(z, 2), Vec2(z, 3)], Vec2(1, 3))
  }

  /** The test pentomino turned by 180 degrees. */
  function Rot180At(z: int): ShapeMinimal {
    ShapeMinimal([Vec2(3, 1), Vec2(2, 1), Vec2(2, z), Vec2(1, z), Vec2(z, z)], Vec2(3, 1))
  }

  /** The test pentomino turned by 270 degrees; the expected canonical form. */
  function Rot270At(z: int): ShapeMinimal {
    ShapeMinimal([Vec2(z, 3), Vec2(z, 2), Vec2(1, 2), Vec2(1, 1), Vec2(1, z)], Vec2(1, 3))
  }

  /** A candidate is determined by where each point is placed and by the new
      bounds. */
  lemma CandidateMatches(s: ShapeMinimal, i: nat, t: ShapeMinimal)
    requires i < 4 && |t.points| == |s.points|
    requires forall k | 0 <= k < |s.points| :: Place(s.points[k], i, s.bounds) == t.points[k]
    requires RealignedBounds(i, s.bounds) == t.bounds
    ensures Candidate(s, i) == t
  {
  }

  /** Placement by 90 degrees within non-negative bounds `b`. */
  lemma PlaceTurn1(p: Vec2, b: Vec2)
    requires Le(Origin, b)
    ensures Place(p, 1, b) == Vec2(b.y - p.y, p.x)
  {
  }

  /** Placement by 180 degrees within non-negative bounds `b`. */
  lemma PlaceTurn2(p: Vec2, b: Vec2)
    requires Le(Origin, b)
    ensures Place(p, 2, b) == Vec2(b.x - p.x, b.y - p.y)
  {
  }

  /** Placement by 270 degrees within non-negative bounds `b`. */
  lemma PlaceTurn3(p: Vec2, b: Vec2)
    requires Le(Origin, b)
    ensures Place(p, 3, b) == Vec2(p.y, b.x - p.x)
  {
  }

  /** The new bounds for 90, 180 and 270 degrees. */
  lemma BoundsTurn1(b: Vec2)
    requires Le(Origin, b)
    ensures RealignedBounds(1, b) == Vec2(b.y, b.x)
  {
  }

  lemma BoundsTurn2(b: Vec2)
    requires Le(Origin, b)
    ensures RealignedBounds(2, b) == b
  {
  }

  lemma BoundsTurn3(b: Vec2)
    requires Le(Origin, b)
    ensures RealignedBounds(3, b) == Vec2(b.y, b.x)
  {
  }

  /** Candidate 1 of a shape with non-negative bounds `b` maps `(x, y)` to
      `(b.y - y, x)` and swaps the extents. */
  lemma QuarterTurnCandidate(s: ShapeMinimal, t: ShapeMinimal)
    requires Le(Origin, s.bounds) && |t.points| == |s.points|
    requires forall k | 0 <= k < |s.points| :: t.points[k] == Vec2(s.bounds.y - s.points[k].y, s.points[k].x)
    requires t.bounds == Vec2(s.bounds.y, s.bounds.x)
    ensures Candidate(s, 1) == t
  {
    forall k | 0 <= k < |s.points| ensures Place(s.points[k], 1, s.bounds) == t.points[k] {
      PlaceTurn1(s.points[k], s.bounds);
    }
    BoundsTurn1(s.bounds);
    CandidateMatches(s, 1, t);
  }

  /** Candidate 2 of a shape with non-negative bounds `b` maps `(x, y)` to
      `(b.x - x, b.y - y)` and keeps the extents. */
  lemma HalfTurnCandidate(s: ShapeMinimal, t: ShapeMinimal)
    requires Le(Origin, s.bounds) && |t.points| == |s.points|
    requires forall k | 0 <= k < |s.points| :: t.points[k] == Vec2(s.bounds.x - s.points[k].x, s.bounds.y - s.points[k].y)
    requires t.bounds == s.bounds
    ensures Candidate(s, 2) == t
  {
    forall k | 0 <= k < |s.points| ensures Place(s.points[k], 2, s.bounds) == t.points[k] {
      PlaceTurn2(s.points[k], s.bounds);
    }
    BoundsTurn2(s.bounds);
    CandidateMatches(s, 2, t);
  }

  /** Candidate 3 of a shape with non-negative bounds `b` maps `(x, y)` to
      `(y, b.x - x)` and swaps the extents. */
  lemma ThreeQuarterTurnCandidate(s: ShapeMinimal, t: ShapeMinimal)
    requires Le(Origin, s.bounds) && |t.points| == |s.points|
    requires forall k | 0 <= k < |s.points| :: t.points[k] == Vec2(s.points[k].y, s.bounds.x - s.points[k].x)
    requires t.bounds == Vec2(s.bounds.y, s.bounds.x)
    ensures Candidate(s, 3) == t
  {
    forall k | 0 <= k < |s.points| ensures Place(s.points[k], 3, s.bounds) == t.points[k] {
      PlaceTurn3(s.points[k], s.bounds);
    }
    BoundsTurn3(s.bounds);
    CandidateMatches(s, 3, t);
  }

  /** `Rot90` is candidate 1 of `Rot0`. */
  lemma Rot90IsCandidate(z: int)
    requires z == 0
    ensures Candidate(Rot0At(z), 1) == Rot90At(z)
  {
    QuarterTurnCandidate(Rot0At(z), Rot90At(z));
  }

  /** `Rot180` is candidate 2 of `Rot0`. */
  lemma Rot180IsCandidate(z: int)
    requires z == 0
    ensures Candidate(Rot0At(z), 2) == Rot180At(z)
  {
    HalfTurnCandidate(Rot0At(z), Rot180At(z));
  }

  /** `Rot270` is candidate 3 of `Rot0`. */
  lemma Rot270IsCandidate(z: int)
    requires z == 0
    ensures Candidate(Rot0At(z), 3) == Rot270At(z)
  {
    ThreeQuarterTurnCandidate(Rot0At(z), Rot270At(z));
  }

  /** One step of `GridOf` on concrete values: the grid of one more point is
      the previous grid with that point's row replaced. */
  lemma GridStep(pts: seq<Vec2>, height: nat, k: nat, g: Grid, x: nat, y: nat, row: Row)
    requires Fits(pts, height) && k < |pts| && GridOf(pts[..k], height) == g
    requires pts[k] == Vec2(x, y) && SetBit(g[y], x) == row
    ensures Fits(pts[..k + 1], height)
    ensures GridOf(pts[..k + 1], height) == g[y := row]
  {
    GridOfStep(pts, height, k);
  }

  /** The grid of the first three points of `Rot0`. */
  lemma Rot0GridPrefix(z: int)
    requires z == 0
    ensures Fits(Rot0At(z).points, 2)
    ensures GridOf(Rot0At(z).points[..3], 2) == [3, 2]
  {
    var p := Rot0At(z).points;
    assert Fits(p, 2);
    assert p[..0] == [];
    GridStep(p, 2, 0, [0, 0], 0, 0, 1);
    GridStep(p, 2, 1, [1, 0], 1, 0, 3);
    GridStep(p, 2, 2, [3, 0], 1, 1, 2);
  }

  /** The grid of `Rot0`, one point at a time. */
  lemma Rot0Grid(z: int)
    requires z == 0
    ensures Fits(Rot0At(z).points, 2)
    ensures GridOf(Rot0At(z).points, 2) == [3, 14]
  {
    var p := Rot0At(z).points;
    Rot0GridPrefix(z);
    GridStep(p, 2, 3, [3, 2], 2, 1, 6);
    GridStep(p, 2, 4, [3, 6], 3, 1, 14);
    assert p[..5] == p;
  }

  /** The grid of the first three points of `Rot90`. */
  lemma Rot90GridPrefix(z: int)
    requires z == 0
    ensures Fits(Rot90At(z).points, 4)
    ensures GridOf(Rot90At(z).points[..3], 4) == [2, 3, 0, 0]
  {
    var p := Rot90At(z).points;
    assert Fits(p, 4);
    assert p[..0] == [];
    GridStep(p, 4, 0, [0, 0, 0, 0], 1, 0, 2);
    GridStep(p, 4, 1, [2, 0, 0, 0], 1, 1, 2);
    GridStep(p, 4, 2, [2, 2, 0, 0], 0, 1, 3);
  }

  /** The grid of `Rot90`, one point at a time. */
  lemma Rot90Grid(z: int)
    requires z == 0
    ensures Fits(Rot90At(z).points, 4)
    ensures GridOf(Rot90At(z).points, 4) == [2, 3, 1, 1]
  {
    var p := Rot90At(z).points;
    Rot90GridPrefix(z);
    GridStep(p, 4, 3, [2, 3, 0, 0], 0, 2, 1);
    GridStep(p, 4, 4, [2, 3, 1, 0], 0, 3, 1);
    assert p[..5] == p;
  }

  /** The grid of the first three points of `Rot180`. */
  lemma Rot180GridPrefix(z: int)
    requires z == 0
    ensures Fits(Rot180At(z).points, 2)
    ensures GridOf(Rot180At(z).points[..3], 2) == [4, 12]
  {
    var p := Rot180At(z).points;
    assert Fits(p, 2);
    assert p[..0] == [];
    GridStep(p, 2, 0, [0, 0], 3, 1, 8);
    GridStep(p, 2, 1, [0, 8], 2, 1, 12);
    GridStep(p, 2, 2, [0, 12], 2, 0, 4);
  }

  /** The grid of `Rot180`, one point at a time. */
  lemma Rot180Grid(z: int)
    requires z == 0
    ensures Fits(Rot180At(z).points, 2)
    ensures GridOf(Rot180At(z).points, 2) == [7, 12]
  {
    var p := Rot180At(z).points;
    Rot180GridPrefix(z);
    GridStep(p, 2, 3, [4, 12], 1, 0, 6);
    GridStep(p, 2, 4, [6, 12], 0, 0, 7);
    assert p[..5] == p;
  }

  /** The grid of the first three points of `Rot270`. */
  lemma Rot270GridPrefix(z: int)
    requires z == 0
    ensures Fits(Rot270At(z).points, 4)
    ensures GridOf(Rot270At(z).points[..3], 4) == [0, 0, 3, 1]
  {
    var p := Rot270At(z).points;
    assert Fits(p, 4);
    assert p[..0] == [];
    GridStep(p, 4, 0, [0, 0, 0, 0], 0, 3, 1);
    GridStep(p, 4, 1, [0, 0, 0, 1], 0, 2, 1);
    GridStep(p, 4, 2, [0, 0, 1, 1], 1, 2, 3);
  }

  /** The grid of `Rot270`, one point at a time. */
  lemma Rot270Grid(z: int)
    requires z == 0
    ensures Fits(Rot270At(z).points, 4)
    ensures GridOf(Rot270At(z).points, 4) == [2, 2, 3, 1]
  {
    var p := Rot270At(z).points;
    Rot270GridPrefix(z);
    GridStep(p, 4, 3, [0, 0, 3, 1], 1, 1, 2);
    GridStep(p, 4, 4, [0, 2, 3, 1], 1, 0, 2);
    assert p[..5] == p;
  }

  /** The four candidate grids of the test pentomino. */
  lemma TestCandidateGrids(z: int)
    requires z == 0
    ensures Aligned(Rot0At(z))
    ensures CandidateGrids(Rot0At(z)) == [[3, 14], [2, 3, 1, 1], [7, 12], [2, 2, 3, 1]]
  {
    assert Aligned(Rot0At(z));
    CandidateIdentity(Rot0At(z));
    Rot90IsCandidate(z);
    Rot180IsCandidate(z);
    Rot270IsCandidate(z);
    Rot0Grid(z);
    Rot90Grid(z);
    Rot180Grid(z);
    Rot270Grid(z);
  }

  /** Among the four test grids the last is strictly the least. */
  lemma TestGridOrder(gs: seq<Grid>)
    requires gs == [[3, 14], [2, 3, 1, 1], [7, 12], [2, 2, 3, 1]]
    ensures forall j | 0 <= j < 4 :: LexLe(gs[3], gs[j])
    ensures forall j | 0 <= j < 3 :: !LexLe(gs[j], gs[3])
  {
    assert LexLe([2, 2, 3, 1], [3, 14]) && LexLe([2, 2, 3, 1], [7, 12]);
    assert LexLe([2, 2, 3, 1], [2, 3, 1, 1]) && !LexLe([2, 3, 1, 1], [2, 2, 3, 1]);
    LexLeReflexive(gs[3]);
  }

  /** When candidate `m`'s grid is strictly less than every other candidate
      grid, `m` is chosen and its grid is the only least one. */
  lemma StrictChoice(s: ShapeMinimal, m: nat)
    requires Aligned(s) && m < 4
    requires forall j | 0 <= j < 4 :: LexLe(CandidateGrids(s)[m], CandidateGrids(s)[j])
    requires forall j | 0 <= j < 4 && j != m :: !LexLe(CandidateGrids(s)[j], CandidateGrids(s)[m])
    ensures CanonicalChoice(s) == m && UniqueLeast(s)
  {
    var gs := CandidateGrids(s);
    FirstMinimumUnique(gs, m);
    forall j | 0 <= j < 4 && j != m ensures gs[j] != gs[m] {
      LexLeReflexive(gs[j]);
    }
  }

  /** The 270 degree candidate has the only least grid of the test pentomino. */
  lemma TestChoice(z: int)
    requires z == 0
    ensures Aligned(Rot0At(z)) && CanonicalChoice(Rot0At(z)) == 3 && UniqueLeast(Rot0At(z))
  {
    TestCandidateGrids(z);
    TestGridOrder(CandidateGrids(Rot0At(z)));
    StrictChoice(Rot0At(z), 3);
  }

  /** The canonical form of the test pentomino as written is `Rot270`. */
  lemma TestCanonicalForm(z: int)
    requires z == 0
    ensures Aligned(Rot0At(z)) && CanonicalForm(Rot0At(z)) == Rot270At(z)
  {
    TestChoice(z);
    Rot270IsCandidate(z);
  }

  /** An orientation of the test pentomino that is its candidate `k`
      canonicalises to `Rot270`. */
  lemma TestCandidateCanonicalises(z: int, k: nat, t: ShapeMinimal)
    requires z == 0 && k < 4 && t == Candidate(Rot0At(z), k)
    ensures Aligned(t) && CanonicalForm(t) == Rot270At(z)
  {
    TestChoice(z);
    UniqueLeastFullyInvariant(Rot0At(z), k);
    TestCanonicalForm(z);
  }

  /** The source's unit test: each of the four orientations of the pentomino
      canonicalises to the 270 degree one, points in order included; in
      particular the 270 degree one is its own canonical form. */
  lemma ShouldCanonicalizeAt(z: int, t: ShapeMinimal)
    requires z == 0 && t in [Rot0At(z), Rot90At(z), Rot180At(z), Rot270At(z)]
    ensures Aligned(t) && CanonicalForm(t) == Rot270At(z)
  {
    if t == Rot0At(z) {
      CandidateIdentity(t);
      TestCandidateCanonicalises(z, 0, t);
    } else if t == Rot90At(z) {
      Rot90IsCandidate(z);
      TestCandidateCanonicalises(z, 1, t);
    } else if t == Rot180At(z) {
      Rot180IsCandidate(z);
      TestCandidateCanonicalises(z, 2, t);
    } else {
      Rot270IsCandidate(z);
      TestCandidateCanonicalises(z, 3, t);
    }
  }

  /** `should_canonicalize` on the fixtures exactly as written. */
  lemma ShouldCanonicalize(t: ShapeMinimal)
    requires t in [Rot0(), Rot90(), Rot180(), Rot270()]
    ensures Aligned(t) && CanonicalForm(t) == Rot270()
  {
    ShouldCanonicalizeAt(0, t);
  }

  // The mirror image of the test pentomino: the rotation group holds no
  // reflection, so a chiral shape and its mirror image are different entries.

  /** The test pentomino reflected in the vertical middle line of its box. */
  function Mirror(): ShapeMinimal { MirrorAt(0) }

  function MirrorAt(z: int): ShapeMinimal {
    ShapeMinimal([Vec2(3, z), Vec2(2, z), Vec2(2, 1), Vec2(1, 1), Vec2(z, 1)], Vec2(3, 1))
  }

  /** The mirror image turned by 270 degrees. */
  function Mirror270At(z: int): ShapeMinimal {
    ShapeMinimal([Vec2(z, z), Vec2(z, 1), Vec2(1, 1), Vec2(1, 2), Vec2(1, 3)], Vec2(1, 3))
  }

  /** `m` is `r` with every `x` replaced by `bounds.x - x`: a reflection in
      the vertical middle line of the shared bounding box. */
  predicate Reflected(m: ShapeMinimal, r: ShapeMinimal) {
    && |m.points| == |r.points|
    && m.bounds == r.bounds
    && forall k | 0 <= k < |r.points| :: m.points[k] == Vec2(r.bounds.x - r.points[k].x, r.points[k].y)
  }

  /** `Mirror` is `Rot0` reflected. */
  lemma MirrorReflects(z: int)
    requires z == 0
    ensures Reflected(MirrorAt(z), Rot0At(z))
  {
  }

  lemma Mirror270IsCandidate(z: int)
    requires z == 0
    ensures Candidate(MirrorAt(z), 3) == Mirror270At(z)
  {
    ThreeQuarterTurnCandidate(MirrorAt(z), Mirror270At(z));
  }

  /** The grid of the first three points of `Mirror270`. */
  lemma Mirror270GridPrefix(z: int)
    requires z == 0
    ensures Fits(Mirror270At(z).points, 4)
    ensures GridOf(Mirror270At(z).points[..3], 4) == [1, 3, 0, 0]
  {
    var p := Mirror270At(z).points;
    assert Fits(p, 4);
    assert p[..0] == [];
    GridStep(p, 4, 0, [0, 0, 0, 0], 0, 0, 1);
    GridStep(p, 4, 1, [1, 0, 0, 0], 0, 1, 1);
    GridStep(p, 4, 2, [1, 1, 0, 0], 1, 1, 3);
  }

  /** The grid of `Mirror270`, one point at a time. */
  lemma Mirror270Grid(z: int)
    requires z == 0
    ensures Fits(Mirror270At(z).points, 4)
    ensures GridOf(Mirror270At(z).points, 4) == [1, 3, 2, 2]
  {
    var p := Mirror270At(z).points;
    Mirror270GridPrefix(z);
    GridStep(p, 4, 3, [1, 3, 0, 0], 1, 2, 2);
    GridStep(p, 4, 4, [1, 3, 2, 0], 1, 3, 2);
    assert p[..5] == p;
  }

  /** The canonical grid of the test pentomino is its 270 degree grid. */
  lemma TestCanonicalGrid(z: int)
    requires z == 0
    ensures Aligned(Rot0At(z)) && CanonicalGrid(Rot0At(z)) == [2, 2, 3, 1]
  {
    TestChoice(z);
    TestCandidateGrids(z);
  }

  /** The first row of the canonical grid is at most the first row of any
      candidate's grid. */
  lemma CanonicalFirstRow(s: ShapeMinimal, i: nat, t: ShapeMinimal, g: Grid)
    requires Aligned(s) && i < 4 && Candidate(s, i) == t
    requires Fits(t.points, t.bounds.y + 1) && GridOf(t.points, t.bounds.y + 1) == g
    ensures |CanonicalGrid(s)| > 0 && |g| > 0 && CanonicalGrid(s)[0] <= g[0]
  {
    assert CandidateGrid(s, i) == g;
  }

  /** The canonical grid of the mirror image starts with a row no greater than 1
      (the first row of its 270 degree grid). */
  lemma MirrorCanonicalFirstRow(z: int)
    requires z == 0
    ensures Aligned(MirrorAt(z)) && |CanonicalGrid(MirrorAt(z))| > 0 && CanonicalGrid(MirrorAt(z))[0] <= 1
  {
    assert Aligned(MirrorAt(z));
    Mirror270IsCandidate(z);
    Mirror270Grid(z);
    CanonicalFirstRow(MirrorAt(z), 3, Mirror270At(z), [1, 3, 2, 2]);
  }

  /** The canonical grid of the test pentomino starts with row 2. */
  lemma TestCanonicalFirstRow(z: int)
    requires z == 0
    ensures Aligned(Rot0At(z)) && |CanonicalGrid(Rot0At(z))| > 0 && CanonicalGrid(Rot0At(z))[0] == 2
  {
    TestCanonicalGrid(z);
  }

  /** The first rows of both canonical grids, side by side. */
  lemma FirstRows(z: int)
    requires z == 0
    ensures Aligned(Rot0At(z)) && |CanonicalGrid(Rot0At(z))| > 0 && CanonicalGrid(Rot0At(z))[0] == 2
    ensures Aligned(MirrorAt(z)) && |CanonicalGrid(MirrorAt(z))| > 0 && CanonicalGrid(MirrorAt(z))[0] <= 1
  {
    TestCanonicalFirstRow(z);
    MirrorCanonicalFirstRow(z);
  }

  /** The canonical grids of the test pentomino and its mirror image differ. */
  lemma MirrorNotIdentifiedAt(z: int)
    requires z == 0
    ensures Aligned(Rot0At(z)) && Aligned(MirrorAt(z))
    ensures CanonicalGrid(MirrorAt(z)) != CanonicalGrid(Rot0At(z))
  {
    FirstRows(z);
  }

  /** `Mirror` is the test pentomino reflected in the vertical middle line of
      its box. */
  lemma MirrorIsReflection()
    ensures Reflected(Mirror(), Rot0())
  {
    MirrorReflects(0);
  }

  /** Mirror images are not identified: the test pentomino and its mirror
      image have different canonical grids, so they are different shapes. */
  lemma MirrorNotIdentified(r: ShapeMinimal, m: ShapeMinimal)
    requires r == Rot0() && m == Mirror()
    ensures Aligned(r) && Aligned(m) && CanonicalGrid(m) != CanonicalGrid(r)
  {
    MirrorNotIdentifiedAt(0);
  }
}
