/** `BoundingBoxTwoPoints`: an axis-aligned box given by two corners, built from a
    point list by per-axis min and max (`Bounds::from` in the minimal shape is the
    same computation on narrow coordinates). */
module BoundingBox {
  import opened Vector
  import opened Rotation

  datatype Box = Box(p0: Vec2, p1: Vec2)

  function Xs(pts: seq<Vec2>): (r: seq<int>)
    ensures |r| == |pts| && forall i | 0 <= i < |pts| :: r[i] == pts[i].x
  {
    seq(|pts|, i requires 0 <= i < |pts| => pts[i].x)
  }

  function Ys(pts: seq<Vec2>): (r: seq<int>)
    ensures |r| == |pts| && forall i | 0 <= i < |pts| :: r[i] == pts[i].y
  {
    seq(|pts|, i requires 0 <= i < |pts| => pts[i].y)
  }

  /** `iter().min().unwrap()`: the least value, which occurs in the list. */
  function MinOf(s: seq<int>): (r: int)
    requires |s| > 0
    ensures r in s
    ensures forall v | v in s :: r <= v
  {
    if |s| == 1 then s[0]
    else
      assert s == [s[0]] + s[1..];
      MinInt(s[0], MinOf(s[1..]))
  }

  /** `iter().max().unwrap()`: the greatest value, which occurs in the list. */
  function MaxOf(s: seq<int>): (r: int)
    requires |s| > 0
    ensures r in s
    ensures forall v | v in s :: v <= r
  {
    if |s| == 1 then s[0]
    else
      assert s == [s[0]] + s[1..];
      MaxInt(s[0], MaxOf(s[1..]))
  }

  /** `from(points)`: the tightest box around a non-empty point list (`unwrap`
      on an empty list panics, hence the precondition). Every point lies between
      the corners, and every corner coordinate is the coordinate of some point. */
  function From(points: seq<Vec2>): (b: Box)
    requires |points| > 0
    ensures forall q | q in points :: InBox(q, b.p0, b.p1)
    ensures exists i | 0 <= i < |points| :: points[i].x == b.p0.x
    ensures exists i | 0 <= i < |points| :: points[i].y == b.p0.y
    ensures exists i | 0 <= i < |points| :: points[i].x == b.p1.x
    ensures exists i | 0 <= i < |points| :: points[i].y == b.p1.y
  {
    var b := Box(Vec2(MinOf(Xs(points)), MinOf(Ys(points))), Vec2(MaxOf(Xs(points)), MaxOf(Ys(points))));
    PerAxisExtremes(points, b);
    b
  }

  /** The per-axis extremes bound every point and are coordinates of actual points. */
  lemma PerAxisExtremes(points: seq<Vec2>, b: Box)
    requires |points| > 0
    requires b == Box(Vec2(MinOf(Xs(points)), MinOf(Ys(points))), Vec2(MaxOf(Xs(points)), MaxOf(Ys(points))))
    ensures forall q | q in points :: InBox(q, b.p0, b.p1)
    ensures exists i | 0 <= i < |points| :: points[i].x == b.p0.x
    ensures exists i | 0 <= i < |points| :: points[i].y == b.p0.y
    ensures exists i | 0 <= i < |points| :: points[i].x == b.p1.x
    ensures exists i | 0 <= i < |points| :: points[i].y == b.p1.y
  {
    var xs, ys := Xs(points), Ys(points);
    forall q | q in points ensures InBox(q, b.p0, b.p1) {
      var i :| 0 <= i < |points| && points[i] == q;
      assert xs[i] == q.x && ys[i] == q.y;
      assert xs[i] in xs && ys[i] in ys;
    }
    var i0 :| 0 <= i0 < |xs| && xs[i0] == b.p0.x;
    var i1 :| 0 <= i1 < |ys| && ys[i1] == b.p0.y;
    var i2 :| 0 <= i2 < |xs| && xs[i2] == b.p1.x;
    var i3 :| 0 <= i3 < |ys| && ys[i3] == b.p1.y;
  }

  /** A box that contains every point and whose four corner coordinates are all
      attained by points is the box `From` computes. */
  predicate Tight(points: seq<Vec2>, b: Box) {
    && (forall q | q in points :: InBox(q, b.p0, b.p1))
    && (exists i | 0 <= i < |points| :: points[i].x == b.p0.x)
    && (exists i | 0 <= i < |points| :: points[i].y == b.p0.y)
    && (exists i | 0 <= i < |points| :: points[i].x == b.p1.x)
    && (exists i | 0 <= i < |points| :: points[i].y == b.p1.y)
  }

  /** Points attaining the four corner coordinates of a tight box. */
  lemma Witnesses(points: seq<Vec2>, b: Box) returns (q0: Vec2, q1: Vec2, q2: Vec2, q3: Vec2)
    requires Tight(points, b)
    ensures q0 in points && q1 in points && q2 in points && q3 in points
    ensures q0.x == b.p0.x && q1.y == b.p0.y && q2.x == b.p1.x && q3.y == b.p1.y
  {
    var i0 :| 0 <= i0 < |points| && points[i0].x == b.p0.x;
    var i1 :| 0 <= i1 < |points| && points[i1].y == b.p0.y;
    var i2 :| 0 <= i2 < |points| && points[i2].x == b.p1.x;
    var i3 :| 0 <= i3 < |points| && points[i3].y == b.p1.y;
    q0, q1, q2, q3 := points[i0], points[i1], points[i2], points[i3];
  }

  lemma FromUnique(points: seq<Vec2>, b: Box)
    requires |points| > 0 && Tight(points, b)
    ensures From(points) == b
  {
    var f := From(points);
    var q0, q1, q2, q3 := Witnesses(points, b);
    var r0, r1, r2, r3 := Witnesses(points, f);
    assert InBox(q0, f.p0, f.p1) && InBox(r0, b.p0, b.p1);
    assert InBox(q1, f.p0, f.p1) && InBox(r1, b.p0, b.p1);
    assert InBox(q2, f.p0, f.p1) && InBox(r2, b.p0, b.p1);
    assert InBox(q3, f.p0, f.p1) && InBox(r3, b.p0, b.p1);
  }

  /** `min()`: the componentwise smaller corner. */
  function Min(b: Box): (r: Vec2)
    ensures Le(r, b.p0) && Le(r, b.p1)
    ensures (r.x == b.p0.x || r.x == b.p1.x) && (r.y == b.p0.y || r.y == b.p1.y)
  {
    Vec2(MinInt(b.p0.x, b.p1.x), MinInt(b.p0.y, b.p1.y))
  }

  /** `max()`: the componentwise larger corner. */
  function Max(b: Box): (r: Vec2)
    ensures Le(b.p0, r) && Le(b.p1, r)
    ensures (r.x == b.p0.x || r.x == b.p1.x) && (r.y == b.p0.y || r.y == b.p1.y)
  {
    Vec2(MaxInt(b.p0.x, b.p1.x), MaxInt(b.p0.y, b.p1.y))
  }

  /** `min() <= max()`, and neither depends on which corner is stored first. */
  lemma CornersNormalised(b: Box)
    ensures Le(Min(b), Max(b))
    ensures Min(Box(b.p1, b.p0)) == Min(b) && Max(Box(b.p1, b.p0)) == Max(b)
    ensures Le(b.p0, b.p1) ==> Min(b) == b.p0 && Max(b) == b.p1
  {
  }

  /** `rotation * box`: each corner is rotated on its own; the result's corners
      may be out of order, which `Min`/`Max` repair. Its extent is the box's
      extent rotated as a vector. */
  function Rotate(m: Mat2, b: Box): (r: Box)
    ensures Sub(r.p1, r.p0) == Apply(m, Sub(b.p1, b.p0))
  {
    Box(Apply(m, b.p0), Apply(m, b.p1))
  }

  /** Every point rotated by `m`. */
  function RotateAll(m: Mat2, pts: seq<Vec2>): (r: seq<Vec2>)
    ensures |r| == |pts| && forall i | 0 <= i < |pts| :: r[i] == Apply(m, pts[i])
  {
    seq(|pts|, i requires 0 <= i < |pts| => Apply(m, pts[i]))
  }

  /** The normalised corners of the box `[lo, hi]` turned by table entry `i`. */
  function TurnedBox(i: nat, lo: Vec2, hi: Vec2): Box
    requires i < 4
  {
    Box(Min(Box(Turn(i, lo), Turn(i, hi))), Max(Box(Turn(i, lo), Turn(i, hi))))
  }

  /** A point of a box, turned, lies in the turned box. */
  lemma TurnInBox(i: nat, q: Vec2, lo: Vec2, hi: Vec2)
    requires i < 4 && InBox(q, lo, hi)
    ensures InBox(Turn(i, q), TurnedBox(i, lo, hi).p0, TurnedBox(i, lo, hi).p1)
  {
  }

  /** The rotated list's points are the points turned by entry `i`. */
  lemma RotateAllTurns(i: nat, pts: seq<Vec2>)
    requires i < 4
    ensures forall k | 0 <= k < |pts| :: RotateAll(Rotations[i], pts)[k] == Turn(i, pts[k])
  {
    forall k | 0 <= k < |pts| ensures RotateAll(Rotations[i], pts)[k] == Turn(i, pts[k]) {
      TurnIsTableEntry(i, pts[k]);
    }
  }

  /** The turned points lie in the turned box. */
  lemma TurnedInside(i: nat, pts: seq<Vec2>, rp: seq<Vec2>)
    requires i < 4 && |pts| > 0 && |rp| == |pts|
    requires forall k | 0 <= k < |pts| :: rp[k] == Turn(i, pts[k])
    ensures forall q | q in rp :: InBox(q, TurnedBox(i, From(pts).p0, From(pts).p1).p0, TurnedBox(i, From(pts).p0, From(pts).p1).p1)
  {
    var f := From(pts);
    forall q | q in rp ensures InBox(q, TurnedBox(i, f.p0, f.p1).p0, TurnedBox(i, f.p0, f.p1).p1) {
      var k :| 0 <= k < |rp| && rp[k] == q;
      assert pts[k] in pts;
      TurnInBox(i, pts[k], f.p0, f.p1);
    }
  }

  /** Points attaining the corner coordinates of a box, turned, attain the
      corner coordinates of the turned box, in an order fixed by the angle. */
  lemma TurnCorners(i: nat, lo: Vec2, hi: Vec2, a0: Vec2, a1: Vec2, a2: Vec2, a3: Vec2)
    requires i < 4 && Le(lo, hi)
    requires a0.x == lo.x && a1.y == lo.y && a2.x == hi.x && a3.y == hi.y
    ensures var b := TurnedBox(i, lo, hi);
      && (i == 0 ==> Turn(i, a0).x == b.p0.x && Turn(i, a1).y == b.p0.y && Turn(i, a2).x == b.p1.x && Turn(i, a3).y == b.p1.y)
      && (i == 1 ==> Turn(i, a3).x == b.p0.x && Turn(i, a0).y == b.p0.y && Turn(i, a1).x == b.p1.x && Turn(i, a2).y == b.p1.y)
      && (i == 2 ==> Turn(i, a2).x == b.p0.x && Turn(i, a3).y == b.p0.y && Turn(i, a0).x == b.p1.x && Turn(i, a1).y == b.p1.y)
      && (i == 3 ==> Turn(i, a1).x == b.p0.x && Turn(i, a2).y == b.p0.y && Turn(i, a3).x == b.p1.x && Turn(i, a0).y == b.p1.y)
  {
  }

  /** Each corner coordinate of the turned box is a coordinate of a turned
      point. */
  lemma TurnedCorners(i: nat, pts: seq<Vec2>, rp: seq<Vec2>)
    requires i < 4 && |pts| > 0 && |rp| == |pts|
    requires forall k | 0 <= k < |pts| :: rp[k] == Turn(i, pts[k])
    ensures var b := TurnedBox(i, From(pts).p0, From(pts).p1);
      && (exists k | 0 <= k < |rp| :: rp[k].x == b.p0.x)
      && (exists k | 0 <= k < |rp| :: rp[k].y == b.p0.y)
      && (exists k | 0 <= k < |rp| :: rp[k].x == b.p1.x)
      && (exists k | 0 <= k < |rp| :: rp[k].y == b.p1.y)
  {
    var f := From(pts);
    var i0 :| 0 <= i0 < |pts| && pts[i0].x == f.p0.x;
    var i1 :| 0 <= i1 < |pts| && pts[i1].y == f.p0.y;
    var i2 :| 0 <= i2 < |pts| && pts[i2].x == f.p1.x;
    var i3 :| 0 <= i3 < |pts| && pts[i3].y == f.p1.y;
    assert pts[0] in pts;
    TurnCorners(i, f.p0, f.p1, pts[i0], pts[i1], pts[i2], pts[i3]);
    var r0, r1, r2, r3 := rp[i0], rp[i1], rp[i2], rp[i3];
  }

  /** For the four table rotations, the normalised corners of the rotated box are
      exactly the box of the rotated points. */
  lemma RotateFrom(i: nat, pts: seq<Vec2>)
    requires i < 4 && |pts| > 0
    ensures From(RotateAll(Rotations[i], pts)) == Box(Min(Rotate(Rotations[i], From(pts))), Max(Rotate(Rotations[i], From(pts))))
    ensures From(RotateAll(Rotations[i], pts)) == TurnedBox(i, From(pts).p0, From(pts).p1)
  {
    var f := From(pts);
    var rp := RotateAll(Rotations[i], pts);
    RotateAllTurns(i, pts);
    TurnedInside(i, pts, rp);
    TurnedCorners(i, pts, rp);
    FromUnique(rp, TurnedBox(i, f.p0, f.p1));
    TurnIsTableEntry(i, f.p0);
    TurnIsTableEntry(i, f.p1);
  }

  /** `box + v`: both corners move by `v`; the extent is unchanged. */
  function BoxAdd(b: Box, v: Vec2): (r: Box)
    ensures r.p0 == Add(b.p0, v) && r.p1 == Add(b.p1, v)
    ensures Sub(r.p1, r.p0) == Sub(b.p1, b.p0)
  {
    Box(Add(b.p0, v), Add(b.p1, v))
  }

  /** `box - v`: both corners move by `-v`; the extent is unchanged. */
  function BoxSub(b: Box, v: Vec2): (r: Box)
    ensures r.p0 == Sub(b.p0, v) && r.p1 == Sub(b.p1, v)
    ensures Sub(r.p1, r.p0) == Sub(b.p1, b.p0)
  {
    Box(Sub(b.p0, v), Sub(b.p1, v))
  }

  /** Adding and then subtracting the same vector gives the box back. */
  lemma AddThenSub(b: Box, v: Vec2)
    ensures BoxSub(BoxAdd(b, v), v) == b
    ensures BoxAdd(BoxSub(b, v), v) == b
  {
  }

  /** The box of translated points is the translated box. */
  lemma FromTranslate(pts: seq<Vec2>, v: Vec2)
    requires |pts| > 0
    ensures From(Translate(pts, v)) == BoxAdd(From(pts), v)
  {
    var f := From(pts);
    var tp := Translate(pts, v);
    var b := BoxAdd(f, v);
    forall q | q in tp ensures InBox(q, b.p0, b.p1) {
      var k :| 0 <= k < |tp| && tp[k] == q;
      assert InBox(pts[k], f.p0, f.p1);
    }
    var a0, a1, a2, a3 := Witnesses(pts, f);
    var w := [a0, a1, a2, a3];
    forall k | 0 <= k < 4 ensures Add(w[k], v) in tp {
      var j :| 0 <= j < |pts| && pts[j] == w[k];
      assert tp[j] == Add(w[k], v);
    }
    assert Add(w[0], v) in tp && Add(w[1], v) in tp && Add(w[2], v) in tp && Add(w[3], v) in tp;
    FromUnique(tp, b);
  }

  /** Appending one point widens the box just enough to take it in. */
  lemma FromAppend(pts: seq<Vec2>, c: Vec2)
    requires |pts| > 0
    ensures From(pts + [c]) ==
      Box(Vec2(MinInt(From(pts).p0.x, c.x), MinInt(From(pts).p0.y, c.y)),
          Vec2(MaxInt(From(pts).p1.x, c.x), MaxInt(From(pts).p1.y, c.y)))
  {
    var f := From(pts);
    var ap := pts + [c];
    var b := Box(Vec2(MinInt(f.p0.x, c.x), MinInt(f.p0.y, c.y)),
                 Vec2(MaxInt(f.p1.x, c.x), MaxInt(f.p1.y, c.y)));
    forall q | q in ap ensures InBox(q, b.p0, b.p1) {
      if q != c {
        assert q in pts;
        assert InBox(q, f.p0, f.p1);
      }
    }
    var a0, a1, a2, a3 := Witnesses(pts, f);
    assert a0 in ap && a1 in ap && a2 in ap && a3 in ap && c in ap;
    FromUnique(ap, b);
  }

  /** Points inside a box `[lo, hi]` have their bounding box inside it too. */
  lemma FromWithin(pts: seq<Vec2>, lo: Vec2, hi: Vec2)
    requires |pts| > 0
    requires forall q | q in pts :: InBox(q, lo, hi)
    ensures Le(lo, From(pts).p0) && Le(From(pts).p1, hi)
  {
    var f := From(pts);
    var a0, a1, a2, a3 := Witnesses(pts, f);
    assert InBox(a0, lo, hi) && InBox(a1, lo, hi) && InBox(a2, lo, hi) && InBox(a3, lo, hi);
  }
}
