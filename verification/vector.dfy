/** Integer 2-vectors: the `Vector2<i8>` / `Vector2<i32>` points of the engine.
    Coordinates are unbounded integers; the engine's width limit is stated where
    it matters (see `Grid.RowWidth`). */
module Vector {

  datatype Vec2 = Vec2(x: int, y: int)

  const Origin := Vec2(0, 0)

  function Add(a: Vec2, b: Vec2): Vec2 {
    Vec2(a.x + b.x, a.y + b.y)
  }

  function Sub(a: Vec2, b: Vec2): Vec2 {
    Vec2(a.x - b.x, a.y - b.y)
  }

  function AbsInt(v: int): nat {
    if v < 0 then -v else v
  }

  /** Componentwise absolute value (nalgebra's `abs()`). */
  function Abs(v: Vec2): Vec2 {
    Vec2(AbsInt(v.x), AbsInt(v.y))
  }

  function MinInt(a: int, b: int): int {
    if a <= b then a else b
  }

  /** `-min(v, 0)`: how far `v` lies below zero. */
  function NegPart(v: int): nat {
    if v < 0 then -v else 0
  }

  lemma NegPartIsMinusMin(v: int)
    ensures NegPart(v) == -MinInt(v, 0)
  {
  }

  function MaxInt(a: int, b: int): int {
    if a <= b then b else a
  }

  /** Componentwise `a <= b`. */
  predicate Le(a: Vec2, b: Vec2) {
    a.x <= b.x && a.y <= b.y
  }

  /** `p` lies in the closed box with corners `lo` and `hi`. */
  predicate InBox(p: Vec2, lo: Vec2, hi: Vec2) {
    Le(lo, p) && Le(p, hi)
  }

  /** The two cells share an edge: they differ by one unit step along one axis. */
  predicate Adjacent(a: Vec2, b: Vec2) {
    AbsInt(a.x - b.x) + AbsInt(a.y - b.y) == 1
  }

  /** Every point of `pts` is translated by `v`. */
  function Translate(pts: seq<Vec2>, v: Vec2): (r: seq<Vec2>)
    ensures |r| == |pts|
    ensures forall i | 0 <= i < |pts| :: r[i] == Add(pts[i], v)
  {
    seq(|pts|, i requires 0 <= i < |pts| => Add(pts[i], v))
  }

  /** No point occurs twice. */
  predicate Distinct(pts: seq<Vec2>) {
    forall i, j | 0 <= i < j < |pts| :: pts[i] != pts[j]
  }

  /** Subtracting the origin changes nothing. */
  lemma SubOrigin(v: Vec2)
    ensures Sub(v, Origin) == v
  {
  }

  /** Translating by the difference of a point with itself changes nothing. */
  lemma TranslateByNothing(pts: seq<Vec2>, o: Vec2)
    ensures Translate(pts, Sub(o, o)) == pts
  {
    var t := Translate(pts, Sub(o, o));
    assert forall k | 0 <= k < |pts| :: t[k] == pts[k];
  }
}
