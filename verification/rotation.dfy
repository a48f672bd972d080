/** The rotation group folded by the canonicaliser: four exact integer 2x2
    matrices for 0, 90, 180 and 270 degrees counter-clockwise. There are no
    reflections, so mirror images stay distinct shapes. */
module Rotation {
  import opened Vector

  /** A 2x2 integer matrix in row-major order, as `Matrix2::new(m11, m12, m21, m22)`. */
  datatype Mat2 = Mat2(m11: int, m12: int, m21: int, m22: int)

  /** Matrix times column vector. */
  function Apply(m: Mat2, v: Vec2): Vec2 {
    Vec2(m.m11 * v.x + m.m12 * v.y, m.m21 * v.x + m.m22 * v.y)
  }

  function Determinant(m: Mat2): int {
    m.m11 * m.m22 - m.m12 * m.m21
  }

  /** `ROTATIONS`, the i32 table: 0, 90, 180, 270 degrees counter-clockwise. */
  const Rotations: seq<Mat2> := [
    Mat2(1, 0, 0, 1),
    Mat2(0, -1, 1, 0),
    Mat2(-1, 0, 0, -1),
    Mat2(0, 1, -1, 0)
  ]

  /** `ROTATIONS8`, the i8 table, written out separately in the source. */
  const Rotations8: seq<Mat2> := [
    Mat2(1, 0, 0, 1),
    Mat2(0, -1, 1, 0),
    Mat2(-1, 0, 0, -1),
    Mat2(0, 1, -1, 0)
  ]

  /** The table's entries, one by one. */
  lemma TableEntries()
    ensures |Rotations| == 4
    ensures Rotations[0] == Mat2(1, 0, 0, 1) && Rotations[1] == Mat2(0, -1, 1, 0)
    ensures Rotations[2] == Mat2(-1, 0, 0, -1) && Rotations[3] == Mat2(0, 1, -1, 0)
  {
  }

  /** Entry `i` of the table applied to `v`, written out per angle without the
      matrix product (`TurnIsTableEntry` ties the two together). */
  function Turn(i: nat, v: Vec2): Vec2
    requires i < 4
  {
    if i == 0 then v
    else if i == 1 then Vec2(-v.y, v.x)
    else if i == 2 then Vec2(-v.x, -v.y)
    else Vec2(v.y, -v.x)
  }

  /** Each turn is linear: it maps differences to differences. */
  lemma TurnLinear(i: nat, a: Vec2, b: Vec2)
    requires i < 4
    ensures Turn(i, Sub(a, b)) == Sub(Turn(i, a), Turn(i, b))
  {
  }

  /** Entry `i` applied to a point, written out per angle. */
  lemma RotationTable(v: Vec2)
    ensures |Rotations| == 4
    ensures Apply(Rotations[0], v) == v
    ensures Apply(Rotations[1], v) == Vec2(-v.y, v.x)
    ensures Apply(Rotations[2], v) == Vec2(-v.x, -v.y)
    ensures Apply(Rotations[3], v) == Vec2(v.y, -v.x)
  {
  }

  /** `Turn` is the product of each table's entry `i` with the point. */
  lemma TurnIsTableEntry(i: nat, v: Vec2)
    requires i < 4
    ensures Turn(i, v) == Apply(Rotations[i], v)
    ensures Turn(i, v) == Apply(Rotations8[i], v)
  {
    RotationTable(v);
  }

  /** `ROTATIONS8[i] * v`, computed as the matrix product; the result is the
      point turned by the entry's angle. */
  method MulVec(i: nat, v: Vec2) returns (r: Vec2)
    requires i < 4
    ensures r == Turn(i, v)
  {
    r := Apply(Rotations8[i], v);
    TurnIsTableEntry(i, v);
  }

  /** The 180 degree entry is the 90 degree entry applied twice. */
  lemma HalfTurnIsTwoQuarterTurns(v: Vec2)
    ensures Apply(Rotations[1], Apply(Rotations[1], v)) == Apply(Rotations[2], v)
  {
    RotationTable(v);
    RotationTable(Apply(Rotations[1], v));
  }

  /** The 270 degree entry undoes the 90 degree entry, in either order. */
  lemma ThreeQuarterTurnInverts(v: Vec2)
    ensures Apply(Rotations[3], Apply(Rotations[1], v)) == v
    ensures Apply(Rotations[1], Apply(Rotations[3], v)) == v
  {
    RotationTable(v);
    RotationTable(Apply(Rotations[1], v));
    RotationTable(Apply(Rotations[3], v));
  }

  /** Four quarter turns give back the point. */
  lemma QuarterTurnHasOrderFour(v: Vec2)
    ensures Apply(Rotations[1], Apply(Rotations[1], Apply(Rotations[1], Apply(Rotations[1], v)))) == v
  {
    var v1 := Apply(Rotations[1], v);
    var v2 := Apply(Rotations[1], v1);
    var v3 := Apply(Rotations[1], v2);
    RotationTable(v);
    RotationTable(v1);
    RotationTable(v2);
    RotationTable(v3);
  }

  /** The table is closed under composition: rotating by entry `i` and then by
      entry `j` is rotating by entry `(i + j) % 4`. */
  lemma ApplyTwice(i: nat, j: nat, v: Vec2)
    requires i < 4 && j < 4
    ensures Apply(Rotations[j], Apply(Rotations[i], v)) == Apply(Rotations[(i + j) % 4], v)
  {
    RotationTable(v);
    RotationTable(Apply(Rotations[i], v));
  }

  /** Every entry is a proper rotation (determinant 1): the group holds no reflection,
      so a shape and its mirror image are not identified. */
  lemma NoReflections(i: nat)
    requires i < 4
    ensures Determinant(Rotations[i]) == 1
    ensures Rotations[i] != Mat2(-1, 0, 0, 1) && Rotations[i] != Mat2(1, 0, 0, -1)
  {
  }

  /** The i8 and i32 tables hold the same four matrices in the same order. */
  lemma NarrowTableAgrees()
    ensures Rotations8 == Rotations
  {
  }

  /** Rotation preserves edge adjacency between cells. */
  lemma RotationKeepsAdjacency(i: nat, a: Vec2, b: Vec2)
    requires i < 4
    ensures Adjacent(Apply(Rotations[i], a), Apply(Rotations[i], b)) <==> Adjacent(a, b)
  {
    RotationTable(a);
    RotationTable(b);
  }

  /** Rotation is injective. */
  lemma RotationInjective(i: nat, a: Vec2, b: Vec2)
    requires i < 4
    ensures Apply(Rotations[i], a) == Apply(Rotations[i], b) <==> a == b
  {
    RotationTable(a);
    RotationTable(b);
  }
}
