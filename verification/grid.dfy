/** The bit-packed occupancy grid of a shape: one integer per row (row index = y),
    one bit per column (bit index = x), compared as a whole with the
    lexicographic order of Rust's `Vec`. Rows are modelled as unbounded naturals;
    the packing width is a capacity limit stated as `RowWidth`. */
module Grid {
  import opened Vector

  /** Columns that fit in a row. The minimal shape packs rows into `i32` with the
      literal `0x1 << x`; below 31 columns every row is non-negative, so the
      signed rows and the `u64` rows of the grid-carrying shape hold the same
      values and compare the same way. */
  const RowWidth: nat := 31

  type Row = nat

  type Grid = seq<Row>

  function Pow2(k: nat): (r: nat)
    ensures r >= 1
  {
    if k == 0 then 1 else 2 * Pow2(k - 1)
  }

  /** `(row >> i) & 0x1 != 0`. */
  predicate BitSet(row: Row, i: nat) {
    if i == 0 then row % 2 == 1 else BitSet(row / 2, i - 1)
  }

  /** Adding the bit `2^x` to a row that lacks it sets exactly bit `x`. */
  lemma {:induction false} AddBit(row: Row, x: nat, i: nat)
    requires !BitSet(row, x)
    ensures BitSet(row + Pow2(x), i) <==> BitSet(row, i) || i == x
  {
    if x == 0 {
      if i > 0 {
        assert (row + 1) / 2 == row / 2;
      }
    } else {
      assert Pow2(x) == 2 * Pow2(x - 1);
      if i > 0 {
        assert (row + Pow2(x)) / 2 == row / 2 + Pow2(x - 1);
        AddBit(row / 2, x - 1, i - 1);
      }
    }
  }

  /** `row | (0x1 << x)`: sets bit `x` and leaves every other bit as it was. */
  function SetBit(row: Row, x: nat): (r: Row)
    ensures BitSet(r, x)
    ensures forall i: nat | i != x :: BitSet(r, i) == BitSet(row, i)
  {
    if BitSet(row, x) then row
    else
      assert forall i: nat :: BitSet(row + Pow2(x), i) <==> BitSet(row, i) || i == x by {
        forall i: nat ensures BitSet(row + Pow2(x), i) <==> BitSet(row, i) || i == x {
          AddBit(row, x, i);
        }
      }
      row + Pow2(x)
  }

  /** The empty row has no bit set. */
  lemma {:induction false} ZeroHasNoBits(i: nat)
    ensures !BitSet(0, i)
  {
    if i > 0 {
      ZeroHasNoBits(i - 1);
    }
  }

  /** `vec![0; n]`. */
  function Zeros(n: nat): (g: Grid)
    ensures |g| == n && forall y | 0 <= y < n :: g[y] == 0
  {
    seq(n, y => 0)
  }

  /** Every point has non-negative coordinates and a row index below `height`. */
  predicate Fits(pts: seq<Vec2>, height: nat) {
    forall p | p in pts :: 0 <= p.x && 0 <= p.y < height
  }

  /** A prefix of points that fit still fits. */
  lemma FitsPrefix(pts: seq<Vec2>, height: nat, k: nat)
    requires Fits(pts, height) && k <= |pts|
    ensures Fits(pts[..k], height)
    ensures k < |pts| ==> 0 <= pts[k].x && 0 <= pts[k].y < height
  {
    assert forall p | p in pts[..k] :: p in pts;
    if k < |pts| {
      assert pts[k] in pts;
    }
  }

  /** The grid obtained by OR-ing the bit of each point into a zeroed grid,
      points taken in list order. */
  function GridOf(pts: seq<Vec2>, height: nat): (g: Grid)
    requires Fits(pts, height)
    ensures |g| == height
    decreases |pts|
  {
    if pts == [] then Zeros(height)
    else
      var g := GridOf(pts[..|pts| - 1], height);
      var p := pts[|pts| - 1];
      g[p.y := SetBit(g[p.y], p.x)]
  }

  /** The grid of one more point of a list is the previous grid with that
      point's bit set. */
  lemma GridOfStep(pts: seq<Vec2>, height: nat, k: nat)
    requires Fits(pts, height) && k < |pts|
    ensures Fits(pts[..k], height) && Fits(pts[..k + 1], height)
    ensures 0 <= pts[k].x && 0 <= pts[k].y < height
    ensures var g := GridOf(pts[..k], height);
      GridOf(pts[..k + 1], height) == g[pts[k].y := SetBit(g[pts[k].y], pts[k].x)]
  {
    FitsPrefix(pts, height, k);
    FitsPrefix(pts, height, k + 1);
    assert pts[..k + 1][..k] == pts[..k];
  }

  /** Bit `x` of row `y` is set exactly when `(x, y)` is one of the points. */
  lemma {:induction false} GridBits(pts: seq<Vec2>, height: nat, x: nat, y: nat)
    requires Fits(pts, height) && y < height
    ensures BitSet(GridOf(pts, height)[y], x) <==> Vec2(x, y) in pts
  {
    if pts == [] {
      ZeroHasNoBits(x);
    } else {
      var init := pts[..|pts| - 1];
      var p := pts[|pts| - 1];
      assert pts == init + [p];
      GridBits(init, height, x, y);
    }
  }

  /** Two point lists with the same grid hold the same cells. */
  lemma SameGridSameCells(a: seq<Vec2>, b: seq<Vec2>, height: nat)
    requires Fits(a, height) && Fits(b, height)
    requires GridOf(a, height) == GridOf(b, height)
    ensures forall p :: p in a <==> p in b
  {
    forall p | p in a ensures p in b {
      GridBits(a, height, p.x, p.y);
      GridBits(b, height, p.x, p.y);
    }
    forall p | p in b ensures p in a {
      GridBits(a, height, p.x, p.y);
      GridBits(b, height, p.x, p.y);
    }
  }

  /** A row is determined by its bits. */
  lemma {:induction false} BitsDetermineRow(a: Row, b: Row)
    requires forall i: nat :: BitSet(a, i) == BitSet(b, i)
    ensures a == b
    decreases a + b
  {
    assert BitSet(a, 0) == BitSet(b, 0);
    if a != 0 || b != 0 {
      forall i: nat ensures BitSet(a / 2, i) == BitSet(b / 2, i) {
        assert BitSet(a, i + 1) == BitSet(b, i + 1);
      }
      BitsDetermineRow(a / 2, b / 2);
    }
  }

  /** Two point lists holding the same cells have the same grid, whatever their
      order and repetitions. */
  lemma SameCellsSameGrid(a: seq<Vec2>, b: seq<Vec2>, height: nat)
    requires Fits(a, height) && Fits(b, height)
    requires forall p :: p in a <==> p in b
    ensures GridOf(a, height) == GridOf(b, height)
  {
    var ga, gb := GridOf(a, height), GridOf(b, height);
    forall y | 0 <= y < height ensures ga[y] == gb[y] {
      forall x: nat ensures BitSet(ga[y], x) == BitSet(gb[y], x) {
        GridBits(a, height, x, y);
        GridBits(b, height, x, y);
      }
      BitsDetermineRow(ga[y], gb[y]);
    }
  }

  /** Rust's `Ord` on `Vec<_>`: element by element from the front; a proper
      prefix is smaller. */
  predicate LexLe(a: Grid, b: Grid) {
    |a| == 0 || (|b| > 0 && (a[0] < b[0] || (a[0] == b[0] && LexLe(a[1..], b[1..]))))
  }

  lemma {:induction false} LexLeReflexive(a: Grid)
    ensures LexLe(a, a)
  {
    if |a| > 0 {
      LexLeReflexive(a[1..]);
    }
  }

  lemma {:induction false} LexLeAntisymmetric(a: Grid, b: Grid)
    requires LexLe(a, b) && LexLe(b, a)
    ensures a == b
  {
    if |a| > 0 {
      LexLeAntisymmetric(a[1..], b[1..]);
      assert a == [a[0]] + a[1..] && b == [b[0]] + b[1..];
    }
  }

  lemma {:induction false} LexLeTransitive(a: Grid, b: Grid, c: Grid)
    requires LexLe(a, b) && LexLe(b, c)
    ensures LexLe(a, c)
  {
    if |a| > 0 && a[0] == b[0] && b[0] == c[0] {
      LexLeTransitive(a[1..], b[1..], c[1..]);
    }
  }

  lemma {:induction false} LexLeTotal(a: Grid, b: Grid)
    ensures LexLe(a, b) || LexLe(b, a)
  {
    if |a| > 0 && |b| > 0 && a[0] == b[0] {
      LexLeTotal(a[1..], b[1..]);
    }
  }

  /** `min_by_key` over a non-empty list: the index of the smallest grid, the
      first one on ties (the accumulated minimum is replaced only by a strictly
      smaller grid). */
  function FirstMinimum(gs: seq<Grid>): (k: nat)
    requires |gs| > 0
    ensures k < |gs|
    ensures forall j | 0 <= j < |gs| :: LexLe(gs[k], gs[j])
    ensures forall j | 0 <= j < k :: !LexLe(gs[j], gs[k])
  {
    if |gs| == 1 then
      LexLeReflexive(gs[0]);
      0
    else
      var n := |gs| - 1;
      var k := FirstMinimum(gs[..n]);
      assert forall j | 0 <= j < n :: gs[..n][j] == gs[j];
      if LexLe(gs[k], gs[n]) then
        k
      else
        LexLeTotal(gs[k], gs[n]);
        LexLeReflexive(gs[n]);
        assert forall j | 0 <= j < n :: LexLe(gs[n], gs[j]) by {
          forall j | 0 <= j < n ensures LexLe(gs[n], gs[j]) {
            LexLeTransitive(gs[n], gs[k], gs[j]);
          }
        }
        assert forall j | 0 <= j < n :: !LexLe(gs[j], gs[n]) by {
          forall j | 0 <= j < n ensures !LexLe(gs[j], gs[n]) {
            if LexLe(gs[j], gs[n]) {
              LexLeTransitive(gs[k], gs[j], gs[n]);
            }
          }
        }
        n
  }

  /** One more candidate replaces the running minimum exactly when the
      running minimum is not at most the new grid. */
  lemma FirstMinimumStep(gs: seq<Grid>, i: nat)
    requires 0 < i < |gs|
    ensures FirstMinimum(gs[..i + 1]) ==
      (if LexLe(gs[FirstMinimum(gs[..i])], gs[i]) then FirstMinimum(gs[..i]) else i)
  {
    assert gs[..i + 1][..i] == gs[..i];
  }

  /** A grid no larger than every candidate and strictly smaller than every earlier
      candidate is the one `FirstMinimum` picks. */
  lemma FirstMinimumUnique(gs: seq<Grid>, k: nat)
    requires k < |gs|
    requires forall j | 0 <= j < |gs| :: LexLe(gs[k], gs[j])
    requires forall j | 0 <= j < k :: !LexLe(gs[j], gs[k])
    ensures FirstMinimum(gs) == k
  {
    var m := FirstMinimum(gs);
    if m != k {
      LexLeAntisymmetric(gs[m], gs[k]);
    }
  }
}
