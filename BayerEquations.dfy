/** The per-pixel formulas of the demosaicing passes (RawLibrary/BayerAlgorithm.cs).
    Every formula reads a row-major byte plane; an arithmetic right shift
    `v >> k` of a C# `int` rounds toward negative infinity, which is Dafny's
    division by `2^k`, so `>> 1`, `>> 2` and `>> 3` are written `/ 2`, `/ 4`
    and `/ 8`. */
module BayerEquations {
  import opened Common
  import opened PixelMath
  import opened Grid
  import opened BayerGeometry

  // ---------------------------------------------------------------------
  // Green estimators (the FIR filters of the VCD paper, equations 3 to 5)
  // ---------------------------------------------------------------------

  /** The horizontal tap sum `-r[i-2] + 2r[i-1] + 2r[i] + 2r[i+1] - r[i+2]`. */
  function HorizontalTaps(raw: seq<byte>, i: int): int
    requires 2 <= i && i + 2 < |raw|
  {
    var l2, l1, c, r1, r2 := raw[i - 2] as int, raw[i - 1] as int, raw[i] as int, raw[i + 1] as int, raw[i + 2] as int;
    -l2 + 2 * l1 + 2 * c + 2 * r1 - r2
  }

  /** The same taps along a column. */
  function VerticalTaps(raw: seq<byte>, w: int, i: int): int
    requires w >= 1 && 2 * w <= i && i + 2 * w < |raw|
  {
    var u2, u1, c, d1, d2 := raw[i - 2 * w] as int, raw[i - w] as int, raw[i] as int, raw[i + w] as int, raw[i + 2 * w] as int;
    -u2 + 2 * u1 + 2 * c + 2 * d1 - d2
  }

  /** Equation 3: the horizontal green estimate. */
  function Eq3At(raw: seq<byte>, i: int): byte
    requires 2 <= i && i + 2 < |raw|
  {
    ByteClamp(HorizontalTaps(raw, i) / 4)
  }

  /** Equation 4: the vertical green estimate. */
  function Eq4At(raw: seq<byte>, w: int, i: int): byte
    requires w >= 1 && 2 * w <= i && i + 2 * w < |raw|
  {
    ByteClamp(VerticalTaps(raw, w, i) / 4)
  }

  /** Equation 5: the cross-shaped estimate, both tap lines with the centre
      counted once in each. */
  function Eq5At(raw: seq<byte>, w: int, i: int): byte
    requires w >= 2 && 2 * w <= i && i + 2 * w < |raw|
  {
    var u2, u1, d1, d2 := raw[i - 2 * w] as int, raw[i - w] as int, raw[i + w] as int, raw[i + 2 * w] as int;
    var l2, l1, c, r1, r2 := raw[i - 2] as int, raw[i - 1] as int, raw[i] as int, raw[i + 1] as int, raw[i + 2] as int;
    ByteClamp((-u2 + 2 * u1 - l2 + 2 * l1 + 4 * c + 2 * r1 - r2 + 2 * d1 - d2) / 8)
  }

  /** On a linear ramp along the row the horizontal filter returns the centre
      sample: the filter is exact on first-order gradients. */
  lemma Eq3ReproducesRamps(raw: seq<byte>, i: int, b: int)
    requires 2 <= i && i + 2 < |raw|
    requires raw[i - 2] == raw[i] - 2 * b && raw[i - 1] == raw[i] - b
    requires raw[i + 1] == raw[i] + b && raw[i + 2] == raw[i] + 2 * b
    ensures Eq3At(raw, i) == raw[i]
  {
    assert HorizontalTaps(raw, i) == 4 * (raw[i] as int);
  }

  /** The vertical filter is exact on ramps along the column. */
  lemma Eq4ReproducesRamps(raw: seq<byte>, w: int, i: int, b: int)
    requires w >= 1 && 2 * w <= i && i + 2 * w < |raw|
    requires raw[i - 2 * w] == raw[i] - 2 * b && raw[i - w] == raw[i] - b
    requires raw[i + w] == raw[i] + b && raw[i + 2 * w] == raw[i] + 2 * b
    ensures Eq4At(raw, w, i) == raw[i]
  {
    assert VerticalTaps(raw, w, i) == 4 * (raw[i] as int);
  }

  /** The cross filter is exact on planar ramps (independent slopes along
      the row and along the column). */
  lemma Eq5ReproducesPlanes(raw: seq<byte>, w: int, i: int, sx: int, sy: int)
    requires w >= 2 && 2 * w <= i && i + 2 * w < |raw|
    requires raw[i - 2] == raw[i] - 2 * sx && raw[i - 1] == raw[i] - sx
    requires raw[i + 1] == raw[i] + sx && raw[i + 2] == raw[i] + 2 * sx
    requires raw[i - 2 * w] == raw[i] - 2 * sy && raw[i - w] == raw[i] - sy
    requires raw[i + w] == raw[i] + sy && raw[i + 2 * w] == raw[i] + 2 * sy
    ensures Eq5At(raw, w, i) == raw[i]
  {
  }

  // ---------------------------------------------------------------------
  // Gradient activity (equations 6 and 7) and the edge ratio E
  // ---------------------------------------------------------------------

  /** `mWidth[m]`: the offset of row `m` of the 5x5 window, `(m - 2) * w`. */
  function WindowRow(w: int, m: int): (o: int)
    requires 0 <= m < 5
    ensures o == (m - 2) * w
  {
    if m == 0 then -2 * w else if m == 1 then -w else if m == 2 then 0
    else if m == 3 then w else 2 * w
  }

  /** The window around `i` lies inside the plane. */
  predicate WindowInside(raw: seq<byte>, w: int, i: int)
  {
    w >= 4 && 2 * w + 2 <= i && i + 2 * w + 2 < |raw|
  }

  /** Distances of the four row neighbours of `c` from `c`. */
  function RowActivity(raw: seq<byte>, c: int): nat
    requires 2 <= c && c + 2 < |raw|
  {
    Abs(raw[c - 2] as int - raw[c]) + Abs(raw[c - 1] as int - raw[c])
      + Abs(raw[c + 1] as int - raw[c]) + Abs(raw[c + 2] as int - raw[c])
  }

  /** Distances of the four column neighbours of `c` from `c`. */
  function ColumnActivity(raw: seq<byte>, w: int, c: int): nat
    requires w >= 1 && 2 * w <= c && c + 2 * w < |raw|
  {
    Abs(raw[c - 2 * w] as int - raw[c]) + Abs(raw[c - w] as int - raw[c])
      + Abs(raw[c + w] as int - raw[c]) + Abs(raw[c + 2 * w] as int - raw[c])
  }

  /** Equation 6 accumulated over the first `m` rows of the window: the sum
      the source builds in `m_Eq6[i]` (or `eq6`) after `m` iterations. */
  function HorizontalActivity(raw: seq<byte>, w: int, i: int, m: nat): (e: nat)
    requires WindowInside(raw, w, i) && m <= 5
    ensures e <= 1020 * m
  {
    if m == 0 then 0
    else HorizontalActivity(raw, w, i, m - 1) + RowActivity(raw, i + WindowRow(w, m - 1))
  }

  /** Equation 7 accumulated over the first `k` columns `n = -2 .. k - 3`. */
  function VerticalActivity(raw: seq<byte>, w: int, i: int, k: nat): (e: nat)
    requires WindowInside(raw, w, i) && k <= 5
    ensures e <= 1020 * k
  {
    if k == 0 then 0
    else VerticalActivity(raw, w, i, k - 1) + ColumnActivity(raw, w, i + (k - 3))
  }

  /** Row `m` of the window around `i` is constant. */
  predicate RowFlat(raw: seq<byte>, w: int, i: int, m: int)
    requires WindowInside(raw, w, i) && 0 <= m < 5
  {
    var c := i + WindowRow(w, m);
    raw[c - 2] == raw[c] && raw[c - 1] == raw[c] && raw[c + 1] == raw[c] && raw[c + 2] == raw[c]
  }

  /** Column `n` (from -2 to 2) of the window around `i` is constant. */
  predicate ColumnFlat(raw: seq<byte>, w: int, i: int, n: int)
    requires WindowInside(raw, w, i) && -2 <= n <= 2
  {
    var c := i + n;
    raw[c - 2 * w] == raw[c] && raw[c - w] == raw[c] && raw[c + w] == raw[c] && raw[c + 2 * w] == raw[c]
  }

  /** Equation 6 vanishes exactly when every row of the 5x5 window is flat. */
  lemma {:induction false} HorizontalActivityZero(raw: seq<byte>, w: int, i: int, m: nat)
    requires WindowInside(raw, w, i) && m <= 5
    ensures HorizontalActivity(raw, w, i, m) == 0 <==> forall r | 0 <= r < m :: RowFlat(raw, w, i, r)
  {
    if m > 0 {
      HorizontalActivityZero(raw, w, i, m - 1);
      var c := i + WindowRow(w, m - 1);
      assert RowActivity(raw, c) == 0 <==> RowFlat(raw, w, i, m - 1);
      assert (forall r | 0 <= r < m :: RowFlat(raw, w, i, r)) <==>
        (forall r | 0 <= r < m - 1 :: RowFlat(raw, w, i, r)) && RowFlat(raw, w, i, m - 1);
    }
  }

  /** Equation 7 vanishes exactly when every column of the window is flat. */
  lemma {:induction false} VerticalActivityZero(raw: seq<byte>, w: int, i: int, k: nat)
    requires WindowInside(raw, w, i) && k <= 5
    ensures VerticalActivity(raw, w, i, k) == 0 <==> forall n | -2 <= n < k - 2 :: ColumnFlat(raw, w, i, n)
  {
    if k > 0 {
      VerticalActivityZero(raw, w, i, k - 1);
      assert ColumnActivity(raw, w, i + (k - 3)) == 0 <==> ColumnFlat(raw, w, i, k - 3);
      assert (forall n | -2 <= n < k - 2 :: ColumnFlat(raw, w, i, n)) <==>
        (forall n | -2 <= n < k - 3 :: ColumnFlat(raw, w, i, n)) && ColumnFlat(raw, w, i, k - 3);
    }
  }

  /** A `double` value produced by the ratio `Math.Max(e7 / e6, e6 / e7)`:
      `0 / 0` is not a number and `x / 0` for `x > 0` is positive infinity. */
  datatype Ratio = NaN | PosInf | Finite(v: real)

  /** `m_EqE[i]`, computed from the two activities. */
  function EdgeRatio(e6: nat, e7: nat): (r: Ratio)
    ensures r.Finite? <==> e6 > 0 && e7 > 0
    ensures r.Finite? ==> r.v >= 1.0
  {
    if e6 == 0 && e7 == 0 then NaN
    else if e6 == 0 || e7 == 0 then PosInf
    else
      var a, b := e7 as real / e6 as real, e6 as real / e7 as real;
      DivAtLeastOne(e7 as real, e6 as real);
      DivAtLeastOne(e6 as real, e7 as real);
      Finite(if a >= b then a else b)
  }

  lemma DivAtLeastOne(p: real, q: real)
    requires q > 0.0 && p > 0.0
    ensures p >= q ==> p / q >= 1.0
    ensures p < q ==> q / p > 1.0
  {
  }

  /** `m_EqE[i] > m_threshold`: every comparison with NaN is false. */
  predicate Exceeds(r: Ratio, t: real)
  {
    match r
    case NaN => false
    case PosInf => true
    case Finite(v) => v > t
  }

  lemma DivGreater(p: real, q: real, t: real)
    requires q > 0.0
    ensures p / q > t <==> p > t * q
  {
    assert (p / q) * q == p;
    if p / q > t {
      assert (p / q - t) * q > 0.0;
    }
    if p > t * q {
      assert (p / q - t) * q == p - t * q;
    }
  }

  /** The sharp-block test needs no division: it holds when exactly one of
      the activities is zero, or when one exceeds `t` times the other. */
  lemma SharpByCrossMultiplication(e6: nat, e7: nat, t: real)
    ensures Exceeds(EdgeRatio(e6, e7), t) <==>
      (e6 == 0) != (e7 == 0) ||
      (e6 > 0 && e7 > 0 && (e7 as real > t * e6 as real || e6 as real > t * e7 as real))
  {
    if e6 > 0 && e7 > 0 {
      DivGreater(e7 as real, e6 as real, t);
      DivGreater(e6 as real, e7 as real, t);
    }
  }

  // ---------------------------------------------------------------------
  // The VCD decision (Chung and Chan, "Color Demosaicing Using Variance of
  // Color Differences")
  // ---------------------------------------------------------------------

  /** The direction whose estimate a non-green site receives: Eq3
      (horizontal), Eq4 (vertical) or Eq5 (both). */
  datatype Direction = Horizontal | Vertical | Cross

  /** The colour-difference variances of the 9x9 block: `H2`, `V2`, `B2`. */
  datatype Variances = Variances(h2: real, v2: real, b2: real)

  function Score(s: Variances, d: Direction): real
  {
    match d
    case Horizontal => s.h2
    case Vertical => s.v2
    case Cross => s.b2
  }

  /** The decision of every VCD `InterpolateGreen`: a sharp block follows the
      weaker gradient; otherwise the direction with the smallest variance
      wins, ties going to horizontal, then vertical. */
  function VcdDirection(e: Ratio, t: real, e6: int, e7: int, s: Variances): Direction
  {
    if Exceeds(e, t) then (if e6 < e7 then Horizontal else Vertical)
    else if s.h2 <= s.v2 then (if s.h2 <= s.b2 then Horizontal else Cross)
    else if s.v2 <= s.b2 then Vertical
    else Cross
  }

  function Estimate(d: Direction, eq3: byte, eq4: byte, eq5: byte): byte
  {
    match d
    case Horizontal => eq3
    case Vertical => eq4
    case Cross => eq5
  }

  /** In a sharp block the direction is along the smaller activity and never
      the cross; elsewhere it has the least variance, and the tie-break
      order is horizontal, vertical, cross. */
  lemma VcdDirectionIsOptimal(e: Ratio, t: real, e6: int, e7: int, s: Variances)
    ensures var d := VcdDirection(e, t, e6, e7, s);
      (Exceeds(e, t) ==> d != Cross && (d == Horizontal <==> e6 < e7)) &&
      (!Exceeds(e, t) ==>
        Score(s, d) <= s.h2 && Score(s, d) <= s.v2 && Score(s, d) <= s.b2 &&
        (d == Vertical ==> s.v2 < s.h2) &&
        (d == Cross ==> s.b2 < s.h2 && s.b2 < s.v2))
  {
  }

  // ---------------------------------------------------------------------
  // Red and blue from colour differences (equations 19 to 23)
  // ---------------------------------------------------------------------

  /** The colour difference `raw - green` at index `k`. */
  function Diff(raw: seq<byte>, grn: seq<byte>, k: int): int
    requires 0 <= k < |raw| && k < |grn|
  {
    raw[k] as int - grn[k]
  }

  /** `Eq19_22(pos)`: green plus the mean colour difference of the left and
      right neighbours. */
  function Eq19_22(raw: seq<byte>, grn: seq<byte>, pos: int): byte
    requires |grn| == |raw| && 1 <= pos && pos + 1 < |raw|
  {
    ByteClamp(grn[pos] + (Diff(raw, grn, pos - 1) + Diff(raw, grn, pos + 1)) / 2)
  }

  /** `Eq20_21(pos)`: the same with the upper and lower neighbours. */
  function Eq20_21(raw: seq<byte>, grn: seq<byte>, w: int, pos: int): byte
    requires |grn| == |raw| && w >= 1 && w <= pos && pos + w < |raw|
  {
    ByteClamp(grn[pos] + (Diff(raw, grn, pos - w) + Diff(raw, grn, pos + w)) / 2)
  }

  /** `Eq23(pos)`: the same with the four diagonal neighbours. */
  function Eq23(raw: seq<byte>, grn: seq<byte>, w: int, pos: int): byte
    requires |grn| == |raw| && w >= 1 && w + 1 <= pos && pos + w + 1 < |raw|
  {
    ByteClamp(grn[pos] + (Diff(raw, grn, pos - w - 1) + Diff(raw, grn, pos - w + 1)
                          + Diff(raw, grn, pos + w - 1) + Diff(raw, grn, pos + w + 1)) / 4)
  }

  /** Where the neighbours share one colour difference `d`, the estimators
      restore it exactly (as long as the result is a byte). */
  lemma ConstantDifferenceRestored(raw: seq<byte>, grn: seq<byte>, w: int, pos: int, d: int)
    requires |grn| == |raw| && w >= 1 && w + 1 <= pos && pos + w + 1 < |raw|
    requires 0 <= grn[pos] + d <= 255
    ensures Diff(raw, grn, pos - 1) == d && Diff(raw, grn, pos + 1) == d ==>
      Eq19_22(raw, grn, pos) == grn[pos] + d
    ensures Diff(raw, grn, pos - w) == d && Diff(raw, grn, pos + w) == d ==>
      Eq20_21(raw, grn, w, pos) == grn[pos] + d
    ensures Diff(raw, grn, pos - w - 1) == d && Diff(raw, grn, pos - w + 1) == d &&
            Diff(raw, grn, pos + w - 1) == d && Diff(raw, grn, pos + w + 1) == d ==>
      Eq23(raw, grn, w, pos) == grn[pos] + d
  {
  }

  /** The border-aware `Eq19_22(x, y, pos)`: a missing left (right)
      neighbour is replaced by the right (left) one. */
  function Eq19_22Border(g: Geometry, raw: seq<byte>, grn: seq<byte>, x: int, y: int): byte
    requires WellFormed(g) && InFrame(g, x, y) && |raw| == |grn| == g.w * g.h
  {
    var a := At(g, Reflect(x, -1, g.w), y);
    var b := At(g, Reflect(x, 1, g.w), y);
    ByteClamp(grn[At(g, x, y)] + (Diff(raw, grn, a) + Diff(raw, grn, b)) / 2)
  }

  /** The border-aware `Eq20_21(x, y, pos)`. */
  function Eq20_21Border(g: Geometry, raw: seq<byte>, grn: seq<byte>, x: int, y: int): byte
    requires WellFormed(g) && InFrame(g, x, y) && |raw| == |grn| == g.w * g.h
  {
    var a := At(g, x, Reflect(y, -1, g.h));
    var b := At(g, x, Reflect(y, 1, g.h));
    ByteClamp(grn[At(g, x, y)] + (Diff(raw, grn, a) + Diff(raw, grn, b)) / 2)
  }

  /** The border-aware `Eq23(x, y, pos)`, as written: its four samples are
      the reflected neighbours at offsets (-1,-1), (1,-1), (-1,1) and again
      (-1,-1); the lower-right neighbour is never read. */
  function Eq23Border(g: Geometry, raw: seq<byte>, grn: seq<byte>, x: int, y: int): byte
    requires WellFormed(g) && InFrame(g, x, y) && |raw| == |grn| == g.w * g.h
  {
    var pos := At(g, x, y);
    CheckPixelIndexReflects(g, x, y, -1, -1);
    CheckPixelIndexReflects(g, x, y, 1, -1);
    CheckPixelIndexReflects(g, x, y, -1, 1);
    var a := CheckPixelIndex(g, x, y, -1, -1, pos);
    var b := CheckPixelIndex(g, x, y, 1, -1, pos);
    var c := CheckPixelIndex(g, x, y, -1, 1, pos);
    var d := CheckPixelIndex(g, x, y, -1, -1, pos);
    ByteClamp(grn[pos] + (Diff(raw, grn, a) + Diff(raw, grn, b)
                          + Diff(raw, grn, c) + Diff(raw, grn, d)) / 4)
  }

  /** Away from the left and right border the two arities of `Eq19_22`
      agree. */
  lemma Eq19_22BorderAgreesInside(g: Geometry, raw: seq<byte>, grn: seq<byte>, x: int, y: int)
    requires WellFormed(g) && InFrame(g, x, y) && |raw| == |grn| == g.w * g.h
    requires 1 <= x < g.w - 1
    ensures Eq19_22Border(g, raw, grn, x, y) == Eq19_22(raw, grn, At(g, x, y))
  {
    var pos := At(g, x, y);
    assert At(g, Reflect(x, -1, g.w), y) == pos - 1;
    assert At(g, Reflect(x, 1, g.w), y) == pos + 1;
  }

  /** Away from the top and bottom border the two arities of `Eq20_21`
      agree. */
  lemma Eq20_21BorderAgreesInside(g: Geometry, raw: seq<byte>, grn: seq<byte>, x: int, y: int)
    requires WellFormed(g) && InFrame(g, x, y) && |raw| == |grn| == g.w * g.h
    requires 1 <= y < g.h - 1
    ensures Eq20_21Border(g, raw, grn, x, y) == Eq20_21(raw, grn, g.w, At(g, x, y))
  {
    var pos := At(g, x, y);
    assert (y - 1) * g.w == y * g.w - g.w;
    assert (y + 1) * g.w == y * g.w + g.w;
    assert At(g, x, Reflect(y, -1, g.h)) == pos - g.w;
    assert At(g, x, Reflect(y, 1, g.h)) == pos + g.w;
  }

  /** The duplicated sample: inside the frame the border-aware `Eq23` weighs
      the upper-left difference twice and drops the lower-right one. */
  lemma Eq23BorderWeighsUpperLeftTwice(g: Geometry, raw: seq<byte>, grn: seq<byte>, x: int, y: int)
    requires WellFormed(g) && |raw| == |grn| == g.w * g.h
    requires 1 <= x < g.w - 1 && 1 <= y < g.h - 1
    ensures Eq23Border(g, raw, grn, x, y) ==
      ByteClamp(grn[At(g, x, y)] + (2 * Diff(raw, grn, At(g, x - 1, y - 1))
        + Diff(raw, grn, At(g, x + 1, y - 1)) + Diff(raw, grn, At(g, x - 1, y + 1))) / 4)
  {
    CheckPixelIndexReflects(g, x, y, -1, -1);
    CheckPixelIndexReflects(g, x, y, 1, -1);
    CheckPixelIndexReflects(g, x, y, -1, 1);
  }

  /** A 4x4 BG_GR frame whose only colour difference sits at the
      lower-right diagonal neighbour of pixel (1, 1): the interior `Eq23`
      sees it, the border-aware one does not. */
  lemma Eq23BorderMissesLowerRight()
    ensures var g := Geometry(4, 4, 1);
      var raw: seq<byte> := seq(16, k => if k == 10 then 255 else 0);
      var grn: seq<byte> := seq(16, k => 0);
      Eq23(raw, grn, 4, 5) == 63 && Eq23Border(g, raw, grn, 1, 1) == 0
  {
    var g := Geometry(4, 4, 1);
    var raw: seq<byte> := seq(16, k => if k == 10 then 255 else 0);
    var grn: seq<byte> := seq(16, k => 0);
    Eq23BorderWeighsUpperLeftTwice(g, raw, grn, 1, 1);
    assert At(g, 1, 1) == 5 && At(g, 0, 0) == 0 && At(g, 2, 0) == 2 && At(g, 0, 2) == 8;
  }

  /** The border-aware `Eq23` with its fourth sample at the lower-right
      offset (1,1), as the other three and the interior `Eq23` suggest. */
  function Eq23BorderIntended(g: Geometry, raw: seq<byte>, grn: seq<byte>, x: int, y: int): byte
    requires WellFormed(g) && InFrame(g, x, y) && |raw| == |grn| == g.w * g.h
  {
    var pos := At(g, x, y);
    CheckPixelIndexReflects(g, x, y, -1, -1);
    CheckPixelIndexReflects(g, x, y, 1, -1);
    CheckPixelIndexReflects(g, x, y, -1, 1);
    CheckPixelIndexReflects(g, x, y, 1, 1);
    var a := CheckPixelIndex(g, x, y, -1, -1, pos);
    var b := CheckPixelIndex(g, x, y, 1, -1, pos);
    var c := CheckPixelIndex(g, x, y, -1, 1, pos);
    var d := CheckPixelIndex(g, x, y, 1, 1, pos);
    ByteClamp(grn[pos] + (Diff(raw, grn, a) + Diff(raw, grn, b)
                          + Diff(raw, grn, c) + Diff(raw, grn, d)) / 4)
  }

  /** Away from every border the corrected border-aware `Eq23` is the
      interior `Eq23`. */
  lemma Eq23BorderIntendedAgreesInside(g: Geometry, raw: seq<byte>, grn: seq<byte>, x: int, y: int)
    requires WellFormed(g) && |raw| == |grn| == g.w * g.h
    requires 1 <= x < g.w - 1 && 1 <= y < g.h - 1
    ensures Eq23BorderIntended(g, raw, grn, x, y) == Eq23(raw, grn, g.w, At(g, x, y))
  {
    var pos := At(g, x, y);
    CheckPixelIndexReflects(g, x, y, -1, -1);
    CheckPixelIndexReflects(g, x, y, 1, -1);
    CheckPixelIndexReflects(g, x, y, -1, 1);
    CheckPixelIndexReflects(g, x, y, 1, 1);
    assert (y - 1) * g.w == y * g.w - g.w && (y + 1) * g.w == y * g.w + g.w;
    assert At(g, x - 1, y - 1) == pos - g.w - 1 && At(g, x + 1, y - 1) == pos - g.w + 1;
    assert At(g, x - 1, y + 1) == pos + g.w - 1 && At(g, x + 1, y + 1) == pos + g.w + 1;
  }

  /** The corrected estimator sees the difference the as-written one drops:
      on the frame of `Eq23BorderMissesLowerRight` it gives 63. */
  lemma Eq23BorderIntendedSeesLowerRight()
    ensures var g := Geometry(4, 4, 1);
      var raw: seq<byte> := seq(16, k => if k == 10 then 255 else 0);
      var grn: seq<byte> := seq(16, k => 0);
      Eq23BorderIntended(g, raw, grn, 1, 1) == 63
  {
    var g := Geometry(4, 4, 1);
    var raw: seq<byte> := seq(16, k => if k == 10 then 255 else 0);
    var grn: seq<byte> := seq(16, k => 0);
    Eq23BorderIntendedAgreesInside(g, raw, grn, 1, 1);
    assert At(g, 1, 1) == 5;
  }

  // ---------------------------------------------------------------------
  // The colour-difference taps of the variance estimates
  // ---------------------------------------------------------------------

  /** `n * step` stays within four steps of the centre. */
  lemma TapOffset(n: int, step: int)
    requires -4 <= n <= 4 && step >= 1
    ensures -4 * step <= n * step <= 4 * step
  {
    if n >= 0 {
      MulLe(n, 4, step);
    } else {
      MulLe(-n, 4, step);
      assert (-n) * step == -(n * step);
    }
  }

  /** `Eq13_15(x, y, n)` (step 1, estimate plane Eq3), `Eq14_16` (step `w`,
      Eq4), `Eq13_15b` (step 1, Eq5) and `Eq14_16b` (step `w`, Eq5): the
      colour difference at tap `n` of the line through `center`. Taps -4 and
      -2 use the green already interpolated, taps 0, 2 and 4 the estimate,
      and an odd tap is the floor mean of its two even neighbours. */
  function ColourDiffTap(raw: seq<byte>, grn: seq<byte>, est: seq<byte>, center: int, step: int, n: int): (r: int)
    requires -4 <= n <= 4 && step >= 1
    requires |grn| == |raw| && |est| == |raw|
    requires 0 <= center - 4 * step && center + 4 * step < |raw|
    ensures -255 <= r <= 255
    decreases if n % 2 == 0 then 0 else 1
  {
    TapOffset(n, step);
    var pos := center + n * step;
    if n == -2 || n == -4 then raw[pos] as int - grn[pos]
    else if n == 0 || n == 2 || n == 4 then raw[pos] as int - est[pos]
    else (ColourDiffTap(raw, grn, est, center, step, n - 1)
          + ColourDiffTap(raw, grn, est, center, step, n + 1)) / 2
  }

  /** Every tap lies between the even taps around it, so a colour difference
      that is constant on the even taps is constant on all nine. */
  lemma ColourDiffTapBetween(raw: seq<byte>, grn: seq<byte>, est: seq<byte>, center: int, step: int, n: int)
    requires -4 <= n <= 4 && n % 2 != 0 && step >= 1
    requires |grn| == |raw| && |est| == |raw|
    requires 0 <= center - 4 * step && center + 4 * step < |raw|
    ensures var lo := ColourDiffTap(raw, grn, est, center, step, n - 1);
      var hi := ColourDiffTap(raw, grn, est, center, step, n + 1);
      var t := ColourDiffTap(raw, grn, est, center, step, n);
      (lo <= hi ==> lo <= t <= hi) && (hi <= lo ==> hi <= t <= lo) && (lo == hi ==> t == lo)
  {
  }
}
