/** The loop nest most passes of RawLibrary/BayerAlgorithm.cs share: the
    rows of a window in order, and in each row either every pixel or, two
    columns at a time, the pixels of one checkerboard colour, each written
    with the pass's estimate for it. The nest is written and proved once
    here; each pass supplies its window and its estimate. */
module BayerSweep {
  import opened Grid
  import opened BayerGeometry
  import opened BayerPlanes

  /** Rows `[y0, y1)` and columns `[x0, x1)`; with `every` the loop visits
      every pixel, otherwise the pixels whose `x + y` has parity `parity`,
      stepping `x` and the index `i` by two. */
  datatype Sweep = Sweep(x0: int, x1: int, y0: int, y1: int, every: bool, parity: int)

  /** A window of the frame. */
  predicate Fits(g: Geometry, s: Sweep)
  {
    WellFormed(g) && 0 <= s.x0 <= s.x1 <= g.w && 0 <= s.y0 <= s.y1 <= g.h &&
    (s.parity == 0 || s.parity == 1)
  }

  predicate Visits(s: Sweep, x: int, y: int)
  {
    s.x0 <= x < s.x1 && s.y0 <= y < s.y1 && (s.every || (x + y) % 2 == s.parity)
  }

  function Step(s: Sweep): int
  {
    if s.every then 1 else 2
  }

  /** The plane a sweep leaves: the estimate `f` for each pixel it visits,
      computed from the plane as it was, and `base` everywhere else. */
  function Swept<T>(g: Geometry, s: Sweep, f: Estimate<T>, base: seq<T>): (p: seq<T>)
    requires IsPlane(g, base)
    ensures IsPlane(g, p)
    ensures forall x, y {:trigger p[At(g, x, y)]} | InFrame(g, x, y) ::
      p[At(g, x, y)] == if Visits(s, x, y) then f(base, x, y) else base[At(g, x, y)]
  {
    Tabulate(g, (x, y) => if InFrame(g, x, y) && !Visits(s, x, y) then base[At(g, x, y)] else f(base, x, y))
  }

  /** The estimate of a pass at pixel `(x, y)`, from the plane being written
      as it stands (most passes read other planes only and ignore it). */
  type Estimate<!T> = (seq<T>, int, int) -> T

  /** Two planes that differ at most at the pixels the sweep visits. */
  ghost predicate AgreeOff<T>(g: Geometry, s: Sweep, p: seq<T>, q: seq<T>)
  {
    IsPlane(g, p) && IsPlane(g, q) &&
    forall x, y | InFrame(g, x, y) && !Visits(s, x, y) :: p[At(g, x, y)] == q[At(g, x, y)]
  }

  /** The estimate at a visited pixel reads no pixel the sweep writes
      other than that pixel itself (which still holds its old value when
      it is visited), so the order in which the sweep visits its pixels
      does not change what it writes. */
  ghost predicate ReadsUnvisited<T(!new)>(g: Geometry, s: Sweep, f: Estimate<T>)
  {
    forall p, q, x, y | InFrame(g, x, y) && Visits(s, x, y) && AgreeOff(g, s, p, q) && p[At(g, x, y)] == q[At(g, x, y)] ::
      f(p, x, y) == f(q, x, y)
  }

  /** `a` holds `spec` before index `upTo` and still holds `base` from
      there on. */
  ghost predicate FilledTo<T>(a: array<T>, spec: seq<T>, base: seq<T>, upTo: int)
    reads a
  {
    |spec| == a.Length && |base| == a.Length &&
    forall k {:trigger a[k]} | 0 <= k < a.Length :: a[k] == if k < upTo then spec[k] else base[k]
  }

  /** A run where the specification keeps `base` is already filled. */
  lemma Skip<T>(a: array<T>, spec: seq<T>, base: seq<T>, i: int, j: int)
    requires FilledTo(a, spec, base, i) && 0 <= i <= j <= a.Length
    requires forall k | i <= k < j :: spec[k] == base[k]
    ensures FilledTo(a, spec, base, j)
  {
  }

  /** Writing the specified value at the first unfilled index extends the
      filled prefix by one. */
  lemma Extend<T>(a: array<T>, before: seq<T>, spec: seq<T>, base: seq<T>, i: int)
    requires 0 <= i < a.Length == |before| == |spec| == |base| && a[i] == spec[i]
    requires forall k | 0 <= k < a.Length && k != i :: a[k] == before[k]
    requires forall k | 0 <= k < |before| :: before[k] == if k < i then spec[k] else base[k]
    ensures FilledTo(a, spec, base, i + 1)
  {
  }

  /** A pixel index below row `y0` belongs to a row above it, one at or
      past row `y1` to a row at or below it. */
  lemma RowOfIndex(w: int, k: int, x: int, y: int, y0: int, y1: int)
    requires w > 0 && 0 <= x < w && 0 <= y && 0 <= y0 && 0 <= y1 && k == y * w + x
    ensures k < y0 * w ==> y < y0
    ensures y1 * w <= k ==> y1 <= y
  {
    if y0 <= y {
      MulLe(y0, y, w);
    }
    if y < y1 {
      MulLe(y + 1, y1, w);
    }
  }

  /** Outside the rows of the sweep its plane keeps `base`. */
  lemma OutsideRows<T>(g: Geometry, s: Sweep, f: Estimate<T>, base: seq<T>, lo: int, hi: int)
    requires Fits(g, s) && IsPlane(g, base) && 0 <= lo <= hi <= g.w * g.h
    requires hi <= s.y0 * g.w || s.y1 * g.w <= lo
    ensures forall k | lo <= k < hi :: Swept(g, s, f, base)[k] == base[k]
  {
    forall k | lo <= k < hi
      ensures Swept(g, s, f, base)[k] == base[k]
    {
      PixCovers(g.w, g.h, k);
      var x, y := k % g.w, k / g.w;
      assert At(g, x, y) == k;
      RowOfIndex(g.w, k, x, y, s.y0, s.y1);
    }
  }

  /** Columns `[c0, c1)` of row `y` that the sweep does not visit keep
      `base`. */
  lemma Unvisited<T>(g: Geometry, s: Sweep, f: Estimate<T>, base: seq<T>, y: int, row: int, c0: int, c1: int)
    requires Fits(g, s) && IsPlane(g, base) && 0 <= y < g.h && row == At(g, 0, y) && 0 <= c0 <= c1 <= g.w
    requires forall x | c0 <= x < c1 :: !Visits(s, x, y)
    ensures forall k | row + c0 <= k < row + c1 :: Swept(g, s, f, base)[k] == base[k]
  {
    forall k | row + c0 <= k < row + c1
      ensures Swept(g, s, f, base)[k] == base[k]
    {
      assert At(g, k - row, y) == k;
    }
  }

  /** The first column of row `y` the sweep visits, if any. */
  function FirstColumn(s: Sweep, y: int): (x: int)
    requires s.parity == 0 || s.parity == 1
    ensures x == s.x0 || x == s.x0 + 1
    ensures s.every || (x + y) % 2 == s.parity
    ensures x == s.x0 + 1 ==> !s.every && (s.x0 + y) % 2 != s.parity
  {
    if s.every || (s.x0 + y) % 2 == s.parity then s.x0 else s.x0 + 1
  }

  function Min(a: int, b: int): int
  {
    if a < b then a else b
  }

  /** The requirements every step of a sweep shares: row `y` of the
      sweep, starting at index `row`, towards the plane `spec`. */
  ghost predicate InRow<T>(g: Geometry, s: Sweep, f: Estimate<T>, a: array<T>, base: seq<T>, spec: seq<T>, y: int, row: int)
  {
    Fits(g, s) && IsPlane(g, base) && a.Length == g.w * g.h && s.y0 <= y < s.y1 &&
    row == At(g, 0, y) && spec == Swept(g, s, f, base)
  }

  /** One visited pixel, and the pixel after it when the sweep skips it. */
  method Visit<T(!new)>(g: Geometry, s: Sweep, f: Estimate<T>, a: array<T>, y: int, row: int, x: int,
                  ghost base: seq<T>, ghost spec: seq<T>)
    requires InRow(g, s, f, a, base, spec, y, row) && ReadsUnvisited(g, s, f)
    requires s.x0 <= x < s.x1 && (s.every || (x + y) % 2 == s.parity) && FilledTo(a, spec, base, row + x)
    modifies a
    ensures FilledTo(a, spec, base, row + Min(x + Step(s), s.x1))
    ensures s.every || (x + Step(s) + y) % 2 == s.parity
  {
    Estimated(g, s, f, a, y, row, x, base, spec);
    ghost var before := a[..];
    a[row + x] := f(a[..], x, y);
    Extend(a, before, spec, base, row + x);
    Onward(g, s, f, a, y, row, x, base, spec);
  }

  /** Before the write at a visited pixel, the estimate read from the
      partly swept plane is the one the specification holds there. */
  lemma Estimated<T(!new)>(g: Geometry, s: Sweep, f: Estimate<T>, a: array<T>, y: int, row: int, x: int,
                           base: seq<T>, spec: seq<T>)
    requires InRow(g, s, f, a, base, spec, y, row) && ReadsUnvisited(g, s, f)
    requires s.x0 <= x < s.x1 && (s.every || (x + y) % 2 == s.parity) && FilledTo(a, spec, base, row + x)
    ensures 0 <= row + x < a.Length && f(a[..], x, y) == spec[row + x]
  {
    Visited(g, s, f, base, y, row, x);
    SoFar(g, s, f, a, base, spec, row + x);
  }

  /** After the write, the column the loop moves to keeps the parity, and
      a pixel skipped on the way is already filled. */
  lemma Onward<T>(g: Geometry, s: Sweep, f: Estimate<T>, a: array<T>, y: int, row: int, x: int,
                  base: seq<T>, spec: seq<T>)
    requires InRow(g, s, f, a, base, spec, y, row)
    requires s.x0 <= x < s.x1 && (s.every || (x + y) % 2 == s.parity) && FilledTo(a, spec, base, row + x + 1)
    ensures FilledTo(a, spec, base, row + Min(x + Step(s), s.x1))
    ensures s.every || (x + Step(s) + y) % 2 == s.parity
  {
    if !s.every {
      Alternates(s, x, y);
      if x + 1 < s.x1 {
        GapAfter(g, s, f, base, y, row, x);
        SkipOne(a, spec, base, row + x + 1);
      }
    }
  }

  /** The pixel after a visited one in a checkerboard sweep is not
      visited. */
  lemma GapAfter<T>(g: Geometry, s: Sweep, f: Estimate<T>, base: seq<T>, y: int, row: int, x: int)
    requires Fits(g, s) && IsPlane(g, base) && 0 <= y < g.h && row == At(g, 0, y)
    requires 0 <= x && x + 1 < g.w && !Visits(s, x + 1, y)
    ensures Swept(g, s, f, base)[row + x + 1] == base[row + x + 1]
  {
    assert At(g, x + 1, y) == row + x + 1;
  }

  /** A single pixel where the specification keeps `base` is already
      filled. */
  lemma SkipOne<T>(a: array<T>, spec: seq<T>, base: seq<T>, i: int)
    requires FilledTo(a, spec, base, i) && 0 <= i < a.Length && spec[i] == base[i]
    ensures FilledTo(a, spec, base, i + 1)
  {
  }

  /** Part way through a sweep the plane still agrees with `base` off the
      pixels the sweep visits. */
  lemma SoFar<T>(g: Geometry, s: Sweep, f: Estimate<T>, a: array<T>, base: seq<T>, spec: seq<T>, upTo: int)
    requires Fits(g, s) && IsPlane(g, base) && spec == Swept(g, s, f, base) && FilledTo(a, spec, base, upTo)
    ensures AgreeOff(g, s, a[..], base)
  {
    forall x, y | InFrame(g, x, y) && !Visits(s, x, y)
      ensures a[..][At(g, x, y)] == base[At(g, x, y)]
    {
      var k := At(g, x, y);
      assert a[..][k] == a[k];
    }
  }

  /** Along a row the checkerboard colours alternate. */
  lemma Alternates(s: Sweep, x: int, y: int)
    requires !s.every && (x + y) % 2 == s.parity
    ensures !Visits(s, x + 1, y) && (x + Step(s) + y) % 2 == s.parity
  {
  }

  /** The sweep's plane holds the estimate at a pixel it visits. */
  lemma Visited<T>(g: Geometry, s: Sweep, f: Estimate<T>, base: seq<T>, y: int, row: int, x: int)
    requires Fits(g, s) && IsPlane(g, base) && Visits(s, x, y) && row == At(g, 0, y)
    ensures 0 <= row + x < g.w * g.h && Swept(g, s, f, base)[row + x] == f(base, x, y)
  {
    assert At(g, x, y) == row + x;
  }

  /** One row of the sweep. */
  method SweepRow<T(!new)>(g: Geometry, s: Sweep, f: Estimate<T>, a: array<T>, y: int, row: int,
                     ghost base: seq<T>, ghost spec: seq<T>)
    requires InRow(g, s, f, a, base, spec, y, row) && ReadsUnvisited(g, s, f) && FilledTo(a, spec, base, row)
    modifies a
    ensures FilledTo(a, spec, base, row + g.w)
  {
    var x := FirstColumn(s, y);
    RowHead(g, s, f, a, y, row, base, spec);
    while x < s.x1
      invariant s.x0 <= x <= s.x1 + 1 && (s.every || (x + y) % 2 == s.parity)
      invariant FilledTo(a, spec, base, row + Min(x, s.x1))
    {
      Visit(g, s, f, a, y, row, x, base, spec);
      x := x + Step(s);
    }
    RowTail(g, s, f, a, y, row, base, spec);
  }

  /** The pixels of a row before its first visited one are filled as
      they stand. */
  lemma RowHead<T>(g: Geometry, s: Sweep, f: Estimate<T>, a: array<T>, y: int, row: int, base: seq<T>, spec: seq<T>)
    requires InRow(g, s, f, a, base, spec, y, row) && FilledTo(a, spec, base, row)
    ensures FilledTo(a, spec, base, row + Min(FirstColumn(s, y), s.x1))
  {
    Unvisited(g, s, f, base, y, row, 0, Min(FirstColumn(s, y), s.x1));
    Skip(a, spec, base, row, row + Min(FirstColumn(s, y), s.x1));
  }

  /** So are the pixels of a row past the window. */
  lemma RowTail<T>(g: Geometry, s: Sweep, f: Estimate<T>, a: array<T>, y: int, row: int, base: seq<T>, spec: seq<T>)
    requires InRow(g, s, f, a, base, spec, y, row) && FilledTo(a, spec, base, row + s.x1)
    ensures FilledTo(a, spec, base, row + g.w)
  {
    Unvisited(g, s, f, base, y, row, s.x1, g.w);
    Skip(a, spec, base, row + s.x1, row + g.w);
  }

  /** The loop nest: the rows of the window, top to bottom. */
  method Run<T(!new)>(g: Geometry, s: Sweep, f: Estimate<T>, a: array<T>)
    requires Fits(g, s) && a.Length == g.w * g.h && ReadsUnvisited(g, s, f)
    modifies a
    ensures a[..] == Swept(g, s, f, old(a[..]))
  {
    ghost var base := a[..];
    ghost var spec := Swept(g, s, f, base);
    Untouched(g, s, f, a, base, spec, 0, s.y0);
    Rows(g, s, f, a, base, spec);
    Untouched(g, s, f, a, base, spec, s.y1, g.h);
    Filled(a, spec, base);
  }

  /** The outer loop: each row of the window in turn. */
  method Rows<T(!new)>(g: Geometry, s: Sweep, f: Estimate<T>, a: array<T>, ghost base: seq<T>, ghost spec: seq<T>)
    requires Fits(g, s) && IsPlane(g, base) && a.Length == g.w * g.h && ReadsUnvisited(g, s, f)
    requires spec == Swept(g, s, f, base) && FilledTo(a, spec, base, s.y0 * g.w)
    modifies a
    ensures FilledTo(a, spec, base, s.y1 * g.w)
  {
    var y, row := s.y0, s.y0 * g.w;
    while y < s.y1
      invariant s.y0 <= y <= s.y1 && row == y * g.w && FilledTo(a, spec, base, row)
    {
      SweepRow(g, s, f, a, y, At(g, 0, y), base, spec);
      MulStep(y, g.w);
      y, row := y + 1, row + g.w;
    }
  }

  /** Rows `[r0, r1)` outside the window are filled as soon as the rows
      above them are. */
  lemma Untouched<T>(g: Geometry, s: Sweep, f: Estimate<T>, a: array<T>, base: seq<T>, spec: seq<T>, r0: int, r1: int)
    requires Fits(g, s) && IsPlane(g, base) && spec == Swept(g, s, f, base) && a.Length == g.w * g.h
    requires (r0 == 0 && r1 == s.y0) || (r0 == s.y1 && r1 == g.h)
    requires FilledTo(a, spec, base, r0 * g.w)
    ensures FilledTo(a, spec, base, r1 * g.w)
  {
    MulLe(r0, r1, g.w);
    MulLe(r1, g.h, g.w);
    OutsideRows(g, s, f, base, r0 * g.w, r1 * g.w);
    Skip(a, spec, base, r0 * g.w, r1 * g.w);
  }

  /** A plane filled to its end is the specified one. */
  lemma Filled<T>(a: array<T>, spec: seq<T>, base: seq<T>)
    requires FilledTo(a, spec, base, a.Length)
    ensures a[..] == spec
  {
    assert forall k | 0 <= k < a.Length :: a[k] == spec[k];
  }

  /** Two sweeps of one plane with the same estimate, the second reading
      nothing the first changed at the pixels it visits, leave `spec` when
      `spec` holds the estimate at every visited pixel and `base` elsewhere. */
  lemma TwoSweeps<T>(g: Geometry, s1: Sweep, s2: Sweep, f: Estimate<T>, base: seq<T>, spec: seq<T>)
    requires Fits(g, s1) && Fits(g, s2) && IsPlane(g, base) && IsPlane(g, spec)
    requires forall x, y | InFrame(g, x, y) && Visits(s1, x, y) :: !Visits(s2, x, y) && spec[At(g, x, y)] == f(base, x, y)
    requires forall x, y | InFrame(g, x, y) && Visits(s2, x, y) :: spec[At(g, x, y)] == f(Swept(g, s1, f, base), x, y)
    requires forall x, y | InFrame(g, x, y) && !Visits(s1, x, y) && !Visits(s2, x, y) :: spec[At(g, x, y)] == base[At(g, x, y)]
    ensures Swept(g, s2, f, Swept(g, s1, f, base)) == spec
  {
    var p := Swept(g, s2, f, Swept(g, s1, f, base));
    forall x, y | InFrame(g, x, y)
      ensures p[At(g, x, y)] == spec[At(g, x, y)]
    {
    }
    SamePlane(g, p, spec);
  }
}
