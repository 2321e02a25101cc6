/** Whole-plane specifications of the demosaicing passes of
    RawLibrary/BayerAlgorithm.cs: for every pass, the plane it leaves behind
    as a function of the planes it reads. Each plane is given pixel by
    pixel, by a "cell" function of `(x, y)`, and tabulated in row-major
    order. */
module BayerPlanes {
  import opened Common
  import opened PixelMath
  import opened Grid
  import opened BayerGeometry
  import opened BayerEquations
  import opened RawHeader

  /** One value per pixel of a well-formed frame. */
  predicate IsPlane<T>(g: Geometry, p: seq<T>)
  {
    WellFormed(g) && |p| == g.w * g.h
  }

  /** The plane whose pixel `(x, y)` is `f(x, y)`. */
  function Tabulate<T>(g: Geometry, f: (int, int) -> T): (p: seq<T>)
    requires WellFormed(g)
    ensures IsPlane(g, p)
    ensures forall x, y {:trigger p[At(g, x, y)]} | InFrame(g, x, y) :: p[At(g, x, y)] == f(x, y)
  {
    seq(g.w * g.h, j requires 0 <= j < g.w * g.h => PixCovers(g.w, g.h, j); f(j % g.w, j / g.w))
  }

  /** Two planes that agree at every pixel are equal. */
  lemma SamePlane<T>(g: Geometry, s: seq<T>, t: seq<T>)
    requires IsPlane(g, s) && IsPlane(g, t)
    requires forall x, y | InFrame(g, x, y) :: s[At(g, x, y)] == t[At(g, x, y)]
    ensures s == t
  {
    forall j | 0 <= j < |s|
      ensures s[j] == t[j]
    {
      PixCovers(g.w, g.h, j);
      assert At(g, j % g.w, j / g.w) == j;
    }
  }

  /** `ByteClamp((a + b) >> 1)` of two samples: the clamp never bites. */
  function Mean(a: byte, b: byte): (r: byte)
    ensures r == (a as int + b as int) / 2
    ensures a <= b ==> a <= r <= b
    ensures b <= a ==> b <= r <= a
  {
    ByteClamp((a as int + b as int) / 2)
  }

  // ---------------------------------------------------------------------
  // Site sets
  // ---------------------------------------------------------------------

  /** Non-green sites at least two pixels from every side: the sites of
      `CalcEq5`..`CalcEq7`, `CalcColorDiff` and the Simple and ACPI rules. */
  predicate InnerSite(g: Geometry, x: int, y: int)
  {
    NonGreen(g, x, y) && 2 <= x < g.w - 2 && 2 <= y < g.h - 2
  }

  /** Non-green sites at least four pixels from every side: the sites of
      every VCD `InterpolateGreen`. */
  predicate VcdSite(g: Geometry, x: int, y: int)
  {
    NonGreen(g, x, y) && 4 <= x < g.w - 4 && 4 <= y < g.h - 4
  }

  /** The sites the separate FIR passes write: `CalcEq3` every row and
      columns `[2, w-2)`, `CalcEq4` rows `[2, h-2)` and every column,
      `CalcEq5` both bounds. */
  predicate FirSite(g: Geometry, d: Direction, x: int, y: int)
  {
    NonGreen(g, x, y) &&
    match d
    case Horizontal => 2 <= x < g.w - 2
    case Vertical => 2 <= y < g.h - 2
    case Cross => 2 <= x < g.w - 2 && 2 <= y < g.h - 2
  }

  /** The window of the FIR filter in direction `d` lies in the frame. */
  predicate FirWindow(g: Geometry, d: Direction, x: int, y: int)
  {
    match d
    case Horizontal => 2 <= x < g.w - 2
    case Vertical => 2 <= y < g.h - 2
    case Cross => 2 <= x < g.w - 2 && 2 <= y < g.h - 2
  }

  /** The sites `CalcEq3_4_5` sends through `CheckPixelIndex`. */
  predicate Border2(g: Geometry, x: int, y: int)
  {
    y < 2 || y >= g.h - 2 || x < 2 || x >= g.w - 2
  }

  // ---------------------------------------------------------------------
  // Equations 3 to 5 as planes
  // ---------------------------------------------------------------------

  /** The unguarded FIR estimate of direction `d` at `(x, y)`. */
  function FirAt(g: Geometry, raw: seq<byte>, d: Direction, x: int, y: int): byte
    requires IsPlane(g, raw) && InFrame(g, x, y) && FirWindow(g, d, x, y)
  {
    match d
    case Horizontal => Eq3At(raw, At(g, x, y))
    case Vertical => Eq4At(raw, g.w, At(g, x, y))
    case Cross => Eq5At(raw, g.w, At(g, x, y))
  }

  function FirCell(g: Geometry, raw: seq<byte>, d: Direction, x: int, y: int): byte
    requires IsPlane(g, raw) && InFrame(g, x, y)
  {
    if FirSite(g, d, x, y) then FirAt(g, raw, d, x, y) else 0
  }

  /** The plane `CalcEq3` (`Horizontal`), `CalcEq4` (`Vertical`) or
      `CalcEq5` (`Cross`) allocates and fills. */
  function FirPlane(g: Geometry, raw: seq<byte>, d: Direction): (p: seq<byte>)
    requires IsPlane(g, raw)
    ensures IsPlane(g, p)
    ensures forall x, y {:trigger p[At(g, x, y)]} | InFrame(g, x, y) :: p[At(g, x, y)] == FirCell(g, raw, d, x, y)
  {
    Tabulate(g, (x, y) => if InFrame(g, x, y) then FirCell(g, raw, d, x, y) else 0)
  }

  /** `m_Raw[CheckPixelIndex(x, y, ox, oy, i)]`. */
  function Sample(g: Geometry, raw: seq<byte>, x: int, y: int, ox: int, oy: int): int
    requires IsPlane(g, raw) && InFrame(g, x, y) && -2 <= ox <= 2 && -2 <= oy <= 2
  {
    CheckPixelIndexReflects(g, x, y, ox, oy);
    raw[CheckPixelIndex(g, x, y, ox, oy, At(g, x, y))] as int
  }

  /** The border branch of `CalcEq3_4_5`: the same filters with every
      neighbour fetched through `CheckPixelIndex`. */
  function FirReflected(g: Geometry, raw: seq<byte>, d: Direction, x: int, y: int): byte
    requires IsPlane(g, raw) && InFrame(g, x, y)
  {
    var c := raw[At(g, x, y)] as int;
    match d
    case Horizontal =>
      ByteClamp((-Sample(g, raw, x, y, -2, 0)
                 + ((Sample(g, raw, x, y, -1, 0) + c + Sample(g, raw, x, y, 1, 0)) * 2)
                 - Sample(g, raw, x, y, 2, 0)) / 4)
    case Vertical =>
      ByteClamp((-Sample(g, raw, x, y, 0, -2)
                 + ((Sample(g, raw, x, y, 0, -1) + c + Sample(g, raw, x, y, 0, 1)) * 2)
                 - Sample(g, raw, x, y, 0, 2)) / 4)
    case Cross =>
      ByteClamp((-Sample(g, raw, x, y, 0, -2) - Sample(g, raw, x, y, -2, 0)
                 + ((Sample(g, raw, x, y, 0, -1) + Sample(g, raw, x, y, -1, 0)
                     + Sample(g, raw, x, y, 1, 0) + Sample(g, raw, x, y, 0, 1)) * 2)
                 + c * 4
                 - Sample(g, raw, x, y, 2, 0) - Sample(g, raw, x, y, 0, 2)) / 8)
  }

  /** Inside columns `[2, w-2)` the row neighbours are fetched unreflected. */
  lemma RowSamples(g: Geometry, raw: seq<byte>, x: int, y: int)
    requires IsPlane(g, raw) && InFrame(g, x, y) && 2 <= x < g.w - 2
    ensures var i := At(g, x, y);
      Sample(g, raw, x, y, -2, 0) == raw[i - 2] as int && Sample(g, raw, x, y, -1, 0) == raw[i - 1] as int &&
      Sample(g, raw, x, y, 1, 0) == raw[i + 1] as int && Sample(g, raw, x, y, 2, 0) == raw[i + 2] as int
  {
    CheckPixelIndexReflects(g, x, y, -2, 0);
    CheckPixelIndexReflects(g, x, y, -1, 0);
    CheckPixelIndexReflects(g, x, y, 1, 0);
    CheckPixelIndexReflects(g, x, y, 2, 0);
  }

  /** Inside rows `[2, h-2)` the column neighbours are fetched unreflected. */
  lemma ColumnSamples(g: Geometry, raw: seq<byte>, x: int, y: int)
    requires IsPlane(g, raw) && InFrame(g, x, y) && 2 <= y < g.h - 2
    ensures var i, w := At(g, x, y), g.w;
      Sample(g, raw, x, y, 0, -2) == raw[i - 2 * w] as int && Sample(g, raw, x, y, 0, -1) == raw[i - w] as int &&
      Sample(g, raw, x, y, 0, 1) == raw[i + w] as int && Sample(g, raw, x, y, 0, 2) == raw[i + 2 * w] as int
  {
    var w := g.w;
    assert (y - 2) * w == y * w - 2 * w && (y - 1) * w == y * w - w;
    assert (y + 1) * w == y * w + w && (y + 2) * w == y * w + 2 * w;
    CheckPixelIndexReflects(g, x, y, 0, -2);
    CheckPixelIndexReflects(g, x, y, 0, -1);
    CheckPixelIndexReflects(g, x, y, 0, 1);
    CheckPixelIndexReflects(g, x, y, 0, 2);
  }

  /** Where no neighbour is reflected, the border formula is the plain one:
      the branch of `CalcEq3_4_5` only chooses a cheaper form of the same
      value. */
  lemma FirReflectedInside(g: Geometry, raw: seq<byte>, d: Direction, x: int, y: int)
    requires IsPlane(g, raw) && InFrame(g, x, y) && FirWindow(g, d, x, y)
    ensures FirReflected(g, raw, d, x, y) == FirAt(g, raw, d, x, y)
  {
    match d
    case Horizontal => RowSamples(g, raw, x, y);
    case Vertical => ColumnSamples(g, raw, x, y);
    case Cross => RowSamples(g, raw, x, y); ColumnSamples(g, raw, x, y);
  }

  /** `CalcEq3_4_5`: every non-green site, through `CheckPixelIndex` in the
      two-pixel border and directly inside it. */
  function Fir345Cell(g: Geometry, raw: seq<byte>, d: Direction, x: int, y: int): byte
    requires IsPlane(g, raw) && InFrame(g, x, y)
  {
    if !NonGreen(g, x, y) then 0
    else if Border2(g, x, y) then FirReflected(g, raw, d, x, y)
    else FirAt(g, raw, d, x, y)
  }

  function Fir345Plane(g: Geometry, raw: seq<byte>, d: Direction): (p: seq<byte>)
    requires IsPlane(g, raw)
    ensures IsPlane(g, p)
    ensures forall x, y {:trigger p[At(g, x, y)]} | InFrame(g, x, y) :: p[At(g, x, y)] == Fir345Cell(g, raw, d, x, y)
  {
    Tabulate(g, (x, y) => if InFrame(g, x, y) then Fir345Cell(g, raw, d, x, y) else 0)
  }

  /** `CalcEq3_4_5` is the reflecting filter at every non-green site, and it
      agrees with the separate pass `CalcEq3`/`4`/`5` wherever that one
      writes. */
  lemma Fir345IsReflectingFilter(g: Geometry, raw: seq<byte>, d: Direction, x: int, y: int)
    requires IsPlane(g, raw) && InFrame(g, x, y)
    ensures Fir345Plane(g, raw, d)[At(g, x, y)] ==
      (if NonGreen(g, x, y) then FirReflected(g, raw, d, x, y) else 0)
    ensures FirSite(g, d, x, y) ==>
      Fir345Plane(g, raw, d)[At(g, x, y)] == FirPlane(g, raw, d)[At(g, x, y)]
  {
    if FirWindow(g, d, x, y) {
      FirReflectedInside(g, raw, d, x, y);
    }
  }

  /** The combined pass `CalcEq3_4_5_6_7_E` fills only the sites of
      `CalcEq5`: the plane `p` kept there, `zero` elsewhere. */
  function InnerOnly<T>(g: Geometry, p: seq<T>, zero: T): (q: seq<T>)
    requires IsPlane(g, p)
    ensures IsPlane(g, q)
    ensures forall x, y | InFrame(g, x, y) ::
      q[At(g, x, y)] == if InnerSite(g, x, y) then p[At(g, x, y)] else zero
  {
    Tabulate(g, (x, y) => if InFrame(g, x, y) && InnerSite(g, x, y) then p[At(g, x, y)] else zero)
  }

  // ---------------------------------------------------------------------
  // Equations 6, 7 and E as planes
  // ---------------------------------------------------------------------

  lemma InnerWindow(g: Geometry, raw: seq<byte>, x: int, y: int)
    requires IsPlane(g, raw) && InFrame(g, x, y) && 2 <= x < g.w - 2 && 2 <= y < g.h - 2
    ensures WindowInside(raw, g.w, At(g, x, y))
  {
  }

  /** `CalcEq6` (`horizontal`) or `CalcEq7`: the gradient activity of the
      5x5 window at the inner sites, 0 elsewhere. */
  function ActivityCell(g: Geometry, raw: seq<byte>, horizontal: bool, x: int, y: int): nat
    requires IsPlane(g, raw) && InFrame(g, x, y)
  {
    if !InnerSite(g, x, y) then 0
    else
      InnerWindow(g, raw, x, y);
      if horizontal then HorizontalActivity(raw, g.w, At(g, x, y), 5)
      else VerticalActivity(raw, g.w, At(g, x, y), 5)
  }

  function ActivityPlane(g: Geometry, raw: seq<byte>, horizontal: bool): (p: seq<nat>)
    requires IsPlane(g, raw)
    ensures IsPlane(g, p)
    ensures forall x, y {:trigger p[At(g, x, y)]} | InFrame(g, x, y) :: p[At(g, x, y)] == ActivityCell(g, raw, horizontal, x, y)
  {
    Tabulate(g, (x, y) => if InFrame(g, x, y) then ActivityCell(g, raw, horizontal, x, y) else 0)
  }

  /** A `double` the source allocates and leaves untouched reads 0. */
  const ZeroRatio := Finite(0.0)

  /** `CalcEqE`: `Max(Eq7/Eq6, Eq6/Eq7)` at the sites of `CalcEq3`. */
  function EdgeCell(g: Geometry, e6: seq<nat>, e7: seq<nat>, x: int, y: int): Ratio
    requires IsPlane(g, e6) && IsPlane(g, e7) && InFrame(g, x, y)
  {
    if FirSite(g, Horizontal, x, y) then EdgeRatio(e6[At(g, x, y)], e7[At(g, x, y)]) else ZeroRatio
  }

  function EdgePlane(g: Geometry, e6: seq<nat>, e7: seq<nat>): (p: seq<Ratio>)
    requires IsPlane(g, e6) && IsPlane(g, e7)
    ensures IsPlane(g, p)
    ensures forall x, y {:trigger p[At(g, x, y)]} | InFrame(g, x, y) :: p[At(g, x, y)] == EdgeCell(g, e6, e7, x, y)
  {
    Tabulate(g, (x, y) => if InFrame(g, x, y) then EdgeCell(g, e6, e7, x, y) else ZeroRatio)
  }

  /** After `CalcEq6` and `CalcEq7`, `CalcEqE` finds 0/0 in the first and
      last two rows, so a non-green site there carries NaN, which no
      threshold test passes. */
  lemma EdgeRatioUndefinedOutsideWindow(g: Geometry, raw: seq<byte>, x: int, y: int, t: real)
    requires IsPlane(g, raw) && InFrame(g, x, y) && FirSite(g, Horizontal, x, y)
    requires y < 2 || y >= g.h - 2
    ensures var e := EdgePlane(g, ActivityPlane(g, raw, true), ActivityPlane(g, raw, false));
      e[At(g, x, y)] == NaN && !Exceeds(e[At(g, x, y)], t)
  {
  }

  // ---------------------------------------------------------------------
  // Green rules of BayerSimple, BayerACPI and BayerDSP
  // ---------------------------------------------------------------------

  /** The three green rules whose interior pass is a function of the
      frame alone. */
  datatype GreenRule = SimpleRule | AcpiRule | DspRule

  /** BayerSimple: the floor mean of the four direct neighbours. */
  function SimpleGreen(g: Geometry, raw: seq<byte>, x: int, y: int): byte
    requires IsPlane(g, raw) && InFrame(g, x, y) && InnerSite(g, x, y)
  {
    var i, w := At(g, x, y), g.w;
    ByteClamp((raw[i - w] as int + raw[i - 1] as int + raw[i + 1] as int + raw[i + w] as int) / 4)
  }

  /** BayerACPI's gradients: first and second differences along the row
      (`dH`) and along the column (`dV`). */
  function GradientH(g: Geometry, raw: seq<byte>, x: int, y: int): nat
    requires IsPlane(g, raw) && InFrame(g, x, y) && InnerSite(g, x, y)
  {
    var i := At(g, x, y);
    Abs(raw[i - 1] as int - raw[i + 1] as int) + Abs(2 * raw[i] as int - raw[i - 2] as int - raw[i + 2] as int)
  }

  function GradientV(g: Geometry, raw: seq<byte>, x: int, y: int): nat
    requires IsPlane(g, raw) && InFrame(g, x, y) && InnerSite(g, x, y)
  {
    var i, w := At(g, x, y), g.w;
    Abs(raw[i - w] as int - raw[i + w] as int) + Abs(2 * raw[i] as int - raw[i - 2 * w] as int - raw[i + 2 * w] as int)
  }

  /** BayerACPI's choice: along the row when `dH < dV`, along the column when
      `dH > dV`, the cross filter on a tie. */
  function AcpiDirection(dH: int, dV: int): Direction
  {
    if dH < dV then Horizontal else if dH > dV then Vertical else Cross
  }

  /** The value the interior pass of `rule` gives site `(x, y)`; `eq3` is
      the plane `CalcEq3` left (read by the DSP rule only). */
  function GreenInteriorCell(g: Geometry, rule: GreenRule, raw: seq<byte>, eq3: seq<byte>, grn: seq<byte>,
                             x: int, y: int): byte
    requires IsPlane(g, raw) && IsPlane(g, eq3) && IsPlane(g, grn) && InFrame(g, x, y)
  {
    match rule
    case SimpleRule =>
      if InnerSite(g, x, y) then SimpleGreen(g, raw, x, y) else grn[At(g, x, y)]
    case AcpiRule =>
      if InnerSite(g, x, y)
      then FirAt(g, raw, AcpiDirection(GradientH(g, raw, x, y), GradientV(g, raw, x, y)), x, y)
      else grn[At(g, x, y)]
    case DspRule =>
      if NonGreen(g, x, y) then eq3[At(g, x, y)] else grn[At(g, x, y)]
  }

  function GreenInteriorPlane(g: Geometry, rule: GreenRule, raw: seq<byte>, eq3: seq<byte>, grn: seq<byte>): (p: seq<byte>)
    requires IsPlane(g, raw) && IsPlane(g, eq3) && IsPlane(g, grn)
    ensures IsPlane(g, p)
    ensures forall x, y {:trigger p[At(g, x, y)]} | InFrame(g, x, y) :: p[At(g, x, y)] == GreenInteriorCell(g, rule, raw, eq3, grn, x, y)
  {
    Tabulate(g, (x, y) => if InFrame(g, x, y) then GreenInteriorCell(g, rule, raw, eq3, grn, x, y) else 0)
  }

  // ---------------------------------------------------------------------
  // InterpolateGreenBorderPixel
  // ---------------------------------------------------------------------

  /** Sites of the left/right pass: non-green, in the four outer columns on
      either side, above the last two rows. */
  predicate SideSite(g: Geometry, x: int, y: int)
  {
    NonGreen(g, x, y) && (x < 4 || x >= g.w - 4) && y <= g.h - 3
  }

  /** Sites of the top/bottom pass: non-green, in the four outer rows on
      either side, off the first and last column. */
  predicate CapSite(g: Geometry, x: int, y: int)
  {
    NonGreen(g, x, y) && (y < 4 || y >= g.h - 4) && 1 <= x <= g.w - 2
  }

  /** The left/right pass handles 2x2 blocks from their top-left corner
      `(x0, y0)`; both non-green sites of a block receive the mean of its
      two green sites. */
  function SideValue(g: Geometry, grn: seq<byte>, x: int, y: int): byte
    requires IsPlane(g, grn) && InFrame(g, x, y) && y <= g.h - 3
  {
    var x0, y0 := x - x % 2, y - y % 2;
    if StartsWithColour(g.layout) then Mean(grn[At(g, x0 + 1, y0)], grn[At(g, x0, y0 + 1)])
    else Mean(grn[At(g, x0, y0)], grn[At(g, x0 + 1, y0 + 1)])
  }

  /** The two samples `SideValue` averages are the green sites of the 2x2
      block. */
  lemma BlockGreens(g: Geometry, x: int, y: int)
    requires WellFormed(g) && InFrame(g, x, y) && y <= g.h - 3 && NonGreen(g, x, y)
    ensures var x0, y0 := x - x % 2, y - y % 2;
      InFrame(g, x0, y0) && InFrame(g, x0 + 1, y0 + 1) &&
      if StartsWithColour(g.layout) then !NonGreen(g, x0 + 1, y0) && !NonGreen(g, x0, y0 + 1)
      else !NonGreen(g, x0, y0) && !NonGreen(g, x0 + 1, y0 + 1)
  {
  }

  /** The top/bottom pass: the mean of the left and right neighbour. */
  function CapValue(g: Geometry, grn: seq<byte>, x: int, y: int): byte
    requires IsPlane(g, grn) && InFrame(g, x, y) && 1 <= x <= g.w - 2
  {
    Mean(grn[At(g, x - 1, y)], grn[At(g, x + 1, y)])
  }

  /** The top/bottom pass runs first; the left/right pass then overwrites the
      corner sites the two share. */
  function GreenBorderCell(g: Geometry, grn: seq<byte>, x: int, y: int): byte
    requires IsPlane(g, grn) && InFrame(g, x, y)
  {
    if SideSite(g, x, y) then SideValue(g, grn, x, y)
    else if CapSite(g, x, y) then CapValue(g, grn, x, y)
    else grn[At(g, x, y)]
  }

  function GreenBorderPlane(g: Geometry, grn: seq<byte>): (p: seq<byte>)
    requires IsPlane(g, grn)
    ensures IsPlane(g, p)
    ensures forall x, y {:trigger p[At(g, x, y)]} | InFrame(g, x, y) :: p[At(g, x, y)] == GreenBorderCell(g, grn, x, y)
  {
    Tabulate(g, (x, y) => if InFrame(g, x, y) then GreenBorderCell(g, grn, x, y) else 0)
  }

  /** The whole `InterpolateGreen` of BayerSimple, BayerACPI and BayerDSP. */
  function GreenPlane(g: Geometry, rule: GreenRule, raw: seq<byte>, eq3: seq<byte>, grn: seq<byte>): (p: seq<byte>)
    requires IsPlane(g, raw) && IsPlane(g, eq3) && IsPlane(g, grn)
    ensures IsPlane(g, p)
  {
    GreenBorderPlane(g, GreenInteriorPlane(g, rule, raw, eq3, grn))
  }

  // ---------------------------------------------------------------------
  // InterpolateRedBlue: the interior pass
  // ---------------------------------------------------------------------

  /** The pixels the interior pass visits (nothing for Mono). */
  predicate RedBlueSite(g: Geometry, x: int, y: int)
  {
    IsBayer(g.layout) && 1 <= x < g.w - 1 && 1 <= y < g.h - 1
  }

  /** Plane `c` (Red or Blue) after the interior pass, `p` before it. A
      green site takes the horizontal colour difference (Eq19_22) for the
      colour of its row and the vertical one (Eq20_21) for the other; a
      colour site takes the diagonal one (Eq23) for the colour it lacks and
      keeps its own sample. */
  function RedBlueCell(g: Geometry, raw: seq<byte>, grn: seq<byte>, c: Channel, p: seq<byte>, x: int, y: int): byte
    requires IsPlane(g, raw) && IsPlane(g, grn) && IsPlane(g, p) && InFrame(g, x, y) && c != Green
  {
    var i := At(g, x, y);
    if !RedBlueSite(g, x, y) then p[i]
    else match SiteColour(g, x, y)
      case Green =>
        if (c == Red) == RedRow(g.layout, y) then Eq19_22(raw, grn, i) else Eq20_21(raw, grn, g.w, i)
      case native =>
        if native == c then p[i] else Eq23(raw, grn, g.w, i)
  }

  function RedBlueInteriorPlane(g: Geometry, raw: seq<byte>, grn: seq<byte>, c: Channel, p: seq<byte>): (q: seq<byte>)
    requires IsPlane(g, raw) && IsPlane(g, grn) && IsPlane(g, p) && c != Green
    ensures IsPlane(g, q)
    ensures forall x, y | InFrame(g, x, y) :: q[At(g, x, y)] == RedBlueCell(g, raw, grn, c, p, x, y)
  {
    Tabulate(g, (x, y) => if InFrame(g, x, y) then RedBlueCell(g, raw, grn, c, p, x, y) else 0)
  }

  // ---------------------------------------------------------------------
  // InterpolateRedBlueBorder
  // ---------------------------------------------------------------------

  /** The plane averaged along the top row and down the left column ("P");
      the other one ("Q") is copied there and averaged along the bottom row
      and down the right column. */
  function AveragedFirst(layout: nat): Channel
  {
    if layout == BG_GR || layout == GB_RG then Blue else Red
  }

  /** GB_RG copies P along the top row instead of averaging it. */
  predicate CopiesTop(layout: nat)
  {
    layout == GB_RG
  }

  /** The top/bottom loop on plane P. */
  function CapPCell(g: Geometry, p: seq<byte>, copy: bool, x: int, y: int): byte
    requires IsPlane(g, p) && InFrame(g, x, y)
  {
    if y == 0 && copy && x % 2 == 0 && x <= g.w - 4 then p[At(g, x + 1, 0)]
    else if y == 0 && !copy && x % 2 == 1 && x <= g.w - 3 then Mean(p[At(g, x - 1, 0)], p[At(g, x + 1, 0)])
    else if y == g.h - 1 && 1 <= x <= g.w - 2 then p[At(g, x, g.h - 2)]
    else p[At(g, x, y)]
  }

  /** The top/bottom loop on plane Q. */
  function CapQCell(g: Geometry, q: seq<byte>, x: int, y: int): byte
    requires IsPlane(g, q) && InFrame(g, x, y)
  {
    if y == 0 && x <= g.w - 3 then q[At(g, x, 1)]
    else if y == g.h - 1 && x % 2 == 0 && 2 <= x <= g.w - 2 then Mean(q[At(g, x - 1, y)], q[At(g, x + 1, y)])
    else q[At(g, x, y)]
  }

  /** The left/right loop on plane P. */
  function SidePCell(g: Geometry, p: seq<byte>, x: int, y: int): byte
    requires IsPlane(g, p) && InFrame(g, x, y)
  {
    if x == 0 && y % 2 == 1 && y <= g.h - 3 then Mean(p[At(g, 0, y - 1)], p[At(g, 0, y + 1)])
    else if x == g.w - 1 && y <= g.h - 3 then p[At(g, g.w - 2, y)]
    else p[At(g, x, y)]
  }

  /** The left/right loop on plane Q. */
  function SideQCell(g: Geometry, q: seq<byte>, x: int, y: int): byte
    requires IsPlane(g, q) && InFrame(g, x, y)
  {
    if x == 0 && y <= g.h - 3 then q[At(g, 1, y)]
    else if x == g.w - 1 && y % 2 == 1 && y <= g.h - 3 then Mean(q[At(g, g.w - 1, y - 1)], q[At(g, g.w - 1, y + 1)])
    else q[At(g, x, y)]
  }

  function CapPlane(g: Geometry, p: seq<byte>, isP: bool, copy: bool): (q: seq<byte>)
    requires IsPlane(g, p)
    ensures IsPlane(g, q)
    ensures forall x, y | InFrame(g, x, y) ::
      q[At(g, x, y)] == if isP then CapPCell(g, p, copy, x, y) else CapQCell(g, p, x, y)
  {
    Tabulate(g, (x, y) => if !InFrame(g, x, y) then 0
                          else if isP then CapPCell(g, p, copy, x, y) else CapQCell(g, p, x, y))
  }

  function SidePlane(g: Geometry, p: seq<byte>, isP: bool): (q: seq<byte>)
    requires IsPlane(g, p)
    ensures IsPlane(g, q)
    ensures forall x, y | InFrame(g, x, y) ::
      q[At(g, x, y)] == if isP then SidePCell(g, p, x, y) else SideQCell(g, p, x, y)
  {
    Tabulate(g, (x, y) => if !InFrame(g, x, y) then 0
                          else if isP then SidePCell(g, p, x, y) else SideQCell(g, p, x, y))
  }

  /** Plane `c` after `InterpolateRedBlueBorder`: the top/bottom loop, then
      the left/right loop, which reads what the first one wrote. Mono and
      unknown layouts are left alone. */
  function RedBlueBorderPlane(g: Geometry, c: Channel, p: seq<byte>): (q: seq<byte>)
    requires IsPlane(g, p)
    ensures IsPlane(g, q)
  {
    if !IsBayer(g.layout) then p
    else
      var isP := c == AveragedFirst(g.layout);
      SidePlane(g, CapPlane(g, p, isP, CopiesTop(g.layout)), isP)
  }

  /** The whole of `InterpolateRedBlue` on plane `c`. */
  function RedBluePlane(g: Geometry, raw: seq<byte>, grn: seq<byte>, c: Channel, p: seq<byte>): (q: seq<byte>)
    requires IsPlane(g, raw) && IsPlane(g, grn) && IsPlane(g, p) && c != Green
    ensures IsPlane(g, q)
  {
    RedBlueBorderPlane(g, c, RedBlueInteriorPlane(g, raw, grn, c, p))
  }

  // ---------------------------------------------------------------------
  // CalcColorDiff
  // ---------------------------------------------------------------------

  /** Green sites at least two pixels from every side. */
  predicate InnerGreen(g: Geometry, x: int, y: int)
  {
    !NonGreen(g, x, y) && 2 <= x < g.w - 2 && 2 <= y < g.h - 2
  }

  /** First pass: sample minus estimate at the inner sites, 0 elsewhere. */
  function FirstDiff(g: Geometry, raw: seq<byte>, est: seq<byte>, x: int, y: int): (d: int)
    requires IsPlane(g, raw) && IsPlane(g, est) && InFrame(g, x, y)
    ensures -255 <= d <= 255
  {
    if InnerSite(g, x, y) then raw[At(g, x, y)] as int - est[At(g, x, y)] as int else 0
  }

  /** Second pass at the inner green sites: `(left - right) >> 1` for the
      horizontal buffers, `(above - below) >> 1` for the vertical ones. */
  function ColourDiffCell(g: Geometry, raw: seq<byte>, est: seq<byte>, horizontal: bool, x: int, y: int): (d: int)
    requires IsPlane(g, raw) && IsPlane(g, est) && InFrame(g, x, y)
    ensures -255 <= d <= 255
  {
    if !InnerGreen(g, x, y) then FirstDiff(g, raw, est, x, y)
    else if horizontal then (FirstDiff(g, raw, est, x - 1, y) - FirstDiff(g, raw, est, x + 1, y)) / 2
    else (FirstDiff(g, raw, est, x, y - 1) - FirstDiff(g, raw, est, x, y + 1)) / 2
  }

  /** `m_CdiffH` (`est` = Eq3, horizontal), `m_CdiffV` (Eq4, vertical),
      `m_CdiffBh` (Eq5, horizontal) and `m_CdiffBv` (Eq5, vertical). */
  function ColourDiffPlane(g: Geometry, raw: seq<byte>, est: seq<byte>, horizontal: bool): (p: seq<int>)
    requires IsPlane(g, raw) && IsPlane(g, est)
    ensures IsPlane(g, p)
    ensures forall x, y {:trigger p[At(g, x, y)]} | InFrame(g, x, y) :: p[At(g, x, y)] == ColourDiffCell(g, raw, est, horizontal, x, y)
  {
    Tabulate(g, (x, y) => if InFrame(g, x, y) then ColourDiffCell(g, raw, est, horizontal, x, y) else 0)
  }

  // ---------------------------------------------------------------------
  // CopyRGBtoBitmap
  // ---------------------------------------------------------------------

  /** `(uint)((r << 16) | (g << 8) | b)`. */
  function Pack(r: byte, g: byte, b: byte): bv32
  {
    (r as bv32 << 16) | (g as bv32 << 8) | b as bv32
  }

  // ---------------------------------------------------------------------
  // InterpolateGreen of the VCD subclasses
  // ---------------------------------------------------------------------

  /** The planes the VCD rule reads at a site: the three FIR estimates, the
      two activities and their edge ratio. */
  datatype Estimates = Estimates(eq3: seq<byte>, eq4: seq<byte>, eq5: seq<byte>,
                                 eq6: seq<nat>, eq7: seq<nat>, eqE: seq<Ratio>)

  predicate EstimatesFit(g: Geometry, e: Estimates)
  {
    IsPlane(g, e.eq3) && IsPlane(g, e.eq4) && IsPlane(g, e.eq5) &&
    IsPlane(g, e.eq6) && IsPlane(g, e.eq7) && IsPlane(g, e.eqE)
  }

  /** The variances `H2`, `V2` and `B2` a VCD subclass computes for site
      `(x, y)` of its 9x9 block (a parameter of the model). */
  type Scores = (int, int) -> Variances

  /** The estimate the VCD rule stores at site `(x, y)`. */
  function VcdChoice(g: Geometry, e: Estimates, t: real, scores: Scores, x: int, y: int): byte
    requires EstimatesFit(g, e) && InFrame(g, x, y)
  {
    var i := At(g, x, y);
    Estimate(VcdDirection(e.eqE[i], t, e.eq6[i], e.eq7[i], scores(x, y)), e.eq3[i], e.eq4[i], e.eq5[i])
  }

  function VcdInteriorCell(g: Geometry, e: Estimates, t: real, scores: Scores, grn: seq<byte>, x: int, y: int): byte
    requires EstimatesFit(g, e) && IsPlane(g, grn) && InFrame(g, x, y)
  {
    if VcdSite(g, x, y) then VcdChoice(g, e, t, scores, x, y) else grn[At(g, x, y)]
  }

  function VcdInteriorPlane(g: Geometry, e: Estimates, t: real, scores: Scores, grn: seq<byte>): (p: seq<byte>)
    requires EstimatesFit(g, e) && IsPlane(g, grn)
    ensures IsPlane(g, p)
    ensures forall x, y {:trigger p[At(g, x, y)]} | InFrame(g, x, y) :: p[At(g, x, y)] == VcdInteriorCell(g, e, t, scores, grn, x, y)
  {
    Tabulate(g, (x, y) => if InFrame(g, x, y) then VcdInteriorCell(g, e, t, scores, grn, x, y) else 0)
  }

  /** The whole `InterpolateGreen` of every VCD subclass. */
  function VcdGreenPlane(g: Geometry, e: Estimates, t: real, scores: Scores, grn: seq<byte>): (p: seq<byte>)
    requires EstimatesFit(g, e) && IsPlane(g, grn)
    ensures IsPlane(g, p)
  {
    GreenBorderPlane(g, VcdInteriorPlane(g, e, t, scores, grn))
  }

  /** A VCD site receives one of the three FIR estimates of that site: in a
      sharp block the one along the weaker activity (never the cross
      filter), elsewhere the one of least variance. */
  lemma VcdGreenIsAnEstimate(g: Geometry, e: Estimates, t: real, scores: Scores, grn: seq<byte>, x: int, y: int)
    requires EstimatesFit(g, e) && IsPlane(g, grn) && InFrame(g, x, y) && VcdSite(g, x, y)
    ensures var i, v := At(g, x, y), VcdGreenPlane(g, e, t, scores, grn)[At(g, x, y)];
      (v == e.eq3[i] || v == e.eq4[i] || v == e.eq5[i]) &&
      (Exceeds(e.eqE[i], t) ==> v == if e.eq6[i] < e.eq7[i] then e.eq3[i] else e.eq4[i]) &&
      (!Exceeds(e.eqE[i], t) ==>
        exists d :: v == Estimate(d, e.eq3[i], e.eq4[i], e.eq5[i]) &&
          Score(scores(x, y), d) <= scores(x, y).h2 && Score(scores(x, y), d) <= scores(x, y).v2 &&
          Score(scores(x, y), d) <= scores(x, y).b2)
  {
    var i := At(g, x, y);
    var d := VcdDirection(e.eqE[i], t, e.eq6[i], e.eq7[i], scores(x, y));
    VcdDirectionIsOptimal(e.eqE[i], t, e.eq6[i], e.eq7[i], scores(x, y));
    assert !SideSite(g, x, y) && !CapSite(g, x, y);
  }

  // ---------------------------------------------------------------------
  // Which pixels the green passes change
  // ---------------------------------------------------------------------

  /** The border pass changes colour sites only. */
  lemma GreenBorderKeepsGreenSites(g: Geometry, grn: seq<byte>, x: int, y: int)
    requires IsPlane(g, grn) && InFrame(g, x, y) && !NonGreen(g, x, y)
    ensures GreenBorderPlane(g, grn)[At(g, x, y)] == grn[At(g, x, y)]
  {
  }

  /** Every green pass keeps the green samples: only colour sites change,
      whichever rule runs. */
  lemma GreenPassesKeepGreenSites(g: Geometry, rule: GreenRule, raw: seq<byte>, e: Estimates, t: real, scores: Scores,
                                  grn: seq<byte>, x: int, y: int)
    requires IsPlane(g, raw) && EstimatesFit(g, e) && IsPlane(g, grn) && InFrame(g, x, y) && !NonGreen(g, x, y)
    ensures GreenPlane(g, rule, raw, e.eq3, grn)[At(g, x, y)] == grn[At(g, x, y)]
    ensures VcdGreenPlane(g, e, t, scores, grn)[At(g, x, y)] == grn[At(g, x, y)]
  {
    GreenBorderKeepsGreenSites(g, GreenInteriorPlane(g, rule, raw, e.eq3, grn), x, y);
    GreenBorderKeepsGreenSites(g, VcdInteriorPlane(g, e, t, scores, grn), x, y);
  }

  /** A border colour site takes the floor mean of two green sites of the
      plane the interior pass left: its row neighbours on the top and
      bottom rows, the two greens of its 2x2 block in the side columns. */
  lemma BorderGreenIsMeanOfGreens(g: Geometry, grn: seq<byte>, x: int, y: int) returns (u1: int, v1: int, u2: int, v2: int)
    requires IsPlane(g, grn) && InFrame(g, x, y) && (SideSite(g, x, y) || CapSite(g, x, y))
    ensures InFrame(g, u1, v1) && InFrame(g, u2, v2) && !NonGreen(g, u1, v1) && !NonGreen(g, u2, v2)
    ensures GreenBorderPlane(g, grn)[At(g, x, y)] == Mean(grn[At(g, u1, v1)], grn[At(g, u2, v2)])
  {
    var v := GreenBorderPlane(g, grn)[At(g, x, y)];
    assert v == GreenBorderCell(g, grn, x, y);
    if SideSite(g, x, y) {
      u1, v1, u2, v2 := SideGreens(g, grn, x, y);
    } else {
      NeighboursOfColourSite(g, x, y);
      u1, v1, u2, v2 := x - 1, y, x + 1, y;
    }
  }

  /** The two greens `SideValue` averages. */
  lemma SideGreens(g: Geometry, grn: seq<byte>, x: int, y: int) returns (u1: int, v1: int, u2: int, v2: int)
    requires IsPlane(g, grn) && InFrame(g, x, y) && SideSite(g, x, y)
    ensures InFrame(g, u1, v1) && InFrame(g, u2, v2) && !NonGreen(g, u1, v1) && !NonGreen(g, u2, v2)
    ensures SideValue(g, grn, x, y) == Mean(grn[At(g, u1, v1)], grn[At(g, u2, v2)])
  {
    var x0, y0 := x - x % 2, y - y % 2;
    BlockGreens(g, x, y);
    if StartsWithColour(g.layout) {
      u1, v1, u2, v2 := x0 + 1, y0, x0, y0 + 1;
    } else {
      u1, v1, u2, v2 := x0, y0, x0 + 1, y0 + 1;
    }
  }

  /** The border pass leaves the colour site in the first column of the
      second-to-last row and the one in the last column of the last row
      (the bottom corners under BG_GR and RG_GB) as they were: neither of
      its loops reaches them. */
  lemma GreenBorderSkipsBottomCorners(g: Geometry, grn: seq<byte>)
    requires IsPlane(g, grn) && StartsWithColour(g.layout)
    ensures NonGreen(g, 0, g.h - 2) && NonGreen(g, g.w - 1, g.h - 1)
    ensures GreenBorderPlane(g, grn)[At(g, 0, g.h - 2)] == grn[At(g, 0, g.h - 2)]
    ensures GreenBorderPlane(g, grn)[At(g, g.w - 1, g.h - 1)] == grn[At(g, g.w - 1, g.h - 1)]
  {
    assert (g.w - 1 + g.h - 1) % 2 == 0;
  }

  /** Of the three rules only DSP reads the plane `CalcEq3` left (BayerSimple
      and BayerACPI never compute it). */
  lemma OnlyDspReadsEq3(g: Geometry, rule: GreenRule, raw: seq<byte>, eq3: seq<byte>, eq3': seq<byte>, grn: seq<byte>)
    requires IsPlane(g, raw) && IsPlane(g, eq3) && IsPlane(g, eq3') && IsPlane(g, grn) && rule != DspRule
    ensures GreenPlane(g, rule, raw, eq3, grn) == GreenPlane(g, rule, raw, eq3', grn)
  {
    var p, q := GreenInteriorPlane(g, rule, raw, eq3, grn), GreenInteriorPlane(g, rule, raw, eq3', grn);
    forall x, y | InFrame(g, x, y)
      ensures p[At(g, x, y)] == q[At(g, x, y)]
    {
    }
    SamePlane(g, p, q);
  }

  /** The three channels of a packed pixel read back by shifting and
      masking: red in bits 16-23, green in 8-15, blue in 0-7, and bits
      24-31 clear. */
  lemma PackUnpack(r: byte, g: byte, b: byte)
    ensures (Pack(r, g, b) >> 16) & 0xff == r as bv32
    ensures (Pack(r, g, b) >> 8) & 0xff == g as bv32
    ensures Pack(r, g, b) & 0xff == b as bv32
    ensures Pack(r, g, b) >> 24 == 0
  {
    ByteWord(r);
    ByteWord(g);
    ByteWord(b);
    PackedFields(r as bv32, g as bv32, b as bv32);
  }

  lemma ByteWord(r: byte)
    ensures r as bv32 < 256
  {
  }

  /** The same on three words below 256. */
  lemma PackedFields(r: bv32, g: bv32, b: bv32)
    requires r < 256 && g < 256 && b < 256
    ensures (((r << 16) | (g << 8) | b) >> 16) & 0xff == r
    ensures (((r << 16) | (g << 8) | b) >> 8) & 0xff == g
    ensures ((r << 16) | (g << 8) | b) & 0xff == b
    ensures ((r << 16) | (g << 8) | b) >> 24 == 0
  {
  }
}
