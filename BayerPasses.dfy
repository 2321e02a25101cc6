/** The loops of RawLibrary/BayerAlgorithm.cs as sweeps: for each pass, the
    window and checkerboard its loops walk, the estimate they store at a
    visited pixel, and the proof that the plane the sweep leaves is the one
    `BayerPlanes` specifies. */
module BayerPasses {
  import opened Common
  import opened PixelMath
  import opened RawHeader
  import opened BayerGeometry
  import opened BayerEquations
  import opened BayerPlanes
  import opened BayerSweep

  /** A plane as `new T[FrameSize]` leaves it: every pixel `z`. */
  function Blank<T>(g: Geometry, z: T): (p: seq<T>)
    requires WellFormed(g)
    ensures IsPlane(g, p) && forall k | 0 <= k < |p| :: p[k] == z
  {
    seq(g.w * g.h, _ => z)
  }

  /** `m_X = new T[FrameSize]`: the plane is reset to the default value. */
  method Clear<T>(g: Geometry, a: array<T>, z: T)
    requires WellFormed(g) && a.Length == g.w * g.h
    modifies a
    ensures a[..] == Blank(g, z)
  {
    forall k | 0 <= k < a.Length {
      a[k] := z;
    }
  }

  /** A pass into a freshly allocated plane: every pixel `z`, then the
      sweep. */
  method Fill<T(!new)>(g: Geometry, s: Sweep, f: Estimate<T>, a: array<T>, z: T)
    requires Fits(g, s) && a.Length == g.w * g.h && ReadsUnvisited(g, s, f)
    modifies a
    ensures a[..] == Swept(g, s, f, Blank(g, z))
  {
    Clear(g, a, z);
    Run(g, s, f, a);
  }

  // ---------------------------------------------------------------------
  // CalcEq3, CalcEq4, CalcEq5
  // ---------------------------------------------------------------------

  /** The loops of `CalcEq3` (every row, columns `[2, w-2)`), `CalcEq4`
      (rows `[2, h-2)`, every column) and `CalcEq5` (both bounds), each on
      the non-green sites only. */
  function FirSweep(g: Geometry, d: Direction): Sweep
  {
    var o := OffsetY(g.layout);
    match d
    case Horizontal => Sweep(2, g.w - 2, 0, g.h, false, o)
    case Vertical => Sweep(0, g.w, 2, g.h - 2, false, o)
    case Cross => Sweep(2, g.w - 2, 2, g.h - 2, false, o)
  }

  /** The value those loops store: the FIR filter on `m_Raw`. */
  function FirEstimate(g: Geometry, raw: seq<byte>, d: Direction): Estimate<byte>
  {
    (p: seq<byte>, x: int, y: int) =>
      if IsPlane(g, raw) && InFrame(g, x, y) && FirWindow(g, d, x, y) then FirAt(g, raw, d, x, y) else 0
  }

  /** The sweep visits exactly the sites `FirPlane` fills, so it leaves that
      plane in a freshly allocated buffer. */
  lemma FirPass(g: Geometry, raw: seq<byte>, d: Direction)
    requires IsPlane(g, raw)
    ensures Fits(g, FirSweep(g, d)) && ReadsUnvisited(g, FirSweep(g, d), FirEstimate(g, raw, d))
    ensures Swept(g, FirSweep(g, d), FirEstimate(g, raw, d), Blank<byte>(g, 0)) == FirPlane(g, raw, d)
  {
    var s, f := FirSweep(g, d), FirEstimate(g, raw, d);
    var p, q := Swept(g, s, f, Blank<byte>(g, 0)), FirPlane(g, raw, d);
    forall x, y | InFrame(g, x, y)
      ensures p[At(g, x, y)] == q[At(g, x, y)]
    {
      assert Visits(s, x, y) <==> FirSite(g, d, x, y);
    }
    SamePlane(g, p, q);
  }

  /** `CalcEq5`'s loop counter starts at `xMin + offsetY` while its index
      starts at the row's first non-green column; on a frame of even width
      both give the same number of iterations in every row, so the loop
      writes exactly the non-green sites of the row. */
  lemma CrossCounterMatchesSites(g: Geometry, y: int)
    requires WellFormed(g)
    ensures Iterations(2 + OffsetY(g.layout), g.w - 2) == Iterations(FirstColumn(FirSweep(g, Cross), y), g.w - 2)
  {
    var s := FirSweep(g, Cross);
    assert s.x0 == 2;
    var x := FirstColumn(s, y);
    if x != 2 + OffsetY(g.layout) {
      IterationsShift(2, g.w - 2);
    }
  }

  /** The number of passes of `for (x = a; x < b; x += 2)`. */
  function Iterations(a: int, b: int): nat
    decreases b - a
  {
    if a < b then 1 + Iterations(a + 2, b) else 0
  }

  /** Before a bound at an even distance, starting one column later makes
      no difference. */
  lemma {:induction false} IterationsShift(a: int, b: int)
    requires (b - a) % 2 == 0
    ensures Iterations(a, b) == Iterations(a + 1, b)
    decreases b - a
  {
    if a < b {
      IterationsShift(a + 2, b);
    }
  }

  // ---------------------------------------------------------------------
  // CalcEq3_4_5
  // ---------------------------------------------------------------------

  /** `CalcEq3_4_5` visits every non-green site of the frame. */
  function AllSites(g: Geometry): Sweep
  {
    Sweep(0, g.w, 0, g.h, false, OffsetY(g.layout))
  }

  function Fir345Estimate(g: Geometry, raw: seq<byte>, d: Direction): Estimate<byte>
  {
    (p: seq<byte>, x: int, y: int) => if IsPlane(g, raw) && InFrame(g, x, y) then Fir345Cell(g, raw, d, x, y) else 0
  }

  lemma Fir345Pass(g: Geometry, raw: seq<byte>, d: Direction)
    requires IsPlane(g, raw)
    ensures Fits(g, AllSites(g)) && ReadsUnvisited(g, AllSites(g), Fir345Estimate(g, raw, d))
    ensures Swept(g, AllSites(g), Fir345Estimate(g, raw, d), Blank<byte>(g, 0)) == Fir345Plane(g, raw, d)
  {
    var s, f := AllSites(g), Fir345Estimate(g, raw, d);
    var p, q := Swept(g, s, f, Blank<byte>(g, 0)), Fir345Plane(g, raw, d);
    forall x, y | InFrame(g, x, y)
      ensures p[At(g, x, y)] == q[At(g, x, y)]
    {
      assert Visits(s, x, y) <==> NonGreen(g, x, y);
    }
    SamePlane(g, p, q);
  }

  // ---------------------------------------------------------------------
  // CalcEq6, CalcEq7, CalcEqE and the combined pass
  // ---------------------------------------------------------------------

  function ActivityEstimate(g: Geometry, raw: seq<byte>, horizontal: bool): Estimate<nat>
  {
    (p: seq<nat>, x: int, y: int) => if IsPlane(g, raw) && InFrame(g, x, y) then ActivityCell(g, raw, horizontal, x, y) else 0
  }

  /** `CalcEq6` and `CalcEq7` walk the loop of `CalcEq5`. */
  lemma ActivityPass(g: Geometry, raw: seq<byte>, horizontal: bool)
    requires IsPlane(g, raw)
    ensures Fits(g, FirSweep(g, Cross)) && ReadsUnvisited(g, FirSweep(g, Cross), ActivityEstimate(g, raw, horizontal))
    ensures Swept(g, FirSweep(g, Cross), ActivityEstimate(g, raw, horizontal), Blank<nat>(g, 0)) == ActivityPlane(g, raw, horizontal)
  {
    var s, f := FirSweep(g, Cross), ActivityEstimate(g, raw, horizontal);
    var p, q := Swept(g, s, f, Blank<nat>(g, 0)), ActivityPlane(g, raw, horizontal);
    forall x, y | InFrame(g, x, y)
      ensures p[At(g, x, y)] == q[At(g, x, y)]
    {
      assert Visits(s, x, y) <==> InnerSite(g, x, y);
    }
    SamePlane(g, p, q);
  }

  function EdgeEstimate(g: Geometry, e6: seq<nat>, e7: seq<nat>): Estimate<Ratio>
  {
    (p: seq<Ratio>, x: int, y: int) =>
      if IsPlane(g, e6) && IsPlane(g, e7) && InFrame(g, x, y) then EdgeRatio(e6[At(g, x, y)], e7[At(g, x, y)]) else ZeroRatio
  }

  /** `CalcEqE` walks the loop of `CalcEq3`. */
  lemma EdgePass(g: Geometry, e6: seq<nat>, e7: seq<nat>)
    requires IsPlane(g, e6) && IsPlane(g, e7)
    ensures Fits(g, FirSweep(g, Horizontal)) && ReadsUnvisited(g, FirSweep(g, Horizontal), EdgeEstimate(g, e6, e7))
    ensures Swept(g, FirSweep(g, Horizontal), EdgeEstimate(g, e6, e7), Blank(g, ZeroRatio)) == EdgePlane(g, e6, e7)
  {
    var s, f := FirSweep(g, Horizontal), EdgeEstimate(g, e6, e7);
    var p, q := Swept(g, s, f, Blank(g, ZeroRatio)), EdgePlane(g, e6, e7);
    forall x, y | InFrame(g, x, y)
      ensures p[At(g, x, y)] == q[At(g, x, y)]
    {
      assert Visits(s, x, y) <==> FirSite(g, Horizontal, x, y);
    }
    SamePlane(g, p, q);
  }

  /** The combined pass keeps Eq3, Eq4 and Eq5 to the sites of `CalcEq5`. */
  lemma InnerFirPass(g: Geometry, raw: seq<byte>, d: Direction)
    requires IsPlane(g, raw)
    ensures Fits(g, FirSweep(g, Cross)) && ReadsUnvisited(g, FirSweep(g, Cross), FirEstimate(g, raw, d))
    ensures Swept(g, FirSweep(g, Cross), FirEstimate(g, raw, d), Blank<byte>(g, 0)) == InnerOnly(g, FirPlane(g, raw, d), 0)
  {
    var s, f := FirSweep(g, Cross), FirEstimate(g, raw, d);
    var p, q := Swept(g, s, f, Blank<byte>(g, 0)), InnerOnly(g, FirPlane(g, raw, d), 0);
    forall x, y | InFrame(g, x, y)
      ensures p[At(g, x, y)] == q[At(g, x, y)]
    {
      assert Visits(s, x, y) <==> InnerSite(g, x, y);
    }
    SamePlane(g, p, q);
  }

  /** The combined pass's edge ratio, from the two activities it has just
      summed at the same site. */
  function InnerEdgeEstimate(g: Geometry, raw: seq<byte>): Estimate<Ratio>
  {
    (p: seq<Ratio>, x: int, y: int) =>
      if IsPlane(g, raw) && InFrame(g, x, y)
      then EdgeRatio(ActivityCell(g, raw, true, x, y), ActivityCell(g, raw, false, x, y))
      else ZeroRatio
  }

  lemma InnerEdgePass(g: Geometry, raw: seq<byte>)
    requires IsPlane(g, raw)
    ensures Fits(g, FirSweep(g, Cross)) && ReadsUnvisited(g, FirSweep(g, Cross), InnerEdgeEstimate(g, raw))
    ensures Swept(g, FirSweep(g, Cross), InnerEdgeEstimate(g, raw), Blank(g, ZeroRatio)) ==
      InnerOnly(g, EdgePlane(g, ActivityPlane(g, raw, true), ActivityPlane(g, raw, false)), ZeroRatio)
  {
    var s, f := FirSweep(g, Cross), InnerEdgeEstimate(g, raw);
    var e6, e7 := ActivityPlane(g, raw, true), ActivityPlane(g, raw, false);
    var p, q := Swept(g, s, f, Blank(g, ZeroRatio)), InnerOnly(g, EdgePlane(g, e6, e7), ZeroRatio);
    forall x, y | InFrame(g, x, y)
      ensures p[At(g, x, y)] == q[At(g, x, y)]
    {
      assert Visits(s, x, y) <==> InnerSite(g, x, y);
    }
    SamePlane(g, p, q);
  }

  // ---------------------------------------------------------------------
  // InterpolateGreen of BayerSimple, BayerACPI and BayerDSP
  // ---------------------------------------------------------------------

  /** Simple and ACPI walk the loop of `CalcEq5`; DSP every non-green site. */
  function GreenSweep(g: Geometry, rule: GreenRule): Sweep
  {
    if rule == DspRule then AllSites(g) else FirSweep(g, Cross)
  }

  function GreenEstimate(g: Geometry, rule: GreenRule, raw: seq<byte>, eq3: seq<byte>): Estimate<byte>
  {
    (p: seq<byte>, x: int, y: int) =>
      if IsPlane(g, raw) && IsPlane(g, eq3) && IsPlane(g, p) && InFrame(g, x, y)
      then GreenInteriorCell(g, rule, raw, eq3, p, x, y)
      else 0
  }

  lemma GreenInteriorPass(g: Geometry, rule: GreenRule, raw: seq<byte>, eq3: seq<byte>, grn: seq<byte>)
    requires IsPlane(g, raw) && IsPlane(g, eq3) && IsPlane(g, grn)
    ensures Fits(g, GreenSweep(g, rule)) && ReadsUnvisited(g, GreenSweep(g, rule), GreenEstimate(g, rule, raw, eq3))
    ensures Swept(g, GreenSweep(g, rule), GreenEstimate(g, rule, raw, eq3), grn) == GreenInteriorPlane(g, rule, raw, eq3, grn)
  {
    var s, f := GreenSweep(g, rule), GreenEstimate(g, rule, raw, eq3);
    var p, q := Swept(g, s, f, grn), GreenInteriorPlane(g, rule, raw, eq3, grn);
    forall x, y | InFrame(g, x, y)
      ensures p[At(g, x, y)] == q[At(g, x, y)]
    {
      if rule == DspRule {
        assert Visits(s, x, y) <==> NonGreen(g, x, y);
      } else {
        assert Visits(s, x, y) <==> InnerSite(g, x, y);
      }
    }
    SamePlane(g, p, q);
  }

  // ---------------------------------------------------------------------
  // InterpolateGreenBorderPixel
  // ---------------------------------------------------------------------

  /** The top (`top`) or bottom loop: the non-green sites of four rows,
      off the first and last column. */
  function CapSweep(g: Geometry, top: bool): Sweep
  {
    var o := OffsetY(g.layout);
    if top then Sweep(1, g.w - 1, 0, 4, false, o) else Sweep(1, g.w - 1, g.h - 4, g.h, false, o)
  }

  /** The left/right loop, one side at a time: the non-green sites of four
      columns, above the last two rows. */
  function SideSweep(g: Geometry, left: bool): Sweep
  {
    var o := OffsetY(g.layout);
    if left then Sweep(0, 4, 0, g.h - 2, false, o) else Sweep(g.w - 4, g.w, 0, g.h - 2, false, o)
  }

  function CapEstimate(g: Geometry): Estimate<byte>
  {
    (p: seq<byte>, x: int, y: int) => if IsPlane(g, p) && InFrame(g, x, y) && 1 <= x <= g.w - 2 then CapValue(g, p, x, y) else 0
  }

  function SideEstimate(g: Geometry): Estimate<byte>
  {
    (p: seq<byte>, x: int, y: int) => if IsPlane(g, p) && InFrame(g, x, y) && y <= g.h - 3 then SideValue(g, p, x, y) else 0
  }

  /** A sweep of the non-green sites keeps every green site. */
  lemma KeepsGreen<T>(g: Geometry, s: Sweep, f: Estimate<T>, base: seq<T>, x: int, y: int)
    requires Fits(g, s) && !s.every && s.parity == OffsetY(g.layout) && IsPlane(g, base)
    requires InFrame(g, x, y) && !NonGreen(g, x, y)
    ensures Swept(g, s, f, base)[At(g, x, y)] == base[At(g, x, y)]
  {
  }

  lemma CapReadsGreen(g: Geometry, top: bool)
    requires WellFormed(g)
    ensures Fits(g, CapSweep(g, top)) && ReadsUnvisited(g, CapSweep(g, top), CapEstimate(g))
  {
    var s, f := CapSweep(g, top), CapEstimate(g);
    forall p: seq<byte>, q: seq<byte>, x: int, y: int | InFrame(g, x, y) && Visits(s, x, y) && AgreeOff(g, s, p, q) && p[At(g, x, y)] == q[At(g, x, y)]
      ensures f(p, x, y) == f(q, x, y)
    {
      if 1 <= x <= g.w - 2 {
        NeighboursOfColourSite(g, x, y);
        assert !Visits(s, x - 1, y) && !Visits(s, x + 1, y);
        assert p[At(g, x - 1, y)] == q[At(g, x - 1, y)] && p[At(g, x + 1, y)] == q[At(g, x + 1, y)];
      }
    }
  }

  lemma SideReadsGreen(g: Geometry, left: bool)
    requires WellFormed(g)
    ensures Fits(g, SideSweep(g, left)) && ReadsUnvisited(g, SideSweep(g, left), SideEstimate(g))
  {
    var s, f := SideSweep(g, left), SideEstimate(g);
    forall p: seq<byte>, q: seq<byte>, x: int, y: int | InFrame(g, x, y) && Visits(s, x, y) && AgreeOff(g, s, p, q) && p[At(g, x, y)] == q[At(g, x, y)]
      ensures f(p, x, y) == f(q, x, y)
    {
      if y <= g.h - 3 {
        SideValueAgrees(g, s, p, q, x, y);
      }
    }
  }

  /** The two greens `SideValue` averages lie off the checkerboard a side
      sweep writes. */
  lemma SideValueAgrees(g: Geometry, s: Sweep, p: seq<byte>, q: seq<byte>, x: int, y: int)
    requires WellFormed(g) && !s.every && s.parity == OffsetY(g.layout)
    requires InFrame(g, x, y) && y <= g.h - 3 && NonGreen(g, x, y) && AgreeOff(g, s, p, q)
    ensures SideValue(g, p, x, y) == SideValue(g, q, x, y)
  {
    GreensAgree(g, s, p, q);
    BorderValuesFromGreen(g, q, p, x, y);
  }

  /** Planes that differ only where a sweep over the colour sites writes
      agree on every green site. */
  lemma GreensAgree(g: Geometry, s: Sweep, p: seq<byte>, q: seq<byte>)
    requires !s.every && s.parity == OffsetY(g.layout) && AgreeOff(g, s, p, q)
    ensures forall u, v | InFrame(g, u, v) && !NonGreen(g, u, v) :: p[At(g, u, v)] == q[At(g, u, v)]
  {
    forall u, v | InFrame(g, u, v) && !NonGreen(g, u, v)
      ensures p[At(g, u, v)] == q[At(g, u, v)]
    {
      GreenUnvisited(g, s, u, v);
      AgreeOffAt(g, s, p, q, u, v);
    }
  }

  /** A checkerboard sweep over the colour sites never visits a green
      site. */
  lemma GreenUnvisited(g: Geometry, s: Sweep, x: int, y: int)
    requires !s.every && s.parity == OffsetY(g.layout) && !NonGreen(g, x, y)
    ensures !Visits(s, x, y)
  {
  }

  /** `CapValue` and `SideValue` read green sites only, so a plane that
      agrees with `grn` on the green sites gives the same values. */
  lemma BorderValuesFromGreen(g: Geometry, grn: seq<byte>, p: seq<byte>, x: int, y: int)
    requires IsPlane(g, grn) && IsPlane(g, p) && InFrame(g, x, y) && NonGreen(g, x, y)
    requires forall u, v | InFrame(g, u, v) && !NonGreen(g, u, v) :: p[At(g, u, v)] == grn[At(g, u, v)]
    ensures 1 <= x <= g.w - 2 ==> CapValue(g, p, x, y) == CapValue(g, grn, x, y)
    ensures y <= g.h - 3 ==> SideValue(g, p, x, y) == SideValue(g, grn, x, y)
  {
    NeighboursOfColourSite(g, x, y);
    if y <= g.h - 3 {
      BlockGreens(g, x, y);
    }
  }

  /** The four border sweeps in the source's order (top, bottom, left,
      right). */
  function GreenBorderSweeps(g: Geometry, grn: seq<byte>): (p: seq<byte>)
    requires IsPlane(g, grn)
    ensures IsPlane(g, p)
  {
    var p1 := Swept(g, CapSweep(g, true), CapEstimate(g), grn);
    var p2 := Swept(g, CapSweep(g, false), CapEstimate(g), p1);
    var p3 := Swept(g, SideSweep(g, true), SideEstimate(g), p2);
    Swept(g, SideSweep(g, false), SideEstimate(g), p3)
  }

  /** After the four sweeps every green site still holds `grn`. */
  lemma BorderSweepsKeepGreen(g: Geometry, grn: seq<byte>, x: int, y: int)
    requires IsPlane(g, grn) && InFrame(g, x, y) && !NonGreen(g, x, y)
    ensures var p1 := Swept(g, CapSweep(g, true), CapEstimate(g), grn);
      var p2 := Swept(g, CapSweep(g, false), CapEstimate(g), p1);
      var p3 := Swept(g, SideSweep(g, true), SideEstimate(g), p2);
      p1[At(g, x, y)] == grn[At(g, x, y)] && p2[At(g, x, y)] == grn[At(g, x, y)] &&
      p3[At(g, x, y)] == grn[At(g, x, y)]
  {
    var p1 := Swept(g, CapSweep(g, true), CapEstimate(g), grn);
    var p2 := Swept(g, CapSweep(g, false), CapEstimate(g), p1);
    KeepsGreen(g, CapSweep(g, true), CapEstimate(g), grn, x, y);
    KeepsGreen(g, CapSweep(g, false), CapEstimate(g), p1, x, y);
    KeepsGreen(g, SideSweep(g, true), SideEstimate(g), p2, x, y);
  }

  lemma GreenBorderAt(g: Geometry, grn: seq<byte>, x: int, y: int)
    requires IsPlane(g, grn) && InFrame(g, x, y)
    ensures GreenBorderSweeps(g, grn)[At(g, x, y)] == GreenBorderCell(g, grn, x, y)
  {
    var p1 := Swept(g, CapSweep(g, true), CapEstimate(g), grn);
    var p2 := Swept(g, CapSweep(g, false), CapEstimate(g), p1);
    var p3 := Swept(g, SideSweep(g, true), SideEstimate(g), p2);
    if NonGreen(g, x, y) {
      forall u, v | InFrame(g, u, v) && !NonGreen(g, u, v)
        ensures p1[At(g, u, v)] == grn[At(g, u, v)] && p2[At(g, u, v)] == grn[At(g, u, v)] &&
          p3[At(g, u, v)] == grn[At(g, u, v)]
      {
        BorderSweepsKeepGreen(g, grn, u, v);
      }
      BorderValuesFromGreen(g, grn, p1, x, y);
      BorderValuesFromGreen(g, grn, p2, x, y);
      BorderValuesFromGreen(g, grn, p3, x, y);
    } else {
      BorderSweepsKeepGreen(g, grn, x, y);
      KeepsGreen(g, SideSweep(g, false), SideEstimate(g), p3, x, y);
    }
  }

  /** The four sweeps leave the plane `GreenBorderPlane` specifies. */
  lemma GreenBorderPass(g: Geometry, grn: seq<byte>)
    requires IsPlane(g, grn)
    ensures GreenBorderSweeps(g, grn) == GreenBorderPlane(g, grn)
  {
    forall x, y | InFrame(g, x, y)
      ensures GreenBorderSweeps(g, grn)[At(g, x, y)] == GreenBorderPlane(g, grn)[At(g, x, y)]
    {
      GreenBorderAt(g, grn, x, y);
    }
    SamePlane(g, GreenBorderSweeps(g, grn), GreenBorderPlane(g, grn));
  }

  // ---------------------------------------------------------------------
  // InterpolateGreen of the VCD subclasses
  // ---------------------------------------------------------------------

  /** The non-green sites at least four pixels from every side (nothing on
      a frame narrower or lower than eight pixels). */
  function VcdSweep(g: Geometry): Sweep
  {
    var x1 := if g.w - 4 < 4 then 4 else g.w - 4;
    var y1 := if g.h - 4 < 4 then 4 else g.h - 4;
    Sweep(4, x1, 4, y1, false, OffsetY(g.layout))
  }

  function VcdEstimate(g: Geometry, e: Estimates, t: real, scores: Scores): Estimate<byte>
  {
    (p: seq<byte>, x: int, y: int) =>
      if EstimatesFit(g, e) && IsPlane(g, p) && InFrame(g, x, y) then VcdInteriorCell(g, e, t, scores, p, x, y) else 0
  }

  lemma VcdGreenPass(g: Geometry, e: Estimates, t: real, scores: Scores, grn: seq<byte>)
    requires EstimatesFit(g, e) && IsPlane(g, grn)
    ensures Fits(g, VcdSweep(g)) && ReadsUnvisited(g, VcdSweep(g), VcdEstimate(g, e, t, scores))
    ensures Swept(g, VcdSweep(g), VcdEstimate(g, e, t, scores), grn) == VcdInteriorPlane(g, e, t, scores, grn)
  {
    var s, f := VcdSweep(g), VcdEstimate(g, e, t, scores);
    var p, q := Swept(g, s, f, grn), VcdInteriorPlane(g, e, t, scores, grn);
    forall x, y | InFrame(g, x, y)
      ensures p[At(g, x, y)] == q[At(g, x, y)]
    {
      assert Visits(s, x, y) <==> VcdSite(g, x, y);
    }
    SamePlane(g, p, q);
  }

  // ---------------------------------------------------------------------
  // CalcColorDiff
  // ---------------------------------------------------------------------

  /** The first loop: sample minus estimate at the sites of `CalcEq5`. */
  function FirstDiffEstimate(g: Geometry, raw: seq<byte>, est: seq<byte>): Estimate<int>
  {
    (p: seq<int>, x: int, y: int) =>
      if IsPlane(g, raw) && IsPlane(g, est) && InFrame(g, x, y) then raw[At(g, x, y)] as int - est[At(g, x, y)] as int else 0
  }

  /** The second loop visits the green sites of the same window. */
  function InnerGreenSweep(g: Geometry): Sweep
  {
    Sweep(2, g.w - 2, 2, g.h - 2, false, 1 - OffsetY(g.layout))
  }

  /** `(left - right) >> 1` or `(above - below) >> 1` of the first loop's
      differences. */
  function HalfDiffEstimate(g: Geometry, horizontal: bool): Estimate<int>
  {
    (p: seq<int>, x: int, y: int) =>
      if IsPlane(g, p) && 1 <= x < g.w - 1 && 1 <= y < g.h - 1 then
        if horizontal then (p[At(g, x - 1, y)] - p[At(g, x + 1, y)]) / 2
        else (p[At(g, x, y - 1)] - p[At(g, x, y + 1)]) / 2
      else 0
  }

  lemma HalfDiffReadsColourSites(g: Geometry, horizontal: bool)
    requires WellFormed(g)
    ensures Fits(g, InnerGreenSweep(g)) && ReadsUnvisited(g, InnerGreenSweep(g), HalfDiffEstimate(g, horizontal))
  {
    var s, f := InnerGreenSweep(g), HalfDiffEstimate(g, horizontal);
    forall p: seq<int>, q: seq<int>, x: int, y: int | InFrame(g, x, y) && Visits(s, x, y) && AgreeOff(g, s, p, q) && p[At(g, x, y)] == q[At(g, x, y)]
      ensures f(p, x, y) == f(q, x, y)
    {
      HalfDiffAgrees(g, horizontal, p, q, x, y);
    }
  }

  /** At one visited green site the two neighbours the difference reads are
      colour sites, which the sweep leaves alone. */
  lemma HalfDiffAgrees(g: Geometry, horizontal: bool, p: seq<int>, q: seq<int>, x: int, y: int)
    requires WellFormed(g) && InFrame(g, x, y) && Visits(InnerGreenSweep(g), x, y) && AgreeOff(g, InnerGreenSweep(g), p, q)
    ensures HalfDiffEstimate(g, horizontal)(p, x, y) == HalfDiffEstimate(g, horizontal)(q, x, y)
  {
    var s := InnerGreenSweep(g);
    CheckerNeighbours(s, x, y);
    if horizontal {
      AgreeOffAt(g, s, p, q, x - 1, y);
      AgreeOffAt(g, s, p, q, x + 1, y);
    } else {
      AgreeOffAt(g, s, p, q, x, y - 1);
      AgreeOffAt(g, s, p, q, x, y + 1);
    }
  }

  /** The four direct neighbours of a checkerboard site have the other colour. */
  lemma CheckerNeighbours(s: Sweep, x: int, y: int)
    requires !s.every && Visits(s, x, y)
    ensures !Visits(s, x - 1, y) && !Visits(s, x + 1, y) && !Visits(s, x, y - 1) && !Visits(s, x, y + 1)
  {
  }

  lemma AgreeOffAt<T>(g: Geometry, s: Sweep, p: seq<T>, q: seq<T>, x: int, y: int)
    requires AgreeOff(g, s, p, q) && InFrame(g, x, y) && !Visits(s, x, y)
    ensures p[At(g, x, y)] == q[At(g, x, y)]
  {
  }

  /** The first loop leaves `FirstDiff` in every pixel. */
  lemma FirstDiffPass(g: Geometry, raw: seq<byte>, est: seq<byte>)
    requires IsPlane(g, raw) && IsPlane(g, est)
    ensures Fits(g, FirSweep(g, Cross)) && ReadsUnvisited(g, FirSweep(g, Cross), FirstDiffEstimate(g, raw, est))
    ensures var p1 := Swept(g, FirSweep(g, Cross), FirstDiffEstimate(g, raw, est), Blank<int>(g, 0));
      forall x, y | InFrame(g, x, y) :: p1[At(g, x, y)] == FirstDiff(g, raw, est, x, y)
  {
    var s1, f1 := FirSweep(g, Cross), FirstDiffEstimate(g, raw, est);
    var p1 := Swept(g, s1, f1, Blank<int>(g, 0));
    forall x, y | InFrame(g, x, y)
      ensures p1[At(g, x, y)] == FirstDiff(g, raw, est, x, y)
    {
      assert Visits(s1, x, y) <==> InnerSite(g, x, y);
    }
  }

  lemma HalfDiffAt(g: Geometry, raw: seq<byte>, est: seq<byte>, horizontal: bool, p1: seq<int>, x: int, y: int)
    requires IsPlane(g, raw) && IsPlane(g, est) && IsPlane(g, p1) && InFrame(g, x, y)
    requires forall u, v | InFrame(g, u, v) :: p1[At(g, u, v)] == FirstDiff(g, raw, est, u, v)
    ensures (if Visits(InnerGreenSweep(g), x, y) then HalfDiffEstimate(g, horizontal)(p1, x, y) else p1[At(g, x, y)])
            == ColourDiffCell(g, raw, est, horizontal, x, y)
  {
    assert Visits(InnerGreenSweep(g), x, y) <==> InnerGreen(g, x, y);
    if InnerGreen(g, x, y) {
      assert p1[At(g, x - 1, y)] == FirstDiff(g, raw, est, x - 1, y);
      assert p1[At(g, x + 1, y)] == FirstDiff(g, raw, est, x + 1, y);
      assert p1[At(g, x, y - 1)] == FirstDiff(g, raw, est, x, y - 1);
      assert p1[At(g, x, y + 1)] == FirstDiff(g, raw, est, x, y + 1);
      HalfDiffInner(g, raw, est, horizontal, p1, x, y);
    }
  }

  /** At an inner green site the second pass halves the difference of the
      first pass's two neighbours. */
  lemma HalfDiffInner(g: Geometry, raw: seq<byte>, est: seq<byte>, horizontal: bool, p1: seq<int>, x: int, y: int)
    requires IsPlane(g, raw) && IsPlane(g, est) && IsPlane(g, p1) && InFrame(g, x, y) && InnerGreen(g, x, y)
    requires p1[At(g, x - 1, y)] == FirstDiff(g, raw, est, x - 1, y)
    requires p1[At(g, x + 1, y)] == FirstDiff(g, raw, est, x + 1, y)
    requires p1[At(g, x, y - 1)] == FirstDiff(g, raw, est, x, y - 1)
    requires p1[At(g, x, y + 1)] == FirstDiff(g, raw, est, x, y + 1)
    ensures HalfDiffEstimate(g, horizontal)(p1, x, y) == ColourDiffCell(g, raw, est, horizontal, x, y)
  {
  }

  /** The two loops of `CalcColorDiff` on one buffer leave the plane
      `ColourDiffPlane` specifies. */
  lemma ColourDiffPass(g: Geometry, raw: seq<byte>, est: seq<byte>, horizontal: bool)
    requires IsPlane(g, raw) && IsPlane(g, est)
    ensures Fits(g, FirSweep(g, Cross)) && ReadsUnvisited(g, FirSweep(g, Cross), FirstDiffEstimate(g, raw, est))
    ensures Fits(g, InnerGreenSweep(g)) && ReadsUnvisited(g, InnerGreenSweep(g), HalfDiffEstimate(g, horizontal))
    ensures Swept(g, InnerGreenSweep(g), HalfDiffEstimate(g, horizontal),
                  Swept(g, FirSweep(g, Cross), FirstDiffEstimate(g, raw, est), Blank<int>(g, 0)))
            == ColourDiffPlane(g, raw, est, horizontal)
  {
    HalfDiffReadsColourSites(g, horizontal);
    FirstDiffPass(g, raw, est);
    var p1 := Swept(g, FirSweep(g, Cross), FirstDiffEstimate(g, raw, est), Blank<int>(g, 0));
    var s2, f2 := InnerGreenSweep(g), HalfDiffEstimate(g, horizontal);
    var p2, q := Swept(g, s2, f2, p1), ColourDiffPlane(g, raw, est, horizontal);
    forall x, y | InFrame(g, x, y)
      ensures p2[At(g, x, y)] == q[At(g, x, y)]
    {
      HalfDiffAt(g, raw, est, horizontal, p1, x, y);
    }
    SamePlane(g, p2, q);
  }

  // ---------------------------------------------------------------------
  // InterpolateRedBlue: the interior pass
  // ---------------------------------------------------------------------

  /** Rows `[1, h-1)`, columns `[1, w-1)`, every pixel; nothing for Mono. */
  function RedBlueSweep(g: Geometry): Sweep
  {
    if IsBayer(g.layout) then Sweep(1, g.w - 1, 1, g.h - 1, true, 0) else Sweep(0, 0, 0, 0, true, 0)
  }

  function RedBlueEstimate(g: Geometry, raw: seq<byte>, grn: seq<byte>, c: Channel): Estimate<byte>
  {
    (p: seq<byte>, x: int, y: int) =>
      if IsPlane(g, raw) && IsPlane(g, grn) && IsPlane(g, p) && InFrame(g, x, y) && c != Green
      then RedBlueCell(g, raw, grn, c, p, x, y)
      else 0
  }

  /** The interior pass on plane `c` reads the plane only at the pixel it
      writes, so the order of its rows does not matter. */
  lemma RedBlueInteriorPass(g: Geometry, raw: seq<byte>, grn: seq<byte>, c: Channel, p: seq<byte>)
    requires IsPlane(g, raw) && IsPlane(g, grn) && IsPlane(g, p) && c != Green
    ensures Fits(g, RedBlueSweep(g)) && ReadsUnvisited(g, RedBlueSweep(g), RedBlueEstimate(g, raw, grn, c))
    ensures Swept(g, RedBlueSweep(g), RedBlueEstimate(g, raw, grn, c), p) == RedBlueInteriorPlane(g, raw, grn, c, p)
  {
    var s, f := RedBlueSweep(g), RedBlueEstimate(g, raw, grn, c);
    var r, q := Swept(g, s, f, p), RedBlueInteriorPlane(g, raw, grn, c, p);
    forall x, y | InFrame(g, x, y)
      ensures r[At(g, x, y)] == q[At(g, x, y)]
    {
      assert Visits(s, x, y) <==> RedBlueSite(g, x, y);
    }
    SamePlane(g, r, q);
  }

  // ---------------------------------------------------------------------
  // InterpolateRedBlueBorder
  // ---------------------------------------------------------------------

  /** The pixels the top/bottom loop writes in plane P (`isP`) or Q, on the
      top row (`top`) or the bottom row. */
  function RedBlueCapSweep(g: Geometry, isP: bool, copy: bool, top: bool): Sweep
  {
    if top then
      if !isP then Sweep(0, g.w - 2, 0, 1, true, 0)
      else if copy then Sweep(0, g.w - 3, 0, 1, false, 0)
      else Sweep(1, g.w - 2, 0, 1, false, 1)
    else if isP then Sweep(1, g.w - 1, g.h - 1, g.h, true, 0)
    else Sweep(2, g.w - 1, g.h - 1, g.h, false, 1)
  }

  /** The pixels the left/right loop writes in plane P or Q, in the first
      column (`left`) or the last. */
  function RedBlueSideSweep(g: Geometry, isP: bool, left: bool): Sweep
  {
    if left then
      if isP then Sweep(0, 1, 0, g.h - 2, false, 1) else Sweep(0, 1, 0, g.h - 2, true, 0)
    else if isP then Sweep(g.w - 1, g.w, 0, g.h - 2, true, 0)
    else Sweep(g.w - 1, g.w, 0, g.h - 2, false, 0)
  }

  function RedBlueCapEstimate(g: Geometry, isP: bool, copy: bool): Estimate<byte>
  {
    (p: seq<byte>, x: int, y: int) =>
      if IsPlane(g, p) && InFrame(g, x, y) then (if isP then CapPCell(g, p, copy, x, y) else CapQCell(g, p, x, y)) else 0
  }

  function RedBlueSideEstimate(g: Geometry, isP: bool): Estimate<byte>
  {
    (p: seq<byte>, x: int, y: int) =>
      if IsPlane(g, p) && InFrame(g, x, y) then (if isP then SidePCell(g, p, x, y) else SideQCell(g, p, x, y)) else 0
  }

  lemma CapRowReadsUnvisited(g: Geometry, isP: bool, copy: bool, top: bool)
    requires WellFormed(g)
    ensures Fits(g, RedBlueCapSweep(g, isP, copy, top))
    ensures ReadsUnvisited(g, RedBlueCapSweep(g, isP, copy, top), RedBlueCapEstimate(g, isP, copy))
  {
    var s, f := RedBlueCapSweep(g, isP, copy, top), RedBlueCapEstimate(g, isP, copy);
    forall p: seq<byte>, q: seq<byte>, x: int, y: int | InFrame(g, x, y) && Visits(s, x, y) && AgreeOff(g, s, p, q) && p[At(g, x, y)] == q[At(g, x, y)]
      ensures f(p, x, y) == f(q, x, y)
    {
      CapAgrees(g, isP, copy, top, p, q, x, y);
    }
  }

  /** At one pixel the top/bottom loop writes, the pixels it reads are ones
      it does not write. */
  lemma CapAgrees(g: Geometry, isP: bool, copy: bool, top: bool, p: seq<byte>, q: seq<byte>, x: int, y: int)
    requires WellFormed(g) && InFrame(g, x, y)
    requires Visits(RedBlueCapSweep(g, isP, copy, top), x, y) && AgreeOff(g, RedBlueCapSweep(g, isP, copy, top), p, q)
    requires p[At(g, x, y)] == q[At(g, x, y)]
    ensures RedBlueCapEstimate(g, isP, copy)(p, x, y) == RedBlueCapEstimate(g, isP, copy)(q, x, y)
  {
    var s := RedBlueCapSweep(g, isP, copy, top);
    if top {
      if !isP {
        AgreeOffAt(g, s, p, q, x, 1);
      } else if copy {
        AgreeOffAt(g, s, p, q, x + 1, 0);
      } else {
        CheckerNeighbours(s, x, y);
        AgreeOffAt(g, s, p, q, x - 1, 0);
        AgreeOffAt(g, s, p, q, x + 1, 0);
      }
    } else if isP {
      AgreeOffAt(g, s, p, q, x, g.h - 2);
    } else {
      CheckerNeighbours(s, x, y);
      AgreeOffAt(g, s, p, q, x - 1, y);
      AgreeOffAt(g, s, p, q, x + 1, y);
    }
  }

  lemma SideColumnReadsUnvisited(g: Geometry, isP: bool, left: bool)
    requires WellFormed(g)
    ensures Fits(g, RedBlueSideSweep(g, isP, left))
    ensures ReadsUnvisited(g, RedBlueSideSweep(g, isP, left), RedBlueSideEstimate(g, isP))
  {
    var s, f := RedBlueSideSweep(g, isP, left), RedBlueSideEstimate(g, isP);
    forall p: seq<byte>, q: seq<byte>, x: int, y: int | InFrame(g, x, y) && Visits(s, x, y) && AgreeOff(g, s, p, q) && p[At(g, x, y)] == q[At(g, x, y)]
      ensures f(p, x, y) == f(q, x, y)
    {
      SideAgrees(g, isP, left, p, q, x, y);
    }
  }

  /** At one pixel the left/right loop writes, the pixels it reads are ones
      it does not write. */
  lemma SideAgrees(g: Geometry, isP: bool, left: bool, p: seq<byte>, q: seq<byte>, x: int, y: int)
    requires WellFormed(g) && InFrame(g, x, y)
    requires Visits(RedBlueSideSweep(g, isP, left), x, y) && AgreeOff(g, RedBlueSideSweep(g, isP, left), p, q)
    requires p[At(g, x, y)] == q[At(g, x, y)]
    ensures RedBlueSideEstimate(g, isP)(p, x, y) == RedBlueSideEstimate(g, isP)(q, x, y)
  {
    var s := RedBlueSideSweep(g, isP, left);
    if left {
      if isP {
        CheckerNeighbours(s, x, y);
        AgreeOffAt(g, s, p, q, 0, y - 1);
        AgreeOffAt(g, s, p, q, 0, y + 1);
      } else {
        AgreeOffAt(g, s, p, q, 1, y);
      }
    } else if isP {
      AgreeOffAt(g, s, p, q, g.w - 2, y);
    } else {
      CheckerNeighbours(s, x, y);
      if y % 2 == 1 {
        AgreeOffAt(g, s, p, q, g.w - 1, y - 1);
        AgreeOffAt(g, s, p, q, g.w - 1, y + 1);
      }
    }
  }

  /** Where each border loop writes, and that every other pixel keeps its
      value in `CapPlane`/`SidePlane`. */
  lemma CapSitesAt(g: Geometry, p: seq<byte>, isP: bool, copy: bool, x: int, y: int)
    requires IsPlane(g, p) && InFrame(g, x, y)
    ensures var s1, s2 := RedBlueCapSweep(g, isP, copy, true), RedBlueCapSweep(g, isP, copy, false);
      (Visits(s1, x, y) ==> !Visits(s2, x, y)) &&
      (!Visits(s1, x, y) && !Visits(s2, x, y) ==> RedBlueCapEstimate(g, isP, copy)(p, x, y) == p[At(g, x, y)])
  {
    var s1, s2 := RedBlueCapSweep(g, isP, copy, true), RedBlueCapSweep(g, isP, copy, false);
    if !Visits(s1, x, y) && !Visits(s2, x, y) {
      CapUnvisited(g, isP, copy, x, y);
    }
  }

  /** A pixel neither cap loop visits falls through every branch of its cell. */
  lemma CapUnvisited(g: Geometry, isP: bool, copy: bool, x: int, y: int)
    requires WellFormed(g) && InFrame(g, x, y)
    requires !Visits(RedBlueCapSweep(g, isP, copy, true), x, y) && !Visits(RedBlueCapSweep(g, isP, copy, false), x, y)
    ensures isP ==> !(y == 0 && copy && x % 2 == 0 && x <= g.w - 4) && !(y == 0 && !copy && x % 2 == 1 && x <= g.w - 3)
                    && !(y == g.h - 1 && 1 <= x <= g.w - 2)
    ensures !isP ==> !(y == 0 && x <= g.w - 3) && !(y == g.h - 1 && x % 2 == 0 && 2 <= x <= g.w - 2)
  {
    if y == g.h - 1 {
      assert (x + y) % 2 != x % 2;
    }
  }

  lemma CapBottomAt(g: Geometry, p: seq<byte>, isP: bool, copy: bool, x: int, y: int)
    requires IsPlane(g, p) && InFrame(g, x, y) && Visits(RedBlueCapSweep(g, isP, copy, false), x, y)
    ensures var s1, f := RedBlueCapSweep(g, isP, copy, true), RedBlueCapEstimate(g, isP, copy);
      f(p, x, y) == f(Swept(g, s1, f, p), x, y)
  {
    var s1, f := RedBlueCapSweep(g, isP, copy, true), RedBlueCapEstimate(g, isP, copy);
    var p1 := Swept(g, s1, f, p);
    assert y == g.h - 1;
    if isP {
      assert !Visits(s1, x, y - 1);
      assert p1[At(g, x, y - 1)] == p[At(g, x, y - 1)];
    } else {
      assert !Visits(s1, x - 1, y) && !Visits(s1, x + 1, y);
      assert p1[At(g, x - 1, y)] == p[At(g, x - 1, y)] && p1[At(g, x + 1, y)] == p[At(g, x + 1, y)];
    }
  }

  /** The top row, then the bottom row, of plane P or Q: `CapPlane`. */
  lemma RedBlueCapPass(g: Geometry, p: seq<byte>, isP: bool, copy: bool)
    requires IsPlane(g, p)
    ensures Swept(g, RedBlueCapSweep(g, isP, copy, false), RedBlueCapEstimate(g, isP, copy),
                  Swept(g, RedBlueCapSweep(g, isP, copy, true), RedBlueCapEstimate(g, isP, copy), p))
            == CapPlane(g, p, isP, copy)
  {
    var s1, s2, f := RedBlueCapSweep(g, isP, copy, true), RedBlueCapSweep(g, isP, copy, false), RedBlueCapEstimate(g, isP, copy);
    var spec := CapPlane(g, p, isP, copy);
    CapRowReadsUnvisited(g, isP, copy, true);
    CapRowReadsUnvisited(g, isP, copy, false);
    forall x, y | InFrame(g, x, y)
      ensures spec[At(g, x, y)] == f(p, x, y)
    {
      assert spec[At(g, x, y)] == if isP then CapPCell(g, p, copy, x, y) else CapQCell(g, p, x, y);
    }
    forall x, y | InFrame(g, x, y)
      ensures Visits(s1, x, y) ==> !Visits(s2, x, y)
      ensures !Visits(s1, x, y) && !Visits(s2, x, y) ==> spec[At(g, x, y)] == p[At(g, x, y)]
    {
      CapSitesAt(g, p, isP, copy, x, y);
    }
    forall x, y | InFrame(g, x, y) && Visits(s2, x, y)
      ensures spec[At(g, x, y)] == f(Swept(g, s1, f, p), x, y)
    {
      CapBottomAt(g, p, isP, copy, x, y);
    }
    TwoSweeps(g, s1, s2, f, p, spec);
  }

  lemma SideSitesAt(g: Geometry, p: seq<byte>, isP: bool, x: int, y: int)
    requires IsPlane(g, p) && InFrame(g, x, y)
    ensures var s1, s2 := RedBlueSideSweep(g, isP, true), RedBlueSideSweep(g, isP, false);
      (Visits(s1, x, y) ==> !Visits(s2, x, y)) &&
      (!Visits(s1, x, y) && !Visits(s2, x, y) ==> RedBlueSideEstimate(g, isP)(p, x, y) == p[At(g, x, y)])
  {
    var s1, s2 := RedBlueSideSweep(g, isP, true), RedBlueSideSweep(g, isP, false);
    if !Visits(s1, x, y) && !Visits(s2, x, y) {
      SideUnvisited(g, isP, x, y);
    }
  }

  /** A pixel neither side loop visits falls through every branch of its cell. */
  lemma SideUnvisited(g: Geometry, isP: bool, x: int, y: int)
    requires WellFormed(g) && InFrame(g, x, y)
    requires !Visits(RedBlueSideSweep(g, isP, true), x, y) && !Visits(RedBlueSideSweep(g, isP, false), x, y)
    ensures isP ==> !(x == 0 && y % 2 == 1 && y <= g.h - 3) && !(x == g.w - 1 && y <= g.h - 3)
    ensures !isP ==> !(x == 0 && y <= g.h - 3) && !(x == g.w - 1 && y % 2 == 1 && y <= g.h - 3)
  {
    if x == g.w - 1 {
      assert (x + y) % 2 != y % 2;
    }
  }

  lemma SideRightAt(g: Geometry, p: seq<byte>, isP: bool, x: int, y: int)
    requires IsPlane(g, p) && InFrame(g, x, y) && Visits(RedBlueSideSweep(g, isP, false), x, y)
    ensures var s1, f := RedBlueSideSweep(g, isP, true), RedBlueSideEstimate(g, isP);
      f(p, x, y) == f(Swept(g, s1, f, p), x, y)
  {
    var s1, f := RedBlueSideSweep(g, isP, true), RedBlueSideEstimate(g, isP);
    var p1 := Swept(g, s1, f, p);
    assert x == g.w - 1;
    if isP {
      assert !Visits(s1, x - 1, y);
      SweptOffAt(g, s1, f, p, x - 1, y);
    } else if y % 2 == 1 && y <= g.h - 3 {
      assert !Visits(s1, x, y - 1) && !Visits(s1, x, y + 1);
      SweptOffAt(g, s1, f, p, x, y - 1);
      SweptOffAt(g, s1, f, p, x, y + 1);
    }
  }

  /** A pixel the sweep does not visit keeps its value. */
  lemma SweptOffAt<T>(g: Geometry, s: Sweep, f: Estimate<T>, p: seq<T>, x: int, y: int)
    requires IsPlane(g, p) && InFrame(g, x, y) && !Visits(s, x, y)
    ensures Swept(g, s, f, p)[At(g, x, y)] == p[At(g, x, y)]
  {
  }

  /** The first column, then the last, of plane P or Q: `SidePlane`. */
  lemma RedBlueSidePass(g: Geometry, p: seq<byte>, isP: bool)
    requires IsPlane(g, p)
    ensures Swept(g, RedBlueSideSweep(g, isP, false), RedBlueSideEstimate(g, isP),
                  Swept(g, RedBlueSideSweep(g, isP, true), RedBlueSideEstimate(g, isP), p))
            == SidePlane(g, p, isP)
  {
    var s1, s2, f := RedBlueSideSweep(g, isP, true), RedBlueSideSweep(g, isP, false), RedBlueSideEstimate(g, isP);
    var spec := SidePlane(g, p, isP);
    SideColumnReadsUnvisited(g, isP, true);
    SideColumnReadsUnvisited(g, isP, false);
    forall x, y | InFrame(g, x, y)
      ensures spec[At(g, x, y)] == f(p, x, y)
    {
    }
    forall x, y | InFrame(g, x, y)
      ensures Visits(s1, x, y) ==> !Visits(s2, x, y)
      ensures !Visits(s1, x, y) && !Visits(s2, x, y) ==> spec[At(g, x, y)] == p[At(g, x, y)]
    {
      SideSitesAt(g, p, isP, x, y);
    }
    forall x, y | InFrame(g, x, y) && Visits(s2, x, y)
      ensures spec[At(g, x, y)] == f(Swept(g, s1, f, p), x, y)
    {
      SideRightAt(g, p, isP, x, y);
    }
    TwoSweeps(g, s1, s2, f, p, spec);
  }
}
