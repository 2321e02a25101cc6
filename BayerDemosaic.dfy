/** What `Convert` of each subclass of RawLibrary/BayerAlgorithm.cs leaves
    in the three colour planes, as one function of the frame, and the
    sensor samples every subclass keeps. */
module BayerDemosaic {
  import opened Common
  import opened BayerGeometry
  import opened BayerEquations
  import opened BayerPlanes
  import opened BayerRefinement

  /** The subclasses of `BayerAlgorithm`, one per `Name`. */
  datatype Algorithm =
    | Vcd | Simple | Acpi | Dsp | VcdSimple | VcdColorDiff | VcdRefinement | VcdSimpleAndRefinement

  /** The three colour planes `m_Red`, `m_Grn` and `m_Blu`. */
  datatype Rgb = Rgb(red: seq<byte>, grn: seq<byte>, blu: seq<byte>)

  predicate RgbFits(g: Geometry, c: Rgb)
  {
    IsPlane(g, c.red) && IsPlane(g, c.grn) && IsPlane(g, c.blu)
  }

  /** `InterpolateRedBlue` on both planes against the green plane `grn`. */
  function WithRedBlue(g: Geometry, raw: seq<byte>, grn: seq<byte>, red: seq<byte>, blu: seq<byte>): (c: Rgb)
    requires IsPlane(g, raw) && IsPlane(g, grn) && IsPlane(g, red) && IsPlane(g, blu)
    ensures RgbFits(g, c) && c.grn == grn
  {
    Rgb(RedBluePlane(g, raw, grn, Red, red), grn, RedBluePlane(g, raw, grn, Blue, blu))
  }

  /** The green rule of BayerSimple, BayerACPI and BayerDSP. */
  function DirectRule(kind: Algorithm): GreenRule
    requires kind == Simple || kind == Acpi || kind == Dsp
  {
    match kind
    case Simple => SimpleRule
    case Acpi => AcpiRule
    case Dsp => DspRule
  }

  /** The six planes the VCD rule reads: `CalcEq3_4_5_6_7_E` leaves the
      three estimates and the edge ratio at the inner sites only (BayerVCD),
      the separate passes leave them on their whole windows. */
  function VcdEstimates(g: Geometry, raw: seq<byte>, innerOnly: bool): (e: Estimates)
    requires IsPlane(g, raw)
    ensures EstimatesFit(g, e)
  {
    var e6, e7 := ActivityPlane(g, raw, true), ActivityPlane(g, raw, false);
    if innerOnly then
      Estimates(InnerOnly(g, FirPlane(g, raw, Horizontal), 0), InnerOnly(g, FirPlane(g, raw, Vertical), 0),
                InnerOnly(g, FirPlane(g, raw, Cross), 0), e6, e7, InnerOnly(g, EdgePlane(g, e6, e7), ZeroRatio))
    else
      Estimates(FirPlane(g, raw, Horizontal), FirPlane(g, raw, Vertical), FirPlane(g, raw, Cross),
                e6, e7, EdgePlane(g, e6, e7))
  }

  /** `Refinement` (as corrected) followed by `InterpolateRedBlue` again,
      starting from the planes the first `InterpolateRedBlue` left. */
  function Refined(g: Geometry, raw: seq<byte>, refine: Refiner, c: Rgb): (d: Rgb)
    requires IsPlane(g, raw) && RgbFits(g, c)
    ensures RgbFits(g, d)
  {
    WithRedBlue(g, raw, RefinedPlane(g, refine, c.red, c.blu, c.grn), c.red, c.blu)
  }

  /** `InterpolateGreen` by one of the three direct rules, then
      `InterpolateRedBlue`, on planes that start as copies of the frame. */
  function DirectRgb(g: Geometry, rule: GreenRule, raw: seq<byte>): (c: Rgb)
    requires IsPlane(g, raw)
    ensures RgbFits(g, c)
  {
    WithRedBlue(g, raw, GreenPlane(g, rule, raw, FirPlane(g, raw, Horizontal), raw), raw, raw)
  }

  /** The VCD `InterpolateGreen` from estimates `e`, then
      `InterpolateRedBlue`, on planes that start as copies of the frame. */
  function VcdRgb(g: Geometry, raw: seq<byte>, e: Estimates, t: real, scores: Scores): (c: Rgb)
    requires IsPlane(g, raw) && EstimatesFit(g, e)
    ensures RgbFits(g, c)
  {
    WithRedBlue(g, raw, VcdGreenPlane(g, e, t, scores, raw), raw, raw)
  }

  /** The planes `Convert` of subclass `kind` leaves for frame `raw`, with
      VCD threshold `t`, variances `scores` and refinement formula
      `refine`; every plane starts as a copy of the frame
      (`CopyRawToRGB`). */
  function Demosaic(kind: Algorithm, g: Geometry, raw: seq<byte>, t: real, scores: Scores, refine: Refiner): (c: Rgb)
    requires IsPlane(g, raw)
    ensures RgbFits(g, c)
  {
    match kind
    case Simple | Acpi | Dsp => DirectRgb(g, DirectRule(kind), raw)
    case Vcd => VcdRgb(g, raw, VcdEstimates(g, raw, true), t, scores)
    case VcdSimple | VcdColorDiff => VcdRgb(g, raw, VcdEstimates(g, raw, false), t, scores)
    case VcdRefinement | VcdSimpleAndRefinement =>
      Refined(g, raw, refine, VcdRgb(g, raw, VcdEstimates(g, raw, false), t, scores))
  }

  // ---------------------------------------------------------------------
  // The samples every subclass keeps
  // ---------------------------------------------------------------------

  /** Both red/blue passes leave the samples of plane `c`'s own colour
      inside the one-pixel frame as they were. */
  lemma RedBlueKeepsOwnSites(g: Geometry, raw: seq<byte>, grn: seq<byte>, c: Channel, p: seq<byte>, x: int, y: int)
    requires IsPlane(g, raw) && IsPlane(g, grn) && IsPlane(g, p) && c != Green && IsBayer(g.layout)
    requires 1 <= x < g.w - 1 && 1 <= y < g.h - 1 && SiteColour(g, x, y) == c
    ensures RedBluePlane(g, raw, grn, c, p)[At(g, x, y)] == p[At(g, x, y)]
  {
    var q := RedBlueInteriorPlane(g, raw, grn, c, p);
    assert q[At(g, x, y)] == RedBlueCell(g, raw, grn, c, p, x, y);
    var isP := c == AveragedFirst(g.layout);
    var r := CapPlane(g, q, isP, CopiesTop(g.layout));
    assert r[At(g, x, y)] == q[At(g, x, y)];
    assert SidePlane(g, r, isP)[At(g, x, y)] == r[At(g, x, y)];
  }

  /** The refinement keeps every green site. */
  lemma RefinedKeepsGreenSites(g: Geometry, refine: Refiner, red: seq<byte>, blu: seq<byte>, grn: seq<byte>, x: int, y: int)
    requires IsPlane(g, grn) && InFrame(g, x, y) && !NonGreen(g, x, y)
    ensures RefinedPlane(g, refine, red, blu, grn)[At(g, x, y)] == grn[At(g, x, y)]
  {
  }

  /** Pixel `(x, y)` of `c` still holds the sensor's sample where the
      sample is of that plane's colour: the green plane at every green
      site, the red and blue planes at their sites inside the one-pixel
      frame. */
  predicate KeepsSampleAt(g: Geometry, raw: seq<byte>, c: Rgb, x: int, y: int)
    requires IsPlane(g, raw) && RgbFits(g, c) && InFrame(g, x, y)
  {
    (!NonGreen(g, x, y) ==> c.grn[At(g, x, y)] == raw[At(g, x, y)]) &&
    (IsBayer(g.layout) && 1 <= x < g.w - 1 && 1 <= y < g.h - 1 ==>
      (SiteColour(g, x, y) == Red ==> c.red[At(g, x, y)] == raw[At(g, x, y)]) &&
      (SiteColour(g, x, y) == Blue ==> c.blu[At(g, x, y)] == raw[At(g, x, y)]))
  }

  /** `InterpolateRedBlue` keeps a sample the planes it starts from kept. */
  lemma WithRedBlueKeeps(g: Geometry, raw: seq<byte>, grn: seq<byte>, red: seq<byte>, blu: seq<byte>, x: int, y: int)
    requires IsPlane(g, raw) && IsPlane(g, grn) && IsPlane(g, red) && IsPlane(g, blu) && InFrame(g, x, y)
    requires KeepsSampleAt(g, raw, Rgb(red, grn, blu), x, y)
    ensures KeepsSampleAt(g, raw, WithRedBlue(g, raw, grn, red, blu), x, y)
  {
    if IsBayer(g.layout) && 1 <= x < g.w - 1 && 1 <= y < g.h - 1 {
      if SiteColour(g, x, y) == Red {
        RedBlueKeepsOwnSites(g, raw, grn, Red, red, x, y);
      } else if SiteColour(g, x, y) == Blue {
        RedBlueKeepsOwnSites(g, raw, grn, Blue, blu, x, y);
      }
    }
  }

  lemma DirectKeeps(g: Geometry, rule: GreenRule, raw: seq<byte>, x: int, y: int)
    requires IsPlane(g, raw) && InFrame(g, x, y)
    ensures KeepsSampleAt(g, raw, DirectRgb(g, rule, raw), x, y)
  {
    var e := VcdEstimates(g, raw, false);
    if !NonGreen(g, x, y) {
      GreenPassesKeepGreenSites(g, rule, raw, e, 0.0, (u, v) => Variances(0.0, 0.0, 0.0), raw, x, y);
    }
    WithRedBlueKeeps(g, raw, GreenPlane(g, rule, raw, e.eq3, raw), raw, raw, x, y);
  }

  lemma VcdKeeps(g: Geometry, raw: seq<byte>, e: Estimates, t: real, scores: Scores, x: int, y: int)
    requires IsPlane(g, raw) && EstimatesFit(g, e) && InFrame(g, x, y)
    ensures KeepsSampleAt(g, raw, VcdRgb(g, raw, e, t, scores), x, y)
  {
    if !NonGreen(g, x, y) {
      GreenPassesKeepGreenSites(g, SimpleRule, raw, e, t, scores, raw, x, y);
    }
    WithRedBlueKeeps(g, raw, VcdGreenPlane(g, e, t, scores, raw), raw, raw, x, y);
  }

  lemma RefinedKeeps(g: Geometry, raw: seq<byte>, refine: Refiner, c: Rgb, x: int, y: int)
    requires IsPlane(g, raw) && RgbFits(g, c) && InFrame(g, x, y) && KeepsSampleAt(g, raw, c, x, y)
    ensures KeepsSampleAt(g, raw, Refined(g, raw, refine, c), x, y)
  {
    var grn := RefinedPlane(g, refine, c.red, c.blu, c.grn);
    if !NonGreen(g, x, y) {
      RefinedKeepsGreenSites(g, refine, c.red, c.blu, c.grn, x, y);
    }
    WithRedBlueKeeps(g, raw, grn, c.red, c.blu, x, y);
  }

  /** Whatever the subclass, the output keeps the sensor's samples: the
      green plane at every green site, and the red and blue planes at the
      red and blue sites inside the one-pixel frame. */
  lemma DemosaicKeepsSamples(kind: Algorithm, g: Geometry, raw: seq<byte>, t: real, scores: Scores, refine: Refiner,
                             x: int, y: int)
    requires IsPlane(g, raw) && InFrame(g, x, y)
    ensures KeepsSampleAt(g, raw, Demosaic(kind, g, raw, t, scores, refine), x, y)
  {
    match kind
    case Simple | Acpi | Dsp => DirectKeeps(g, DirectRule(kind), raw, x, y);
    case Vcd => VcdKeeps(g, raw, VcdEstimates(g, raw, true), t, scores, x, y);
    case VcdSimple | VcdColorDiff => VcdKeeps(g, raw, VcdEstimates(g, raw, false), t, scores, x, y);
    case VcdRefinement | VcdSimpleAndRefinement =>
      VcdKeeps(g, raw, VcdEstimates(g, raw, false), t, scores, x, y);
      RefinedKeeps(g, raw, refine, VcdRgb(g, raw, VcdEstimates(g, raw, false), t, scores), x, y);
  }
}
