/** The demosaicing passes of RawLibrary/BayerAlgorithm.cs as methods of one
    class over the frame's planes. Each pass is proved to leave exactly the
    plane its specification in `BayerPlanes` describes. */
module Bayer {
  import opened Common
  import opened PixelMath
  import opened Grid
  import opened RawHeader
  import opened BayerGeometry
  import opened BayerEquations
  import opened BayerPlanes
  import opened BayerSweep
  import opened BayerPasses
  import opened BayerRefinement
  import opened BayerDemosaic

  /** The bitmap `CopyRGBtoBitmap` writes: the `iw` by `ih` image rows,
      without the sensor's padding columns, one packed pixel each. */
  function Bitmap(g: Geometry, iw: int, ih: int, red: seq<byte>, grn: seq<byte>, blu: seq<byte>): (b: seq<bv32>)
    requires IsPlane(g, red) && IsPlane(g, grn) && IsPlane(g, blu) && 0 <= iw <= g.w && 0 <= ih <= g.h
    ensures |b| == iw * ih
    ensures forall x, y {:trigger b[Pix(iw, ih, x, y)]} | 0 <= x < iw && 0 <= y < ih ::
      b[Pix(iw, ih, x, y)] == Pack(red[At(g, x, y)], grn[At(g, x, y)], blu[At(g, x, y)])
  {
    seq(iw * ih, k requires 0 <= k < iw * ih =>
      assert iw > 0;
      PixCovers(iw, ih, k);
      var x, y := k % iw, k / iw;
      Pack(red[At(g, x, y)], grn[At(g, x, y)], blu[At(g, x, y)]))
  }

  /** Pixel `(x, y)` of the image is element `y * iw + x` of the bitmap
      and element `y * w + x` of each plane. */
  lemma BitmapAt(g: Geometry, iw: int, ih: int, red: seq<byte>, grn: seq<byte>, blu: seq<byte>, x: int, y: int)
    requires IsPlane(g, red) && IsPlane(g, grn) && IsPlane(g, blu) && 0 <= x < iw <= g.w && 0 <= y < ih <= g.h
    ensures 0 <= y * g.w + x < g.w * g.h && 0 <= y * iw + x < iw * ih
    ensures Bitmap(g, iw, ih, red, grn, blu)[y * iw + x] ==
      Pack(red[y * g.w + x], grn[y * g.w + x], blu[y * g.w + x])
  {
    var b := Bitmap(g, iw, ih, red, grn, blu);
    assert b[Pix(iw, ih, x, y)] == Pack(red[At(g, x, y)], grn[At(g, x, y)], blu[At(g, x, y)]);
  }

  /** The loop nest of `CopyRGBtoBitmap`: `srcPos` walks the frame and
      skips the padding at the end of each row, `dst` walks the bitmap. */
  method PackRows(g: Geometry, iw: int, ih: int, red: seq<byte>, grn: seq<byte>, blu: seq<byte>, bitmap: array<bv32>)
    requires IsPlane(g, red) && IsPlane(g, grn) && IsPlane(g, blu) && 0 <= iw <= g.w && 0 <= ih <= g.h
    requires bitmap.Length == iw * ih
    modifies bitmap
    ensures bitmap[..] == Bitmap(g, iw, ih, red, grn, blu)
  {
    ghost var spec := Bitmap(g, iw, ih, red, grn, blu);
    var srcPadding := g.w - iw;
    var srcPos, dst := 0, 0;
    for y := 0 to ih
      invariant srcPos == y * g.w && dst == y * iw
      invariant forall k | 0 <= k < dst :: bitmap[k] == spec[k]
    {
      MulStep(y, g.w);
      MulStep(y, iw);
      MulLe(y + 1, ih, iw);
      PackRow(g, iw, ih, red, grn, blu, bitmap, y, srcPos, dst, spec);
      srcPos, dst := srcPos + iw + srcPadding, dst + iw;
    }
  }

  /** One row of `CopyRGBtoBitmap`'s loop nest. */
  method PackRow(g: Geometry, iw: int, ih: int, red: seq<byte>, grn: seq<byte>, blu: seq<byte>, bitmap: array<bv32>,
                 y: int, srcPos: int, dst0: int, ghost spec: seq<bv32>)
    requires IsPlane(g, red) && IsPlane(g, grn) && IsPlane(g, blu) && 0 <= iw <= g.w && 0 <= y < ih <= g.h
    requires bitmap.Length == iw * ih && spec == Bitmap(g, iw, ih, red, grn, blu)
    requires srcPos == y * g.w && dst0 == y * iw && dst0 + iw <= iw * ih
    requires forall k | 0 <= k < dst0 :: bitmap[k] == spec[k]
    modifies bitmap
    ensures forall k | 0 <= k < dst0 + iw :: bitmap[k] == spec[k]
  {
    var src, dst := srcPos, dst0;
    for x := 0 to iw
      invariant src == srcPos + x && dst == dst0 + x
      invariant forall k | 0 <= k < dst :: bitmap[k] == spec[k]
    {
      BitmapAt(g, iw, ih, red, grn, blu, x, y);
      bitmap[dst] := Pack(red[src], grn[src], blu[src]);
      src, dst := src + 1, dst + 1;
    }
  }

  class BayerAlgorithm {
    const Width: int
    const Height: int
    const Layout: nat
    const ImageWidth: int
    const ImageHeight: int
    const Kind: Algorithm

    /** The frame buffer of the raw file (`m_Raw` aliases `Raw.Data`). */
    const Raw: array<byte>
    const Red: array<byte>
    const Grn: array<byte>
    const Blu: array<byte>
    const Eq3: array<byte>
    const Eq4: array<byte>
    const Eq5: array<byte>
    const Eq6: array<nat>
    const Eq7: array<nat>
    const EqE: array<Ratio>
    const CdiffH: array<int>
    const CdiffV: array<int>
    const CdiffBh: array<int>
    const CdiffBv: array<int>

    /** `m_threshold`. */
    var Threshold: real

    function Geo(): Geometry
    {
      Geometry(Width, Height, Layout)
    }

    ghost predicate Valid()
    {
      WellFormed(Geo()) && 0 <= ImageWidth <= Width && 0 <= ImageHeight <= Height &&
      Raw.Length == Width * Height && Red.Length == Width * Height &&
      Grn.Length == Width * Height && Blu.Length == Width * Height &&
      Eq3.Length == Width * Height && Eq4.Length == Width * Height && Eq5.Length == Width * Height &&
      Eq6.Length == Width * Height && Eq7.Length == Width * Height && EqE.Length == Width * Height &&
      CdiffH.Length == Width * Height && CdiffV.Length == Width * Height &&
      CdiffBh.Length == Width * Height && CdiffBv.Length == Width * Height &&
      Raw != Red && Raw != Grn && Raw != Blu && Raw != Eq3 && Raw != Eq4 && Raw != Eq5 &&
      Red != Grn && Red != Blu && Red != Eq3 && Red != Eq4 && Red != Eq5 &&
      Grn != Blu && Grn != Eq3 && Grn != Eq4 && Grn != Eq5 &&
      Blu != Eq3 && Blu != Eq4 && Blu != Eq5 &&
      Eq3 != Eq4 && Eq3 != Eq5 && Eq4 != Eq5 &&
      Eq6 != Eq7 &&
      CdiffH != CdiffV && CdiffH != CdiffBh && CdiffH != CdiffBv &&
      CdiffV != CdiffBh && CdiffV != CdiffBv && CdiffBh != CdiffBv
    }

    /** `BayerAlgorithm(rawfile, name)`: the work planes, which the source
        allocates on first use, are allocated here once. */
    constructor (raw: array<byte>, width: int, height: int, layout: nat,
                 imageWidth: int, imageHeight: int, kind: Algorithm)
      requires WellFormed(Geometry(width, height, layout)) && raw.Length == width * height
      requires 0 <= imageWidth <= width && 0 <= imageHeight <= height
      ensures Valid() && Raw == raw && Kind == kind && Threshold == 2.0
      ensures fresh(Red) && fresh(Grn) && fresh(Blu) && fresh(Eq3) && fresh(Eq4) && fresh(Eq5)
      ensures fresh(Eq6) && fresh(Eq7) && fresh(EqE) && fresh(CdiffH) && fresh(CdiffV) && fresh(CdiffBh) && fresh(CdiffBv)
      ensures Width == width && Height == height && Layout == layout
      ensures ImageWidth == imageWidth && ImageHeight == imageHeight
    {
      var n := width * height;
      Width, Height, Layout := width, height, layout;
      ImageWidth, ImageHeight, Kind := imageWidth, imageHeight, kind;
      Raw := raw;
      Red, Grn, Blu := new byte[n], new byte[n], new byte[n];
      Eq3, Eq4, Eq5 := new byte[n], new byte[n], new byte[n];
      Eq6, Eq7 := new nat[n], new nat[n];
      EqE := new Ratio[n](_ => ZeroRatio);
      CdiffH, CdiffV, CdiffBh, CdiffBv := new int[n], new int[n], new int[n], new int[n];
      Threshold := 2.0;
    }

    // -------------------------------------------------------------------
    // Copying in and out
    // -------------------------------------------------------------------

    /** `CopyRawToRGB`: each channel starts as a copy of the frame. */
    method CopyRawToRGB()
      requires Valid()
      modifies Red, Grn, Blu
      ensures Red[..] == Raw[..] && Grn[..] == Raw[..] && Blu[..] == Raw[..]
    {
      forall k | 0 <= k < Raw.Length {
        Red[k] := Raw[k];
      }
      forall k | 0 <= k < Raw.Length {
        Grn[k] := Raw[k];
      }
      forall k | 0 <= k < Raw.Length {
        Blu[k] := Raw[k];
      }
    }

    /** `CopyRGBtoBitmap`: the image rows, without the sensor's padding
        columns, packed into one pixel each. */
    method CopyRGBtoBitmap(bitmap: array<bv32>)
      requires Valid() && bitmap.Length == ImageWidth * ImageHeight
      modifies bitmap
      ensures bitmap[..] == Bitmap(Geo(), ImageWidth, ImageHeight, old(Red[..]), old(Grn[..]), old(Blu[..]))
    {
      PackRows(Geo(), ImageWidth, ImageHeight, Red[..], Grn[..], Blu[..], bitmap);
    }

    // -------------------------------------------------------------------
    // Precalculations
    // -------------------------------------------------------------------

    /** `CalcEq3`: the horizontal FIR estimate at the non-green sites of
        columns `[2, w-2)`. */
    method CalcEq3()
      requires Valid()
      modifies Eq3
      ensures Eq3[..] == FirPlane(Geo(), Raw[..], Horizontal)
    {
      var g, raw := Geo(), Raw[..];
      FirPass(g, raw, Horizontal);
      Fill(g, FirSweep(g, Horizontal), FirEstimate(g, raw, Horizontal), Eq3, 0);
    }

    /** `CalcEq4`: the vertical FIR estimate at the non-green sites of rows
        `[2, h-2)`. */
    method CalcEq4()
      requires Valid()
      modifies Eq4
      ensures Eq4[..] == FirPlane(Geo(), Raw[..], Vertical)
    {
      var g, raw := Geo(), Raw[..];
      FirPass(g, raw, Vertical);
      Fill(g, FirSweep(g, Vertical), FirEstimate(g, raw, Vertical), Eq4, 0);
    }

    /** `CalcEq5`: the cross FIR estimate at the inner non-green sites. */
    method CalcEq5()
      requires Valid()
      modifies Eq5
      ensures Eq5[..] == FirPlane(Geo(), Raw[..], Cross)
    {
      var g, raw := Geo(), Raw[..];
      FirPass(g, raw, Cross);
      Fill(g, FirSweep(g, Cross), FirEstimate(g, raw, Cross), Eq5, 0);
    }

    /** `CalcEq6`: the horizontal activity at the inner non-green sites. */
    method CalcEq6()
      requires Valid()
      modifies Eq6
      ensures Eq6[..] == ActivityPlane(Geo(), Raw[..], true)
    {
      var g, raw := Geo(), Raw[..];
      ActivityPass(g, raw, true);
      Fill(g, FirSweep(g, Cross), ActivityEstimate(g, raw, true), Eq6, 0);
    }

    /** `CalcEq7`: the vertical activity at the inner non-green sites. */
    method CalcEq7()
      requires Valid()
      modifies Eq7
      ensures Eq7[..] == ActivityPlane(Geo(), Raw[..], false)
    {
      var g, raw := Geo(), Raw[..];
      ActivityPass(g, raw, false);
      Fill(g, FirSweep(g, Cross), ActivityEstimate(g, raw, false), Eq7, 0);
    }

    /** `CalcEqE`: the edge ratio of the two activities at the sites of
        `CalcEq3`. */
    method CalcEqE()
      requires Valid()
      modifies EqE
      ensures EqE[..] == EdgePlane(Geo(), Eq6[..], Eq7[..])
    {
      var g, e6, e7 := Geo(), Eq6[..], Eq7[..];
      EdgePass(g, e6, e7);
      Fill(g, FirSweep(g, Horizontal), EdgeEstimate(g, e6, e7), EqE, ZeroRatio);
    }

    /** `CalcEq3_4_5`: the three FIR estimates at every non-green site,
        reflected at the frame's edges. */
    method CalcEq3_4_5()
      requires Valid()
      modifies Eq3, Eq4, Eq5
      ensures Eq3[..] == Fir345Plane(Geo(), Raw[..], Horizontal)
      ensures Eq4[..] == Fir345Plane(Geo(), Raw[..], Vertical)
      ensures Eq5[..] == Fir345Plane(Geo(), Raw[..], Cross)
    {
      var g, raw := Geo(), Raw[..];
      Fir345Pass(g, raw, Horizontal);
      Fir345Pass(g, raw, Vertical);
      Fir345Pass(g, raw, Cross);
      Fill(g, AllSites(g), Fir345Estimate(g, raw, Horizontal), Eq3, 0);
      Fill(g, AllSites(g), Fir345Estimate(g, raw, Vertical), Eq4, 0);
      Fill(g, AllSites(g), Fir345Estimate(g, raw, Cross), Eq5, 0);
    }

    /** `CalcEq3_4_5_6_7_E`: all six planes in one pass over the inner
        non-green sites; every other pixel keeps the allocation's zero. */
    method CalcEq3_4_5_6_7_E()
      requires Valid()
      modifies Eq3, Eq4, Eq5, Eq6, Eq7, EqE
      ensures Eq3[..] == InnerOnly(Geo(), FirPlane(Geo(), Raw[..], Horizontal), 0)
      ensures Eq4[..] == InnerOnly(Geo(), FirPlane(Geo(), Raw[..], Vertical), 0)
      ensures Eq5[..] == InnerOnly(Geo(), FirPlane(Geo(), Raw[..], Cross), 0)
      ensures Eq6[..] == ActivityPlane(Geo(), Raw[..], true)
      ensures Eq7[..] == ActivityPlane(Geo(), Raw[..], false)
      ensures EqE[..] == InnerOnly(Geo(), EdgePlane(Geo(), ActivityPlane(Geo(), Raw[..], true), ActivityPlane(Geo(), Raw[..], false)), ZeroRatio)
    {
      var g, raw := Geo(), Raw[..];
      var s := FirSweep(g, Cross);
      InnerFirPass(g, raw, Horizontal);
      InnerFirPass(g, raw, Vertical);
      InnerFirPass(g, raw, Cross);
      ActivityPass(g, raw, true);
      ActivityPass(g, raw, false);
      InnerEdgePass(g, raw);
      Fill(g, s, FirEstimate(g, raw, Horizontal), Eq3, 0);
      Fill(g, s, FirEstimate(g, raw, Vertical), Eq4, 0);
      Fill(g, s, FirEstimate(g, raw, Cross), Eq5, 0);
      Fill(g, s, ActivityEstimate(g, raw, true), Eq6, 0);
      Fill(g, s, ActivityEstimate(g, raw, false), Eq7, 0);
      Fill(g, s, InnerEdgeEstimate(g, raw), EqE, ZeroRatio);
    }

    /** `CalcColorDiff`: sample minus estimate at the inner colour sites,
        then half the difference of the two neighbours at the inner green
        sites, for the four estimate/direction pairs. */
    method CalcColorDiff()
      requires Valid()
      modifies CdiffH, CdiffV, CdiffBh, CdiffBv
      ensures CdiffH[..] == ColourDiffPlane(Geo(), Raw[..], Eq3[..], true)
      ensures CdiffV[..] == ColourDiffPlane(Geo(), Raw[..], Eq4[..], false)
      ensures CdiffBh[..] == ColourDiffPlane(Geo(), Raw[..], Eq5[..], true)
      ensures CdiffBv[..] == ColourDiffPlane(Geo(), Raw[..], Eq5[..], false)
    {
      ColourDiff(CdiffH, Eq3, true);
      ColourDiff(CdiffV, Eq4, false);
      ColourDiff(CdiffBh, Eq5, true);
      ColourDiff(CdiffBv, Eq5, false);
    }

    /** The two loops of `CalcColorDiff` on one buffer. */
    method ColourDiff(a: array<int>, est: array<byte>, horizontal: bool)
      requires Valid() && a.Length == Width * Height && est.Length == Width * Height
      modifies a
      ensures a[..] == ColourDiffPlane(Geo(), Raw[..], est[..], horizontal)
    {
      var g, raw, e := Geo(), Raw[..], est[..];
      ColourDiffPass(g, raw, e, horizontal);
      Fill(g, FirSweep(g, Cross), FirstDiffEstimate(g, raw, e), a, 0);
      Run(g, InnerGreenSweep(g), HalfDiffEstimate(g, horizontal), a);
    }

    // -------------------------------------------------------------------
    // Green
    // -------------------------------------------------------------------

    /** `InterpolateGreenBorderPixel`: the top, bottom, left and right
        loops over the colour sites the interior pass left out. */
    method InterpolateGreenBorderPixel()
      requires Valid()
      modifies Grn
      ensures Grn[..] == GreenBorderPlane(Geo(), old(Grn[..]))
    {
      var g := Geo();
      CapReadsGreen(g, true);
      CapReadsGreen(g, false);
      SideReadsGreen(g, true);
      SideReadsGreen(g, false);
      GreenBorderPass(g, Grn[..]);
      Run(g, CapSweep(g, true), CapEstimate(g), Grn);
      Run(g, CapSweep(g, false), CapEstimate(g), Grn);
      Run(g, SideSweep(g, true), SideEstimate(g), Grn);
      Run(g, SideSweep(g, false), SideEstimate(g), Grn);
    }

    /** `InterpolateGreen` of BayerSimple, BayerACPI and BayerDSP. */
    method InterpolateGreen(rule: GreenRule)
      requires Valid()
      modifies Grn
      ensures Grn[..] == GreenPlane(Geo(), rule, Raw[..], Eq3[..], old(Grn[..]))
    {
      var g, raw, eq3 := Geo(), Raw[..], Eq3[..];
      GreenInteriorPass(g, rule, raw, eq3, Grn[..]);
      Run(g, GreenSweep(g, rule), GreenEstimate(g, rule, raw, eq3), Grn);
      InterpolateGreenBorderPixel();
    }

    /** The six planes the VCD rule reads, as they stand. */
    function Planes(): Estimates
      reads Eq3, Eq4, Eq5, Eq6, Eq7, EqE
    {
      Estimates(Eq3[..], Eq4[..], Eq5[..], Eq6[..], Eq7[..], EqE[..])
    }

    /** `InterpolateGreen` of the VCD subclasses, whose variances `scores`
        supplies. */
    method InterpolateVcdGreen(scores: Scores)
      requires Valid()
      modifies Grn
      ensures Grn[..] == VcdGreenPlane(Geo(), Planes(), Threshold, scores, old(Grn[..]))
    {
      var g, e := Geo(), Planes();
      VcdGreenPass(g, e, Threshold, scores, Grn[..]);
      Run(g, VcdSweep(g), VcdEstimate(g, e, Threshold, scores), Grn);
      InterpolateGreenBorderPixel();
    }

    /** The corrected `Refinement`, with the weighting formula `refine`. */
    method Refinement(refine: Refiner)
      requires Valid()
      modifies Grn
      ensures Grn[..] == RefinedPlane(Geo(), refine, Red[..], Blu[..], old(Grn[..]))
    {
      var g, red, blu := Geo(), Red[..], Blu[..];
      RefinementPass(g, refine, red, blu, Grn[..]);
      Run(g, FirSweep(g, Cross), RefineEstimate(g, refine, red, blu), Grn);
    }

    // -------------------------------------------------------------------
    // Red and blue
    // -------------------------------------------------------------------

    /** `InterpolateRedBlue`: the interior pass on both planes, then
        `InterpolateRedBlueBorder`. */
    method InterpolateRedBlue()
      requires Valid()
      modifies Red, Blu
      ensures Red[..] == RedBluePlane(Geo(), Raw[..], Grn[..], Channel.Red, old(Red[..]))
      ensures Blu[..] == RedBluePlane(Geo(), Raw[..], Grn[..], Channel.Blue, old(Blu[..]))
    {
      var g, raw, grn := Geo(), Raw[..], Grn[..];
      RedBlueInteriorPass(g, raw, grn, Channel.Red, Red[..]);
      Run(g, RedBlueSweep(g), RedBlueEstimate(g, raw, grn, Channel.Red), Red);
      RedBlueInteriorPass(g, raw, grn, Blue, Blu[..]);
      Run(g, RedBlueSweep(g), RedBlueEstimate(g, raw, grn, Blue), Blu);
      if IsBayer(Layout) {
        RedBlueBorder(Red, Channel.Red);
        RedBlueBorder(Blu, Blue);
      }
    }

    /** `InterpolateRedBlueBorder` on one plane: its top and bottom rows,
        then its first and last columns. */
    method RedBlueBorder(a: array<byte>, c: Channel)
      requires Valid() && IsBayer(Layout) && a.Length == Width * Height
      modifies a
      ensures a[..] == RedBlueBorderPlane(Geo(), c, old(a[..]))
    {
      var g := Geo();
      var isP, copy := c == AveragedFirst(Layout), CopiesTop(Layout);
      ghost var p := a[..];
      CapRowReadsUnvisited(g, isP, copy, true);
      CapRowReadsUnvisited(g, isP, copy, false);
      SideColumnReadsUnvisited(g, isP, true);
      SideColumnReadsUnvisited(g, isP, false);
      RedBlueCapPass(g, p, isP, copy);
      RedBlueSidePass(g, CapPlane(g, p, isP, copy), isP);
      Run(g, RedBlueCapSweep(g, isP, copy, true), RedBlueCapEstimate(g, isP, copy), a);
      Run(g, RedBlueCapSweep(g, isP, copy, false), RedBlueCapEstimate(g, isP, copy), a);
      Run(g, RedBlueSideSweep(g, isP, true), RedBlueSideEstimate(g, isP), a);
      Run(g, RedBlueSideSweep(g, isP, false), RedBlueSideEstimate(g, isP), a);
    }

    // -------------------------------------------------------------------
    // Convert
    // -------------------------------------------------------------------

    /** The three planes as they stand. */
    function Planes3(): Rgb
      reads Red, Grn, Blu
    {
      Rgb(Red[..], Grn[..], Blu[..])
    }

    /** `Convert` of BayerSimple, BayerACPI and BayerDSP up to the bitmap. */
    method DirectPlanes(rule: GreenRule)
      requires Valid()
      modifies Red, Grn, Blu, Eq3
      ensures Planes3() == DirectRgb(Geo(), rule, Raw[..])
    {
      var g, raw := Geo(), Raw[..];
      CopyRawToRGB();
      if rule == DspRule {
        CalcEq3();
      } else {
        OnlyDspReadsEq3(g, rule, raw, Eq3[..], FirPlane(g, raw, Horizontal), raw);
      }
      InterpolateGreen(rule);
      InterpolateRedBlue();
    }

    /** `Convert` of BayerVCD up to the bitmap. */
    method VcdPlanes(scores: Scores)
      requires Valid()
      modifies Red, Grn, Blu, Eq3, Eq4, Eq5, Eq6, Eq7, EqE
      ensures Planes3() == VcdRgb(Geo(), Raw[..], VcdEstimates(Geo(), Raw[..], true), Threshold, scores)
    {
      CopyRawToRGB();
      CalcEq3_4_5_6_7_E();
      VcdFromEstimates(scores);
    }

    /** The VCD `InterpolateGreen` and `InterpolateRedBlue` on planes that
        are still copies of the frame, from the estimates as they stand. */
    method VcdFromEstimates(scores: Scores)
      requires Valid() && Red[..] == Raw[..] && Grn[..] == Raw[..] && Blu[..] == Raw[..]
      modifies Red, Grn, Blu
      ensures Planes3() == VcdRgb(Geo(), Raw[..], Planes(), Threshold, scores)
    {
      InterpolateVcdGreen(scores);
      InterpolateRedBlue();
    }

    /** The six separate precalculations of the other VCD subclasses. */
    method SeparateEstimates()
      requires Valid()
      modifies Eq3, Eq4, Eq5, Eq6, Eq7, EqE
      ensures Planes() == VcdEstimates(Geo(), Raw[..], false)
    {
      CalcEq3();
      CalcEq4();
      CalcEq5();
      CalcEq6();
      CalcEq7();
      CalcEqE();
    }

    /** `Convert` of BayerVCDsimple and BayerVCDcolorDiff up to the bitmap
        (the colour differences only feed the variances). */
    method VcdSeparatePlanes(scores: Scores, colourDiff: bool)
      requires Valid()
      modifies Red, Grn, Blu, Eq3, Eq4, Eq5, Eq6, Eq7, EqE, CdiffH, CdiffV, CdiffBh, CdiffBv
      ensures Planes3() == VcdRgb(Geo(), Raw[..], VcdEstimates(Geo(), Raw[..], false), Threshold, scores)
    {
      SeparateInputs(colourDiff);
      VcdFromEstimates(scores);
    }

    /** What BayerVCDsimple and BayerVCDcolorDiff compute before
        `InterpolateGreen`: the copies of the frame, the six estimates
        and, for the second, the colour differences. */
    method SeparateInputs(colourDiff: bool)
      requires Valid()
      modifies Red, Grn, Blu, Eq3, Eq4, Eq5, Eq6, Eq7, EqE, CdiffH, CdiffV, CdiffBh, CdiffBv
      ensures Red[..] == Raw[..] && Grn[..] == Raw[..] && Blu[..] == Raw[..]
      ensures Planes() == VcdEstimates(Geo(), Raw[..], false)
    {
      CopyRawToRGB();
      SeparateEstimates();
      ghost var raw, e := Raw[..], Planes();
      if colourDiff {
        CalcColorDiff();
      }
      assert Raw[..] == raw && Planes() == e;
    }

    /** `Convert` of BayerVCDrefinement and BayerVCDsimpleAndRefinement up
        to the bitmap. */
    method VcdRefinedPlanes(scores: Scores, refine: Refiner)
      requires Valid()
      modifies Red, Grn, Blu, Eq3, Eq4, Eq5, Eq6, Eq7, EqE
      ensures Planes3() == Refined(Geo(), Raw[..], refine, VcdRgb(Geo(), Raw[..], VcdEstimates(Geo(), Raw[..], false), Threshold, scores))
    {
      CopyRawToRGB();
      SeparateEstimates();
      VcdFromEstimates(scores);
      Refinement(refine);
      InterpolateRedBlue();
    }

    /** The passes `Convert` of subclass `Kind` runs before
        `CopyRGBtoBitmap`. */
    method Demosaicing(scores: Scores, refine: Refiner)
      requires Valid()
      modifies Red, Grn, Blu, Eq3, Eq4, Eq5, Eq6, Eq7, EqE, CdiffH, CdiffV, CdiffBh, CdiffBv
      ensures Planes3() == Demosaic(Kind, Geo(), Raw[..], Threshold, scores, refine)
    {
      if Kind == Simple || Kind == Acpi || Kind == Dsp {
        DirectPlanes(DirectRule(Kind));
      } else {
        VcdDemosaicing(scores, refine);
      }
    }

    /** The passes of the five VCD subclasses. */
    method VcdDemosaicing(scores: Scores, refine: Refiner)
      requires Valid() && Kind != Simple && Kind != Acpi && Kind != Dsp
      modifies Red, Grn, Blu, Eq3, Eq4, Eq5, Eq6, Eq7, EqE, CdiffH, CdiffV, CdiffBh, CdiffBv
      ensures Planes3() == Demosaic(Kind, Geo(), Raw[..], Threshold, scores, refine)
    {
      if Kind == VcdRefinement || Kind == VcdSimpleAndRefinement {
        VcdRefinedPlanes(scores, refine);
      } else {
        VcdUnrefined(scores);
      }
    }

    /** The passes of BayerVCD, BayerVCDsimple and BayerVCDcolorDiff. */
    method VcdUnrefined(scores: Scores)
      requires Valid() && (Kind == Vcd || Kind == VcdSimple || Kind == VcdColorDiff)
      modifies Red, Grn, Blu, Eq3, Eq4, Eq5, Eq6, Eq7, EqE, CdiffH, CdiffV, CdiffBh, CdiffBv
      ensures Planes3() == VcdRgb(Geo(), Raw[..], VcdEstimates(Geo(), Raw[..], Kind == Vcd), Threshold, scores)
    {
      if Kind == Vcd {
        VcdPlanes(scores);
      } else {
        VcdSeparatePlanes(scores, Kind == VcdColorDiff);
      }
    }

    /** `Convert`: the subclass's passes, then `CopyRGBtoBitmap`. */
    method Convert(scores: Scores, refine: Refiner, bitmap: array<bv32>)
      requires Valid() && bitmap.Length == ImageWidth * ImageHeight
      modifies Red, Grn, Blu, Eq3, Eq4, Eq5, Eq6, Eq7, EqE, CdiffH, CdiffV, CdiffBh, CdiffBv, bitmap
      ensures var c := Demosaic(Kind, Geo(), old(Raw[..]), Threshold, scores, refine);
        bitmap[..] == Bitmap(Geo(), ImageWidth, ImageHeight, c.red, c.grn, c.blu)
    {
      Demosaicing(scores, refine);
      CopyRGBtoBitmap(bitmap);
    }
  }
}
