/** `Refinement` of RawLibrary/BayerAlgorithm.cs: the VCD subclasses with
    refinement recompute the green of each inner colour site from the
    colour differences to its four green neighbours, weighted by local
    gradients. The weighting is floating point and is a parameter here;
    what the model keeps is which pixels are refined, which colour plane
    each one is refined against, and which green pixels it reads. The
    loops as written visit the wrong pixels for two layouts and read the
    wrong colour plane for two layouts; both are exhibited below, and the
    pass the rest of the model uses is the corrected one. */
module BayerRefinement {
  import opened Common
  import opened RawHeader
  import opened BayerGeometry
  import opened BayerEquations
  import opened BayerPlanes
  import opened BayerSweep
  import opened BayerPasses

  /** The refined green of colour site `(x, y)`, given the plane of the
      site's own colour and the greens above, right, below and left of it
      (the only green pixels the weighting formula reads). */
  type Refiner = (seq<byte>, int, int, byte, byte, byte, byte) -> byte

  // ---------------------------------------------------------------------
  // The loops as written
  // ---------------------------------------------------------------------

  /** The pixels the loops of `Refinement` write: rows `[2, h-2)` in pairs;
      the even row of a pair starts at column `2 + offsetY`, the odd row
      at column 3 whatever the layout, both stepping by two up to `w-2`. */
  predicate SourceRefines(g: Geometry, x: int, y: int)
  {
    2 <= y < g.h - 2 && x < g.w - 2 &&
    if y % 2 == 0 then 2 + OffsetY(g.layout) <= x && x % 2 == OffsetY(g.layout)
    else 3 <= x && x % 2 == 1
  }

  /** The plane the loops refine row `y` against: blue on even rows when
      `offsetY` is 0 and red when it is 1, the other one on odd rows. */
  function SourceRefineChannel(layout: nat, y: int): Channel
  {
    if (y % 2 == 0) == StartsWithColour(layout) then Blue else Red
  }

  /** The loops visit exactly the inner colour sites if and only if the
      layout starts with a colour site (BG_GR, RG_GB); for GB_RG and GR_BG
      they write the recorded green at `(3, 3)` and never refine the
      colour site `(2, 3)`. */
  lemma SourceRefinesInnerSitesIff(g: Geometry)
    requires WellFormed(g) && g.w >= 6 && g.h >= 6
    ensures StartsWithColour(g.layout) <==>
      forall x, y | InFrame(g, x, y) :: SourceRefines(g, x, y) == InnerSite(g, x, y)
    ensures !StartsWithColour(g.layout) ==>
      SourceRefines(g, 3, 3) && !NonGreen(g, 3, 3) && InnerSite(g, 2, 3) && !SourceRefines(g, 2, 3)
  {
    if StartsWithColour(g.layout) {
      forall x, y | InFrame(g, x, y)
        ensures SourceRefines(g, x, y) == InnerSite(g, x, y)
      {
        assert OffsetY(g.layout) == 0;
        assert NonGreen(g, x, y) <==> (x + y) % 2 == 0;
      }
    } else {
      assert OffsetY(g.layout) == 1;
      assert SourceRefines(g, 3, 3) && !InnerSite(g, 3, 3);
    }
  }

  /** The plane the loops read is the colour each refined site records if
      and only if the layout is BG_GR or GR_BG; for RG_GB and GB_RG every
      refined colour site is refined against the other colour plane. */
  lemma SourceRefineChannelIff(g: Geometry)
    requires WellFormed(g) && IsBayer(g.layout) && g.w >= 6 && g.h >= 6
    ensures (g.layout == BG_GR || g.layout == GR_BG) <==>
      forall x, y | InnerSite(g, x, y) :: SourceRefineChannel(g.layout, y) == SiteColour(g, x, y)
    ensures (g.layout == RG_GB || g.layout == GB_RG) ==>
      forall x, y | InnerSite(g, x, y) :: SourceRefineChannel(g.layout, y) != SiteColour(g, x, y)
  {
    var o := OffsetY(g.layout);
    assert InnerSite(g, 2 + o, 2);
    forall x, y | InnerSite(g, x, y)
      ensures (SourceRefineChannel(g.layout, y) == SiteColour(g, x, y)) == (g.layout == BG_GR || g.layout == GR_BG)
    {
    }
  }

  // ---------------------------------------------------------------------
  // The corrected pass
  // ---------------------------------------------------------------------

  /** The plane of the colour recorded on row `y`'s colour sites. */
  function OwnPlane(g: Geometry, red: seq<byte>, blu: seq<byte>, y: int): seq<byte>
  {
    if RedRow(g.layout, y) then red else blu
  }

  /** `refine` applied at `(x, y)` to the site's own plane and the four
      green neighbours. */
  function RefineAt(g: Geometry, refine: Refiner, red: seq<byte>, blu: seq<byte>, grn: seq<byte>, x: int, y: int): byte
    requires IsPlane(g, grn) && 1 <= x < g.w - 1 && 1 <= y < g.h - 1
  {
    refine(OwnPlane(g, red, blu, y), x, y, grn[At(g, x, y - 1)], grn[At(g, x + 1, y)], grn[At(g, x, y + 1)], grn[At(g, x - 1, y)])
  }

  /** Each inner colour site is refined against its own colour's plane
      from its four green neighbours; every other pixel keeps `grn`. */
  function RefinedCell(g: Geometry, refine: Refiner, red: seq<byte>, blu: seq<byte>, grn: seq<byte>, x: int, y: int): byte
    requires IsPlane(g, grn) && InFrame(g, x, y)
  {
    if InnerSite(g, x, y) then RefineAt(g, refine, red, blu, grn, x, y) else grn[At(g, x, y)]
  }

  function RefinedPlane(g: Geometry, refine: Refiner, red: seq<byte>, blu: seq<byte>, grn: seq<byte>): (p: seq<byte>)
    requires IsPlane(g, grn)
    ensures IsPlane(g, p)
    ensures forall x, y {:trigger p[At(g, x, y)]} | InFrame(g, x, y) :: p[At(g, x, y)] == RefinedCell(g, refine, red, blu, grn, x, y)
  {
    Tabulate(g, (x, y) => if InFrame(g, x, y) then RefinedCell(g, refine, red, blu, grn, x, y) else 0)
  }

  /** The corrected refinement writes exactly the inner colour sites, each
      against the plane of the colour that site records, and keeps every
      recorded green. */
  lemma RefinedPlaneSites(g: Geometry, refine: Refiner, red: seq<byte>, blu: seq<byte>, grn: seq<byte>, x: int, y: int)
    requires IsPlane(g, grn) && IsBayer(g.layout) && InFrame(g, x, y)
    ensures !InnerSite(g, x, y) ==> RefinedPlane(g, refine, red, blu, grn)[At(g, x, y)] == grn[At(g, x, y)]
    ensures !NonGreen(g, x, y) ==> RefinedPlane(g, refine, red, blu, grn)[At(g, x, y)] == grn[At(g, x, y)]
    ensures InnerSite(g, x, y) ==> OwnPlane(g, red, blu, y) == if SiteColour(g, x, y) == Red then red else blu
  {
  }

  /** A refined green depends on the green plane only through the four
      direct neighbours of its site. */
  lemma RefinedReadsNeighbours(g: Geometry, refine: Refiner, red: seq<byte>, blu: seq<byte>,
                               grn: seq<byte>, grn': seq<byte>, x: int, y: int)
    requires IsPlane(g, grn) && IsPlane(g, grn') && InnerSite(g, x, y)
    requires grn[At(g, x, y - 1)] == grn'[At(g, x, y - 1)] && grn[At(g, x + 1, y)] == grn'[At(g, x + 1, y)]
    requires grn[At(g, x, y + 1)] == grn'[At(g, x, y + 1)] && grn[At(g, x - 1, y)] == grn'[At(g, x - 1, y)]
    ensures RefinedPlane(g, refine, red, blu, grn)[At(g, x, y)] == RefinedPlane(g, refine, red, blu, grn')[At(g, x, y)]
  {
  }

  function RefineEstimate(g: Geometry, refine: Refiner, red: seq<byte>, blu: seq<byte>): Estimate<byte>
  {
    (p: seq<byte>, x: int, y: int) =>
      if IsPlane(g, p) && 1 <= x < g.w - 1 && 1 <= y < g.h - 1 then RefineAt(g, refine, red, blu, p, x, y) else 0
  }

  /** The four neighbours the corrected loops read are green sites,
      which the loop of `CalcEq5` never writes. */
  lemma RefineReadsUnvisited(g: Geometry, refine: Refiner, red: seq<byte>, blu: seq<byte>)
    requires WellFormed(g)
    ensures Fits(g, FirSweep(g, Cross)) && ReadsUnvisited(g, FirSweep(g, Cross), RefineEstimate(g, refine, red, blu))
  {
    var s, f := FirSweep(g, Cross), RefineEstimate(g, refine, red, blu);
    forall p: seq<byte>, q: seq<byte>, x: int, y: int | InFrame(g, x, y) && Visits(s, x, y) && AgreeOff(g, s, p, q) && p[At(g, x, y)] == q[At(g, x, y)]
      ensures f(p, x, y) == f(q, x, y)
    {
      NeighboursUnvisited(g, s, p, q, x, y);
    }
  }

  lemma NeighboursUnvisited(g: Geometry, s: Sweep, p: seq<byte>, q: seq<byte>, x: int, y: int)
    requires s == FirSweep(g, Cross) && InFrame(g, x, y) && Visits(s, x, y) && AgreeOff(g, s, p, q)
    ensures p[At(g, x, y - 1)] == q[At(g, x, y - 1)] && p[At(g, x + 1, y)] == q[At(g, x + 1, y)]
    ensures p[At(g, x, y + 1)] == q[At(g, x, y + 1)] && p[At(g, x - 1, y)] == q[At(g, x - 1, y)]
  {
    assert !Visits(s, x, y - 1) && !Visits(s, x + 1, y) && !Visits(s, x, y + 1) && !Visits(s, x - 1, y);
  }

  /** The corrected loops walk the loop of `CalcEq5` and leave
      `RefinedPlane`. */
  lemma RefinementPass(g: Geometry, refine: Refiner, red: seq<byte>, blu: seq<byte>, grn: seq<byte>)
    requires IsPlane(g, grn)
    ensures Fits(g, FirSweep(g, Cross)) && ReadsUnvisited(g, FirSweep(g, Cross), RefineEstimate(g, refine, red, blu))
    ensures Swept(g, FirSweep(g, Cross), RefineEstimate(g, refine, red, blu), grn) == RefinedPlane(g, refine, red, blu, grn)
  {
    RefineReadsUnvisited(g, refine, red, blu);
    var s, f := FirSweep(g, Cross), RefineEstimate(g, refine, red, blu);
    var p, q := Swept(g, s, f, grn), RefinedPlane(g, refine, red, blu, grn);
    forall x, y | InFrame(g, x, y)
      ensures p[At(g, x, y)] == q[At(g, x, y)]
    {
      assert Visits(s, x, y) <==> InnerSite(g, x, y);
    }
    SamePlane(g, p, q);
  }
}
