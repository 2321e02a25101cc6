/** Geometry of a Bayer mosaic: which colour each sensor site records under
    each of the four colour-filter layouts, where the demosaicing loops put
    their non-green sites, and the reflecting neighbour index used at the
    image border. */
module BayerGeometry {
  import opened RawHeader
  import opened Grid

  /** The sensor frame a demosaicing pass works on: `w` by `h` pixels in
      row-major order under colour-filter layout `layout` (a `SensorType`). */
  datatype Geometry = Geometry(w: int, h: int, layout: nat)

  /** The frames the passes are written for: even sides of at least four
      pixels (the border passes address four rows and columns on each side,
      and step through rows and columns in pairs). */
  predicate WellFormed(g: Geometry)
  {
    g.w >= 4 && g.h >= 4 && g.w % 2 == 0 && g.h % 2 == 0
  }

  predicate InFrame(g: Geometry, x: int, y: int)
  {
    0 <= x < g.w && 0 <= y < g.h
  }

  /** The buffer index of pixel `(x, y)`. */
  function At(g: Geometry, x: int, y: int): (i: int)
    requires InFrame(g, x, y)
    ensures 0 <= i < g.w * g.h && i == y * g.w + x && i / g.w == y && i % g.w == x
    ensures y >= 1 ==> i >= g.w + x
    ensures y >= 2 ==> i >= 2 * g.w + x
    ensures i + (g.w - x) <= g.w * g.h
    ensures y + 1 < g.h ==> i + g.w + (g.w - x) <= g.w * g.h
    ensures y + 2 < g.h ==> i + 2 * g.w + (g.w - x) <= g.w * g.h
  {
    RowBounds(g.w, g.h, x, y);
    Pix(g.w, g.h, x, y)
  }

  /** The rows one and two above and below `y` start and end inside the
      buffer whenever they exist. */
  lemma RowBounds(w: int, h: int, x: int, y: int)
    requires 0 <= x < w && 0 <= y < h
    ensures y >= 1 ==> y * w >= w
    ensures y >= 2 ==> y * w >= 2 * w
    ensures y * w + w <= w * h
    ensures y + 1 < h ==> y * w + 2 * w <= w * h
    ensures y + 2 < h ==> y * w + 3 * w <= w * h
  {
    if y >= 1 { MulLe(1, y, w); }
    if y >= 2 { MulLe(2, y, w); }
    MulLe(y + 1, h, w);
    assert (y + 1) * w == y * w + w;
    if y + 1 < h {
      MulLe(y + 2, h, w);
      assert (y + 2) * w == y * w + 2 * w;
    }
    if y + 2 < h {
      MulLe(y + 3, h, w);
      assert (y + 3) * w == y * w + 3 * w;
    }
  }

  /** The layouts whose first row starts with a colour site. The source
      tests exactly these two and sends every other value, Mono included,
      down its `else` branch. */
  predicate StartsWithColour(layout: nat)
  {
    layout == BG_GR || layout == RG_GB
  }

  /** The `offsetY` the loops start from. */
  function OffsetY(layout: nat): int
  {
    if StartsWithColour(layout) then 0 else 1
  }

  /** The sites the green estimators visit: `x + y` has the parity of the
      layout's `offsetY`. */
  predicate NonGreen(g: Geometry, x: int, y: int)
  {
    (x + y) % 2 == OffsetY(g.layout)
  }

  predicate IsBayer(layout: nat)
  {
    layout == BG_GR || layout == RG_GB || layout == GB_RG || layout == GR_BG
  }

  datatype Channel = Red | Green | Blue

  /** The rows whose colour sites are red (the others carry blue). */
  predicate RedRow(layout: nat, y: int)
  {
    (y % 2 == 1) == (layout == BG_GR || layout == GB_RG)
  }

  /** The colour recorded at sensor site `(x, y)`. */
  function SiteColour(g: Geometry, x: int, y: int): Channel
    requires IsBayer(g.layout)
  {
    if !NonGreen(g, x, y) then Green
    else if RedRow(g.layout, y) then Red
    else Blue
  }

  /** The layout names spell the top-left 2x2 block row by row, and the
      pattern repeats with period two in both directions. */
  lemma LayoutNames(g: Geometry, x: int, y: int)
    requires IsBayer(g.layout)
    ensures g.layout == BG_GR ==>
      SiteColour(g, 0, 0) == Blue && SiteColour(g, 1, 0) == Green &&
      SiteColour(g, 0, 1) == Green && SiteColour(g, 1, 1) == Red
    ensures g.layout == RG_GB ==>
      SiteColour(g, 0, 0) == Red && SiteColour(g, 1, 0) == Green &&
      SiteColour(g, 0, 1) == Green && SiteColour(g, 1, 1) == Blue
    ensures g.layout == GB_RG ==>
      SiteColour(g, 0, 0) == Green && SiteColour(g, 1, 0) == Blue &&
      SiteColour(g, 0, 1) == Red && SiteColour(g, 1, 1) == Green
    ensures g.layout == GR_BG ==>
      SiteColour(g, 0, 0) == Green && SiteColour(g, 1, 0) == Red &&
      SiteColour(g, 0, 1) == Blue && SiteColour(g, 1, 1) == Green
    ensures SiteColour(g, x + 2, y) == SiteColour(g, x, y)
    ensures SiteColour(g, x, y + 2) == SiteColour(g, x, y)
  {
    assert (x + 2 + y) % 2 == (x + y) % 2;
    assert (x + y + 2) % 2 == (x + y) % 2;
    assert (y + 2) % 2 == y % 2;
  }

  /** Each row and each column alternates between a green site and a
      colour site, so the four direct neighbours of a colour site are
      green. */
  lemma NeighboursOfColourSite(g: Geometry, x: int, y: int)
    requires NonGreen(g, x, y)
    ensures !NonGreen(g, x - 1, y) && !NonGreen(g, x + 1, y)
    ensures !NonGreen(g, x, y - 1) && !NonGreen(g, x, y + 1)
    ensures NonGreen(g, x - 1, y - 1) && NonGreen(g, x + 1, y + 1)
    ensures NonGreen(g, x + 2, y) && NonGreen(g, x, y + 2)
  {
  }

  /** The coordinate `CheckPixelIndex` moves to along one axis: `c + o`
      when that stays inside `[0, n)`, otherwise the mirror image `c - o`. */
  function Reflect(c: int, o: int, n: int): (r: int)
    requires n >= 4 && 0 <= c < n && -2 <= o <= 2
    ensures 0 <= r < n
    ensures 0 <= c + o < n ==> r == c + o
    ensures r == c + o || r == c - o
  {
    if c + o < 0 || c + o >= n then c - o else c + o
  }

  /** The source's index arithmetic: each offset is added when the target
      column (row) lies inside the frame and subtracted otherwise. */
  function CheckPixelIndex(g: Geometry, x: int, y: int, ox: int, oy: int, pos: int): int
  {
    var p := if x + ox < 0 || x + ox >= g.w then pos - ox else pos + ox;
    if y + oy < 0 || y + oy >= g.h then p - oy * g.w else p + oy * g.w
  }

  /** For offsets of at most two and a frame of at least four pixels a side,
      `CheckPixelIndex` from pixel `(x, y)` is the index of the reflected
      pixel, so it never leaves the buffer. */
  lemma CheckPixelIndexReflects(g: Geometry, x: int, y: int, ox: int, oy: int)
    requires WellFormed(g) && InFrame(g, x, y)
    requires -2 <= ox <= 2 && -2 <= oy <= 2
    ensures CheckPixelIndex(g, x, y, ox, oy, At(g, x, y))
         == At(g, Reflect(x, ox, g.w), Reflect(y, oy, g.h))
  {
    var rx, ry := Reflect(x, ox, g.w), Reflect(y, oy, g.h);
    assert (y + oy) * g.w == y * g.w + oy * g.w;
    assert (y - oy) * g.w == y * g.w - oy * g.w;
    assert At(g, rx, ry) == ry * g.w + rx;
  }
}
