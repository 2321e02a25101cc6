/** The displayable view of a RAWv3 recording (RawLibrary/RawImage.cs): the
    sizes taken from the file's header, the frame navigation that refreshes
    the picture after every read, the rendering of a frame into a 32-bit
    bitmap (grey replication for a monochrome sensor, `BayerSimple`
    otherwise), and the blank frame of the recording's aspect ratio. */
module RawImage {
  import opened Common
  import opened Grid
  import opened BinaryIO
  import opened RawHeader
  import opened RawV3
  import V3 = RawV3
  import opened BayerGeometry
  import opened BayerEquations
  import opened BayerPlanes
  import opened BayerDemosaic
  import Bayer

  /** What stops a `RawImage` from being built or refreshed. */
  datatype ImageError =
    | OpenFailed(cause: IoError)      // `new RawV3(file)` threw
    | BadBitmapSize                   // `new WriteableBitmap` refuses a side that is not positive
    | NullReference                   // `rawfile.Raw.Data` with no raw file
    | Read(error: FrameError)         // the frame read of `RawV3` threw
    | OutOfRange                      // a pixel read outside the frame buffer
    | UnsupportedGeometry             // a Bayer frame whose sides are not even and at least 4

  /** The extension `RawImage` opens as a RAWv3 recording (compared with
      `Equals`, so case-sensitively). */
  const RAW3: string := ".raw3"

  // ---------------------------------------------------------------------
  // The monochrome picture
  // ---------------------------------------------------------------------

  /** `srcPos` of the monochrome loop at pixel `(x, y)`: after each row it
      skips `SensorWidth - ImageWidth` samples, so it stands at `y * sw + x`. */
  function SrcPos(sw: int, x: int, y: int): int
  {
    y * sw + x
  }

  /** Every sample the monochrome loop reads lies inside a buffer of `n` bytes. */
  predicate MonoReadable(sw: int, iw: int, ih: int, n: int)
  {
    forall x, y :: 0 <= x < iw && 0 <= y < ih ==> 0 <= SrcPos(sw, x, y) < n
  }

  /** The same condition checked without a quantifier: the smallest sample
      read is that of the first or the last row's first pixel, the largest
      that of the last row's last pixel. */
  predicate MonoInBounds(sw: int, iw: int, ih: int, n: int)
  {
    iw <= 0 || ih <= 0 || (0 <= (ih - 1) * sw && (ih - 1) * sw + iw <= n)
  }

  lemma MonoInBoundsIff(sw: int, iw: int, ih: int, n: int)
    ensures MonoInBounds(sw, iw, ih, n) <==> MonoReadable(sw, iw, ih, n)
  {
    if iw > 0 && ih > 0 {
      if MonoInBounds(sw, iw, ih, n) {
        forall x, y | 0 <= x < iw && 0 <= y < ih
          ensures 0 <= SrcPos(sw, x, y) < n
        {
          if sw >= 0 {
            MulLe(y, ih - 1, sw);
            assert 0 <= y * sw <= (ih - 1) * sw;
          } else {
            assert ih == 1;
            assert y == 0;
          }
        }
      } else {
        if (ih - 1) * sw < 0 {
          assert SrcPos(sw, 0, ih - 1) < 0;
        } else {
          assert SrcPos(sw, iw - 1, ih - 1) >= n;
        }
      }
    }
  }

  /** The bitmap the monochrome branch of `UpdateSource` fills: each pixel
      repeats its sample in all three channels. */
  function MonoBitmap(sw: int, iw: int, ih: int, data: seq<byte>): (b: seq<bv32>)
    requires 0 <= iw && 0 <= ih && MonoReadable(sw, iw, ih, |data|)
    ensures |b| == iw * ih
    ensures forall x, y {:trigger b[Pix(iw, ih, x, y)]} | 0 <= x < iw && 0 <= y < ih ::
      0 <= SrcPos(sw, x, y) < |data| && b[Pix(iw, ih, x, y)] == Gray(data[SrcPos(sw, x, y)])
  {
    seq(iw * ih, k requires 0 <= k < iw * ih =>
      PixCovers(iw, ih, k);
      Gray(data[SrcPos(sw, k % iw, k / iw)]))
  }

  /** `(uint)(val << 16 | val << 8 | val)`. */
  function Gray(v: byte): bv32
  {
    Pack(v, v, v)
  }

  /** The loop nest of the monochrome branch; it reports `false` instead of
      throwing when a sample it needs lies outside `data`. */
  method CopyMono(sw: int, iw: int, ih: int, data: seq<byte>, bitmap: array<bv32>) returns (ok: bool)
    requires 0 <= iw && 0 <= ih && bitmap.Length == iw * ih
    modifies bitmap
    ensures ok <==> MonoReadable(sw, iw, ih, |data|)
    ensures ok ==> bitmap[..] == MonoBitmap(sw, iw, ih, data)
  {
    MonoInBoundsIff(sw, iw, ih, |data|);
    if !MonoInBounds(sw, iw, ih, |data|) {
      return false;
    }
    CopyMonoRows(sw, iw, ih, data, bitmap);
    return true;
  }

  /** The loop nest once every sample it needs is known to lie in `data`. */
  method CopyMonoRows(sw: int, iw: int, ih: int, data: seq<byte>, bitmap: array<bv32>)
    requires 0 <= iw && 0 <= ih && bitmap.Length == iw * ih && MonoReadable(sw, iw, ih, |data|)
    modifies bitmap
    ensures bitmap[..] == MonoBitmap(sw, iw, ih, data)
  {
    ghost var spec := MonoBitmap(sw, iw, ih, data);
    var srcPadding := sw - iw;
    var srcPos, dst := 0, 0;
    for y := 0 to ih
      invariant srcPos == y * sw && dst == y * iw
      invariant forall k | 0 <= k < dst :: bitmap[k] == spec[k]
    {
      MulStep(y, iw);
      MulLe(y + 1, ih, iw);
      CopyMonoRow(sw, iw, ih, data, bitmap, y, srcPos, dst, spec);
      srcPos, dst := srcPos + iw + srcPadding, dst + iw;
    }
  }

  /** One row of the monochrome loop nest. */
  method CopyMonoRow(sw: int, iw: int, ih: int, data: seq<byte>, bitmap: array<bv32>,
                     y: int, srcPos: int, dst0: int, ghost spec: seq<bv32>)
    requires 0 <= iw && 0 <= y < ih && MonoReadable(sw, iw, ih, |data|)
    requires bitmap.Length == iw * ih && spec == MonoBitmap(sw, iw, ih, data)
    requires srcPos == y * sw && dst0 == y * iw && dst0 + iw <= iw * ih
    requires forall k | 0 <= k < dst0 :: bitmap[k] == spec[k]
    modifies bitmap
    ensures forall k | 0 <= k < dst0 + iw :: bitmap[k] == spec[k]
  {
    var src, dst := srcPos, dst0;
    for x := 0 to iw
      invariant src == srcPos + x && dst == dst0 + x
      invariant forall k | 0 <= k < dst :: bitmap[k] == spec[k]
    {
      assert spec[Pix(iw, ih, x, y)] == Gray(data[SrcPos(sw, x, y)]);
      bitmap[dst] := Gray(data[src]);
      src, dst := src + 1, dst + 1;
    }
  }

  // ---------------------------------------------------------------------
  // The picture of a frame
  // ---------------------------------------------------------------------

  /** The picture `UpdateSource` leaves in `Source` for frame buffer `data`
      of a sensor with layout `layout`, or why it throws: a monochrome frame
      is copied sample by sample, any other is converted by `BayerSimple`
      over the first `sw * sh` samples. */
  function Render(layout: nat, sw: int, sh: int, iw: nat, ih: nat, data: seq<byte>): (r: Result<seq<bv32>, ImageError>)
    ensures r.Ok? ==> |r.value| == iw * ih
  {
    if layout == MONO then
      if MonoReadable(sw, iw, ih, |data|) then Ok(MonoBitmap(sw, iw, ih, data)) else Err(OutOfRange)
    else
      var g := Geometry(sw, sh, layout);
      if !WellFormed(g) then Err(UnsupportedGeometry)
      else if !(iw <= sw && ih <= sh && sw * sh <= |data|) then Err(OutOfRange)
      else
        var c := DirectRgb(g, SimpleRule, data[..sw * sh]);
        Ok(Bayer.Bitmap(g, iw, ih, c.red, c.grn, c.blu))
  }

  /** A monochrome picture shows each pixel's sample in all three channels. */
  lemma RenderMonoShowsSample(sw: int, sh: int, iw: nat, ih: nat, data: seq<byte>, x: int, y: int)
    requires Render(MONO, sw, sh, iw, ih, data).Ok? && 0 <= x < iw && 0 <= y < ih
    ensures 0 <= SrcPos(sw, x, y) < |data|
    ensures var p, s := Render(MONO, sw, sh, iw, ih, data).value[Pix(iw, ih, x, y)], data[SrcPos(sw, x, y)] as bv32;
      (p >> 16) & 0xff == s && (p >> 8) & 0xff == s && p & 0xff == s
  {
    var v := data[SrcPos(sw, x, y)];
    assert Render(MONO, sw, sh, iw, ih, data).value[Pix(iw, ih, x, y)] == Pack(v, v, v);
    PackUnpack(v, v, v);
  }

  /** A Bayer picture keeps the sensor's samples: each pixel shows its
      sample in the green channel at a green site, and in the red or blue
      channel at a red or blue site away from the frame's border. */
  lemma RenderBayerKeepsSamples(layout: nat, sw: int, sh: int, iw: nat, ih: nat, data: seq<byte>, x: int, y: int)
    requires layout != MONO && Render(layout, sw, sh, iw, ih, data).Ok? && 0 <= x < iw && 0 <= y < ih
    ensures 0 <= SrcPos(sw, x, y) < |data|
    ensures var p, s := Render(layout, sw, sh, iw, ih, data).value[Pix(iw, ih, x, y)], data[SrcPos(sw, x, y)] as bv32;
      var g := Geometry(sw, sh, layout);
      (!NonGreen(g, x, y) ==> (p >> 8) & 0xff == s) &&
      (IsBayer(layout) && 1 <= x < sw - 1 && 1 <= y < sh - 1 ==>
        (SiteColour(g, x, y) == Red ==> (p >> 16) & 0xff == s) &&
        (SiteColour(g, x, y) == Blue ==> p & 0xff == s))
  {
    var g := Geometry(sw, sh, layout);
    var frame := data[..sw * sh];
    RenderedBayerPixel(layout, sw, sh, iw, ih, data, x, y);
    var c := DirectRgb(g, SimpleRule, frame);
    var i := At(g, x, y);
    DirectKeeps(g, SimpleRule, frame, x, y);
    PackUnpack(c.red[i], c.grn[i], c.blu[i]);
  }

  /** Pixel `(x, y)` of a Bayer picture packs the three planes at the
      frame's sample `(x, y)`. */
  lemma RenderedBayerPixel(layout: nat, sw: int, sh: int, iw: nat, ih: nat, data: seq<byte>, x: int, y: int)
    requires layout != MONO && Render(layout, sw, sh, iw, ih, data).Ok? && 0 <= x < iw && 0 <= y < ih
    ensures var g := Geometry(sw, sh, layout);
      && 0 <= sw * sh <= |data| && IsPlane(g, data[..sw * sh]) && InFrame(g, x, y)
      && At(g, x, y) == SrcPos(sw, x, y) && data[..sw * sh][At(g, x, y)] == data[SrcPos(sw, x, y)]
      && var c, i := DirectRgb(g, SimpleRule, data[..sw * sh]), At(g, x, y);
         Render(layout, sw, sh, iw, ih, data).value[Pix(iw, ih, x, y)] == Pack(c.red[i], c.grn[i], c.blu[i])
  {
    var g := Geometry(sw, sh, layout);
    var frame := data[..sw * sh];
    var c := DirectRgb(g, SimpleRule, frame);
    assert InFrame(g, x, y);
    var i := At(g, x, y);
    assert i == SrcPos(sw, x, y) && frame[i] == data[i];
    Bayer.BitmapAt(g, iw, ih, c.red, c.grn, c.blu, x, y);
  }

  /** Without a demosaicing algorithm the picture of a monochrome frame is
      the packing a Bayer algorithm applies to its planes, with the frame
      itself as all three planes. */
  lemma MonoIsPackedFrame(g: Geometry, iw: nat, ih: nat, data: seq<byte>)
    requires IsPlane(g, data) && iw <= g.w && ih <= g.h
    ensures MonoReadable(g.w, iw, ih, |data|)
    ensures MonoBitmap(g.w, iw, ih, data) == Bayer.Bitmap(g, iw, ih, data, data, data)
  {
    forall x, y | 0 <= x < iw && 0 <= y < ih
      ensures 0 <= SrcPos(g.w, x, y) < |data|
    {
      assert InFrame(g, x, y) && At(g, x, y) == SrcPos(g.w, x, y);
    }
    var a, b := MonoBitmap(g.w, iw, ih, data), Bayer.Bitmap(g, iw, ih, data, data, data);
    forall k | 0 <= k < iw * ih
      ensures a[k] == b[k]
    {
      PixCovers(iw, ih, k);
      var x, y := k % iw, k / iw;
      assert InFrame(g, x, y) && At(g, x, y) == SrcPos(g.w, x, y);
      assert a[Pix(iw, ih, x, y)] == b[Pix(iw, ih, x, y)];
    }
  }

  /** The Bayer branch of `UpdateSource`: a `BayerSimple` over the frame's
      first `sw * sh` samples converts into `bitmap`. */
  method ConvertBayer(layout: nat, sw: int, sh: int, iw: nat, ih: nat, data: seq<byte>, bitmap: array<bv32>)
    returns (r: Result<(), ImageError>)
    requires layout != MONO && bitmap.Length == iw * ih
    modifies bitmap
    ensures var e := Render(layout, sw, sh, iw, ih, data);
      (r.Ok? <==> e.Ok?) && (r.Ok? ==> bitmap[..] == e.value) && (r.Err? ==> r.error == e.error)
  {
    var g := Geometry(sw, sh, layout);
    if !WellFormed(g) {
      return Err(UnsupportedGeometry);
    }
    if !(iw <= sw && ih <= sh && sw * sh <= |data|) {
      return Err(OutOfRange);
    }
    var frame := new byte[sw * sh](k requires 0 <= k < sw * sh => data[k]);
    assert frame[..] == data[..sw * sh];
    var algorithm := new Bayer.BayerAlgorithm(frame, sw, sh, layout, iw, ih, Simple);
    algorithm.Convert((u, v) => Variances(0.0, 0.0, 0.0), (p, i, w, a, b, c, d) => 0, bitmap);
    return Ok(());
  }

  // ---------------------------------------------------------------------
  // The blank frame
  // ---------------------------------------------------------------------

  /** `BigInteger.GreatestCommonDivisor` on naturals, by Euclid's algorithm. */
  function Gcd(a: nat, b: nat): nat
    decreases b
  {
    if b == 0 then a else Gcd(b, a % b)
  }

  predicate Divides(d: int, n: int)
  {
    d > 0 && n % d == 0
  }

  lemma DividesCombination(d: int, x: int, y: int, k: int)
    requires Divides(d, x) && Divides(d, y)
    ensures Divides(d, k * x + y) && Divides(d, x - k * y)
  {
    var qx, qy := x / d, y / d;
    assert x == qx * d && y == qy * d;
    assert k * x + y == (k * qx + qy) * d;
    assert x - k * y == (qx - k * qy) * d;
    LeftDivMod(k * x + y, d, k * qx + qy, 0);
    LeftDivMod(x - k * y, d, qx - k * qy, 0);
  }

  lemma {:induction false} GcdDivides(a: nat, b: nat)
    requires a > 0 || b > 0
    ensures Divides(Gcd(a, b), a) && Divides(Gcd(a, b), b)
    decreases b
  {
    if b != 0 {
      GcdDivides(b, a % b);
      assert a == (a / b) * b + a % b;
      DividesCombination(Gcd(b, a % b), b, a % b, a / b);
    }
  }

  lemma {:induction false} GcdGreatest(a: nat, b: nat, c: int)
    requires Divides(c, a) && Divides(c, b)
    ensures Divides(c, Gcd(a, b))
    decreases b
  {
    if b != 0 {
      assert a % b == a - (a / b) * b;
      DividesCombination(c, a, b, a / b);
      GcdGreatest(b, a % b, c);
    }
  }

  /** `(k * a) % (k * b) == k * (a % b)`. */
  lemma ModScale(k: nat, a: nat, b: nat)
    requires k > 0 && b > 0
    ensures k * b > 0 && (k * a) % (k * b) == k * (a % b)
  {
    var q, r := a / b, a % b;
    assert a == q * b + r;
    assert k * a == q * (k * b) + k * r;
    MulLe(r + 1, b, k);
    LeftDivMod(k * a, k * b, q, k * r);
  }

  lemma {:induction false} GcdScale(k: nat, a: nat, b: nat)
    requires k > 0
    ensures Gcd(k * a, k * b) == k * Gcd(a, b)
    decreases b
  {
    if b != 0 {
      ModScale(k, a, b);
      GcdScale(k, b, a % b);
    }
  }

  /** Dividing both sides by their greatest common divisor leaves coprime sides. */
  lemma ReducedCoprime(a: nat, b: nat)
    requires a > 0 && b > 0
    ensures Divides(Gcd(a, b), a) && Divides(Gcd(a, b), b)
    ensures Gcd(a, b) * (a / Gcd(a, b)) == a && Gcd(a, b) * (b / Gcd(a, b)) == b
    ensures Gcd(a / Gcd(a, b), b / Gcd(a, b)) == 1
  {
    var d := Gcd(a, b);
    GcdDivides(a, b);
    var a', b' := a / d, b / d;
    DivExact(d, a);
    DivExact(d, b);
    GcdScale(d, a', b');
    var e := Gcd(a', b');
    assert Gcd(d * a', d * b') == d;
    assert d * e == d;
  }

  lemma DivExact(d: int, n: int)
    requires Divides(d, n)
    ensures d * (n / d) == n
  {
  }

  /** Euclid's lemma: a divisor of `m * h` coprime to `h` divides `m`. */
  lemma CoprimeDividesFactor(w: nat, h: nat, m: nat)
    requires w > 0 && Gcd(w, h) == 1 && Divides(w, m * h)
    ensures Divides(w, m)
  {
    if m > 0 {
      GcdScale(m, w, h);
      LeftDivMod(m * w, w, m, 0);
      GcdGreatest(m * w, m * h, w);
    }
  }

  lemma CoprimeSwap(a: nat, b: nat)
    requires Gcd(a, b) == 1
    ensures Gcd(b, a) == 1
  {
    GcdDivides(b, a);
    GcdGreatest(a, b, Gcd(b, a));
  }

  /** An `Indexed1` bitmap with a one-colour (dark grey) palette: `data`
      holds `height` rows of `stride` bytes, one bit per pixel. */
  datatype BlankFrame = BlankFrame(width: int, height: int, stride: int, data: seq<byte>)

  /** `CreateBlankFrame`: both image sides divided by their greatest
      common divisor, rows of `width / 8 + 1` bytes, every pixel palette
      entry 0. */
  function CreateBlankFrame(iw: nat, ih: nat): (f: BlankFrame)
    requires iw > 0 && ih > 0
    ensures 0 < f.width <= iw && 0 < f.height <= ih
    ensures f.width * ih == f.height * iw
    ensures f.stride * 8 > f.width && |f.data| == f.height * f.stride
    ensures forall k | 0 <= k < |f.data| :: f.data[k] == 0
  {
    ReducedCoprime(iw, ih);
    var d := Gcd(iw, ih);
    var width, height := iw / d, ih / d;
    ScaledSides(d, width, height);
    BlankFrame(width, height, width / 8 + 1, seq(height * (width / 8 + 1), _ => 0))
  }

  /** Sides `d * w` by `d * h` have the ratio of `w` by `h`, and `w` and
      `h` are no larger than them. */
  lemma ScaledSides(d: int, w: int, h: int)
    requires d > 0 && w > 0 && h > 0
    ensures w * (d * h) == h * (d * w) && w <= d * w && h <= d * h
  {
    MulLe(1, d, w);
    MulLe(1, d, h);
  }

  /** Sides in the ratio of `d * width` to `d * height` are in the ratio
      of `width` to `height`. */
  lemma SameRatio(d: int, width: int, height: int, w: int, h: int)
    requires d > 0 && w * (d * height) == h * (d * width)
    ensures w * height == h * width
  {
    assert w * (d * height) == d * (w * height);
    assert h * (d * width) == d * (h * width);
    Cancel(d, w * height, h * width);
  }

  /** A positive factor cancels. */
  lemma Cancel(d: int, x: int, y: int)
    requires d > 0 && d * x == d * y
    ensures x == y
  {
    if y < x {
      MulLe(1, x - y, d);
    }
  }

  /** The blank frame is the smallest bitmap of the image's aspect ratio:
      any other pair of positive sides in the same ratio is at least as
      large on both sides. */
  lemma BlankFrameSmallest(iw: nat, ih: nat, w: nat, h: nat)
    requires iw > 0 && ih > 0 && w > 0 && h > 0 && w * ih == h * iw
    ensures CreateBlankFrame(iw, ih).width <= w && CreateBlankFrame(iw, ih).height <= h
  {
    var f := CreateBlankFrame(iw, ih);
    ReducedCoprime(iw, ih);
    var d := Gcd(iw, ih);
    var width, height := iw / d, ih / d;
    assert f.width == width && f.height == height;
    assert iw == d * width && ih == d * height;
    SameRatio(d, width, height, w, h);
    CoprimeRatioSmallest(width, height, w, h);
  }

  /** Coprime sides are the smallest of their ratio. */
  lemma CoprimeRatioSmallest(width: nat, height: nat, w: nat, h: nat)
    requires width > 0 && height > 0 && Gcd(width, height) == 1
    requires w > 0 && h > 0 && w * height == h * width
    ensures width <= w && height <= h
  {
    LeftDivMod(h * width, width, h, 0);
    CoprimeDividesFactor(width, height, w);
    DivisorBound(width, w);
    LeftDivMod(w * height, height, w, 0);
    CoprimeSwap(width, height);
    CoprimeDividesFactor(height, width, h);
    DivisorBound(height, h);
  }

  lemma DivisorBound(d: int, n: int)
    requires Divides(d, n) && n > 0
    ensures d <= n
  {
    DivExact(d, n);
    MulLe(1, n / d, d);
  }

  // ---------------------------------------------------------------------
  // The recording
  // ---------------------------------------------------------------------

  class RawImage {
    /** `Raw`: present only for a `.raw3` file. */
    const Raw: Option<RawV3>
    const SensorWidth: int
    const SensorHeight: int
    const ImageWidth: int
    const ImageHeight: int
    const FrameSizeInPixels: int
    const SensorType: nat
    const IsRaw: bool
    const HasKnownSensorType: bool
    const NofFrames: nat
    /** The `Bgr32` back buffer of `Source`, one word per pixel, rows
        without padding; empty when there is no raw file. */
    const Source: array<bv32>
    const BlankFrame: Option<BlankFrame>

    ghost predicate Valid()
      reads this, if Raw.Some? then {Raw.value} else {}
    {
      Raw.Some? ==>
        Raw.value.Valid() && NofFrames == Raw.value.NofFrames() && ImageWidth > 0 && ImageHeight > 0 &&
        Source.Length == ImageWidth * ImageHeight && Raw.value.Data as object != Source
    }

    ghost function Repr(): set<object>
      reads this
    {
      if Raw.Some? then {Raw.value, Raw.value.Reader, Source} else {Source}
    }

    /** The body of `RawImage(file, sensorType)` once the file is open (or
        known not to be a RAWv3 file), without the `BayerSimple` it
        creates: the refresh builds that object itself (see `UpdateSource`). */
    constructor (raw: Option<RawV3>, sensorType: nat)
      requires raw.Some? ==>
        raw.value.Valid() && Wrap32(raw.value.Header.FrameWidth) > 0 && Wrap32(raw.value.Header.FrameHeight) > 0
      ensures Valid() && Raw == raw && fresh(Source)
      ensures raw.None? ==>
        SensorType == sensorType && !IsRaw && !HasKnownSensorType && NofFrames == 0 && BlankFrame.None? &&
        SensorWidth == 0 && SensorHeight == 0 && ImageWidth == 0 && ImageHeight == 0 && FrameSizeInPixels == 0
      ensures raw.Some? ==>
        var h := raw.value.Header;
        SensorWidth == Wrap32(h.SensorFrameWidth) && SensorHeight == Wrap32(h.SensorFrameHeight) &&
        ImageWidth == Wrap32(h.FrameWidth) && ImageHeight == Wrap32(h.FrameHeight) &&
        FrameSizeInPixels == Wrap64(h.SensorFrameWidth * h.SensorFrameHeight) &&
        SensorType == h.ColorFilterType && IsRaw && HasKnownSensorType && NofFrames == h.FrameCount &&
        BlankFrame == Some(CreateBlankFrame(ImageWidth, ImageHeight))
    {
      Raw := raw;
      if raw.Some? {
        var h := raw.value.Header;
        var iw, ih := Wrap32(h.FrameWidth), Wrap32(h.FrameHeight);
        SensorWidth, SensorHeight := Wrap32(h.SensorFrameWidth), Wrap32(h.SensorFrameHeight);
        ImageWidth, ImageHeight := iw, ih;
        FrameSizeInPixels := Wrap64(h.SensorFrameWidth * h.SensorFrameHeight);
        SensorType := h.ColorFilterType;
        IsRaw, HasKnownSensorType := true, true;
        NofFrames := h.FrameCount;
        Source := new bv32[iw * ih];
        BlankFrame := Some(CreateBlankFrame(iw, ih));
      } else {
        SensorWidth, SensorHeight, ImageWidth, ImageHeight, FrameSizeInPixels := 0, 0, 0, 0, 0;
        SensorType := sensorType;
        IsRaw, HasKnownSensorType := false, false;
        NofFrames := 0;
        Source := new bv32[0];
        BlankFrame := None;
      }
    }

    /** What `Source` shows after a refresh of the frame `data`, or the
        error the refresh throws. */
    ghost predicate Shows(data: seq<byte>, r: Result<(), ImageError>)
      requires Valid() && Raw.Some?
      reads this, Raw.value, Source
    {
      var e := Render(SensorType, SensorWidth, SensorHeight, ImageWidth, ImageHeight, data);
      (r.Ok? <==> e.Ok?) && (r.Ok? ==> Source[..] == e.value) && (r.Err? ==> r.error == e.error)
    }

    /** `UpdateSource`: the current frame is drawn into `Source`. */
    method UpdateSource() returns (r: Result<(), ImageError>)
      requires Valid() && Raw.Some?
      modifies Source
      ensures Shows(Raw.value.Data[..], r)
    {
      var data := Raw.value.Data[..];
      if SensorType == MONO {
        var ok := CopyMono(SensorWidth, ImageWidth, ImageHeight, data, Source);
        r := if ok then Ok(()) else Err(OutOfRange);
      } else {
        r := ConvertBayer(SensorType, SensorWidth, SensorHeight, ImageWidth, ImageHeight, data, Source);
      }
    }

    /** `ReadFrame(n)`: with a raw file, frame `n` is read and the picture
        refreshed; a read that throws leaves the picture as it was. */
    method ReadFrame(n: nat) returns (r: Result<(), ImageError>)
      requires Valid()
      modifies Repr()
      ensures Valid()
      ensures Raw.None? ==> r.Ok?
      ensures Raw.Some? && n >= NofFrames ==> unchanged(Raw.value, Raw.value.Reader)
      ensures Raw.Some? && n < NofFrames ==> ((r.Err? && r.error.Read?) <==> Raw.value.CurrentFrame == n)
      ensures Raw.Some? && r.Err? && r.error.Read? ==> unchanged(Source)
      ensures Raw.Some? && !(r.Err? && r.error.Read?) ==> Shows(Raw.value.Data[..], r)
    {
      if Raw.None? {
        return Ok(());
      }
      var read := Raw.value.ReadFrameAt(n);
      if read.Err? {
        return Err(Read(read.error));
      }
      r := UpdateSource();
    }

    /** `ReadFirstFrame`: `ReadFrame(0)`. */
    method ReadFirstFrame() returns (r: Result<(), ImageError>)
      requires Valid()
      modifies Repr()
      ensures Valid()
      ensures Raw.None? ==> r.Ok?
      ensures Raw.Some? && 0 < NofFrames ==> ((r.Err? && r.error.Read?) <==> Raw.value.CurrentFrame == 0)
      ensures Raw.Some? && r.Err? && r.error.Read? ==> unchanged(Source)
      ensures Raw.Some? && !(r.Err? && r.error.Read?) ==> Shows(Raw.value.Data[..], r)
    {
      r := ReadFrame(0);
    }

    /** `ReadNextFrame`: the frame after the one shown. */
    method ReadNextFrame() returns (r: Result<(), ImageError>)
      requires Valid()
      modifies Repr()
      ensures Valid()
      ensures Raw.None? ==> r.Ok?
      ensures Raw.Some? && old(Raw.value.CurrentFrame) >= NofFrames ==> unchanged(Raw.value, Raw.value.Reader)
      ensures Raw.Some? && !(r.Err? && r.error.Read?) && old(Raw.value.CurrentFrame) < NofFrames ==>
        Raw.value.CurrentFrame == old(Raw.value.CurrentFrame) + 1
      ensures Raw.Some? && r.Err? && r.error.Read? ==> unchanged(Source) && Raw.value.CurrentFrame == old(Raw.value.CurrentFrame)
      ensures Raw.Some? && !(r.Err? && r.error.Read?) ==> Shows(Raw.value.Data[..], r)
    {
      if Raw.None? {
        return Ok(());
      }
      var read := Raw.value.ReadFrame();
      if read.Err? {
        return Err(Read(read.error));
      }
      r := UpdateSource();
    }

    /** `ReadPreviousFrame`: the frame before the one shown; at the first
        frame nothing is read, but the picture is still refreshed. */
    method ReadPreviousFrame() returns (r: Result<(), ImageError>)
      requires Valid()
      modifies Repr()
      ensures Valid()
      ensures Raw.None? ==> r.Ok?
      ensures Raw.Some? && old(Raw.value.CurrentFrame) <= 1 ==> unchanged(Raw.value, Raw.value.Reader)
      ensures Raw.Some? && !(r.Err? && r.error.Read?) && old(Raw.value.CurrentFrame) > 1 ==>
        Raw.value.CurrentFrame == old(Raw.value.CurrentFrame) - 1
      ensures Raw.Some? && r.Err? && r.error.Read? ==> unchanged(Source)
      ensures Raw.Some? && !(r.Err? && r.error.Read?) ==> Shows(Raw.value.Data[..], r)
    {
      if Raw.None? {
        return Ok(());
      }
      var read := Raw.value.ReadPreviousFrame();
      if read.Err? {
        return Err(Read(read.error));
      }
      r := UpdateSource();
    }
  }

  // ---------------------------------------------------------------------
  // Opening a file
  // ---------------------------------------------------------------------

  /** `new RawImage(file, sensorType)` with a `BayerSimple` created only
      when there is a raw file to read from: a `.raw3` file is opened and
      its header decides the sizes and the sensor type; any other file
      gives a `RawImage` without frames. */
  method Open(extension: string, file: seq<byte>, sensorType: nat) returns (r: Result<RawImage, ImageError>)
    ensures extension != RAW3 ==>
      r.Ok? && fresh(r.value) && r.value.Valid() && r.value.Raw.None? &&
      r.value.SensorType == sensorType && !r.value.IsRaw
    ensures extension == RAW3 ==>
      (r.Ok? <==> |file| >= TYPED_END && Openable(HeaderAt(file)) &&
                  Wrap32(HeaderAt(file).FrameWidth) > 0 && Wrap32(HeaderAt(file).FrameHeight) > 0)
    ensures extension == RAW3 && r.Ok? ==>
      fresh(r.value) && r.value.Valid() && r.value.Raw.Some? && r.value.IsRaw &&
      r.value.Raw.value.Header == Corrected(HeaderAt(file)) && r.value.Raw.value.CurrentFrame == 0 &&
      r.value.SensorType == HeaderAt(file).ColorFilterType
  {
    if extension != RAW3 {
      var image := new RawImage(None, sensorType);
      return Ok(image);
    }
    var raw := V3.Open(file);
    if raw.Err? {
      return Err(OpenFailed(raw.error));
    }
    var h := raw.value.Header;
    if !(Wrap32(h.FrameWidth) > 0 && Wrap32(h.FrameHeight) > 0) {
      return Err(BadBitmapSize);
    }
    var image := new RawImage(Some(raw.value), sensorType);
    return Ok(image);
  }

  /** `new RawImage(file, sensorType)` as written: the `BayerSimple` is
      created whenever the sensor type is not `Mono`, and its constructor
      reads `rawfile.Raw.Data`, which is `null` for a file that is not a
      `.raw3` recording. */
  method OpenAsWritten(extension: string, file: seq<byte>, sensorType: nat) returns (r: Result<RawImage, ImageError>)
    ensures extension != RAW3 ==> (r.Ok? <==> sensorType == MONO)
    ensures extension != RAW3 && sensorType != MONO ==> r == Err(NullReference)
    ensures extension == RAW3 ==>
      (r.Ok? <==> |file| >= TYPED_END && Openable(HeaderAt(file)) &&
                  Wrap32(HeaderAt(file).FrameWidth) > 0 && Wrap32(HeaderAt(file).FrameHeight) > 0)
  {
    if extension != RAW3 && sensorType != MONO {
      return Err(NullReference);
    }
    r := Open(extension, file, sensorType);
  }
}
