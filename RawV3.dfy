/** The RAWv3 frame reader (RawLibrary/RawV3.cs): opening a file reads the
    header, recomputes the frame size and loads the fixed-pattern-noise (FPN)
    table; a frame cursor then walks the frames, and each frame read reverses
    the byte order of every 32-bit word and removes the fixed pattern noise. */
module RawV3 {
  import opened Common
  import opened BinaryIO
  import opened RawHeader
  import opened Grid

  // ---------------------------------------------------------------------
  // Bit helpers

  /** `LRot(v, n)`: both shift counts are taken modulo 32, as C# does for a
      32-bit operand; by 16, as the byte swap uses it, it exchanges the halves. */
  function LRot(v: bv32, n: int): (r: bv32)
    ensures n % 32 == 16 ==> r & 0xFFFF == v >> 16 && r >> 16 == v & 0xFFFF
  {
    var k := (n % 32) as bv5;
    var j := ((32 - n) % 32) as bv5;
    (v << k) | (v >> j)
  }

  /** Byte `k` (0 = least significant) of a 32-bit word. */
  function ByteOf(v: bv32, k: nat): bv32
    requires k < 4
  {
    if k == 0 then v & 0xFF
    else if k == 1 then (v >> 8) & 0xFF
    else if k == 2 then (v >> 16) & 0xFF
    else v >> 24
  }

  /** `ByteSwap(uint)`: swaps the bytes within each half, then the halves. */
  function ByteSwap32(v: bv32): (r: bv32)
    ensures ByteOf(r, 0) == ByteOf(v, 3) && ByteOf(r, 1) == ByteOf(v, 2)
    ensures ByteOf(r, 2) == ByteOf(v, 1) && ByteOf(r, 3) == ByteOf(v, 0)
  {
    var u := ((v & 0xFF00FF00) >> 8) | ((v & 0x00FF00FF) << 8);
    SwapsPairs(v);
    RotateHalves(u, 16);
    LRot(u, 16)
  }

  /** The masks and shifts swap the two bytes of each half. */
  lemma SwapsPairs(v: bv32)
    ensures var u := ((v & 0xFF00FF00) >> 8) | ((v & 0x00FF00FF) << 8);
      ByteOf(u, 0) == ByteOf(v, 1) && ByteOf(u, 1) == ByteOf(v, 0) &&
      ByteOf(u, 2) == ByteOf(v, 3) && ByteOf(u, 3) == ByteOf(v, 2)
  {
  }

  /** A rotation by 16 swaps the two halves. */
  lemma RotateHalves(u: bv32, n: int)
    requires n % 32 == 16
    ensures var r := LRot(u, n);
      ByteOf(r, 0) == ByteOf(u, 2) && ByteOf(r, 1) == ByteOf(u, 3) &&
      ByteOf(r, 2) == ByteOf(u, 0) && ByteOf(r, 3) == ByteOf(u, 1)
  {
    HalvesBytes(LRot(u, n), u);
  }

  lemma HalvesBytes(r: bv32, u: bv32)
    requires r & 0xFFFF == u >> 16 && r >> 16 == u & 0xFFFF
    ensures ByteOf(r, 0) == ByteOf(u, 2) && ByteOf(r, 1) == ByteOf(u, 3)
    ensures ByteOf(r, 2) == ByteOf(u, 0) && ByteOf(r, 3) == ByteOf(u, 1)
  {
  }

  /** Reversing the byte order twice restores the word. */
  lemma ByteSwap32Involution(v: bv32)
    ensures ByteSwap32(ByteSwap32(v)) == v
  {
    var w := ByteSwap32(ByteSwap32(v));
    SameBytes(w, v);
  }

  /** A word is its four bytes. */
  lemma SameBytes(a: bv32, b: bv32)
    requires ByteOf(a, 0) == ByteOf(b, 0) && ByteOf(a, 1) == ByteOf(b, 1)
    requires ByteOf(a, 2) == ByteOf(b, 2) && ByteOf(a, 3) == ByteOf(b, 3)
    ensures a == b
  {
  }

  /** `ByteSwap(short)`: the arithmetic shift of the sign is masked off. */
  function ByteSwap16(v: bv16): (r: bv16)
    ensures r & 0xFF == (v >> 8) && r >> 8 == v & 0xFF
  {
    ((v >> 8) & 0xFF) | (v << 8)
  }

  lemma ByteSwap16Involution(v: bv16)
    ensures ByteSwap16(ByteSwap16(v)) == v
  {
  }

  /** `Clamp8(v)`: only bits 8 to 15 of the two's complement value are tested,
      so the clamp is exact on `[-0xFF00, 0xFFFF]`; outside that window a value
      whose bits 8 to 15 are clear passes through truncated to its low byte. */
  function Clamp8(v: int): (r: byte)
    requires IsInt32(v)
    ensures 0 <= v <= 255 ==> r == v
    ensures 256 <= v <= 0xFFFF ==> r == 255
    ensures -0xFF00 <= v < 0 ==> r == 0
  {
    if (v / 256) % 256 != 0 then (if v < 0 then 0 else 255) else v % 256
  }

  /** The window bound cannot be widened: one past either end the test misses. */
  lemma Clamp8Window()
    ensures Clamp8(0x10000) == 0
    ensures Clamp8(-0xFF01) == 255
  {
  }

  /** Reference definition of a clamp into `[0, 255]`. */
  function Clamp255(v: int): int
  {
    if v < 0 then 0 else if v > 255 then 255 else v
  }

  // ---------------------------------------------------------------------
  // Fixed-pattern-noise formulas for one pixel

  predicate IsInt16(v: int) { -0x8000 <= v < 0x8000 }

  /** S series: `Clamp8(((c << bitMode) + b * d) / 1600)` in 32-bit `int`
      arithmetic; the shift count is `bitMode mod 32` and `/` truncates. */
  function FpnS(d: byte, c: int, b: int, bitMode: nat): byte
    requires IsInt16(c) && IsInt16(b)
  {
    var shifted := Wrap32(c * Pow2(bitMode % 32));
    Clamp8(TruncDiv(Wrap32(shifted + b * d), 1600))
  }

  /** For the three documented gain modes (0, 1, 2) nothing wraps and the
      quick `Clamp8` test is an exact clamp of the corrected value. */
  lemma FpnSExact(d: byte, c: int, b: int, bitMode: nat)
    requires IsInt16(c) && IsInt16(b) && bitMode % 32 <= 2
    ensures FpnS(d, c, b, bitMode) == Clamp255(TruncDiv(c * Pow2(bitMode % 32) + b * d, 1600))
  {
    var k := bitMode % 32;
    assert Pow2(k) <= 4 by {
      assert Pow2(0) == 1 && Pow2(1) == 2 && Pow2(2) == 4;
    }
    ProductBound(c, Pow2(k), 0x8000, 4);
    ProductBound(b, d, 0x8000, 255);
    var v := c * Pow2(k) + b * d;
    assert IsInt32(c * Pow2(k)) && IsInt32(v);
    var q := TruncDiv(v, 1600);
    assert Abs(q) * 1600 <= Abs(v);
    assert Abs(v) <= 0x8000 * 4 + 0x8000 * 255;
    assert -0xFF00 <= q <= 0xFFFF;
  }

  /** `|x * y| <= mx * my` when `|x| <= mx` and `|y| <= my`. */
  lemma ProductBound(x: int, y: int, mx: nat, my: nat)
    requires Abs(x) <= mx && Abs(y) <= my
    ensures Abs(x * y) <= mx * my
    ensures -(mx * my) <= x * y <= mx * my
  {
    var ax: int, ay: int := Abs(x), Abs(y);
    if x < 0 && y < 0 {
      assert x * y == ax * ay;
    } else if x < 0 {
      assert x * y == -(ax * ay);
    } else if y < 0 {
      assert x * y == -(ax * ay);
    } else {
      assert x * y == ax * ay;
    }
    MulLe(ax, mx, ay);
    MulLe(ay, my, mx);
  }

  /** Q series: `Clamp8((((((a * d) >> 8) + b) * d >> 4) + c) >> 8)`; the
      shifts are arithmetic, i.e. floor divisions by powers of two. */
  function FpnQ(d: byte, c: int, b: int, a: int): byte
    requires IsInt16(c) && IsInt16(b) && IsInt16(a)
  {
    Clamp8(FpnQValue(d, c, b, a))
  }

  function FpnQValue(d: byte, c: int, b: int, a: int): (v: int)
    requires IsInt16(c) && IsInt16(b) && IsInt16(a)
    ensures -0xFF00 <= v <= 0xFFFF
  {
    FpnQRange(d, c, b, a);
    ((((a * d) / 256 + b) * d) / 16 + c) / 256
  }

  /** No intermediate of the Q formula leaves the 32-bit range, and its value
      lies where `Clamp8` is exact. */
  lemma FpnQRange(d: byte, c: int, b: int, a: int)
    requires IsInt16(c) && IsInt16(b) && IsInt16(a)
    ensures IsInt32(a * d) && IsInt32(((a * d) / 256 + b) * d)
    ensures -0xFF00 <= ((((a * d) / 256 + b) * d) / 16 + c) / 256 <= 0xFFFF
  {
    ProductBound(a, d, 0x8000, 255);
    var t1 := (a * d) / 256 + b;
    assert -0x8000 * 2 <= t1 <= 0x8000 * 2;
    ProductBound(t1, d, 0x10000, 255);
  }

  lemma FpnQExact(d: byte, c: int, b: int, a: int)
    requires IsInt16(c) && IsInt16(b) && IsInt16(a)
    ensures FpnQ(d, c, b, a) == Clamp255(FpnQValue(d, c, b, a))
  {
  }

  // ---------------------------------------------------------------------
  // Byte order of a frame

  /** The position whose byte lands at `p` when each 4-byte word is reversed. */
  function Mirror(p: nat): nat
  {
    p - p % 4 + (3 - p % 4)
  }

  /** Reference definition: the frame with every 4-byte word reversed. */
  function WordsReversed(s: seq<byte>): (r: seq<byte>)
    requires |s| % 4 == 0
    ensures |r| == |s|
    ensures forall p :: 0 <= p < |s| ==> Mirror(p) < |s| && r[p] == s[Mirror(p)]
  {
    seq(|s|, p requires 0 <= p < |s| => s[Mirror(p)])
  }

  /** Reversing every word twice restores the frame. */
  lemma WordsReversedInvolution(s: seq<byte>)
    requires |s| % 4 == 0
    ensures WordsReversed(WordsReversed(s)) == s
  {
    var r := WordsReversed(WordsReversed(s));
    forall p | 0 <= p < |s|
      ensures r[p] == s[p]
    {
      MirrorTwice(p);
    }
  }

  lemma MirrorTwice(p: nat)
    ensures Mirror(Mirror(p)) == p
  {
    assert p == (p / 4) * 4 + p % 4;
    LeftDivMod(Mirror(p), 4, p / 4, 3 - p % 4);
  }

  /** The in-place word reversal of `ReadFrame`: bytes 0 and 3, then 1 and 2,
      of every 4-byte word are exchanged. */
  method ReverseWords(a: array<byte>)
    requires a.Length % 4 == 0
    modifies a
    ensures a[..] == WordsReversed(old(a[..]))
  {
    var i := 0;
    while i < a.Length
      invariant 0 <= i <= a.Length && i % 4 == 0
      invariant forall p :: 0 <= p < i ==> a[p] == old(a[Mirror(p)])
      invariant forall p :: i <= p < a.Length ==> a[p] == old(a[p])
    {
      var tmp := a[i]; a[i] := a[i + 3]; a[i + 3] := tmp;
      tmp := a[i + 1]; a[i + 1] := a[i + 2]; a[i + 2] := tmp;
      assert forall p :: i <= p < i + 4 ==> Mirror(p) == i + 3 - (p - i);
      i := i + 4;
    }
  }

  // ---------------------------------------------------------------------
  // Fixed-pattern-noise removal over a frame

  /** A signed 16-bit coefficient stored little-endian at byte `i` of the table. */
  function Coeff(t: seq<byte>, i: nat): (v: int)
    requires i + 1 < |t|
    ensures IsInt16(v)
  {
    Int16LE(t[i], t[i + 1])
  }

  /** S series geometry: the window of the 1296 by 1024 sensor that the frame
      occupies, in units of the 24-pixel kernel; `Math.Ceiling` and
      `Math.Floor` of exact quotients. */
  const S_SENSOR_WIDTH: nat := 1296
  const Q_SENSOR_WIDTH: nat := 1696

  function SOffsetX(sfw: nat): int { 648 - 24 * ((sfw / 24 + 1) / 2) }
  function SOffsetY(sfh: nat): int { 2 * ((1025 - sfh) / 4) }
  function QOffsetX(sfw: nat): int { 896 - 64 * ((sfw + 96 + 127) / 128) }
  function QOffsetY(sfh: nat): int { 2 * ((1711 - sfh) / 4) }

  /** Coefficient number of pixel `p` of a `sfw`-wide frame whose first line
      starts at coefficient `start` of a sensor-wide table. */
  function CoeffIndex(start: nat, sensorWidth: nat, sfw: nat, p: nat): nat
    requires sfw > 0
  {
    start + (p / sfw) * sensorWidth + p % sfw
  }

  /** S series correction of one pixel; saturated pixels (0 and 255) are kept,
      but the two coefficients are read for every pixel. */
  function SPixel(d: byte, t: seq<byte>, k: nat, bitMode: nat): byte
    requires 4 * k + 3 < |t|
  {
    if 0 < d < 255 then FpnS(d, Coeff(t, 4 * k), Coeff(t, 4 * k + 2), bitMode) else d
  }

  /** Q series correction of one pixel: three coefficients per pixel. */
  function QPixel(d: byte, t: seq<byte>, k: nat): byte
    requires 0 < d < 255 ==> 6 * k + 5 < |t|
  {
    if 0 < d < 255 then FpnQ(d, Coeff(t, 6 * k), Coeff(t, 6 * k + 2), Coeff(t, 6 * k + 4)) else d
  }

  /** Every S-series coefficient the frame needs is inside the table, and the
      frame holds `sfw * sfh` pixels. */
  predicate SFits(n: nat, t: seq<byte>, sfw: nat, sfh: nat, start: nat)
  {
    sfw == 0 || sfh == 0 ||
    (sfw * sfh <= n &&
     forall p :: 0 <= p < sfw * sfh ==> 4 * CoeffIndex(start, S_SENSOR_WIDTH, sfw, p) + 3 < |t|)
  }

  /** Every unsaturated pixel of the frame has its Q-series coefficients. */
  predicate QFits(d: seq<byte>, t: seq<byte>, sfw: nat, sfh: nat, start: nat)
  {
    sfw == 0 || sfh == 0 ||
    (sfw * sfh <= |d| &&
     forall p :: 0 <= p < sfw * sfh && 0 < d[p] < 255 ==>
       6 * CoeffIndex(start, Q_SENSOR_WIDTH, sfw, p) + 5 < |t|)
  }

  /** Pixels of a `sfw` by `sfh` frame lie in rows below `sfh`. */
  lemma RowOf(sfw: nat, sfh: nat, p: nat)
    requires sfw > 0 && p < sfw * sfh
    ensures p / sfw < sfh && p % sfw < sfw
  {
    IdxCovers(sfw, sfh, p);
  }

  /** The frame after S-series removal: the first `sfw * sfh` bytes are the
      pixels, row by row; later bytes are untouched. */
  function SImage(d: seq<byte>, t: seq<byte>, sfw: nat, sfh: nat, start: nat, bitMode: nat): (r: seq<byte>)
    requires SFits(|d|, t, sfw, sfh, start)
    ensures |r| == |d|
    ensures forall p {:trigger r[p]} | 0 <= p < |d| && (d[p] == 0 || d[p] == 255 || p >= sfw * sfh) :: r[p] == d[p]
  {
    seq(|d|, p requires 0 <= p < |d| =>
      if p < sfw * sfh then
        SPixel(d[p], t, CoeffIndex(start, S_SENSOR_WIDTH, sfw, p), bitMode)
      else d[p])
  }

  function QImage(d: seq<byte>, t: seq<byte>, sfw: nat, sfh: nat, start: nat): (r: seq<byte>)
    requires QFits(d, t, sfw, sfh, start)
    ensures |r| == |d|
    ensures forall p {:trigger r[p]} | 0 <= p < |d| && (d[p] == 0 || d[p] == 255 || p >= sfw * sfh) :: r[p] == d[p]
  {
    seq(|d|, p requires 0 <= p < |d| =>
      if p < sfw * sfh then
        QPixel(d[p], t, CoeffIndex(start, Q_SENSOR_WIDTH, sfw, p))
      else d[p])
  }

  /** One row of the S-series loop: `pos` and `posCoeff` advance together;
      both coefficients are read before the saturation test. */
  method RemoveNoiseRowS(a: array<byte>, t: seq<byte>, lineStart: nat, coeffStart: nat, sfw: nat, bitMode: nat)
    requires lineStart + sfw <= a.Length
    requires sfw > 0 ==> 4 * (coeffStart + sfw - 1) + 3 < |t|
    modifies a
    ensures forall p :: 0 <= p < a.Length && !(lineStart <= p < lineStart + sfw) ==> a[p] == old(a[p])
    ensures forall p :: lineStart <= p < lineStart + sfw ==>
      a[p] == SPixel(old(a[p]), t, coeffStart + (p - lineStart), bitMode)
  {
    var pos, posCoeff := lineStart, coeffStart;
    for x := 0 to sfw
      invariant pos == lineStart + x && posCoeff == coeffStart + x
      invariant forall p :: 0 <= p < a.Length && !(lineStart <= p < pos) ==> a[p] == old(a[p])
      invariant forall p :: lineStart <= p < pos ==>
        a[p] == SPixel(old(a[p]), t, coeffStart + (p - lineStart), bitMode)
    {
      var fpnIndex := posCoeff * 2;
      var c := Coeff(t, fpnIndex * 2);
      var b := Coeff(t, (fpnIndex + 1) * 2);
      if 0 < a[pos] < 255 {
        a[pos] := FpnS(a[pos], c, b, bitMode);
      }
      pos, posCoeff := pos + 1, posCoeff + 1;
    }
  }

  /** Row `y` of an S-series frame lies inside the frame, and the
      coefficients of its last pixel are in the table. */
  lemma SRowFits(d: seq<byte>, t: seq<byte>, sfw: nat, sfh: nat, start: nat, y: nat)
    requires SFits(|d|, t, sfw, sfh, start) && sfw > 0 && y < sfh
    ensures y * sfw + sfw <= sfw * sfh <= |d|
    ensures 4 * (start + y * S_SENSOR_WIDTH + sfw - 1) + 3 < |t|
  {
    RowInside(sfw, sfh, y);
    var last := y * sfw + sfw - 1;
    LeftDivMod(last, sfw, y, sfw - 1);
    assert 4 * CoeffIndex(start, S_SENSOR_WIDTH, sfw, last) + 3 < |t|;
  }

  /** Row `y` of an S-series frame: its coefficients run on from the row's
      first one. */
  lemma SRow(d: seq<byte>, t: seq<byte>, sfw: nat, sfh: nat, start: nat, bitMode: nat, y: nat)
    requires SFits(|d|, t, sfw, sfh, start) && sfw > 0 && y < sfh
    ensures y * sfw + sfw <= |d|
    ensures 4 * (start + y * S_SENSOR_WIDTH + sfw - 1) + 3 < |t|
    ensures forall p :: y * sfw <= p < y * sfw + sfw ==>
      SImage(d, t, sfw, sfh, start, bitMode)[p] == SPixel(d[p], t, start + y * S_SENSOR_WIDTH + (p - y * sfw), bitMode)
  {
    SRowFits(d, t, sfw, sfh, start, y);
    forall p | y * sfw <= p < y * sfw + sfw
      ensures CoeffIndex(start, S_SENSOR_WIDTH, sfw, p) == start + y * S_SENSOR_WIDTH + (p - y * sfw)
    {
      LeftDivMod(p, sfw, y, p - y * sfw);
    }
  }

  /** The S-series branch of `FpnRemoval` (sensor width 1296, factor 1600). */
  method RemoveNoiseS(a: array<byte>, t: seq<byte>, sfw: nat, sfh: nat, start: nat, bitMode: nat)
    requires SFits(a.Length, t, sfw, sfh, start)
    modifies a
    ensures a[..] == SImage(old(a[..]), t, sfw, sfh, start, bitMode)
  {
    ghost var d := a[..];
    var lineStartOut, lineStartCoeff := 0, start;
    for y := 0 to sfh
      invariant lineStartOut == y * sfw && lineStartCoeff == start + y * S_SENSOR_WIDTH
      invariant SRowsDone(a[..], d, t, sfw, sfh, start, bitMode, lineStartOut)
    {
      CorrectRowS(a, d, t, sfw, sfh, start, bitMode, y, lineStartOut, lineStartCoeff);
      lineStartCoeff := lineStartCoeff + S_SENSOR_WIDTH;
      lineStartOut := lineStartOut + sfw;
    }
    SFinish(d, t, sfw, sfh, start, bitMode, a[..]);
  }

  /** Row `y` of the S-series loop, with the bookkeeping that the rows
      before it are corrected and the rows after it untouched. */
  method CorrectRowS(a: array<byte>, ghost d: seq<byte>, t: seq<byte>, sfw: nat, sfh: nat, start: nat, bitMode: nat,
                     y: nat, lineStart: nat, coeffStart: nat)
    requires SFits(|d|, t, sfw, sfh, start) && y < sfh
    requires lineStart == y * sfw && coeffStart == start + y * S_SENSOR_WIDTH
    requires SRowsDone(a[..], d, t, sfw, sfh, start, bitMode, lineStart)
    modifies a
    ensures SRowsDone(a[..], d, t, sfw, sfh, start, bitMode, lineStart + sfw)
  {
    if sfw > 0 {
      SRowFits(d, t, sfw, sfh, start, y);
    }
    ghost var before := a[..];
    RemoveNoiseRowS(a, t, lineStart, coeffStart, sfw, bitMode);
    SRowStep(d, t, sfw, sfh, start, bitMode, y, before, a[..]);
  }

  /** The first `n` bytes of `cur` are corrected and the rest are those of
      the frame `d` before correction. */
  ghost predicate SRowsDone(cur: seq<byte>, d: seq<byte>, t: seq<byte>, sfw: nat, sfh: nat, start: nat, bitMode: nat, n: nat)
    requires SFits(|d|, t, sfw, sfh, start)
  {
    |cur| == |d| &&
    (forall p :: 0 <= p < n && p < |d| ==> cur[p] == SImage(d, t, sfw, sfh, start, bitMode)[p]) &&
    (forall p :: n <= p < |d| ==> cur[p] == d[p])
  }

  /** Correcting row `y` extends the corrected prefix of the frame by one
      row and leaves the rest of the frame as it was. */
  lemma SRowStep(d: seq<byte>, t: seq<byte>, sfw: nat, sfh: nat, start: nat, bitMode: nat, y: nat,
                 before: seq<byte>, after: seq<byte>)
    requires SFits(|d|, t, sfw, sfh, start) && y < sfh
    requires y * sfw + sfw <= |d|
    requires sfw > 0 ==> 4 * (start + y * S_SENSOR_WIDTH + sfw - 1) + 3 < |t|
    requires SRowsDone(before, d, t, sfw, sfh, start, bitMode, y * sfw) && |after| == |d|
    requires forall p :: 0 <= p < |d| && !(y * sfw <= p < y * sfw + sfw) ==> after[p] == before[p]
    requires forall p :: y * sfw <= p < y * sfw + sfw ==>
      after[p] == SPixel(before[p], t, start + y * S_SENSOR_WIDTH + (p - y * sfw), bitMode)
    ensures SRowsDone(after, d, t, sfw, sfh, start, bitMode, y * sfw + sfw)
  {
    if sfw > 0 {
      SRow(d, t, sfw, sfh, start, bitMode, y);
    }
  }

  /** Once the rows are done, the whole frame is the corrected one. */
  lemma SFinish(d: seq<byte>, t: seq<byte>, sfw: nat, sfh: nat, start: nat, bitMode: nat, a: seq<byte>)
    requires SFits(|d|, t, sfw, sfh, start)
    requires SRowsDone(a, d, t, sfw, sfh, start, bitMode, sfh * sfw)
    ensures a == SImage(d, t, sfw, sfh, start, bitMode)
  {
    assert sfh * sfw == sfw * sfh;
  }

  /** One row of the Q-series loop: the coefficients are read only for an
      unsaturated pixel. */
  method RemoveNoiseRowQ(a: array<byte>, t: seq<byte>, lineStart: nat, coeffStart: nat, sfw: nat)
    requires lineStart + sfw <= a.Length
    requires forall p :: lineStart <= p < lineStart + sfw && 0 < a[p] < 255 ==>
      6 * (coeffStart + (p - lineStart)) + 5 < |t|
    modifies a
    ensures forall p :: 0 <= p < a.Length && !(lineStart <= p < lineStart + sfw) ==> a[p] == old(a[p])
    ensures forall p :: lineStart <= p < lineStart + sfw ==>
      a[p] == QPixel(old(a[p]), t, coeffStart + (p - lineStart))
  {
    var pos, posCoeff := lineStart, coeffStart;
    for x := 0 to sfw
      invariant pos == lineStart + x && posCoeff == coeffStart + x
      invariant forall p :: 0 <= p < a.Length && !(lineStart <= p < pos) ==> a[p] == old(a[p])
      invariant forall p :: lineStart <= p < pos ==>
        a[p] == QPixel(old(a[p]), t, coeffStart + (p - lineStart))
    {
      if 0 < a[pos] < 255 {
        var fpnIndex := posCoeff * 3;
        var c := Coeff(t, fpnIndex * 2);
        var b := Coeff(t, (fpnIndex + 1) * 2);
        var q := Coeff(t, (fpnIndex + 2) * 2);
        a[pos] := FpnQ(a[pos], c, b, q);
      }
      pos, posCoeff := pos + 1, posCoeff + 1;
    }
  }

  /** Row `y` of a Q-series frame: it lies inside the frame, its
      coefficients run on from the row's first one, and they are present
      for every unsaturated pixel. */
  lemma QRow(d: seq<byte>, t: seq<byte>, sfw: nat, sfh: nat, start: nat, y: nat)
    requires QFits(d, t, sfw, sfh, start) && sfw > 0 && y < sfh
    ensures y * sfw + sfw <= |d|
    ensures forall p :: y * sfw <= p < y * sfw + sfw && 0 < d[p] < 255 ==>
      6 * (start + y * Q_SENSOR_WIDTH + (p - y * sfw)) + 5 < |t|
    ensures forall p :: y * sfw <= p < y * sfw + sfw ==>
      QImage(d, t, sfw, sfh, start)[p] == QPixel(d[p], t, start + y * Q_SENSOR_WIDTH + (p - y * sfw))
  {
    RowInside(sfw, sfh, y);
    forall p | y * sfw <= p < y * sfw + sfw
      ensures CoeffIndex(start, Q_SENSOR_WIDTH, sfw, p) == start + y * Q_SENSOR_WIDTH + (p - y * sfw)
    {
      LeftDivMod(p, sfw, y, p - y * sfw);
    }
  }

  /** Row `y` of a `sfw` by `sfh` frame ends inside the frame. */
  lemma RowInside(sfw: nat, sfh: nat, y: nat)
    requires y < sfh
    ensures y * sfw + sfw <= sfw * sfh
  {
    MulLe(y + 1, sfh, sfw);
  }

  /** The Q-series branch of `FpnRemoval` (sensor width 1696). */
  method RemoveNoiseQ(a: array<byte>, t: seq<byte>, sfw: nat, sfh: nat, start: nat)
    requires QFits(a[..], t, sfw, sfh, start)
    modifies a
    ensures a[..] == QImage(old(a[..]), t, sfw, sfh, start)
  {
    ghost var d := a[..];
    ghost var target := QImage(d, t, sfw, sfh, start);
    var lineStartOut, lineStartCoeff := 0, start;
    for y := 0 to sfh
      invariant lineStartOut == y * sfw && lineStartCoeff == start + y * Q_SENSOR_WIDTH
      invariant forall p :: 0 <= p < lineStartOut && p < a.Length ==> a[p] == target[p]
      invariant forall p :: lineStartOut <= p < a.Length ==> a[p] == d[p]
    {
      if sfw > 0 {
        QRow(d, t, sfw, sfh, start, y);
      }
      RemoveNoiseRowQ(a, t, lineStartOut, lineStartCoeff, sfw);
      lineStartCoeff := lineStartCoeff + Q_SENSOR_WIDTH;
      lineStartOut := lineStartOut + sfw;
    }
    QFinish(d, t, sfw, sfh, start, a[..]);
  }

  /** Once the rows are done, the whole frame is the corrected one. */
  lemma QFinish(d: seq<byte>, t: seq<byte>, sfw: nat, sfh: nat, start: nat, a: seq<byte>)
    requires QFits(d, t, sfw, sfh, start) && |a| == |d|
    requires forall p :: 0 <= p < sfh * sfw && p < |a| ==> a[p] == QImage(d, t, sfw, sfh, start)[p]
    requires forall p :: sfh * sfw <= p < |a| ==> a[p] == d[p]
    ensures a == QImage(d, t, sfw, sfh, start)
  {
    assert sfh * sfw == sfw * sfh;
  }

  // ---------------------------------------------------------------------
  // Frames

  /** How a frame read ends abnormally: a refused stream operation, an index
      outside a buffer, or a negative FPN window offset, whose conversion to
      `uint` C# leaves unspecified. */
  datatype FrameError = Io(cause: IoError) | IndexOutOfRange | UnspecifiedConversion

  /** A frame as read: its image data header, its pixels and the stream
      position after it. */
  datatype Frame = Frame(header: seq<byte>, data: seq<byte>, next: nat)

  /** The frame size the reader uses instead of the stored one:
      `SensorFrameWidth * SensorFrameHeight * BitCount / 8` in `uint`. */
  function CorrectedSize(h: RawHeaderV3): (n: nat)
    ensures n < TWO_31
  {
    WrapU32(WrapU32(h.SensorFrameWidth * h.SensorFrameHeight) * h.BitCount) / 8
  }

  /** The header fields the frame reader converts stay in the range of their
      declared types, and the frame size is the corrected one. */
  predicate ReaderHeader(h: RawHeaderV3)
  {
    IsUInt64(h.ImageDataHeaderSize) && IsUInt64(h.FPNHeaderSize) && IsUInt64(h.FrameCount) &&
    h.ImageSize == CorrectedSize(h)
  }

  /** Word reversal applies to every series but Q and Promon. */
  predicate SwapsWords(h: RawHeaderV3)
  {
    h.CameraSeries != Q_SERIES && h.CameraSeries != PROMON_SERIES
  }

  /** The byte-order step: the loop indexes whole words up to the frame size,
      so it fails on a short read or a size that is not a multiple of 4. */
  function Reordered(h: RawHeaderV3, bytes: seq<byte>): Result<seq<byte>, FrameError>
  {
    if !SwapsWords(h) then Ok(bytes)
    else if |bytes| == h.ImageSize && h.ImageSize % 4 == 0 then Ok(WordsReversed(bytes))
    else Err(IndexOutOfRange)
  }

  predicate UsesSFormula(h: RawHeaderV3)
  {
    h.CameraSeries == S_SERIES || h.FPNHeaderSize == 5308416
  }

  predicate UsesQFormula(h: RawHeaderV3)
  {
    h.CameraSeries == Q_SERIES || h.FPNHeaderSize == 17400960
  }

  /** `FpnRemoval` as a function of the frame: the S formula wins over the Q
      formula, and a header that names neither leaves the frame as it is. */
  function Denoise(h: RawHeaderV3, t: seq<byte>, d: seq<byte>): Result<seq<byte>, FrameError>
  {
    var sfw, sfh := h.SensorFrameWidth, h.SensorFrameHeight;
    if UsesSFormula(h) then
      if SOffsetX(sfw) < 0 || SOffsetY(sfh) < 0 then Err(UnspecifiedConversion)
      else
        var start := SOffsetX(sfw) + SOffsetY(sfh) * S_SENSOR_WIDTH + 1;
        if SFits(|d|, t, sfw, sfh, start) then Ok(SImage(d, t, sfw, sfh, start, h.BitMode))
        else Err(IndexOutOfRange)
    else if UsesQFormula(h) then
      if QOffsetX(sfw) < 0 || QOffsetY(sfh) < 0 then Err(UnspecifiedConversion)
      else
        var start := QOffsetX(sfw) + QOffsetY(sfh) * Q_SENSOR_WIDTH;
        if QFits(d, t, sfw, sfh, start) then Ok(QImage(d, t, sfw, sfh, start))
        else Err(IndexOutOfRange)
    else Ok(d)
  }

  /** Noise removal keeps the frame's length, never changes a saturated
      pixel (0 or 255) and never touches the bytes past the
      `SensorFrameWidth` by `SensorFrameHeight` window. */
  lemma DenoiseKeepsSaturatedAndTail(h: RawHeaderV3, t: seq<byte>, d: seq<byte>, p: nat)
    requires Denoise(h, t, d).Ok? && p < |d|
    requires d[p] == 0 || d[p] == 255 || p >= h.SensorFrameWidth * h.SensorFrameHeight
    ensures |Denoise(h, t, d).value| == |d| && Denoise(h, t, d).value[p] == d[p]
  {
  }

  /** Noise removal runs only when the header's FPN byte is 1 and a table was
      loaded. */
  function Cleaned(h: RawHeaderV3, table: Option<seq<byte>>, d: seq<byte>): Result<seq<byte>, FrameError>
  {
    if h.FPN == 1 && table.Some? then Denoise(h, table.value, d) else Ok(d)
  }

  /** The frame that `ReadFrame` takes from the stream at position `pos`: the
      image data header, then `ImageSize` bytes of pixels (fewer at the end of
      the file), reordered and cleaned. */
  function NextFrame(h: RawHeaderV3, table: Option<seq<byte>>, file: seq<byte>, pos: nat): Result<Frame, FrameError>
    requires IsUInt64(h.ImageDataHeaderSize)
  {
    var hs := ToInt32(h.ImageDataHeaderSize);
    if hs < 0 then Err(Io(ArgumentOutOfRange))
    else
      var fh := Take(file, pos, hs);
      var bytes := Take(file, pos + |fh|, h.ImageSize);
      var clean :- Prepared(h, table, bytes);
      Ok(Frame(fh, clean, pos + |fh| + |bytes|))
  }

  /** The pixels of a frame as read: reordered, then cleaned. */
  function Prepared(h: RawHeaderV3, table: Option<seq<byte>>, bytes: seq<byte>): Result<seq<byte>, FrameError>
  {
    var d :- Reordered(h, bytes);
    Cleaned(h, table, d)
  }

  /** The body of `ReadFrame()` on the stream: the image data header, then
      the pixels in a new buffer, prepared. */
  method ReadNextFrame(reader: BinaryReader, h: RawHeaderV3, table: Option<seq<byte>>)
    returns (r: Result<(seq<byte>, array<byte>), FrameError>)
    requires IsUInt64(h.ImageDataHeaderSize)
    modifies reader
    ensures var f := NextFrame(h, table, reader.Data, old(reader.Position));
      (r.Ok? <==> f.Ok?) &&
      (r.Ok? ==> fresh(r.value.1) && r.value.0 == f.value.header && r.value.1[..] == f.value.data &&
                 reader.Position == f.value.next)
  {
    ghost var pos := reader.Position;
    var headerBytes := reader.ReadBytes(ToInt32(h.ImageDataHeaderSize));
    if headerBytes.Err? {
      return Err(Io(headerBytes.error));
    }
    var bytes := reader.ReadCount(h.ImageSize);
    var data := new byte[|bytes|](i requires 0 <= i < |bytes| => bytes[i]);
    assert data[..] == bytes;
    var prepared := Prepare(data, h, table);
    NextFrameSteps(h, table, reader.Data, pos, headerBytes.value, bytes);
    if prepared.Err? {
      return Err(prepared.error);
    }
    return Ok((headerBytes.value, data));
  }

  /** `NextFrame` once its two reads are known. */
  lemma NextFrameSteps(h: RawHeaderV3, table: Option<seq<byte>>, file: seq<byte>, pos: nat, fh: seq<byte>, bytes: seq<byte>)
    requires IsUInt64(h.ImageDataHeaderSize) && ToInt32(h.ImageDataHeaderSize) >= 0
    requires fh == Take(file, pos, ToInt32(h.ImageDataHeaderSize)) && bytes == Take(file, pos + |fh|, h.ImageSize)
    ensures var e := Prepared(h, table, bytes);
      NextFrame(h, table, file, pos) == if e.Err? then Err(e.error) else Ok(Frame(fh, e.value, pos + |fh| + |bytes|))
  {
  }

  /** The steps of `ReadFrame()` after the pixels are read: byte swapping for
      the sensors that need it, then fixed-pattern-noise removal. */
  method Prepare(a: array<byte>, h: RawHeaderV3, table: Option<seq<byte>>) returns (r: Result<(), FrameError>)
    modifies a
    ensures var e := Prepared(h, table, old(a[..])); (r.Ok? <==> e.Ok?) && (r.Ok? ==> a[..] == e.value)
  {
    if SwapsWords(h) {
      if !(a.Length == h.ImageSize && h.ImageSize % 4 == 0) {
        return Err(IndexOutOfRange);
      }
      ReverseWords(a);
    }
    if h.FPN == 1 && table.Some? {
      r := FpnRemoval(a, h, table.value);
    } else {
      r := Ok(());
    }
  }

  /** The seek target of `ReadFrame(n)`, computed in `long` arithmetic:
      `4096 + (long)FPNHeaderSize + (long)n * (long)(ImageDataHeaderSize + ImageSize)`. */
  function SeekOffset(h: RawHeaderV3, n: nat): int
  {
    Wrap64(Wrap64(HEADER_SIZE + Wrap64(h.FPNHeaderSize)) +
           Wrap64(Wrap64(n) * Wrap64(h.ImageDataHeaderSize + h.ImageSize)))
  }

  /** The stream position at which `Open` leaves the reader: after the header
      and, when the FPN byte is set, after the table. */
  function FirstFramePosition(h: RawHeaderV3, tableLength: nat): nat
  {
    HEADER_SIZE + (if h.FPN != 0 then tableLength else 0)
  }

  method FpnRemoval(a: array<byte>, h: RawHeaderV3, t: seq<byte>) returns (r: Result<(), FrameError>)
    modifies a
    ensures var e := Denoise(h, t, old(a[..])); (r.Ok? <==> e.Ok?) && (r.Ok? ==> a[..] == e.value)
  {
    var sfw, sfh := h.SensorFrameWidth, h.SensorFrameHeight;
    if UsesSFormula(h) {
      if SOffsetX(sfw) < 0 || SOffsetY(sfh) < 0 {
        return Err(UnspecifiedConversion);
      }
      var start := SOffsetX(sfw) + SOffsetY(sfh) * S_SENSOR_WIDTH + 1;
      if !SFits(a.Length, t, sfw, sfh, start) {
        return Err(IndexOutOfRange);
      }
      RemoveNoiseS(a, t, sfw, sfh, start, h.BitMode);
    } else if UsesQFormula(h) {
      if QOffsetX(sfw) < 0 || QOffsetY(sfh) < 0 {
        return Err(UnspecifiedConversion);
      }
      var start := QOffsetX(sfw) + QOffsetY(sfh) * Q_SENSOR_WIDTH;
      if !QFits(a[..], t, sfw, sfh, start) {
        return Err(IndexOutOfRange);
      }
      RemoveNoiseQ(a, t, sfw, sfh, start);
    }
    return Ok(());
  }

  /** A RAWv3 file opened for reading. */
  class RawV3 {
    const Reader: BinaryReader
    const Header: RawHeaderV3
    /** `_fpnOffsetAndGain`: present only when the header's FPN byte is set. */
    const FpnTable: Option<seq<byte>>
    /** The number of the next frame to be read. */
    var CurrentFrame: nat
    var Data: array<byte>
    /** The image data header of the last frame read (`null` before any). */
    var FrameHeader: Option<seq<byte>>

    ghost predicate Valid()
      reads this
    {
      ReaderHeader(Header) && CurrentFrame <= Header.FrameCount
    }

    function NofFrames(): nat
    {
      Header.FrameCount
    }

    constructor (reader: BinaryReader, header: RawHeaderV3, table: Option<seq<byte>>)
      requires ReaderHeader(header)
      ensures Valid()
      ensures Reader == reader && Header == header && FpnTable == table
      ensures CurrentFrame == 0 && FrameHeader == None && fresh(Data)
      ensures Data[..] == seq(header.ImageSize, _ => 0)
    {
      Reader := reader;
      Header := header;
      FpnTable := table;
      CurrentFrame := 0;
      Data := new byte[header.ImageSize](_ => 0);
      FrameHeader := None;
    }

    /** `ReadFrame()`: nothing happens past the last frame; otherwise the next
        frame is read where the stream stands and the cursor advances by one. */
    method ReadFrame() returns (r: Result<(), FrameError>)
      requires Valid()
      modifies this, Reader
      ensures Valid()
      ensures Data == old(Data) || fresh(Data)
      ensures old(CurrentFrame) >= NofFrames() ==> r.Ok? && unchanged(this, Reader)
      ensures old(CurrentFrame) < NofFrames() ==>
        var f := NextFrame(Header, FpnTable, Reader.Data, old(Reader.Position));
        (r.Ok? <==> f.Ok?) &&
        (r.Ok? ==> CurrentFrame == old(CurrentFrame) + 1 && FrameHeader == Some(f.value.header) &&
                   Data[..] == f.value.data && Reader.Position == f.value.next)
      ensures r.Err? ==> CurrentFrame == old(CurrentFrame)
    {
      if CurrentFrame >= Header.FrameCount {
        return Ok(());
      }
      var frame := ReadNextFrame(Reader, Header, FpnTable);
      if frame.Err? {
        return Err(frame.error);
      }
      FrameHeader := Some(frame.value.0);
      Data := frame.value.1;
      CurrentFrame := CurrentFrame + 1;
      return Ok(());
    }

    /** `ReadFrame(n)`: nothing happens for a frame past the end; otherwise the
        cursor is set to `n`, the stream is moved to the frame's offset and
        the frame is read there. */
    method ReadFrameAt(n: nat) returns (r: Result<(), FrameError>)
      requires Valid()
      modifies this, Reader
      ensures Valid()
      ensures Data == old(Data) || fresh(Data)
      ensures n >= NofFrames() ==> r.Ok? && unchanged(this, Reader)
      ensures n < NofFrames() && SeekOffset(Header, n) < 0 ==>
        r == Err(Io(SeekBeforeBegin)) && CurrentFrame == n
      ensures n < NofFrames() && SeekOffset(Header, n) >= 0 ==>
        var f := NextFrame(Header, FpnTable, Reader.Data, SeekOffset(Header, n));
        (r.Ok? <==> f.Ok?) &&
        (r.Ok? ==> CurrentFrame == n + 1 && FrameHeader == Some(f.value.header) &&
                   Data[..] == f.value.data && Reader.Position == f.value.next) &&
        (r.Err? ==> CurrentFrame == n)
    {
      if n >= Header.FrameCount {
        return Ok(());
      }
      CurrentFrame := n;
      var seekOffset := SeekOffset(Header, CurrentFrame);
      var moved := Reader.Seek(seekOffset);
      if moved.Err? {
        return Err(Io(moved.error));
      }
      r := ReadFrame();
    }

    /** `ReadPreviousFrame()`: from the cursor `c` (the frame after the one
        shown), frame `c - 2` is read, so the cursor ends at `c - 1`. */
    method ReadPreviousFrame() returns (r: Result<bool, FrameError>)
      requires Valid()
      modifies this, Reader
      ensures Valid()
      ensures Data == old(Data) || fresh(Data)
      ensures old(CurrentFrame) <= 1 ==> r == Ok(false) && unchanged(this, Reader)
      ensures old(CurrentFrame) > 1 && SeekOffset(Header, old(CurrentFrame) - 2) >= 0 ==>
        var f := NextFrame(Header, FpnTable, Reader.Data, SeekOffset(Header, old(CurrentFrame) - 2));
        (r.Ok? <==> f.Ok?) &&
        (r.Ok? ==> r.value && CurrentFrame == old(CurrentFrame) - 1 && Data[..] == f.value.data)
      ensures old(CurrentFrame) > 1 && SeekOffset(Header, old(CurrentFrame) - 2) < 0 ==> r == Err(Io(SeekBeforeBegin))
      ensures old(CurrentFrame) > 1 && r.Err? ==> CurrentFrame == old(CurrentFrame) - 2
    {
      if CurrentFrame <= 1 {
        return Ok(false);
      }
      CurrentFrame := CurrentFrame - 2;
      var read := ReadFrameAt(CurrentFrame);
      if read.Err? {
        return Err(read.error);
      }
      return Ok(true);
    }
  }

  /** The header as the reader keeps it: `ImageSize` replaced by the size
      computed from the sensor geometry. */
  function Corrected(h: RawHeaderV3): (c: RawHeaderV3)
    ensures c.ImageSize == CorrectedSize(h)
  {
    h.(ImageSize := CorrectedSize(h))
  }

  /** The stored sizes are 64-bit fields, so `(int)FPNHeaderSize` is defined. */
  predicate Openable(h: RawHeaderV3)
  {
    IsUInt64(h.FPNHeaderSize) && (h.FPN == 0 || ToInt32(h.FPNHeaderSize) >= 0)
  }

  /** What the constructor leaves when it succeeds on `file`: the corrected
      header, the cursor before the first frame, the FPN table right after
      the header when the FPN byte is set, and the stream just past it. */
  ghost predicate OpenedFrom(file: seq<byte>, raw: RawV3)
    reads raw, raw.Reader
  {
    |file| >= TYPED_END && Openable(HeaderAt(file)) &&
    var h := HeaderAt(file);
    raw.Valid() && raw.Header == Corrected(h) && raw.CurrentFrame == 0 && raw.Reader.Data == file &&
    raw.FpnTable == (if h.FPN != 0 then Some(Take(file, HEADER_SIZE, ToInt32(h.FPNHeaderSize))) else None) &&
    raw.Reader.Position == Min(|file|, HEADER_SIZE) + (if raw.FpnTable.Some? then |raw.FpnTable.value| else 0)
  }

  /** The constructor `RawV3(filename)` over the file's bytes: the header is
      read, the frame size corrected, and the FPN table of `FPNHeaderSize`
      bytes read right after the header when the FPN byte is not 0. */
  method Open(file: seq<byte>) returns (r: Result<RawV3, IoError>)
    ensures r.Ok? <==> |file| >= TYPED_END && Openable(HeaderAt(file))
    ensures r.Ok? ==> fresh(r.value) && fresh(r.value.Reader) && OpenedFrom(file, r.value)
  {
    var rd := new BinaryReader(file);
    var read := ReadHeader(rd);
    if read.Err? {
      return Err(read.error);
    }
    HeaderRanges(file);
    r := Assemble(rd, read.value, file);
  }

  /** The rest of the constructor once header `h` is read: the size is
      corrected and the FPN table read where the stream stands. */
  method Assemble(rd: BinaryReader, h: RawHeaderV3, ghost file: seq<byte>) returns (r: Result<RawV3, IoError>)
    requires |file| >= TYPED_END && h == HeaderAt(file) && rd.Data == file && rd.Position == Min(|file|, HEADER_SIZE)
    requires IsUInt64(h.ImageDataHeaderSize) && IsUInt64(h.FPNHeaderSize) && IsUInt64(h.FrameCount)
    modifies rd
    ensures r.Ok? <==> Openable(h)
    ensures r.Ok? ==> fresh(r.value) && r.value.Reader == rd && OpenedFrom(file, r.value)
  {
    var c := Corrected(h);
    CorrectedReadable(h);
    var table := LoadTable(rd, c);
    if table.Err? {
      return Err(table.error);
    }
    var raw := new RawV3(rd, c, table.value);
    return Ok(raw);
  }

  /** The corrected header is one the frame reader accepts. */
  lemma CorrectedReadable(h: RawHeaderV3)
    requires IsUInt64(h.ImageDataHeaderSize) && IsUInt64(h.FPNHeaderSize) && IsUInt64(h.FrameCount)
    ensures ReaderHeader(Corrected(h))
    ensures Corrected(h).FPN == h.FPN && Corrected(h).FPNHeaderSize == h.FPNHeaderSize
  {
    var c := Corrected(h);
    assert c.SensorFrameWidth == h.SensorFrameWidth && c.SensorFrameHeight == h.SensorFrameHeight && c.BitCount == h.BitCount;
  }

  /** The FPN table read of the constructor: `FPNHeaderSize` bytes, cast to
      `int`, and only when the FPN byte is not 0. */
  method LoadTable(rd: BinaryReader, h: RawHeaderV3) returns (r: Result<Option<seq<byte>>, IoError>)
    requires IsUInt64(h.FPNHeaderSize)
    modifies rd
    ensures r.Ok? <==> h.FPN == 0 || ToInt32(h.FPNHeaderSize) >= 0
    ensures r.Ok? ==> r.value == if h.FPN != 0 then Some(Take(rd.Data, old(rd.Position), ToInt32(h.FPNHeaderSize))) else None
    ensures r.Ok? ==> rd.Position == old(rd.Position) + (if r.value.Some? then |r.value.value| else 0)
  {
    if h.FPN == 0 {
      return Ok(None);
    }
    var blob := rd.ReadBytes(ToInt32(h.FPNHeaderSize));
    if blob.Err? {
      return Err(blob.error);
    }
    return Ok(Some(blob.value));
  }

  function Min(a: int, b: int): int { if a < b then a else b }

  /** The 64-bit header fields decode to values of their declared range. */
  lemma HeaderRanges(file: seq<byte>)
    requires |file| >= TYPED_END
    ensures IsUInt64(HeaderAt(file).ImageDataHeaderSize) && IsUInt64(HeaderAt(file).FPNHeaderSize)
    ensures IsUInt64(HeaderAt(file).FrameCount)
  {
    Pow256Values();
  }

  /** The per-frame stride of the file: image data header plus pixels. */
  function FrameStride(h: RawHeaderV3): nat
  {
    h.ImageDataHeaderSize + h.ImageSize
  }

  /** Without 64-bit overflow, the seek target of frame `n` is the header,
      the stored FPN table and `n` whole frames. */
  lemma SeekOffsetExact(h: RawHeaderV3, n: nat)
    requires HEADER_SIZE + h.FPNHeaderSize + n * FrameStride(h) < TWO_63
    ensures SeekOffset(h, n) == HEADER_SIZE + h.FPNHeaderSize + n * FrameStride(h)
  {
    var st := FrameStride(h);
    if n == 0 || st == 0 {
      assert Wrap64(n) * Wrap64(st) == 0 || n * st == 0;
      if n != 0 {
        assert Wrap64(st) == 0;
      } else {
        assert Wrap64(n) == 0;
      }
    } else {
      MulLe(1, n, st);
      MulLe(1, st, n);
    }
  }

  /** Reading frame after frame from where `Open` leaves the stream, the
      `n`-th read starts at the offset that `ReadFrame(n)` seeks to exactly
      when the FPN byte is set or the stored table is empty: with the byte
      clear, the seek still skips `FPNHeaderSize` bytes that `Open` did not
      read. */
  lemma SequentialAgreesWithSeek(h: RawHeaderV3, n: nat)
    requires HEADER_SIZE + h.FPNHeaderSize + n * FrameStride(h) < TWO_63
    ensures FirstFramePosition(h, h.FPNHeaderSize) + n * FrameStride(h) == SeekOffset(h, n)
      <==> h.FPN != 0 || h.FPNHeaderSize == 0
  {
    SeekOffsetExact(h, n);
  }

  /** A frame read that stays inside the file advances the stream by exactly
      one stride. */
  lemma FrameAdvance(h: RawHeaderV3, table: Option<seq<byte>>, file: seq<byte>, pos: nat)
    requires ReaderHeader(h) && h.ImageDataHeaderSize < TWO_31
    requires pos + FrameStride(h) <= |file|
    requires NextFrame(h, table, file, pos).Ok?
    ensures NextFrame(h, table, file, pos).value.next == pos + FrameStride(h)
  {
  }
}
