/** Row-major pixel addressing shared by the raw reader and the demosaicing
    passes: pixel `(x, y)` of a `w`-wide image lives at index `y * w + x`. */
module Grid {
  import opened Common

  /** The index of pixel `(x, y)`; for an in-row column it determines both
      coordinates, so distinct pixels never share an index. */
  function Idx(w: int, x: int, y: int): (i: int)
    requires w > 0
    ensures 0 <= x < w && 0 <= y ==> 0 <= i && i / w == y && i % w == x
  {
    RowMajor(w, x, y);
    y * w + x
  }

  /** The index of pixel `(x, y)` of a `w` by `h` image: it lies inside the
      image's buffer and determines both coordinates. */
  function Pix(w: int, h: int, x: int, y: int): (i: int)
    requires 0 <= x < w && 0 <= y < h
    ensures 0 <= i < w * h && i / w == y && i % w == x
  {
    IdxBelow(w, h, x, y);
    Idx(w, x, y)
  }

  /** Reading a buffer cell back as a pixel: `i` is the index of `(i % w, i / w)`. */
  lemma PixCovers(w: int, h: int, i: int)
    requires w > 0 && 0 <= i < w * h
    ensures 0 <= i / w < h && 0 <= i % w < w && Pix(w, h, i % w, i / w) == i
  {
    IdxCovers(w, h, i);
  }

  lemma RowMajor(w: int, x: int, y: int)
    requires w > 0
    ensures 0 <= x < w && 0 <= y ==> (y * w + x) / w == y && (y * w + x) % w == x
  {
    if 0 <= x < w && 0 <= y {
      var i := y * w + x;
      assert i == y * w + x;
      assert 0 <= i;
      LeftDivMod(i, w, y, x);
    }
  }

  /** Uniqueness of Euclidean division. */
  lemma LeftDivMod(i: int, w: int, q: int, r: int)
    requires w > 0 && 0 <= r < w && i == q * w + r
    ensures i / w == q && i % w == r
  {
    var q', r' := i / w, i % w;
    assert q' * w + r' == q * w + r;
    if q > q' {
      assert (q - q') * w == q * w - q' * w;
      MulStep(q - q' - 1, w);
      assert false;
    } else if q < q' {
      assert (q' - q) * w == q' * w - q * w;
      MulStep(q' - q - 1, w);
      assert false;
    }
  }

  /** `(d + 1) * w` is at least `w` for a natural `d`. */
  lemma MulStep(d: nat, w: nat)
    ensures (d + 1) * w >= w && (d + 1) * w == d * w + w
  {
  }

  /** Every pixel of a `w` by `h` image has an index below `w * h`. */
  lemma IdxBelow(w: int, h: int, x: int, y: int)
    requires w > 0 && 0 <= x < w && 0 <= y < h
    ensures Idx(w, x, y) < w * h
  {
    MulStep(h - y - 1, w);
    assert (h - y) * w == h * w - y * w;
  }

  /** Every index below `w * h` is the index of a pixel of the image. */
  lemma IdxCovers(w: int, h: int, i: int)
    requires w > 0 && 0 <= i < w * h
    ensures 0 <= i / w < h && Idx(w, i % w, i / w) == i
  {
    var y, x := i / w, i % w;
    assert i == y * w + x;
    assert (y - h + 1) * w == y * w - h * w + w;
    MulSign(y - h + 1, w);
  }

  /** Multiplication by a natural number is monotone. */
  lemma MulLe(a: nat, b: nat, w: nat)
    requires a <= b
    ensures a * w <= b * w
  {
    assert b * w == a * w + (b - a) * w;
  }
}
