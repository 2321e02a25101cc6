/** Pixel helpers of the raw library: range clamps and the comb sort that
    yields the middle element of a sample (RawLibrary/PixelMath.cs). */
module PixelMath {
  import opened Common

  /** Reference definition: `a` forced into `[0, hi]`. */
  function ClampTo(a: int, hi: nat): int
  {
    if a < 0 then 0 else if a > hi then hi else a
  }

  /** `ByteClamp(a)`: the callers pass an `int` expression, widened to double.
      The source tests the bits above bit 7 of `(uint)a` and only falls back to
      the sign test when one of them is set. */
  function ByteClamp(a: int): (r: byte)
    requires IsInt32(a)
    ensures r == ClampTo(a, 255)
  {
    var u := WrapU32(a);
    if u / 0x100 == 0 then u else if a < 0 then 0 else 255
  }

  /** `Clamp10Bit(a)`: the same test with the mask `0xfffffc00`. */
  function Clamp10Bit(a: int): (r: int)
    requires IsInt32(a)
    ensures 0 <= r <= 1023
    ensures r == ClampTo(a, 1023)
  {
    var u := WrapU32(a);
    if u / 0x400 == 0 then u else if a < 0 then 0 else 1023
  }

  /** `Clamp8Bit(a)`: `ByteClamp` with a `ushort` result. */
  function Clamp8Bit(a: int): (r: int)
    requires IsInt32(a)
    ensures 0 <= r <= 255
    ensures r == ClampTo(a, 255)
  {
    var u := WrapU32(a);
    if u / 0x100 == 0 then u else if a < 0 then 0 else 255
  }

  /** `BitClamp(a, bits)`: ten bits select the 10-bit clamp, any other count the 8-bit one. */
  function BitClamp(a: int, bits: int): (r: int)
    requires IsInt32(a)
    ensures bits == 10 ==> r == ClampTo(a, 1023)
    ensures bits != 10 ==> r == ClampTo(a, 255)
  {
    if bits == 10 then Clamp10Bit(a) else Clamp8Bit(a)
  }

  predicate Sorted(s: seq<int>)
  {
    forall p, q :: 0 <= p < q < |s| ==> s[p] <= s[q]
  }

  function Swap(s: seq<int>, i: nat, j: nat): seq<int>
    requires i < |s| && j < |s|
  {
    s[i := s[j]][j := s[i]]
  }

  /** Number of elements of `t` smaller than `x`. */
  function Below(x: int, t: seq<int>): nat
  {
    if t == [] then 0 else (if t[0] < x then 1 else 0) + Below(x, t[1..])
  }

  /** Number of pairs `p < q` with `s[p] > s[q]`. */
  function Inversions(s: seq<int>): nat
  {
    if s == [] then 0 else Below(s[0], s[1..]) + Inversions(s[1..])
  }

  lemma {:induction false} BelowSwapAdjacent(x: int, t: seq<int>, k: nat)
    requires k + 1 < |t|
    ensures Below(x, Swap(t, k, k + 1)) == Below(x, t)
  {
    var t' := Swap(t, k, k + 1);
    if k == 0 {
      assert t'[1..][1..] == t[1..][1..];
    } else {
      assert t'[1..] == Swap(t[1..], k - 1, k);
      BelowSwapAdjacent(x, t[1..], k - 1);
    }
  }

  /** A gap-1 swap of an out-of-order pair removes exactly one inversion. */
  lemma {:induction false} SwapRemovesInversion(s: seq<int>, k: nat)
    requires k + 1 < |s| && s[k] > s[k + 1]
    ensures Inversions(Swap(s, k, k + 1)) == Inversions(s) - 1
  {
    var s' := Swap(s, k, k + 1);
    if k == 0 {
      var r := s[2..];
      assert s[1..] == [s[1]] + r && s[1..][1..] == r;
      assert s'[1..] == [s[0]] + r && s'[1..][1..] == r;
    } else {
      assert s'[1..] == Swap(s[1..], k - 1, k);
      BelowSwapAdjacent(s[0], s[1..], k - 1);
      SwapRemovesInversion(s[1..], k - 1);
    }
  }

  /** Number of elements of `t` larger than `x`. */
  function Above(x: int, t: seq<int>): nat
  {
    if t == [] then 0 else (if t[0] > x then 1 else 0) + Above(x, t[1..])
  }

  lemma {:induction false} BelowConcat(x: int, t1: seq<int>, t2: seq<int>)
    ensures Below(x, t1 + t2) == Below(x, t1) + Below(x, t2)
    decreases |t1|
  {
    if t1 == [] {
      assert t1 + t2 == t2;
    } else {
      assert (t1 + t2)[0] == t1[0] && (t1 + t2)[1..] == t1[1..] + t2;
      BelowConcat(x, t1[1..], t2);
    }
  }

  /** A larger pivot has at least as many elements below it. */
  lemma {:induction false} BelowMonotone(b: int, a: int, t: seq<int>)
    requires b <= a
    ensures Below(b, t) <= Below(a, t)
    decreases |t|
  {
    if t != [] {
      BelowMonotone(b, a, t[1..]);
    }
  }

  /** A larger pivot has at most as many elements above it. */
  lemma {:induction false} AboveAntitone(b: int, a: int, t: seq<int>)
    requires b <= a
    ensures Above(a, t) <= Above(b, t)
    decreases |t|
  {
    if t != [] {
      AboveAntitone(b, a, t[1..]);
    }
  }

  /** An element `d` between `u` and `w` adds the inversions it forms with
      the larger elements before it and the smaller ones after it. */
  lemma {:induction false} InversionsAround(u: seq<int>, d: int, w: seq<int>)
    ensures Inversions(u + [d] + w) == Inversions(u + w) + Above(d, u) + Below(d, w)
    decreases |u|
  {
    if u == [] {
      assert u + [d] + w == [d] + w && ([d] + w)[1..] == w && u + w == w;
    } else {
      var e, u' := u[0], u[1..];
      assert u + [d] + w == [e] + (u' + [d] + w);
      assert ([e] + (u' + [d] + w))[1..] == u' + [d] + w;
      assert u + w == [e] + (u' + w) && ([e] + (u' + w))[1..] == u' + w;
      BelowConcat(e, u' + [d], w);
      BelowConcat(e, u', [d]);
      BelowConcat(e, u', w);
      InversionsAround(u', d, w);
    }
  }

  /** Exchanging the out-of-order ends `a > b` of `[a] + u + [b]` removes
      the pair itself and never adds one. */
  lemma OuterSwapDrop(a: int, u: seq<int>, b: int, w: seq<int>)
    requires a > b
    ensures Inversions([b] + u + [a] + w) < Inversions([a] + u + [b] + w)
  {
    var before, after := [a] + u + [b] + w, [b] + u + [a] + w;
    assert before[1..] == u + [b] + w && after[1..] == u + [a] + w;
    InversionsAround(u, b, w);
    InversionsAround(u, a, w);
    BelowConcat(a, u + [b], w);
    BelowConcat(a, u, [b]);
    BelowConcat(b, u + [a], w);
    BelowConcat(b, u, [a]);
    BelowMonotone(b, a, u);
    AboveAntitone(b, a, u);
    BelowMonotone(b, a, w);
  }

  /** The same exchange behind any prefix `x`. */
  lemma {:induction false} PrefixSwapDrop(x: seq<int>, a: int, u: seq<int>, b: int, w: seq<int>)
    requires a > b
    ensures Inversions(x + [b] + u + [a] + w) < Inversions(x + [a] + u + [b] + w)
    decreases |x|
  {
    if x == [] {
      assert x + [b] + u + [a] + w == [b] + u + [a] + w;
      assert x + [a] + u + [b] + w == [a] + u + [b] + w;
      OuterSwapDrop(a, u, b, w);
    } else {
      var c := x[0];
      var before, after := x[1..] + [a] + u + [b] + w, x[1..] + [b] + u + [a] + w;
      assert x + [a] + u + [b] + w == [c] + before;
      assert x + [b] + u + [a] + w == [c] + after;
      assert ([c] + before)[1..] == before && ([c] + after)[1..] == after;
      var y := x[1..];
      BelowConcat(c, y + [a] + u + [b], w);
      BelowConcat(c, y + [a] + u, [b]);
      BelowConcat(c, y + [a], u);
      BelowConcat(c, y, [a]);
      BelowConcat(c, y + [b] + u + [a], w);
      BelowConcat(c, y + [b] + u, [a]);
      BelowConcat(c, y + [b], u);
      BelowConcat(c, y, [b]);
      PrefixSwapDrop(x[1..], a, u, b, w);
    }
  }

  /** A swap of an out-of-order pair `s[i] > s[j]`, at any distance, lowers
      the number of inversions. */
  lemma SwapLowersInversions(s: seq<int>, i: nat, j: nat)
    requires i < j < |s| && s[i] > s[j]
    ensures Inversions(Swap(s, i, j)) < Inversions(s)
  {
    SwapShape(s, i, j, s[i], s[j]);
    SwapShape(Swap(s, i, j), i, j, s[j], s[i]);
    assert Swap(s, i, j)[..i] == s[..i] && Swap(s, i, j)[i + 1..j] == s[i + 1..j]
      && Swap(s, i, j)[j + 1..] == s[j + 1..];
    PrefixSwapDrop(s[..i], s[i], s[i + 1..j], s[j], s[j + 1..]);
  }

  /** `s` cut around positions `i < j`, which hold `a` and `b`. */
  lemma SwapShape(s: seq<int>, i: nat, j: nat, a: int, b: int)
    requires i < j < |s| && s[i] == a && s[j] == b
    ensures s == s[..i] + [a] + s[i + 1..j] + [b] + s[j + 1..]
  {
    var t := s[..i] + [a] + s[i + 1..j] + [b] + s[j + 1..];
    assert |t| == |s|;
    forall k | 0 <= k < |s|
      ensures t[k] == s[k]
    {
      if k < i {
      } else if k == i {
      } else if k < j {
        assert t[k] == s[i + 1..j][k - i - 1];
      } else if k == j {
      } else {
        assert t[k] == s[j + 1..][k - j - 1];
      }
    }
  }

  /** `Math.Ceiling(n / 2.0)` for an integer `n`. */
  function CeilHalf(n: int): int
  {
    if n >= 0 then (n + 1) / 2 else -((-n) / 2)
  }

  /** The index the comb sort returns, `ceil((n - 1) / 2)`, is `n / 2`: the
      median of an odd-length sample and the upper middle of an even one. */
  lemma MiddleIndex(n: int)
    requires n >= 1
    ensures CeilHalf(n - 1) == n / 2
    ensures 0 <= n / 2 < n
  {
  }

  /** The next gap of the comb sort: halved, 9 and 10 bumped to 11, at least 1. */
  function NextGap(gap: int): (g: int)
    requires gap >= 1
    ensures 1 <= g <= gap
    ensures gap > 1 ==> g < gap
    ensures gap == 1 ==> g == 1
  {
    var h := gap / 2;
    var h' := if h == 9 || h == 10 then 11 else h;
    if h' < 1 then 1 else h'
  }

  /** The add/subtract exchange of `data[i]` and `data[j]` in wrapping 32-bit
      arithmetic is a swap, whatever the values. */
  method SwapByArithmetic(data: array<int>, i: nat, j: nat)
    requires i < j < data.Length
    requires IsInt32(data[i]) && IsInt32(data[j])
    modifies data
    ensures data[..] == Swap(old(data[..]), i, j)
  {
    var x, y := data[i], data[j];
    data[i] := Wrap32(data[i] + data[j]);
    data[j] := Wrap32(data[i] - data[j]);
    data[i] := Wrap32(data[i] - data[j]);
    WrapAddSubSwap(x, y);
  }

  predicate AllInt32(s: seq<int>)
  {
    forall k :: 0 <= k < |s| ==> IsInt32(s[k])
  }

  lemma SwapPreserves(s: seq<int>, i: nat, j: nat)
    requires i < j < |s|
    ensures multiset(Swap(s, i, j)) == multiset(s)
    ensures AllInt32(s) ==> AllInt32(Swap(s, i, j))
  {
  }

  /** `Combsort(data)`: sorts `data` in place with a halving gap sequence
      (9 and 10 become 11, never below 1), swapping out-of-order pairs with the
      add/subtract trick, and returns the element at the middle index. */
  method Combsort(data: array<int>) returns (m: int)
    requires data.Length >= 1
    requires AllInt32(data[..])
    modifies data
    ensures Sorted(data[..])
    ensures multiset(data[..]) == multiset(old(data[..]))
    ensures m == data[data.Length / 2]
  {
    var amount := data.Length;
    var gap := amount;
    var swapped := false;
    while gap > 1 || swapped
      invariant 1 <= gap <= amount
      invariant multiset(data[..]) == multiset(old(data[..]))
      invariant AllInt32(data[..])
      invariant gap == 1 && !swapped ==> Sorted(data[..])
      decreases gap, Inversions(data[..]) + (if swapped then 1 else 0)
    {
      gap := NextGap(gap);
      swapped := GapPass(data, gap);
    }
    var mid := CeilHalf(amount - 1);
    MiddleIndex(amount);
    m := data[mid];
  }

  /** One pass of the comb sort with a fixed gap; reports whether it swapped. */
  method GapPass(data: array<int>, gap: int) returns (swapped: bool)
    requires 1 <= gap <= data.Length
    requires AllInt32(data[..])
    modifies data
    ensures multiset(data[..]) == multiset(old(data[..]))
    ensures AllInt32(data[..])
    ensures !swapped ==> data[..] == old(data[..])
    ensures gap == 1 && !swapped ==> Sorted(data[..])
    ensures swapped ==> Inversions(data[..]) < Inversions(old(data[..]))
  {
    var amount := data.Length;
    swapped := false;
    ghost var start := Inversions(data[..]);
    for i := 0 to amount - gap
      invariant multiset(data[..]) == multiset(old(data[..]))
      invariant AllInt32(data[..])
      invariant !swapped ==> data[..] == old(data[..])
      invariant gap == 1 && !swapped ==> forall p, q :: 0 <= p < q <= i ==> data[p] <= data[q]
      invariant swapped ==> Inversions(data[..]) < start
    {
      var did := CompareExchange(data, i, i + gap);
      swapped := swapped || did;
    }
  }

  /** The body of the pass: `data[i]` and `data[j]` are exchanged when out
      of order. */
  method CompareExchange(data: array<int>, i: nat, j: nat) returns (did: bool)
    requires i < j < data.Length && AllInt32(data[..])
    modifies data
    ensures did <==> old(data[i]) > old(data[j])
    ensures did ==> data[..] == Swap(old(data[..]), i, j)
    ensures !did ==> data[..] == old(data[..]) && data[i] <= data[j]
    ensures multiset(data[..]) == multiset(old(data[..])) && AllInt32(data[..])
    ensures did ==> Inversions(data[..]) < Inversions(old(data[..]))
  {
    did := data[i] > data[j];
    if did {
      ghost var before := data[..];
      assert IsInt32(before[i]) && IsInt32(before[j]);
      SwapByArithmetic(data, i, j);
      SwapPreserves(before, i, j);
      SwapLowersInversions(before, i, j);
    }
  }
}
