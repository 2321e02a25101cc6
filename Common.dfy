/** Shared vocabulary of the model: bytes, optional values and results, and the
    parts of C# machine arithmetic that the modelled code depends on (32-bit
    wrap-around, truncating division, unsigned reinterpretation). */
module Common {

  /** An unsigned 8-bit value (C# `byte`). */
  type byte = b: int | 0 <= b < 256

  datatype Option<T> = None | Some(value: T)

  /** The outcome of an operation that the source can abort with an exception. */
  datatype Result<T, E> = Ok(value: T) | Err(error: E) {
    predicate IsFailure() { Err? }

    function PropagateFailure<U>(): Result<U, E>
      requires Err?
    {
      Err(error)
    }

    function Extract(): T
      requires Ok?
    {
      value
    }
  }

  const TWO_16: int := 0x1_0000
  const TWO_31: int := 0x8000_0000
  const TWO_32: int := 0x1_0000_0000
  const TWO_64: int := 0x1_0000_0000_0000_0000

  const TWO_63: int := 0x8000_0000_0000_0000

  predicate IsInt32(v: int) { -TWO_31 <= v < TWO_31 }
  predicate IsUInt32(v: int) { 0 <= v < TWO_32 }
  predicate IsUInt64(v: int) { 0 <= v < TWO_64 }

  /** The value C# keeps when an `int` computation leaves the 32-bit range
      (unchecked two's complement wrap-around). */
  function Wrap32(v: int): (r: int)
    ensures IsInt32(r)
    ensures (v - r) % TWO_32 == 0
    ensures IsInt32(v) ==> r == v
  {
    (v + TWO_31) % TWO_32 - TWO_31
  }

  /** The value of a 32-bit unsigned computation (`uint` wrap-around). */
  function WrapU32(v: int): (r: int)
    ensures IsUInt32(r)
    ensures (v - r) % TWO_32 == 0
    ensures IsUInt32(v) ==> r == v
  {
    v % TWO_32
  }

  /** `(int)u` for a `ulong`: keeps the low 32 bits as a signed value. */
  function ToInt32(u: int): (r: int)
    requires IsUInt64(u)
    ensures IsInt32(r)
    ensures u < TWO_31 ==> r == u
  {
    Wrap32(u)
  }

  /** The value of a 64-bit signed computation (`long` wrap-around), also
      the result of casting a `ulong` to `long`. */
  function Wrap64(v: int): (r: int)
    ensures -TWO_63 <= r < TWO_63
    ensures (v - r) % TWO_64 == 0
    ensures -TWO_63 <= v < TWO_63 ==> r == v
  {
    (v + TWO_63) % TWO_64 - TWO_63
  }

  /** `2^n`. */
  function Pow2(n: nat): (p: nat)
    ensures p >= 1
  {
    if n == 0 then 1 else 2 * Pow2(n - 1)
  }

  function Abs(a: int): nat { if a < 0 then -a else a }

  /** C#'s integer `/` for a positive divisor: the quotient is rounded toward
      zero, so it differs from Dafny's (floor) division on negative dividends. */
  function TruncDiv(a: int, d: int): (q: int)
    requires d > 0
    ensures (a >= 0 ==> q >= 0) && (a <= 0 ==> q <= 0)
    ensures Abs(q) * d <= Abs(a) < (Abs(q) + 1) * d
  {
    var n := Abs(a);
    var m := n / d;
    assert m * d + n % d == n;
    assert (m + 1) * d == m * d + d;
    if a >= 0 then m else -m
  }

  /** C#'s `a / d` on `int` for any non-zero divisor: rounded toward zero. */
  function Quotient(a: int, d: int): int
    requires d != 0
  {
    if d > 0 then TruncDiv(a, d) else -TruncDiv(a, -d)
  }

  /** The sign of a product with a positive factor. */
  lemma MulSign(x: int, n: int)
    requires n > 0
    ensures x >= 1 ==> x * n >= n
    ensures x <= 0 ==> x * n <= 0
    ensures x <= -1 ==> x * n <= -n
  {
  }

  lemma WrapAddSubSwap(x: int, y: int)
    requires IsInt32(x) && IsInt32(y)
    ensures Wrap32(Wrap32(x + y) - y) == x
    ensures Wrap32(Wrap32(x + y) - Wrap32(Wrap32(x + y) - y)) == y
  {
    var s := Wrap32(x + y);
    var k := (x + y - s) / TWO_32;
    assert x + y - s == k * TWO_32;
    WrapShift(x, -k);
    assert s - y == x + (-k) * TWO_32;
    WrapShift(y, -k);
    assert s - x == y + (-k) * TWO_32;
  }

  /** Wrap-around forgets whole multiples of 2^32. */
  lemma WrapShift(x: int, k: int)
    requires IsInt32(x)
    ensures Wrap32(x + k * TWO_32) == x
  {
    var v := x + k * TWO_32;
    assert (v + TWO_31) == (x + TWO_31) + k * TWO_32;
    assert (v + TWO_31) % TWO_32 == (x + TWO_31) % TWO_32;
  }
}
