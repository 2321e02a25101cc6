/** Decimal text of the integers the annotation files hold: `ulong.Parse`
    and `int.Parse` on plain digit strings, and the `ToString()` the
    writers use. */
module Numbers {
  import opened Common

  predicate IsDigit(ch: char)
  {
    '0' <= ch <= '9'
  }

  predicate AllDigits(s: string)
  {
    forall k | 0 <= k < |s| :: IsDigit(s[k])
  }

  function DigitValue(ch: char): nat
    requires IsDigit(ch)
  {
    ch as int - '0' as int
  }

  function DigitChar(d: nat): (ch: char)
    requires d < 10
    ensures IsDigit(ch) && DigitValue(ch) == d
  {
    ('0' as int + d) as char
  }

  /** The number a digit string spells, most significant digit first. */
  function DigitsValue(s: string): nat
    requires AllDigits(s)
  {
    if |s| == 0 then 0 else 10 * DigitsValue(s[..|s| - 1]) + DigitValue(s[|s| - 1])
  }

  /** The white space `NumberStyles.Integer` lets stand before and after
      the number: tab, line feed, vertical tab, form feed, carriage return
      and space. */
  predicate IsNumberWhite(ch: char)
  {
    ch == ' ' || '\t' <= ch <= '\r'
  }

  /** The number of leading white-space characters of `s`. */
  function WhiteSpan(s: string): (n: nat)
    ensures n <= |s|
    ensures forall k | 0 <= k < n :: IsNumberWhite(s[k])
    ensures n < |s| ==> !IsNumberWhite(s[n])
  {
    if |s| > 0 && IsNumberWhite(s[0]) then 1 + WhiteSpan(s[1..]) else 0
  }

  /** The number of leading digits of `s`. */
  function DigitSpan(s: string): (n: nat)
    ensures n <= |s|
    ensures AllDigits(s[..n])
    ensures n < |s| ==> !IsDigit(s[n])
  {
    if |s| > 0 && IsDigit(s[0]) then
      var n := 1 + DigitSpan(s[1..]);
      assert s[..n] == [s[0]] + s[1..][..n - 1];
      n
    else 0
  }

  /** The end of a number: white space, then nothing but NUL characters
      (the parser accepts a string whose unparsed rest is all `'\0'`). */
  predicate NumberTrailer(t: string)
  {
    var w := WhiteSpan(t);
    forall k | w <= k < |t| :: t[k] == '\0'
  }

  /** An integer in `NumberStyles.Integer`: leading white space, at most
      one sign, at least one digit, then a trailer. The sign, the digits
      and their value, or `None` when `s` has another form. */
  function IntegerText(s: string): Option<(bool, nat)>
  {
    SignedText(s[WhiteSpan(s)..])
  }

  /** The part after the leading white space: an optional sign. */
  function SignedText(t: string): Option<(bool, nat)>
  {
    if |t| > 0 && (t[0] == '+' || t[0] == '-') then DigitsText(t[1..], t[0] == '-')
    else DigitsText(t, false)
  }

  /** The part after the sign: the digits, then a trailer. */
  function DigitsText(t: string, negative: bool): Option<(bool, nat)>
  {
    var k := DigitSpan(t);
    if k == 0 || !NumberTrailer(t[k..]) then None
    else Some((negative, DigitsValue(t[..k])))
  }

  /** `ulong.Parse(s)`: an integer of `NumberStyles.Integer` below 2^64,
      whose minus sign only a zero value may carry; anything else throws
      (`FormatException` or `OverflowException`). */
  function ParseULong(s: string): (r: Option<nat>)
    ensures r.Some? ==> IsUInt64(r.value)
  {
    match IntegerText(s)
    case None => None
    case Some((negative, v)) =>
      if (negative && v != 0) || v >= TWO_64 then None else Some(v)
  }

  /** `int.Parse(s)`: an integer of `NumberStyles.Integer` in the 32-bit
      range. */
  function ParseInt(s: string): (r: Option<int>)
    ensures r.Some? ==> IsInt32(r.value)
  {
    match IntegerText(s)
    case None => None
    case Some((negative, v)) =>
      if negative then (if v <= TWO_31 then Some(-(v as int)) else None)
      else if v < TWO_31 then Some(v) else None
  }

  /** The characters `Char.IsWhiteSpace` accepts, which `String.Trim`
      removes: the Latin-1 white space and the Unicode space, line and
      paragraph separators. */
  predicate IsWhiteSpace(ch: char)
  {
    IsNumberWhite(ch) || ch == '\U{85}' || ch == '\U{A0}' || ch == '\U{1680}'
    || ('\U{2000}' <= ch <= '\U{200A}') || ch == '\U{2028}' || ch == '\U{2029}'
    || ch == '\U{202F}' || ch == '\U{205F}' || ch == '\U{3000}'
  }

  /** The number of leading characters of `s` that are white space. */
  function FrontSpan(s: string): (n: nat)
    ensures n <= |s|
    ensures forall k | 0 <= k < n :: IsWhiteSpace(s[k])
    ensures n < |s| ==> !IsWhiteSpace(s[n])
  {
    if |s| > 0 && IsWhiteSpace(s[0]) then 1 + FrontSpan(s[1..]) else 0
  }

  /** The number of trailing characters of `s` that are white space. */
  function BackSpan(s: string): (n: nat)
    ensures n <= |s|
    ensures forall k | |s| - n <= k < |s| :: IsWhiteSpace(s[k])
    ensures n < |s| ==> !IsWhiteSpace(s[|s| - 1 - n])
  {
    if |s| > 0 && IsWhiteSpace(s[|s| - 1]) then 1 + BackSpan(s[..|s| - 1]) else 0
  }

  /** `s.Trim()`: `s` without its leading and trailing white space. */
  function Trim(s: string): (t: string)
    ensures |t| <= |s|
    ensures |t| > 0 ==> !IsWhiteSpace(t[0]) && !IsWhiteSpace(t[|t| - 1])
  {
    var i := FrontSpan(s);
    s[i..][..|s| - i - BackSpan(s[i..])]
  }

  /** `n.ToString()` for a natural number: its decimal digits, no leading
      zero. */
  function NatText(n: nat): (s: string)
    ensures |s| > 0 && AllDigits(s)
  {
    if n < 10 then [DigitChar(n)] else NatText(n / 10) + [DigitChar(n % 10)]
  }

  /** `i.ToString()` for an `int`: a minus sign before a negative value. */
  function IntText(i: int): (s: string)
    ensures |s| > 0
  {
    if i < 0 then "-" + NatText(-i) else NatText(i)
  }

  lemma {:induction false} NatTextValue(n: nat)
    ensures DigitsValue(NatText(n)) == n
  {
    if n >= 10 {
      var s := NatText(n);
      NatTextValue(n / 10);
      assert s[..|s| - 1] == NatText(n / 10);
    }
  }

  /** Leading white space adds its length to the white span. */
  lemma {:induction false} WhitePrefix(a: string, b: string)
    requires forall k | 0 <= k < |a| :: IsNumberWhite(a[k])
    ensures WhiteSpan(a + b) == |a| + WhiteSpan(b)
    decreases |a|
  {
    if |a| > 0 {
      assert (a + b)[0] == a[0];
      assert (a + b)[1..] == a[1..] + b;
      WhitePrefix(a[1..], b);
    } else {
      assert a + b == b;
    }
  }

  /** Leading digits add their length to the digit span. */
  lemma {:induction false} DigitPrefix(a: string, b: string)
    requires AllDigits(a)
    ensures DigitSpan(a + b) == |a| + DigitSpan(b)
    decreases |a|
  {
    if |a| > 0 {
      assert (a + b)[0] == a[0];
      assert (a + b)[1..] == a[1..] + b;
      DigitPrefix(a[1..], b);
    } else {
      assert a + b == b;
    }
  }

  /** Digits followed by white space read as their value. */
  lemma DigitsOf(digits: string, post: string, negative: bool)
    requires |digits| > 0 && AllDigits(digits)
    requires forall k | 0 <= k < |post| :: IsNumberWhite(post[k])
    ensures DigitsText(digits + post, negative) == Some((negative, DigitsValue(digits)))
  {
    var t := digits + post;
    DigitPrefix(digits, post);
    assert DigitSpan(post) == 0 by {
      if |post| > 0 {
        assert !IsDigit(post[0]);
      }
    }
    assert t[..|digits|] == digits;
    assert t[|digits|..] == post;
    WhitePrefix(post, "");
    assert post + "" == post;
  }

  /** An optional sign, digits and white space read as the digits' value
      with that sign. */
  lemma SignedOf(sign: string, digits: string, post: string)
    requires sign == "" || sign == "+" || sign == "-"
    requires |digits| > 0 && AllDigits(digits)
    requires forall k | 0 <= k < |post| :: IsNumberWhite(post[k])
    ensures SignedText(sign + digits + post) == Some((sign == "-", DigitsValue(digits)))
  {
    DigitsOf(digits, post, sign == "-");
    if sign == "" {
      Unsigned(digits, post);
    } else {
      Associate(sign, digits, post);
      SignedHead(sign, digits + post);
    }
  }

  /** Digits without a sign are read as they stand. */
  lemma Unsigned(digits: string, post: string)
    requires |digits| > 0 && AllDigits(digits)
    ensures SignedText("" + digits + post) == DigitsText(digits + post, false)
  {
    assert "" + digits + post == digits + post;
    assert IsDigit((digits + post)[0]);
  }

  lemma Associate(a: string, b: string, c: string)
    ensures a + b + c == a + (b + c)
  {
  }

  /** A one-character sign in front of `tail` is read as the sign of the
      digits in `tail`. */
  lemma SignedHead(sign: string, tail: string)
    requires sign == "+" || sign == "-"
    ensures SignedText(sign + tail) == DigitsText(tail, sign == "-")
  {
    assert (sign + tail)[0] == sign[0] && (sign + tail)[1..] == tail;
  }

  /** Nothing around a sign and digits. */
  lemma Bare(sign: string, digits: string)
    ensures "" + sign + digits + "" == sign + digits
  {
  }

  lemma Regroup(a: string, b: string, c: string, d: string)
    ensures a + b + c + d == a + (b + c + d)
  {
  }

  lemma RegroupMiddle(a: string, b: string, c: string, d: string)
    ensures a + b + c + d == a + (b + c) + d
  {
  }

  /** White space, an optional sign, digits and white space read as the
      digits' value with that sign. */
  lemma IntegerOf(pre: string, sign: string, digits: string, post: string)
    requires forall k | 0 <= k < |pre| :: IsNumberWhite(pre[k])
    requires sign == "" || sign == "+" || sign == "-"
    requires |digits| > 0 && AllDigits(digits)
    requires forall k | 0 <= k < |post| :: IsNumberWhite(post[k])
    ensures IntegerText(pre + sign + digits + post) == Some((sign == "-", DigitsValue(digits)))
  {
    var rest := sign + digits + post;
    Regroup(pre, sign, digits, post);
    WhitePrefix(pre, rest);
    assert WhiteSpan(rest) == 0 by {
      assert rest[0] == '+' || rest[0] == '-' || IsDigit(rest[0]);
    }
    assert (pre + rest)[|pre|..] == rest;
    SignedOf(sign, digits, post);
  }

  /** `ulong.Parse(n.ToString())` gives `n` back for every `ulong`. */
  lemma ParseULongText(n: nat)
    requires IsUInt64(n)
    ensures ParseULong(NatText(n)) == Some(n)
  {
    NatTextValue(n);
    IntegerOf("", "", NatText(n), "");
    assert "" + "" + NatText(n) + "" == NatText(n);
  }

  /** `int.Parse(i.ToString())` gives `i` back for every `int`. */
  lemma ParseIntText(i: int)
    requires IsInt32(i)
    ensures ParseInt(IntText(i)) == Some(i)
  {
    if i < 0 {
      NatTextValue(-i);
      IntegerOf("", "-", NatText(-i), "");
      Bare("-", NatText(-i));
    } else {
      NatTextValue(i);
      IntegerOf("", "", NatText(i), "");
      Bare("", NatText(i));
    }
  }

  /** `ulong.Parse` takes a number with white space around it and a plus
      sign, or a minus sign before zero. */
  lemma ParseULongPadded(n: nat, pre: string, sign: string, post: string)
    requires IsUInt64(n)
    requires forall k | 0 <= k < |pre| :: IsNumberWhite(pre[k])
    requires sign == "" || sign == "+" || sign == "-"
    requires forall k | 0 <= k < |post| :: IsNumberWhite(post[k])
    ensures ParseULong(pre + sign + NatText(n) + post) == (if sign == "-" && n != 0 then None else Some(n))
  {
    NatTextValue(n);
    IntegerOf(pre, sign, NatText(n), post);
  }

  /** `String.Trim` leaves a string alone that neither starts nor ends
      with white space. */
  lemma TrimUntouched(s: string)
    requires |s| > 0 && !IsWhiteSpace(s[0]) && !IsWhiteSpace(s[|s| - 1])
    ensures Trim(s) == s
  {
    assert s[0..] == s;
  }

  /** `ulong.Parse` takes `n.ToString()` with white space around it. */
  lemma ParseULongSpaced(n: nat, pre: string, post: string)
    requires IsUInt64(n)
    requires forall k | 0 <= k < |pre| :: IsNumberWhite(pre[k])
    requires forall k | 0 <= k < |post| :: IsNumberWhite(post[k])
    ensures ParseULong(pre + NatText(n) + post) == Some(n)
  {
    ParseULongPadded(n, pre, "", post);
    assert pre + "" == pre;
  }

  /** `int.Parse` takes `i.ToString()` with white space around it. */
  lemma ParseIntPadded(i: int, pre: string, post: string)
    requires IsInt32(i)
    requires forall k | 0 <= k < |pre| :: IsNumberWhite(pre[k])
    requires forall k | 0 <= k < |post| :: IsNumberWhite(post[k])
    ensures ParseInt(pre + IntText(i) + post) == Some(i)
  {
    if i < 0 {
      NegativeSpaced(i, pre, post);
    } else {
      NatTextValue(i);
      IntegerOf(pre, "", NatText(i), post);
      assert pre + "" == pre;
    }
  }

  lemma NegativeSpaced(i: int, pre: string, post: string)
    requires -TWO_31 <= i < 0
    requires forall k | 0 <= k < |pre| :: IsNumberWhite(pre[k])
    requires forall k | 0 <= k < |post| :: IsNumberWhite(post[k])
    ensures IntegerText(pre + IntText(i) + post) == Some((true, -i))
  {
    NatTextValue(-i);
    IntegerOf(pre, "-", NatText(-i), post);
    RegroupMiddle(pre, "-", NatText(-i), post);
  }

  /** Leading white space adds its length to the front span. */
  lemma {:induction false} FrontPrefix(a: string, b: string)
    requires forall k | 0 <= k < |a| :: IsWhiteSpace(a[k])
    ensures FrontSpan(a + b) == |a| + FrontSpan(b)
    decreases |a|
  {
    if |a| > 0 {
      assert (a + b)[0] == a[0];
      assert (a + b)[1..] == a[1..] + b;
      FrontPrefix(a[1..], b);
    } else {
      assert a + b == b;
    }
  }

  /** Trailing white space adds its length to the back span. */
  lemma {:induction false} BackSuffix(a: string, b: string)
    requires forall k | 0 <= k < |b| :: IsWhiteSpace(b[k])
    ensures BackSpan(a + b) == BackSpan(a) + |b|
    decreases |b|
  {
    if |b| > 0 {
      assert (a + b)[|a + b| - 1] == b[|b| - 1];
      assert (a + b)[..|a + b| - 1] == a + b[..|b| - 1];
      BackSuffix(a, b[..|b| - 1]);
    } else {
      assert a + b == a;
    }
  }

  /** `String.Trim` removes exactly the white space around a text that
      neither starts nor ends with white space. */
  lemma TrimPadded(pre: string, t: string, post: string)
    requires forall k | 0 <= k < |pre| :: IsWhiteSpace(pre[k])
    requires |t| > 0 && !IsWhiteSpace(t[0]) && !IsWhiteSpace(t[|t| - 1])
    requires forall k | 0 <= k < |post| :: IsWhiteSpace(post[k])
    ensures Trim(pre + t + post) == t
  {
    var s := pre + t + post;
    assert s == pre + (t + post);
    FrontPrefix(pre, t + post);
    assert FrontSpan(t + post) == 0 by {
      assert (t + post)[0] == t[0];
    }
    assert s[|pre|..] == t + post;
    BackSuffix(t, post);
    assert BackSpan(t) == 0;
    assert (t + post)[..|t|] == t;
  }
}
