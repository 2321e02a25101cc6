/** The .NET string operations the annotation files are read and written
    with: `String.Split` on one separator character, `String.Join`,
    `StartsWith`, `Replace(pattern, "")`, and the line structure of a text
    file as `StringBuilder.AppendLine` writes it and `File.ReadLines`
    reads it back. */
module Text {

  // ---------------------------------------------------------------------
  // Split and Join
  // ---------------------------------------------------------------------

  /** `s.Split(new char[] { c })`: the pieces between the separators, empty
      pieces kept, so there is always one piece more than separators. */
  function Split(s: string, c: char): (parts: seq<string>)
    ensures |parts| == Count(s, c) + 1
    ensures forall k | 0 <= k < |parts| :: c !in parts[k]
    decreases |s|
  {
    if |s| == 0 then [""]
    else
      var rest := Split(s[1..], c);
      if s[0] == c then [""] + rest
      else [[s[0]] + rest[0]] + rest[1..]
  }

  /** The number of occurrences of `c` in `s`. */
  function Count(s: string, c: char): nat
  {
    if |s| == 0 then 0 else (if s[0] == c then 1 else 0) + Count(s[1..], c)
  }

  /** `string.Join(c, parts)`. */
  function Join(parts: seq<string>, c: char): string
    requires |parts| >= 1
  {
    if |parts| == 1 then parts[0] else parts[0] + [c] + Join(parts[1..], c)
  }

  /** Joining the pieces of a split gives the string back. */
  lemma {:induction false} JoinSplit(s: string, c: char)
    ensures Join(Split(s, c), c) == s
    decreases |s|
  {
    if |s| > 0 {
      JoinSplit(s[1..], c);
      var rest := Split(s[1..], c);
      if s[0] != c {
        var parts := Split(s, c);
        assert parts[0] == [s[0]] + rest[0] && parts[1..] == rest[1..];
        if |rest| > 1 {
          assert Join(rest, c) == rest[0] + [c] + Join(rest[1..], c);
        }
        assert s == [s[0]] + s[1..];
      } else {
        assert s == [c] + s[1..];
      }
    }
  }

  /** A word without the separator stays in the first piece. */
  lemma {:induction false} SplitPrefix(w: string, t: string, c: char)
    requires c !in w
    ensures Split(w + t, c) == [w + Split(t, c)[0]] + Split(t, c)[1..]
    decreases |w|
  {
    if |w| > 0 {
      SplitPrefix(w[1..], t, c);
      assert (w + t)[1..] == w[1..] + t;
      assert (w + t)[0] == w[0];
      assert [w[0]] + (w[1..] + Split(t, c)[0]) == w + Split(t, c)[0];
    } else {
      var parts := Split(t, c);
      assert w + t == t && w + parts[0] == parts[0];
      assert parts == [parts[0]] + parts[1..];
    }
  }

  /** Splitting what `Join` wrote gives the pieces back when none of them
      holds the separator. */
  lemma {:induction false} SplitJoin(parts: seq<string>, c: char)
    requires |parts| >= 1 && forall k | 0 <= k < |parts| :: c !in parts[k]
    ensures Split(Join(parts, c), c) == parts
    decreases |parts|
  {
    if |parts| == 1 {
      SplitPrefix(parts[0], "", c);
      assert parts[0] + "" == parts[0];
    } else {
      var tail := Join(parts[1..], c);
      SplitJoin(parts[1..], c);
      assert Join(parts, c) == parts[0] + ([c] + tail);
      SplitPrefix(parts[0], [c] + tail, c);
      assert ([c] + tail)[1..] == tail;
      assert Split([c] + tail, c) == [""] + parts[1..];
      assert parts[0] + "" == parts[0];
    }
  }

  // ---------------------------------------------------------------------
  // Prefixes and Replace
  // ---------------------------------------------------------------------

  /** `s.StartsWith(p)` (ordinal). */
  predicate StartsWith(s: string, p: string)
  {
    |p| <= |s| && s[..|p|] == p
  }

  /** `s.Replace(p, "")`: every occurrence of `p`, found left to right
      without overlap, removed. */
  function RemoveAll(s: string, p: string): (r: string)
    requires |p| > 0
    ensures |r| <= |s|
    decreases |s|
  {
    if |s| == 0 then ""
    else if StartsWith(s, p) then RemoveAll(s[|p|..], p)
    else [s[0]] + RemoveAll(s[1..], p)
  }

  /** A string none of whose characters is the first one of `p` holds no
      occurrence of `p`, so `Replace` leaves it as it is. */
  lemma {:induction false} RemoveAllAbsent(s: string, p: string)
    requires |p| > 0 && p[0] !in s
    ensures RemoveAll(s, p) == s
    decreases |s|
  {
    if |s| > 0 {
      RemoveAllAbsent(s[1..], p);
      assert s[0] != p[0];
      assert s == [s[0]] + s[1..];
    }
  }

  /** `Replace(p, "")` on `p + s` where `s` holds no first character of `p`
      leaves `s`. */
  lemma RemovePrefix(p: string, s: string)
    requires |p| > 0 && p[0] !in s
    ensures RemoveAll(p + s, p) == s
  {
    assert StartsWith(p + s, p);
    assert (p + s)[|p|..] == s;
    RemoveAllAbsent(s, p);
  }

  // ---------------------------------------------------------------------
  // Lines of a text file
  // ---------------------------------------------------------------------

  /** `Environment.NewLine` of the platform the tools run on. */
  const NEWLINE: string := "\r\n"

  predicate IsLineBreak(ch: char)
  {
    ch == '\r' || ch == '\n'
  }

  /** A line as `File.ReadLines` can give it back: no break character. */
  predicate IsLine(l: string)
  {
    forall k | 0 <= k < |l| :: !IsLineBreak(l[k])
  }

  /** The index of the first break character of `t`, or `|t|`. */
  function LineEnd(t: string): (k: nat)
    ensures k <= |t| && IsLine(t[..k]) && (k < |t| ==> IsLineBreak(t[k]))
  {
    if |t| == 0 then 0
    else if IsLineBreak(t[0]) then 0
    else
      var k := 1 + LineEnd(t[1..]);
      assert t[..k] == [t[0]] + t[1..][..k - 1];
      k
  }

  /** `File.ReadLines`: a line ends at `"\r\n"`, `"\r"` or `"\n"`, and a
      break at the very end does not start another line. */
  function ReadLines(t: string): (lines: seq<string>)
    ensures forall k | 0 <= k < |lines| :: IsLine(lines[k])
    decreases |t|
  {
    if |t| == 0 then []
    else
      var k := LineEnd(t);
      var next :=
        if k == |t| then |t|
        else if t[k] == '\r' && k + 1 < |t| && t[k + 1] == '\n' then k + 2
        else k + 1;
      [t[..k]] + ReadLines(t[next..])
  }

  /** The text `AppendLine` builds: every line followed by a line break. */
  function WriteLines(lines: seq<string>): string
  {
    if |lines| == 0 then "" else lines[0] + NEWLINE + WriteLines(lines[1..])
  }

  lemma LineEndOf(l: string, rest: string)
    requires IsLine(l)
    ensures LineEnd(l + NEWLINE + rest) == |l|
    decreases |l|
  {
    if |l| > 0 {
      assert (l + NEWLINE + rest)[1..] == l[1..] + NEWLINE + rest;
      LineEndOf(l[1..], rest);
    }
  }

  /** Reading back what `AppendLine` wrote gives the lines it was given,
      as long as none of them holds a break character. */
  lemma {:induction false} ReadWriteLines(lines: seq<string>)
    requires forall k | 0 <= k < |lines| :: IsLine(lines[k])
    ensures ReadLines(WriteLines(lines)) == lines
    decreases |lines|
  {
    if |lines| > 0 {
      var l, rest := lines[0], WriteLines(lines[1..]);
      var t := WriteLines(lines);
      assert t == l + NEWLINE + rest;
      LineEndOf(l, rest);
      assert t[|l|] == '\r' && t[|l| + 1] == '\n';
      assert t[..|l|] == l;
      assert t[|l| + 2..] == rest;
      ReadWriteLines(lines[1..]);
    }
  }
}
