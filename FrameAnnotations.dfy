/** Frame-based annotations (`.v1.frame_based.ann` files), read by
    `AnnotationsV1Reader` (AnomalyModel/AnnotationV1Reader.cs) and by the
    identical `AnnotationReader` (AnomalyDetection/AnnotationReader.cs).
    A line is a comment (`#...`), empty, an `ANNOTATED_RANGE=a-b` line
    naming annotated frames, or `a-b` / `a` naming anomalous frames; the
    normal frames are the annotated ones that are not anomalous. */
module FrameAnnotations {
  import opened Common
  import opened Text
  import opened Numbers
  import opened FrameSets

  /** `AnnotationsV1` / `Annotation`: two ascending `ulong` arrays. */
  datatype FrameAnnotations = FrameAnnotations(normalFrames: seq<nat>, anomalyFrames: seq<nat>)

  /** Why `ReadAnnotations` throws. */
  datatype FrameError =
    | BadNumber                  // `ulong.Parse` refused a bound
    | InvalidLine(text: string)  // `ArgumentException`: not one or two bounds

  const COMMENT: string := "#"
  const RANGE_KEY: string := "ANNOTATED_RANGE="

  /** The frames `lo..hi`, both included; empty when `lo > hi`. */
  function Range(lo: nat, hi: int): (r: set<nat>)
    ensures forall k :: k in r <==> lo <= k <= hi
    decreases hi - lo
  {
    if hi < lo then {} else Range(lo, hi - 1) + {hi}
  }

  /** `string.Join("", range)`. */
  function Concat(parts: seq<string>): string
  {
    if |parts| == 0 then "" else parts[0] + Concat(parts[1..])
  }

  // ---------------------------------------------------------------------
  // AddRangeToSet
  // ---------------------------------------------------------------------

  /** What `AddRangeToSet` leaves in `set`: one bound adds that frame, two
      bounds add the inclusive range between them (nothing when the first
      is larger), and any other number of pieces is an invalid line. */
  function Added(range: seq<string>, s: set<nat>): (r: Result<set<nat>, FrameError>)
    ensures r.Ok? ==> s <= r.value
    ensures r.Err? && |range| == 1 ==> ParseULong(range[0]).None?
  {
    if |range| == 1 then
      var frame := ParseULong(range[0]);
      if frame.None? then Err(BadNumber) else Ok(s + {frame.value})
    else if |range| == 2 then
      var lo := ParseULong(range[0]);
      var hi := ParseULong(range[1]);
      if lo.None? || hi.None? then Err(BadNumber) else Ok(s + Range(lo.value, hi.value))
    else Err(InvalidLine(Concat(range)))
  }

  /** `AddRangeToSet`, with the loop counter an unbounded natural number
      (see `WrappedCounterNeverExits` for the `ulong` counter). */
  method AddRangeToSet(range: seq<string>, s: set<nat>) returns (r: Result<set<nat>, FrameError>)
    ensures r == Added(range, s)
  {
    if |range| == 1 {
      var frame := ParseULong(range[0]);
      if frame.None? {
        return Err(BadNumber);
      }
      return Ok(s + {frame.value});
    } else if |range| == 2 {
      var lo := ParseULong(range[0]);
      if lo.None? {
        return Err(BadNumber);
      }
      var hi := ParseULong(range[1]);
      if hi.None? {
        return Err(BadNumber);
      }
      var frames := s;
      var i := lo.value;
      while i <= hi.value
        invariant lo.value <= i && (i <= hi.value + 1 || i == lo.value)
        invariant frames == s + Range(lo.value, i - 1)
        decreases hi.value - i
      {
        assert Range(lo.value, i) == Range(lo.value, i - 1) + {i};
        frames := frames + {i};
        i := i + 1;
      }
      assert Range(lo.value, i - 1) == Range(lo.value, hi.value);
      return Ok(frames);
    } else {
      return Err(InvalidLine(Concat(range)));
    }
  }

  /** The `ulong` loop as written: `++i` wraps from 2^64-1 to 0. Runs at
      most `fuel` iterations and gives `None` when they do not suffice. */
  function WrappedLoop(i: nat, hi: nat, frames: set<nat>, fuel: nat): Option<set<nat>>
    decreases fuel
  {
    if i > hi then Some(frames)
    else if fuel == 0 then None
    else WrappedLoop((i + 1) % TWO_64, hi, frames + {i}, fuel - 1)
  }

  /** With the upper bound 2^64-1 the guard `i <= hi` holds for every
      `ulong`, so the wrapping loop never finishes, however many
      iterations it is given. */
  lemma {:induction false} WrappedCounterNeverExits(i: nat, frames: set<nat>, fuel: nat)
    requires IsUInt64(i)
    ensures WrappedLoop(i, TWO_64 - 1, frames, fuel) == None
    decreases fuel
  {
    if fuel > 0 {
      WrappedCounterNeverExits((i + 1) % TWO_64, frames + {i}, fuel - 1);
    }
  }

  /** Below that bound the wrapping loop adds exactly the range, as
      `AddRangeToSet` does. */
  lemma {:induction false} WrappedLoopBelowMax(i: nat, hi: nat, frames: set<nat>)
    requires hi < TWO_64 - 1 && i <= hi + 1
    ensures WrappedLoop(i, hi, frames, hi + 1 - i) == Some(frames + Range(i, hi))
    decreases hi + 1 - i
  {
    if i <= hi {
      WrappedLoopBelowMax(i + 1, hi, frames + {i});
      assert frames + {i} + Range(i + 1, hi) == frames + Range(i, hi);
    } else {
      assert Range(i, hi) == {};
      assert frames + {} == frames;
    }
  }

  // ---------------------------------------------------------------------
  // ReadAnnotations
  // ---------------------------------------------------------------------

  /** The annotated and the anomalous frames collected so far. */
  datatype Collected = Collected(all: set<nat>, anomalies: set<nat>)

  /** One pass of the `foreach` body. */
  function Step(c: Collected, line: string): Result<Collected, FrameError>
  {
    if StartsWith(line, COMMENT) || line == "" then Ok(c)
    else if StartsWith(line, RANGE_KEY) then
      match Added(Split(RemoveAll(line, RANGE_KEY), '-'), c.all)
      case Err(e) => Err(e)
      case Ok(all) => Ok(c.(all := all))
    else
      match Added(Split(line, '-'), c.anomalies)
      case Err(e) => Err(e)
      case Ok(anomalies) => Ok(c.(anomalies := anomalies))
  }

  function Collect(c: Collected, lines: seq<string>): Result<Collected, FrameError>
    decreases |lines|
  {
    if |lines| == 0 then Ok(c)
    else
      match Step(c, lines[0])
      case Err(e) => Err(e)
      case Ok(d) => Collect(d, lines[1..])
  }

  /** The statements after the loop: both arrays ascending, the anomalous
      frames those collected, the normal frames the annotated frames that
      are not anomalous. */
  function Finish(c: Collected): (r: FrameAnnotations)
    ensures Ascending(r.normalFrames) && Ascending(r.anomalyFrames)
    ensures forall k :: k in r.anomalyFrames <==> k in c.anomalies
    ensures forall k :: k in r.normalFrames <==> k in c.all && k !in c.anomalies
  {
    FrameAnnotations(SortedSeq(c.all - c.anomalies), SortedSeq(c.anomalies))
  }

  /** What `ReadAnnotations` returns for a file holding `text`. */
  function ReadText(text: string): Result<FrameAnnotations, FrameError>
  {
    match Collect(Collected({}, {}), ReadLines(text))
    case Err(e) => Err(e)
    case Ok(c) => Ok(Finish(c))
  }

  lemma CollectAt(c: Collected, lines: seq<string>, i: nat)
    requires i < |lines|
    ensures Collect(c, lines[i..]) ==
      match Step(c, lines[i])
      case Err(e) => Err(e)
      case Ok(d) => Collect(d, lines[i + 1..])
  {
    assert lines[i..][0] == lines[i] && lines[i..][1..] == lines[i + 1..];
  }

  /** `ReadAnnotations`. */
  method ReadAnnotations(text: string) returns (r: Result<FrameAnnotations, FrameError>)
    ensures r == ReadText(text)
  {
    var lines := ReadLines(text);
    var allFrames: set<nat> := {};
    var anomalyFrames: set<nat> := {};
    for i := 0 to |lines|
      invariant Collect(Collected({}, {}), lines) == Collect(Collected(allFrames, anomalyFrames), lines[i..])
    {
      var line := lines[i];
      CollectAt(Collected(allFrames, anomalyFrames), lines, i);
      if !StartsWith(line, COMMENT) && line != "" {
        if StartsWith(line, RANGE_KEY) {
          var added := AddRangeToSet(Split(RemoveAll(line, RANGE_KEY), '-'), allFrames);
          if added.Err? {
            return Err(added.error);
          }
          allFrames := added.value;
        } else {
          var added := AddRangeToSet(Split(line, '-'), anomalyFrames);
          if added.Err? {
            return Err(added.error);
          }
          anomalyFrames := added.value;
        }
      }
    }
    assert lines[|lines|..] == [];
    r := Ok(Finish(Collected(allFrames, anomalyFrames)));
  }

  // ---------------------------------------------------------------------
  // Files made of entries
  // ---------------------------------------------------------------------

  /** A line of an annotation file, as its author meant it. */
  datatype Entry =
    | Annotated(lo: nat, hi: nat)
    | Anomalous(lo: nat, hi: nat)
    | Comment(note: string)
    | Blank

  predicate Writable(e: Entry)
  {
    match e
    case Annotated(lo, hi) => IsUInt64(lo) && IsUInt64(hi)
    case Anomalous(lo, hi) => IsUInt64(lo) && IsUInt64(hi)
    case Comment(note) => IsLine(note)
    case Blank => true
  }

  /** `lo-hi`. */
  function Pair(lo: nat, hi: nat): string
  {
    NatText(lo) + "-" + NatText(hi)
  }

  /** `lo-hi`, or just `lo` for a single frame. */
  function RangeText(lo: nat, hi: nat): string
  {
    if lo == hi then NatText(lo) else Pair(lo, hi)
  }

  function EntryLine(e: Entry): string
  {
    match e
    case Annotated(lo, hi) => RANGE_KEY + Pair(lo, hi)
    case Anomalous(lo, hi) => RangeText(lo, hi)
    case Comment(note) => COMMENT + note
    case Blank => ""
  }

  function EntryLines(es: seq<Entry>): (lines: seq<string>)
    ensures |lines| == |es|
  {
    if |es| == 0 then [] else [EntryLine(es[0])] + EntryLines(es[1..])
  }

  function AnnotatedFrames(es: seq<Entry>): set<nat>
  {
    if |es| == 0 then {}
    else (if es[0].Annotated? then Range(es[0].lo, es[0].hi) else {}) + AnnotatedFrames(es[1..])
  }

  function AnomalousFrames(es: seq<Entry>): set<nat>
  {
    if |es| == 0 then {}
    else (if es[0].Anomalous? then Range(es[0].lo, es[0].hi) else {}) + AnomalousFrames(es[1..])
  }

  lemma DigitsLine(s: string)
    requires AllDigits(s)
    ensures '-' !in s && 'A' !in s && '#' !in s && IsLine(s)
  {
  }

  /** Two numbers around a dash split back into their texts, which parse
      to the numbers. */
  lemma PairSplits(lo: nat, hi: nat)
    requires IsUInt64(lo) && IsUInt64(hi)
    ensures var t := Pair(lo, hi);
      Split(t, '-') == [NatText(lo), NatText(hi)] && 'A' !in t && IsLine(t) && t[0] != '#'
  {
    var x, y := NatText(lo), NatText(hi);
    DigitsLine(x);
    DigitsLine(y);
    assert Join([x, y], '-') == x + "-" + y by {
      assert [x, y][1..] == [y];
    }
    SplitJoin([x, y], '-');
    DashedDigits(x, y);
  }

  /** Digits, a dash and digits: no letter, no break, no `#` in front. */
  lemma DashedDigits(x: string, y: string)
    requires AllDigits(x) && AllDigits(y)
    ensures var t := x + "-" + y; 'A' !in t && IsLine(t) && t[0] != '#'
  {
    var t := x + "-" + y;
    assert forall k | 0 <= k < |t| :: t[k] == '-' || IsDigit(t[k]) by {
      assert forall k | |x| + 1 <= k < |t| :: t[k] == y[k - |x| - 1];
    }
  }

  /** Bounds with spaces around them, as in `10 - 20`, still split at the
      dash and add their range, since `ulong.Parse` skips the spaces. */
  lemma SpacedPair(lo: nat, hi: nat, w: string, s: set<nat>)
    requires IsUInt64(lo) && IsUInt64(hi)
    requires forall k | 0 <= k < |w| :: w[k] == ' '
    ensures var x, y := w + NatText(lo) + w, w + NatText(hi) + w;
      Split(x + "-" + y, '-') == [x, y] && Added([x, y], s) == Ok(s + Range(lo, hi))
  {
    ParseULongSpaced(lo, w, w);
    ParseULongSpaced(hi, w, w);
    SpacedSplit(w + NatText(lo) + w, w + NatText(hi) + w, w, NatText(lo), NatText(hi));
  }

  lemma SpacedSplit(x: string, y: string, w: string, d: string, e: string)
    requires forall k | 0 <= k < |w| :: w[k] == ' '
    requires AllDigits(d) && AllDigits(e) && x == w + d + w && y == w + e + w
    ensures Split(x + "-" + y, '-') == [x, y]
  {
    SpacedDigitsHaveNoDash(w, d);
    SpacedDigitsHaveNoDash(w, e);
    assert Join([x, y], '-') == x + "-" + y by {
      assert [x, y][1..] == [y];
    }
    SplitJoin([x, y], '-');
  }

  lemma SpacedDigitsHaveNoDash(w: string, d: string)
    requires forall k | 0 <= k < |w| :: w[k] == ' '
    requires AllDigits(d)
    ensures '-' !in w + d + w
  {
    var t := w + d + w;
    assert forall k | 0 <= k < |t| :: t[k] == ' ' || IsDigit(t[k]) by {
      assert forall k | |w| <= k < |w| + |d| :: t[k] == d[k - |w|];
    }
  }

  /** A single number splits into itself. */
  lemma SingleSplits(n: nat)
    ensures var t := NatText(n);
      Split(t, '-') == [t] && IsLine(t) && t[0] != '#' && t[0] != 'A'
  {
    var t := NatText(n);
    DigitsLine(t);
    SplitJoin([t], '-');
  }

  /** The line of an annotated range adds the range to the annotated
      frames. */
  lemma StepAnnotated(c: Collected, lo: nat, hi: nat)
    requires IsUInt64(lo) && IsUInt64(hi)
    ensures Step(c, EntryLine(Annotated(lo, hi))) == Ok(c.(all := c.all + Range(lo, hi)))
    ensures IsLine(EntryLine(Annotated(lo, hi)))
  {
    PairSplits(lo, hi);
    AddedPair(lo, hi, c.all);
    KeyedLine(c, Pair(lo, hi), [NatText(lo), NatText(hi)]);
  }

  lemma AddedPair(lo: nat, hi: nat, s: set<nat>)
    requires IsUInt64(lo) && IsUInt64(hi)
    ensures Added([NatText(lo), NatText(hi)], s) == Ok(s + Range(lo, hi))
  {
    ParseULongText(lo);
    ParseULongText(hi);
  }

  /** `ANNOTATED_RANGE=` before a text without its first letter hands that
      text to `Split`. */
  lemma KeyedLine(c: Collected, t: string, parts: seq<string>)
    requires 'A' !in t && IsLine(t) && Split(t, '-') == parts
    ensures Step(c, RANGE_KEY + t) ==
      match Added(parts, c.all)
      case Err(e) => Err(e)
      case Ok(all) => Ok(c.(all := all))
    ensures IsLine(RANGE_KEY + t)
  {
    RemovePrefix(RANGE_KEY, t);
    var line := RANGE_KEY + t;
    assert line[0] == 'A' && line[..|RANGE_KEY|] == RANGE_KEY;
    ConcatIsLine(RANGE_KEY, t);
  }

  /** The line of an anomalous range adds the range to the anomalous
      frames. */
  lemma StepAnomalous(c: Collected, lo: nat, hi: nat)
    requires IsUInt64(lo) && IsUInt64(hi)
    ensures Step(c, EntryLine(Anomalous(lo, hi))) == Ok(c.(anomalies := c.anomalies + Range(lo, hi)))
    ensures IsLine(EntryLine(Anomalous(lo, hi)))
  {
    if lo == hi {
      SingleSplits(lo);
      ParseULongText(lo);
      assert Range(lo, hi) == {lo};
      BareLine(c, NatText(lo), [NatText(lo)]);
    } else {
      PairSplits(lo, hi);
      AddedPair(lo, hi, c.anomalies);
      BareLine(c, Pair(lo, hi), [NatText(lo), NatText(hi)]);
    }
  }

  /** A line that is neither a comment, empty nor keyed is split as it
      stands and its frames join the anomalous ones. */
  lemma BareLine(c: Collected, t: string, parts: seq<string>)
    requires |t| > 0 && t[0] != '#' && t[0] != 'A' && Split(t, '-') == parts
    ensures Step(c, t) ==
      match Added(parts, c.anomalies)
      case Err(e) => Err(e)
      case Ok(anomalies) => Ok(c.(anomalies := anomalies))
  {
    assert !StartsWith(t, COMMENT) by { assert t[..1][0] == t[0]; }
    assert !StartsWith(t, RANGE_KEY) by {
      if |RANGE_KEY| <= |t| { assert t[..|RANGE_KEY|][0] == t[0]; }
    }
  }

  lemma ConcatIsLine(p: string, q: string)
    requires IsLine(p) && IsLine(q)
    ensures IsLine(p + q)
  {
    assert forall k | |p| <= k < |p + q| :: (p + q)[k] == q[k - |p|];
  }

  /** Comments and empty lines change nothing. */
  lemma StepSkipped(c: Collected, e: Entry)
    requires (e.Comment? || e.Blank?) && Writable(e)
    ensures Step(c, EntryLine(e)) == Ok(c) && IsLine(EntryLine(e))
  {
    if e.Comment? {
      ConcatIsLine(COMMENT, e.note);
      assert (COMMENT + e.note)[..1] == COMMENT;
    }
  }

  lemma StepEntry(c: Collected, e: Entry)
    requires Writable(e)
    ensures Step(c, EntryLine(e)) ==
      Ok(Collected(c.all + (if e.Annotated? then Range(e.lo, e.hi) else {}),
                   c.anomalies + (if e.Anomalous? then Range(e.lo, e.hi) else {})))
    ensures IsLine(EntryLine(e))
  {
    match e {
      case Annotated(lo, hi) =>
        StepAnnotated(c, lo, hi);
        assert c.anomalies + {} == c.anomalies;
      case Anomalous(lo, hi) =>
        StepAnomalous(c, lo, hi);
        assert c.all + {} == c.all;
      case Comment(_) =>
        StepSkipped(c, e);
        assert c.all + {} == c.all && c.anomalies + {} == c.anomalies;
      case Blank =>
        StepSkipped(c, e);
        assert c.all + {} == c.all && c.anomalies + {} == c.anomalies;
    }
  }

  lemma CollectCons(c: Collected, lines: seq<string>)
    requires |lines| > 0 && Step(c, lines[0]).Ok?
    ensures Collect(c, lines) == Collect(Step(c, lines[0]).value, lines[1..])
  {
  }

  /** The lines of a sequence of entries collect the annotated and the
      anomalous ranges they name. */
  lemma {:induction false} CollectEntries(c: Collected, es: seq<Entry>)
    requires forall k | 0 <= k < |es| :: Writable(es[k])
    ensures Collect(c, EntryLines(es)) ==
      Ok(Collected(c.all + AnnotatedFrames(es), c.anomalies + AnomalousFrames(es)))
    ensures forall k | 0 <= k < |es| :: IsLine(EntryLines(es)[k])
    decreases |es|
  {
    if |es| == 0 {
      assert c.all + {} == c.all && c.anomalies + {} == c.anomalies;
    } else {
      var e := es[0];
      StepEntry(c, e);
      var d := Step(c, EntryLine(e)).value;
      CollectEntries(d, es[1..]);
      var lines := EntryLines(es);
      assert lines[0] == EntryLine(e) && lines[1..] == EntryLines(es[1..]);
      CollectCons(c, lines);
      var x := if e.Annotated? then Range(e.lo, e.hi) else {};
      var y := if e.Anomalous? then Range(e.lo, e.hi) else {};
      assert AnnotatedFrames(es) == x + AnnotatedFrames(es[1..]);
      assert AnomalousFrames(es) == y + AnomalousFrames(es[1..]);
      assert c.all + x + AnnotatedFrames(es[1..]) == c.all + AnnotatedFrames(es);
      assert c.anomalies + y + AnomalousFrames(es[1..]) == c.anomalies + AnomalousFrames(es);
      forall k | 0 <= k < |es|
        ensures IsLine(lines[k])
      {
        if k > 0 {
          assert lines[k] == EntryLines(es[1..])[k - 1];
        }
      }
    }
  }

  /** Reading a file written from entries gives, ascending, the annotated
      frames that no entry marks anomalous as the normal frames, and the
      frames that some entry marks anomalous as the anomaly frames. */
  lemma ReadEntries(es: seq<Entry>)
    requires forall k | 0 <= k < |es| :: Writable(es[k])
    ensures ReadText(WriteLines(EntryLines(es))) ==
      Ok(FrameAnnotations(SortedSeq(AnnotatedFrames(es) - AnomalousFrames(es)), SortedSeq(AnomalousFrames(es))))
  {
    CollectEntries(Collected({}, {}), es);
    assert {} + AnnotatedFrames(es) == AnnotatedFrames(es);
    assert {} + AnomalousFrames(es) == AnomalousFrames(es);
    ReadCollected(EntryLines(es), Collected(AnnotatedFrames(es), AnomalousFrames(es)));
  }

  lemma ReadCollected(lines: seq<string>, c: Collected)
    requires forall k | 0 <= k < |lines| :: IsLine(lines[k])
    requires Collect(Collected({}, {}), lines) == Ok(c)
    ensures ReadText(WriteLines(lines)) == Ok(Finish(c))
  {
    ReadWriteLines(lines);
  }

  /** A frame that an entry marks anomalous is never a normal frame, even
      when it is also annotated. */
  lemma AnomalousIsNeverNormal(text: string, frame: nat)
    requires ReadText(text).Ok?
    ensures frame in ReadText(text).value.anomalyFrames ==> frame !in ReadText(text).value.normalFrames
  {
  }
}
