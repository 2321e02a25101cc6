/** Anomaly-based annotations (AnomalyModel/Annotations.cs): an annotation
    marks the horizontal pixel range `[XStart, XEnd]` of frame `Frame` as
    an anomaly or as unclear. The reader walks the lines of a
    `.v2.anomaly_based.ann` file through a HEADER/DATA state machine and
    derives the sorted frame sets; the writer emits the format the reader
    accepts, with the annotations in comparer order. */
module Annotations {
  import opened Common
  import opened Text
  import opened Numbers
  import opened FrameSets

  datatype Label = Anomaly | Unclear

  /** `Annotation`; `AnomalyId` may be `null`. */
  datatype Annotation = Annotation(frame: nat, kind: Label, xStart: int, xEnd: int, anomalyId: Option<string>)

  /** The reader's result: three ascending frame arrays and the regions in
      file order. */
  datatype Annotations = Annotations(normalFrames: seq<nat>, anomalyFrames: seq<nat>, unclearFrames: seq<nat>,
                                     anomalyRegions: seq<Annotation>, unclearRegions: seq<Annotation>)

  // ---------------------------------------------------------------------
  // AnnotationComparer
  // ---------------------------------------------------------------------

  /** The lexicographic order on `(Frame, XStart, XEnd)`, written out as a
      reference for the comparer. */
  predicate KeyBefore(a: Annotation, b: Annotation)
  {
    a.frame < b.frame ||
    (a.frame == b.frame && (a.xStart < b.xStart || (a.xStart == b.xStart && a.xEnd < b.xEnd)))
  }

  predicate SameKey(a: Annotation, b: Annotation)
  {
    a.frame == b.frame && a.xStart == b.xStart && a.xEnd == b.xEnd
  }

  /** `AnnotationComparer.Compare`. */
  function Compare(a: Annotation, b: Annotation): (r: int)
  {
    if a.frame < b.frame then -1
    else if a.frame > b.frame then 1
    else if a.xStart < b.xStart then -1
    else if a.xStart > b.xStart then 1
    else if a.xEnd < b.xEnd then -1
    else if a.xEnd > b.xEnd then 1
    else 0
  }

  /** The comparer is the lexicographic order on the three keys: it returns
      -1, 0 or 1, 0 exactly on equal keys, and ignores label and id. */
  lemma CompareIsKeyOrder(a: Annotation, b: Annotation)
    ensures Compare(a, b) in {-1, 0, 1}
    ensures Compare(a, b) < 0 <==> KeyBefore(a, b)
    ensures Compare(a, b) > 0 <==> KeyBefore(b, a)
    ensures Compare(a, b) == 0 <==> SameKey(a, b)
  {
  }

  /** `Compare(a, b) == -Compare(b, a)`. */
  lemma CompareAntisymmetric(a: Annotation, b: Annotation)
    ensures Compare(a, b) == -Compare(b, a)
  {
  }

  lemma CompareTransitive(a: Annotation, b: Annotation, c: Annotation)
    ensures Compare(a, b) <= 0 && Compare(b, c) <= 0 ==> Compare(a, c) <= 0
    ensures Compare(a, b) < 0 && Compare(b, c) < 0 ==> Compare(a, c) < 0
  {
  }

  // ---------------------------------------------------------------------
  // OrderBy(a => a, new AnnotationComparer())
  // ---------------------------------------------------------------------

  predicate InOrder(s: seq<Annotation>)
  {
    forall i, j | 0 <= i < j < |s| :: Compare(s[i], s[j]) <= 0
  }

  /** Places `x` after every element not after it, so that of two
      annotations with equal keys the one inserted later stays later. */
  function Insert(x: Annotation, s: seq<Annotation>): (r: seq<Annotation>)
    requires InOrder(s)
    ensures InOrder(r) && multiset(r) == multiset(s) + multiset{x}
  {
    if |s| == 0 then [x]
    else if Compare(s[0], x) > 0 then
      InsertFront(x, s);
      [x] + s
    else
      var t := Insert(x, s[1..]);
      InsertAfterHead(x, s, t);
      [s[0]] + t
  }

  /** An annotation before the first of a sorted sequence may go in front. */
  lemma InsertFront(x: Annotation, s: seq<Annotation>)
    requires InOrder(s) && |s| > 0 && Compare(s[0], x) > 0
    ensures InOrder([x] + s) && multiset([x] + s) == multiset(s) + multiset{x}
  {
    assert forall j | 0 <= j < |s| :: Compare(x, s[j]) <= 0 by {
      forall j | 0 <= j < |s| ensures Compare(x, s[j]) <= 0 {
        CompareTransitive(x, s[0], s[j]);
      }
    }
    var r := [x] + s;
    assert forall j | 1 <= j < |r| :: r[j] == s[j - 1];
  }

  /** Otherwise the head stays in front of the rest with `x` inserted. */
  lemma InsertAfterHead(x: Annotation, s: seq<Annotation>, t: seq<Annotation>)
    requires InOrder(s) && |s| > 0 && Compare(s[0], x) <= 0
    requires InOrder(t) && multiset(t) == multiset(s[1..]) + multiset{x}
    ensures InOrder([s[0]] + t) && multiset([s[0]] + t) == multiset(s) + multiset{x}
  {
    assert s == [s[0]] + s[1..];
    assert multiset(s[1..] + [x]) == multiset(t);
    NotAfterAll(s[0], t, s[1..] + [x]);
    var r := [s[0]] + t;
    assert forall j | 1 <= j < |r| :: r[j] == t[j - 1];
  }

  /** If no element of `u` comes before `h`, no element of a permutation
      of `u` does. */
  lemma NotAfterAll(h: Annotation, t: seq<Annotation>, u: seq<Annotation>)
    requires forall j | 0 <= j < |u| :: Compare(h, u[j]) <= 0
    requires multiset(t) == multiset(u)
    ensures forall j | 0 <= j < |t| :: Compare(h, t[j]) <= 0
  {
    forall j | 0 <= j < |t|
      ensures Compare(h, t[j]) <= 0
    {
      assert t[j] in multiset(u);
      var k :| 0 <= k < |u| && u[k] == t[j];
    }
  }

  /** The stable sort `OrderBy` performs: the comparer order, and a
      permutation of the input. */
  function SortAnnotations(a: seq<Annotation>): (r: seq<Annotation>)
    ensures InOrder(r) && multiset(r) == multiset(a)
  {
    if |a| == 0 then []
    else
      assert a == a[..|a| - 1] + [a[|a| - 1]];
      Insert(a[|a| - 1], SortAnnotations(a[..|a| - 1]))
  }

  // ---------------------------------------------------------------------
  // AnnotationsWriter
  // ---------------------------------------------------------------------

  const HEADER: string := "HEADER"
  const DATA: string := "DATA"
  const FRAMES_KEY: string := "annotated_frames="

  function LabelText(l: Label): string
  {
    match l
    case Anomaly => "Anomaly"
    case Unclear => "Unclear"
  }

  /** The fields of an annotation's DATA line; a `null` id is written as
      the empty string. */
  function Fields(a: Annotation): seq<string>
  {
    [NatText(a.frame), LabelText(a.kind), IntText(a.xStart), IntText(a.xEnd),
     if a.anomalyId.Some? then a.anomalyId.value else ""]
  }

  function DataLine(a: Annotation): string
  {
    Join(Fields(a), ',')
  }

  function DataLines(s: seq<Annotation>): (lines: seq<string>)
    ensures |lines| == |s|
  {
    if |s| == 0 then [] else [DataLine(s[0])] + DataLines(s[1..])
  }

  function FrameTexts(fs: seq<nat>): (ts: seq<string>)
    ensures |ts| == |fs|
  {
    if |fs| == 0 then [] else [NatText(fs[0])] + FrameTexts(fs[1..])
  }

  /** `string.Join(",", frames)`: empty for no frames. */
  function FrameList(fs: seq<nat>): string
  {
    if |fs| == 0 then "" else Join(FrameTexts(fs), ',')
  }

  /** The four header lines: `HEADER`, the ascending frame list, a blank
      line and `DATA`. */
  function HeaderLines(annotatedFrames: set<nat>): seq<string>
  {
    [HEADER, FRAMES_KEY + FrameList(SortedSeq(annotatedFrames)), "", DATA]
  }

  /** The lines `AnnotationsWriter.Write` appends. */
  function FileLines(annotatedFrames: set<nat>, annotations: seq<Annotation>): seq<string>
  {
    HeaderLines(annotatedFrames) + DataLines(SortAnnotations(annotations))
  }

  lemma {:induction false} WriteLinesAppend(lines: seq<string>, l: string)
    ensures WriteLines(lines + [l]) == WriteLines(lines) + l + NEWLINE
    decreases |lines|
  {
    if |lines| == 0 {
      assert lines + [l] == [l];
    } else {
      assert (lines + [l])[1..] == lines[1..] + [l];
      WriteLinesAppend(lines[1..], l);
    }
  }

  lemma {:induction false} DataLinesAt(s: seq<Annotation>, i: nat)
    requires i < |s|
    ensures DataLines(s)[i] == DataLine(s[i])
    decreases i
  {
    if i > 0 {
      DataLinesAt(s[1..], i - 1);
    }
  }

  /** `AnnotationsWriter.Write`: the text of the file the `StringBuilder`
      collects. */
  method Write(annotatedFrames: set<nat>, annotations: seq<Annotation>) returns (text: string)
    ensures text == WriteLines(FileLines(annotatedFrames, annotations))
  {
    var header := HeaderLines(annotatedFrames);
    var frames := FRAMES_KEY + FrameList(SortedSeq(annotatedFrames));
    var builder := HEADER + NEWLINE;
    builder := builder + frames + NEWLINE;
    builder := builder + "" + NEWLINE;
    builder := builder + DATA + NEWLINE;
    FourLines(HEADER, frames, "", DATA);
    var sorted := SortAnnotations(annotations);
    var data := DataLines(sorted);
    assert header + data[..0] == header;
    for i := 0 to |sorted|
      invariant builder == WriteLines(header + data[..i])
    {
      DataLinesAt(sorted, i);
      AppendLine(header, data, i);
      builder := builder + DataLine(sorted[i]) + NEWLINE;
    }
    assert data[..|sorted|] == data;
    text := builder;
  }

  lemma AppendLine(header: seq<string>, lines: seq<string>, i: nat)
    requires i < |lines|
    ensures WriteLines(header + lines[..i + 1]) == WriteLines(header + lines[..i]) + lines[i] + NEWLINE
  {
    assert header + lines[..i + 1] == (header + lines[..i]) + [lines[i]];
    WriteLinesAppend(header + lines[..i], lines[i]);
  }

  lemma FourLines(a: string, b: string, c: string, d: string)
    ensures WriteLines([a, b, c, d]) == a + NEWLINE + b + NEWLINE + c + NEWLINE + d + NEWLINE
  {
    assert [d][1..] == [] && [c, d][1..] == [d] && [b, c, d][1..] == [c, d] && [a, b, c, d][1..] == [b, c, d];
    assert WriteLines([d]) == d + NEWLINE;
    assert WriteLines([c, d]) == c + NEWLINE + (d + NEWLINE);
    assert WriteLines([b, c, d]) == b + NEWLINE + (c + NEWLINE + (d + NEWLINE));
  }

  // ---------------------------------------------------------------------
  // AnnotationsReader
  // ---------------------------------------------------------------------

  datatype ReadState = NoSection | HeaderSection | DataSection

  /** Why `Read` throws. */
  datatype ReadError =
    | UnexpectedLine(line: string)   // `ArgumentException`
    | BadNumber                      // `ulong.Parse` or `int.Parse` refused a field
    | BadLabel                       // `Enum.Parse` refused the label field
    | MissingField                   // a DATA line with fewer than five fields
    | UnknownLabel(value: int)       // a numeric label that names no `AnnotationLabel`
    | NoAnnotatedFrames              // no `annotated_frames=` line

  /** The loop's variables: the state, the last `annotated_frames=` list
      (split but not yet parsed: `Select` is lazy), and the regions. */
  datatype Scan = Scan(state: ReadState, annotated: Option<seq<string>>,
                       anomalies: seq<Annotation>, unclear: seq<Annotation>)

  const START: Scan := Scan(NoSection, None, [], [])

  /** `Enum.Parse(typeof(AnnotationLabel), s)`: the trimmed text is a
      member name or, read by `int.Parse`, a number. */
  function ParseLabel(s: string): Option<int>
  {
    var t := Trim(s);
    if t == "Anomaly" then Some(0)
    else if t == "Unclear" then Some(1)
    else ParseInt(t)
  }

  /** A DATA line as the loop body reads it: the fields in order, each
      parse able to throw before the next field is looked at. Also returns
      the numeric label. */
  function ParseDataLine(line: string): (r: Result<(Annotation, int), ReadError>)
    ensures r.Ok? ==> IsUInt64(r.value.0.frame) && IsInt32(r.value.0.xStart) && IsInt32(r.value.0.xEnd)
    ensures r.Ok? ==> (r.value.1 == 0 <==> r.value.0.kind == Anomaly)
  {
    var split := Split(line, ',');
    var frame := ParseULong(split[0]);
    if frame.None? then Err(BadNumber)
    else if |split| < 2 then Err(MissingField)
    else
      var labelValue := ParseLabel(split[1]);
      if labelValue.None? then Err(BadLabel)
      else if |split| < 3 then Err(MissingField)
      else
        var xStart := ParseInt(split[2]);
        if xStart.None? then Err(BadNumber)
        else if |split| < 4 then Err(MissingField)
        else
          var xEnd := ParseInt(split[3]);
          if xEnd.None? then Err(BadNumber)
          else if |split| < 5 then Err(MissingField)
          else
            var id := if split[4] == "" then None else Some(split[4]);
            Ok((Annotation(frame.value, if labelValue.value == 0 then Anomaly else Unclear, xStart.value, xEnd.value, id),
                labelValue.value))
  }

  /** One pass of the loop body over `line`. */
  function Step(s: Scan, line: string): Result<Scan, ReadError>
  {
    if line == HEADER then Ok(s.(state := HeaderSection))
    else if line == DATA then Ok(s.(state := DataSection))
    else if s.state == HeaderSection && StartsWith(line, FRAMES_KEY) then
      Ok(s.(annotated := Some(Split(RemoveAll(line, FRAMES_KEY), ','))))
    else if s.state == DataSection then
      match ParseDataLine(line)
      case Err(e) => Err(e)
      case Ok((a, labelValue)) =>
        if labelValue == 0 then Ok(s.(anomalies := s.anomalies + [a]))
        else if labelValue == 1 then Ok(s.(unclear := s.unclear + [a]))
        else Err(UnknownLabel(labelValue))
    else if line != "" then Err(UnexpectedLine(line))
    else Ok(s)
  }

  /** The loop over all lines. */
  function ScanLines(s: Scan, lines: seq<string>): Result<Scan, ReadError>
    decreases |lines|
  {
    if |lines| == 0 then Ok(s)
    else
      match Step(s, lines[0])
      case Err(e) => Err(e)
      case Ok(t) => ScanLines(t, lines[1..])
  }

  /** Parses every token of the frame list, or fails on the first one that
      is not a `ulong`. */
  function ParseFrames(tokens: seq<string>): (r: Option<seq<nat>>)
    ensures r.Some? ==> |r.value| == |tokens| && forall k | 0 <= k < |tokens| :: ParseULong(tokens[k]) == Some(r.value[k])
  {
    if |tokens| == 0 then Some([])
    else
      var head := ParseULong(tokens[0]);
      var tail := ParseFrames(tokens[1..]);
      if head.None? || tail.None? then None else Some([head.value] + tail.value)
  }

  function FramesOf(regions: seq<Annotation>): set<nat>
  {
    set a | a in regions :: a.frame
  }

  /** The statements after the loop: the frame arrays are the distinct
      frames of the regions, ascending, and `NormalFrames` is the
      annotated frames without them. */
  function Finish(s: Scan): (r: Result<Annotations, ReadError>)
    ensures r.Ok? <==> s.annotated.Some? && ParseFrames(s.annotated.value).Some?
    ensures r.Ok? ==>
      var v := r.value;
      Ascending(v.normalFrames) && Ascending(v.anomalyFrames) && Ascending(v.unclearFrames) &&
      v.anomalyRegions == s.anomalies && v.unclearRegions == s.unclear &&
      (forall k :: k in v.anomalyFrames <==> k in FramesOf(s.anomalies)) &&
      (forall k :: k in v.unclearFrames <==> k in FramesOf(s.unclear)) &&
      (forall k :: k in v.normalFrames <==>
        k in ParseFrames(s.annotated.value).value && k !in v.anomalyFrames && k !in v.unclearFrames)
  {
    if s.annotated.None? then Err(NoAnnotatedFrames)
    else
      var frames := ParseFrames(s.annotated.value);
      if frames.None? then Err(BadNumber)
      else
        var anomalyFrames := SortedSeq(FramesOf(s.anomalies));
        var unclearFrames := SortedSeq(FramesOf(s.unclear));
        var normalFrames := SortedSeq(Elements(frames.value) - FramesOf(s.anomalies) - FramesOf(s.unclear));
        Ok(Annotations(normalFrames, anomalyFrames, unclearFrames, s.anomalies, s.unclear))
  }

  /** What `AnnotationsReader.Read` returns for a file holding `text`. */
  function ReadText(text: string): Result<Annotations, ReadError>
  {
    match ScanLines(START, ReadLines(text))
    case Err(e) => Err(e)
    case Ok(s) => Finish(s)
  }

  lemma ScanLinesStep(s: Scan, lines: seq<string>, i: nat)
    requires i < |lines|
    ensures ScanLines(s, lines[i..]) ==
      match Step(s, lines[i])
      case Err(e) => Err(e)
      case Ok(t) => ScanLines(t, lines[i + 1..])
  {
    assert lines[i..][0] == lines[i] && lines[i..][1..] == lines[i + 1..];
  }

  /** `AnnotationsReader.Read`. */
  method Read(text: string) returns (r: Result<Annotations, ReadError>)
    ensures r == ReadText(text)
  {
    var lines := ReadLines(text);
    var readState := NoSection;
    var annotatedFrames: Option<seq<string>> := None;
    var anomalyRegions: seq<Annotation> := [];
    var unclearRegions: seq<Annotation> := [];
    for i := 0 to |lines|
      invariant ScanLines(START, lines) ==
        ScanLines(Scan(readState, annotatedFrames, anomalyRegions, unclearRegions), lines[i..])
    {
      var line := lines[i];
      ScanLinesStep(Scan(readState, annotatedFrames, anomalyRegions, unclearRegions), lines, i);
      if line == HEADER {
        readState := HeaderSection;
      } else if line == DATA {
        readState := DataSection;
      } else if readState == HeaderSection && StartsWith(line, FRAMES_KEY) {
        annotatedFrames := Some(Split(RemoveAll(line, FRAMES_KEY), ','));
      } else if readState == DataSection {
        var parsed := ParseDataLine(line);
        if parsed.Err? {
          return Err(parsed.error);
        }
        var (annotation, labelValue) := parsed.value;
        if labelValue == 0 {
          anomalyRegions := anomalyRegions + [annotation];
        } else if labelValue == 1 {
          unclearRegions := unclearRegions + [annotation];
        } else {
          return Err(UnknownLabel(labelValue));
        }
      } else if line != "" {
        return Err(UnexpectedLine(line));
      }
    }
    assert lines[|lines|..] == [];
    r := Finish(Scan(readState, annotatedFrames, anomalyRegions, unclearRegions));
  }

  /** A non-empty line before the first `HEADER` or `DATA` line makes
      `Read` throw. */
  lemma StrayFirstLine(text: string)
    requires |ReadLines(text)| > 0
    requires var l := ReadLines(text)[0]; l != "" && l != HEADER && l != DATA
    ensures ReadText(text) == Err(UnexpectedLine(ReadLines(text)[0]))
  {
    var lines := ReadLines(text);
    ScanLinesStep(START, lines, 0);
    assert lines[0..] == lines;
  }

  // ---------------------------------------------------------------------
  // Write, then Read
  // ---------------------------------------------------------------------

  function Only(s: seq<Annotation>, l: Label): (r: seq<Annotation>)
    ensures forall a | a in r :: a in s && a.kind == l
  {
    if |s| == 0 then [] else (if s[0].kind == l then [s[0]] else []) + Only(s[1..], l)
  }

  /** What the writer can store so that the reader gives it back: frame
      numbers are `ulong`s, pixel positions `int`s, and an id is either
      `null` or a non-empty string with no comma and no line break. */
  predicate Storable(a: Annotation)
  {
    IsUInt64(a.frame) && IsInt32(a.xStart) && IsInt32(a.xEnd) &&
    (a.anomalyId.Some? ==> a.anomalyId.value != "" && ',' !in a.anomalyId.value && IsLine(a.anomalyId.value))
  }

  lemma DigitsHaveNoSeparator(s: string)
    requires AllDigits(s)
    ensures ',' !in s && '-' !in s && IsLine(s)
  {
  }

  lemma IntTextHasNoComma(i: int)
    ensures ',' !in IntText(i) && IsLine(IntText(i))
  {
    if i < 0 {
      DigitsHaveNoSeparator(NatText(-i));
    } else {
      DigitsHaveNoSeparator(NatText(i));
    }
  }

  lemma FieldsOf(a: Annotation)
    requires Storable(a)
    ensures forall k | 0 <= k < 5 :: ',' !in Fields(a)[k] && IsLine(Fields(a)[k])
    ensures Split(DataLine(a), ',') == Fields(a)
  {
    DigitsHaveNoSeparator(NatText(a.frame));
    IntTextHasNoComma(a.xStart);
    IntTextHasNoComma(a.xEnd);
    SplitJoin(Fields(a), ',');
  }

  lemma {:induction false} JoinIsLine(parts: seq<string>, c: char)
    requires |parts| >= 1 && !IsLineBreak(c) && forall k | 0 <= k < |parts| :: IsLine(parts[k])
    ensures IsLine(Join(parts, c))
    decreases |parts|
  {
    if |parts| > 1 {
      JoinIsLine(parts[1..], c);
    }
  }

  /** The label's name has no white space for `Enum.Parse` to trim. */
  lemma LabelTrimmed(l: Label)
    ensures ParseLabel(LabelText(l)) == Some(if l == Anomaly then 0 else 1)
  {
    TrimUntouched(LabelText(l));
  }

  /** The fields of a DATA line with `w` written on both sides of the
      four parsed fields. */
  function PaddedFields(a: Annotation, w: string): seq<string>
  {
    [w + NatText(a.frame) + w, w + LabelText(a.kind) + w, w + IntText(a.xStart) + w,
     w + IntText(a.xEnd) + w, if a.anomalyId.Some? then a.anomalyId.value else ""]
  }

  lemma PaddedHasNoComma(w: string, t: string)
    requires forall k | 0 <= k < |w| :: w[k] == ' '
    requires ',' !in t
    ensures ',' !in w + t + w
  {
  }

  /** A DATA line whose five fields each parse reads as their annotation. */
  lemma ParsedFields(line: string, f: seq<string>, a: Annotation, value: int)
    requires Split(line, ',') == f && |f| == 5
    requires ParseULong(f[0]) == Some(a.frame)
    requires ParseLabel(f[1]) == Some(value) && (value == 0 || value == 1)
    requires value == 0 <==> a.kind == Anomaly
    requires ParseInt(f[2]) == Some(a.xStart)
    requires ParseInt(f[3]) == Some(a.xEnd)
    requires a.anomalyId == (if f[4] == "" then None else Some(f[4]))
    ensures ParseDataLine(line) == Ok((a, value))
  {
  }

  /** `Enum.Parse` trims the spaces around a label's name. */
  lemma LabelPadded(l: Label, w: string)
    requires forall k | 0 <= k < |w| :: w[k] == ' '
    ensures ParseLabel(w + LabelText(l) + w) == Some(if l == Anomaly then 0 else 1)
  {
    TrimPadded(w, LabelText(l), w);
  }

  /** The padded fields hold no comma, so `Split` gives them back. */
  lemma PaddedSplit(a: Annotation, w: string)
    requires Storable(a)
    requires forall k | 0 <= k < |w| :: w[k] == ' '
    ensures Split(Join(PaddedFields(a, w), ','), ',') == PaddedFields(a, w)
  {
    DigitsHaveNoSeparator(NatText(a.frame));
    IntTextHasNoComma(a.xStart);
    IntTextHasNoComma(a.xEnd);
    PaddedHasNoComma(w, NatText(a.frame));
    PaddedHasNoComma(w, LabelText(a.kind));
    PaddedHasNoComma(w, IntText(a.xStart));
    PaddedHasNoComma(w, IntText(a.xEnd));
    SplitJoin(PaddedFields(a, w), ',');
  }

  /** A DATA line whose numbers and label carry spaces around them reads
      as the annotation, as `ulong.Parse`, `Enum.Parse` and `int.Parse`
      accept such fields. */
  lemma PaddedDataLine(a: Annotation, w: string)
    requires Storable(a)
    requires forall k | 0 <= k < |w| :: w[k] == ' '
    ensures ParseDataLine(Join(PaddedFields(a, w), ',')) == Ok((a, if a.kind == Anomaly then 0 else 1))
  {
    var f := PaddedFields(a, w);
    PaddedSplit(a, w);
    ParseULongSpaced(a.frame, w, w);
    LabelPadded(a.kind, w);
    ParseIntPadded(a.xStart, w, w);
    ParseIntPadded(a.xEnd, w, w);
    ParsedFields(Join(f, ','), f, a, if a.kind == Anomaly then 0 else 1);
  }

  /** A stored DATA line reads back as the annotation it came from. */
  lemma DataLineParses(a: Annotation)
    requires Storable(a)
    ensures ParseDataLine(DataLine(a)) == Ok((a, if a.kind == Anomaly then 0 else 1))
    ensures IsLine(DataLine(a)) && DataLine(a) != HEADER && DataLine(a) != DATA
  {
    FieldsOf(a);
    LabelTrimmed(a.kind);
    ParseULongText(a.frame);
    ParseIntText(a.xStart);
    ParseIntText(a.xEnd);
    JoinIsLine(Fields(a), ',');
    assert ',' in DataLine(a) by {
      assert Split(DataLine(a), ',') == Fields(a);
      assert Count(DataLine(a), ',') == 4;
      CountIn(DataLine(a), ',');
    }
  }

  lemma {:induction false} CountIn(s: string, c: char)
    requires Count(s, c) > 0
    ensures c in s
    decreases |s|
  {
    if s[0] != c {
      CountIn(s[1..], c);
    }
  }

  lemma ScanCons(s: Scan, lines: seq<string>)
    requires |lines| > 0 && Step(s, lines[0]).Ok?
    ensures ScanLines(s, lines) == ScanLines(Step(s, lines[0]).value, lines[1..])
  {
  }

  /** In the DATA section a stored line appends its annotation to the
      regions of its label. */
  lemma StepData(s: Scan, a: Annotation)
    requires s.state == DataSection && Storable(a)
    ensures Step(s, DataLine(a)) ==
      Ok(if a.kind == Anomaly then Scan(s.state, s.annotated, s.anomalies + [a], s.unclear)
         else Scan(s.state, s.annotated, s.anomalies, s.unclear + [a]))
  {
    DataLineParses(a);
  }

  /** The regions after a stored line of `a` and then those of `rest` are
      the regions after those of `[a] + rest`. */
  lemma Accumulate(anomalies: seq<Annotation>, unclear: seq<Annotation>, a: Annotation, rest: seq<Annotation>)
    ensures (if a.kind == Anomaly then anomalies + [a] else anomalies) + Only(rest, Anomaly) == anomalies + Only([a] + rest, Anomaly)
    ensures (if a.kind == Unclear then unclear + [a] else unclear) + Only(rest, Unclear) == unclear + Only([a] + rest, Unclear)
  {
    OnlyCons(anomalies, a, rest, Anomaly);
    OnlyCons(unclear, a, rest, Unclear);
  }

  /** One label's half of `Accumulate`. */
  lemma OnlyCons(acc: seq<Annotation>, a: Annotation, rest: seq<Annotation>, l: Label)
    ensures (if a.kind == l then acc + [a] else acc) + Only(rest, l) == acc + Only([a] + rest, l)
  {
    OnlyHead(a, rest, l);
    var o := Only(rest, l);
    if a.kind == l {
      assert acc + [a] + o == acc + ([a] + o);
    } else {
      assert [] + o == o;
    }
  }

  lemma OnlyHead(a: Annotation, rest: seq<Annotation>, l: Label)
    ensures Only([a] + rest, l) == (if a.kind == l then [a] else []) + Only(rest, l)
  {
    assert ([a] + rest)[1..] == rest;
  }

  /** In the DATA section, the stored lines of `regions` append the anomalies
      and the unclear annotations among them, in order, to the regions. */
  lemma {:induction false} ScanDataLines(s: Scan, regions: seq<Annotation>)
    requires s.state == DataSection && forall k | 0 <= k < |regions| :: Storable(regions[k])
    ensures ScanLines(s, DataLines(regions)) ==
      Ok(Scan(s.state, s.annotated, s.anomalies + Only(regions, Anomaly), s.unclear + Only(regions, Unclear)))
    decreases |regions|
  {
    if |regions| == 0 {
      assert s.anomalies + [] == s.anomalies && s.unclear + [] == s.unclear;
    } else {
      var a, rest := regions[0], regions[1..];
      StepData(s, a);
      var lines := DataLines(regions);
      assert lines[0] == DataLine(a) && lines[1..] == DataLines(rest);
      ScanCons(s, lines);
      var t := Step(s, DataLine(a)).value;
      ScanDataLines(t, rest);
      Accumulate(s.anomalies, s.unclear, a, rest);
      assert regions == [a] + rest;
    }
  }

  lemma FrameTextsLines(fs: seq<nat>)
    requires forall k | 0 <= k < |fs| :: IsUInt64(fs[k])
    ensures forall k | 0 <= k < |fs| :: FrameTexts(fs)[k] == NatText(fs[k])
    ensures forall k | 0 <= k < |fs| :: ',' !in FrameTexts(fs)[k] && IsLine(FrameTexts(fs)[k])
    ensures ParseFrames(FrameTexts(fs)) == Some(fs)
  {
    FrameTextsAt(fs);
    forall k | 0 <= k < |fs|
      ensures ',' !in FrameTexts(fs)[k] && IsLine(FrameTexts(fs)[k])
    {
      DigitsHaveNoSeparator(NatText(fs[k]));
    }
    FrameTextsParse(fs);
  }

  /** Text `k` of the list is the text of frame `k`. */
  lemma {:induction false} FrameTextsAt(fs: seq<nat>)
    ensures forall k | 0 <= k < |fs| :: FrameTexts(fs)[k] == NatText(fs[k])
    decreases |fs|
  {
    if |fs| > 0 {
      FrameTextsAt(fs[1..]);
      assert forall k | 1 <= k < |fs| :: FrameTexts(fs)[k] == FrameTexts(fs[1..])[k - 1];
    }
  }

  /** The texts of frames that fit a `ulong` parse back to the frames. */
  lemma {:induction false} FrameTextsParse(fs: seq<nat>)
    requires forall k | 0 <= k < |fs| :: IsUInt64(fs[k])
    ensures ParseFrames(FrameTexts(fs)) == Some(fs)
    decreases |fs|
  {
    if |fs| > 0 {
      FrameTextsParse(fs[1..]);
      ParseULongText(fs[0]);
      assert FrameTexts(fs)[1..] == FrameTexts(fs[1..]);
      assert fs == [fs[0]] + fs[1..];
    }
  }

  /** The frame list of a non-empty set: digits and commas on one line,
      splitting into the texts of the frames, which parse back. */
  lemma FrameListFacts(fs: seq<nat>)
    requires |fs| > 0 && forall k | 0 <= k < |fs| :: IsUInt64(fs[k])
    ensures 'a' !in FrameList(fs) && IsLine(FrameList(fs))
    ensures Split(FrameList(fs), ',') == FrameTexts(fs) && ParseFrames(FrameTexts(fs)) == Some(fs)
  {
    FrameTextsLines(fs);
    var list := FrameList(fs);
    assert list == Join(FrameTexts(fs), ',');
    JoinIsLine(FrameTexts(fs), ',');
    forall k | 0 <= k < |list|
      ensures list[k] != 'a'
    {
      JoinChars(FrameTexts(fs), ',', k);
    }
    SplitJoin(FrameTexts(fs), ',');
  }

  /** `annotated_frames=` followed by such a list is recognised in the
      HEADER section and hands the list to `Split`. */
  lemma KeyLine(list: string)
    requires 'a' !in list && IsLine(list)
    ensures var line := FRAMES_KEY + list;
      IsLine(line) && StartsWith(line, FRAMES_KEY) && line != HEADER && line != DATA &&
      RemoveAll(line, FRAMES_KEY) == list
  {
    RemovePrefix(FRAMES_KEY, list);
    var line := FRAMES_KEY + list;
    assert line[0] == 'a';
    assert line[..|FRAMES_KEY|] == FRAMES_KEY;
    ConcatLine(FRAMES_KEY, list);
  }

  /** The frame-list line: a line the reader recognises in the HEADER
      section, whose list splits into the written frame numbers. */
  lemma FramesLine(annotatedFrames: set<nat>)
    requires annotatedFrames != {} && forall f | f in annotatedFrames :: IsUInt64(f)
    ensures var fs := SortedSeq(annotatedFrames);
      var line := FRAMES_KEY + FrameList(fs);
      IsLine(line) && StartsWith(line, FRAMES_KEY) && line != HEADER && line != DATA &&
      Split(RemoveAll(line, FRAMES_KEY), ',') == FrameTexts(fs) && ParseFrames(FrameTexts(fs)) == Some(fs)
  {
    var fs := SortedSeq(annotatedFrames);
    assert forall k | 0 <= k < |fs| :: fs[k] in annotatedFrames;
    FrameListFacts(fs);
    KeyLine(FrameList(fs));
  }

  lemma ConcatLine(p: string, q: string)
    requires IsLine(p) && IsLine(q)
    ensures IsLine(p + q)
  {
    assert forall k | |p| <= k < |p + q| :: (p + q)[k] == q[k - |p|];
  }

  /** The four header lines around a recognised frame-list line. */
  lemma ScanHeaderLines(line: string)
    requires StartsWith(line, FRAMES_KEY) && line != HEADER && line != DATA
    ensures ScanLines(START, [HEADER, line, "", DATA]) ==
      Ok(Scan(DataSection, Some(Split(RemoveAll(line, FRAMES_KEY), ',')), [], []))
  {
    var s1 := Scan(HeaderSection, None, [], []);
    var s2 := Scan(HeaderSection, Some(Split(RemoveAll(line, FRAMES_KEY), ',')), [], []);
    assert !StartsWith("", FRAMES_KEY);
    assert [HEADER, line, "", DATA][1..] == [line, "", DATA];
    assert [line, "", DATA][1..] == ["", DATA];
    assert ["", DATA][1..] == [DATA];
    assert [DATA][1..] == [];
    assert Step(START, HEADER) == Ok(s1);
    assert Step(s1, line) == Ok(s2);
    assert Step(s2, "") == Ok(s2);
    assert Step(s2, DATA) == Ok(s2.(state := DataSection));
    ScanCons(START, [HEADER, line, "", DATA]);
    ScanCons(s1, [line, "", DATA]);
    ScanCons(s2, ["", DATA]);
    ScanCons(s2, [DATA]);
  }

  /** The header lines read back: after them the reader is in the DATA
      section with the frame list it will parse to the annotated frames. */
  lemma ScanHeader(annotatedFrames: set<nat>)
    requires annotatedFrames != {} && forall f | f in annotatedFrames :: IsUInt64(f)
    ensures ScanLines(START, HeaderLines(annotatedFrames)) ==
      Ok(Scan(DataSection, Some(FrameTexts(SortedSeq(annotatedFrames))), [], []))
  {
    var line := FRAMES_KEY + FrameList(SortedSeq(annotatedFrames));
    FramesLine(annotatedFrames);
    ScanHeaderLines(line);
    assert HeaderLines(annotatedFrames) == [HEADER, line, "", DATA];
  }

  /** Every line of a header of lines followed by stored DATA lines is a
      line `File.ReadLines` gives back whole. */
  lemma DataLinesAreLines(header: seq<string>, sorted: seq<Annotation>)
    requires forall k | 0 <= k < |header| :: IsLine(header[k])
    requires forall k | 0 <= k < |sorted| :: Storable(sorted[k])
    ensures forall k | 0 <= k < |header + DataLines(sorted)| :: IsLine((header + DataLines(sorted))[k])
  {
    var lines := header + DataLines(sorted);
    forall k | 0 <= k < |lines|
      ensures IsLine(lines[k])
    {
      if k >= |header| {
        DataLinesAt(sorted, k - |header|);
        DataLineParses(sorted[k - |header|]);
      }
    }
  }

  /** Every character of a join of digit strings is a digit or the
      separator. */
  lemma {:induction false} JoinChars(parts: seq<string>, c: char, k: nat)
    requires |parts| >= 1 && forall j | 0 <= j < |parts| :: AllDigits(parts[j])
    requires k < |Join(parts, c)|
    ensures IsDigit(Join(parts, c)[k]) || Join(parts, c)[k] == c
    decreases |parts|
  {
    if |parts| > 1 && k > |parts[0]| {
      JoinChars(parts[1..], c, k - |parts[0]| - 1);
    }
  }

  lemma {:induction false} ScanAppend(s: Scan, a: seq<string>, b: seq<string>)
    requires ScanLines(s, a).Ok?
    ensures ScanLines(s, a + b) == ScanLines(ScanLines(s, a).value, b)
    decreases |a|
  {
    if |a| == 0 {
      assert a + b == b;
    } else {
      assert (a + b)[0] == a[0] && (a + b)[1..] == a[1..] + b;
      ScanAppend(Step(s, a[0]).value, a[1..], b);
    }
  }

  /** The whole written file scans to the DATA section holding the frame
      list and the regions of each label in order. */
  lemma ScanFile(annotatedFrames: set<nat>, sorted: seq<Annotation>)
    requires annotatedFrames != {} && forall f | f in annotatedFrames :: IsUInt64(f)
    requires forall k | 0 <= k < |sorted| :: Storable(sorted[k])
    ensures ScanLines(START, HeaderLines(annotatedFrames) + DataLines(sorted)) ==
      Ok(Scan(DataSection, Some(FrameTexts(SortedSeq(annotatedFrames))), Only(sorted, Anomaly), Only(sorted, Unclear)))
  {
    ScanHeader(annotatedFrames);
    ScanThenData(START, HeaderLines(annotatedFrames), sorted, Some(FrameTexts(SortedSeq(annotatedFrames))));
  }

  /** Lines that leave the reader in the DATA section with no regions,
      followed by stored DATA lines. */
  lemma ScanThenData(s: Scan, header: seq<string>, sorted: seq<Annotation>, annotated: Option<seq<string>>)
    requires ScanLines(s, header) == Ok(Scan(DataSection, annotated, [], []))
    requires forall k | 0 <= k < |sorted| :: Storable(sorted[k])
    ensures ScanLines(s, header + DataLines(sorted)) ==
      Ok(Scan(DataSection, annotated, Only(sorted, Anomaly), Only(sorted, Unclear)))
  {
    var mid := Scan(DataSection, annotated, [], []);
    ScanDataLines(mid, sorted);
    assert [] + Only(sorted, Anomaly) == Only(sorted, Anomaly);
    assert [] + Only(sorted, Unclear) == Only(sorted, Unclear);
    ScanAppend(s, header, DataLines(sorted));
  }

  /** Reading the text of lines that are whole lines and scan to `end`. */
  lemma ReadBack(lines: seq<string>, end: Scan)
    requires forall k | 0 <= k < |lines| :: IsLine(lines[k])
    requires ScanLines(START, lines) == Ok(end)
    ensures ReadText(WriteLines(lines)) == Finish(end)
  {
    ReadWriteLines(lines);
  }

  /** The statements after the loop on the scanned file. */
  lemma FinishWritten(annotatedFrames: set<nat>, anomalies: seq<Annotation>, unclear: seq<Annotation>)
    requires annotatedFrames != {} && forall f | f in annotatedFrames :: IsUInt64(f)
    ensures Finish(Scan(DataSection, Some(FrameTexts(SortedSeq(annotatedFrames))), anomalies, unclear)) ==
      Ok(Annotations(SortedSeq(annotatedFrames - FramesOf(anomalies) - FramesOf(unclear)),
                     SortedSeq(FramesOf(anomalies)), SortedSeq(FramesOf(unclear)), anomalies, unclear))
  {
    FramesLine(annotatedFrames);
    FinishParsed(FrameTexts(SortedSeq(annotatedFrames)), annotatedFrames, anomalies, unclear);
  }

  lemma FinishParsed(tokens: seq<string>, annotatedFrames: set<nat>, anomalies: seq<Annotation>, unclear: seq<Annotation>)
    requires ParseFrames(tokens) == Some(SortedSeq(annotatedFrames))
    ensures Finish(Scan(DataSection, Some(tokens), anomalies, unclear)) ==
      Ok(Annotations(SortedSeq(annotatedFrames - FramesOf(anomalies) - FramesOf(unclear)),
                     SortedSeq(FramesOf(anomalies)), SortedSeq(FramesOf(unclear)), anomalies, unclear))
  {
    var fs := SortedSeq(annotatedFrames);
    assert forall k :: k in Elements(fs) <==> k in annotatedFrames;
    assert Elements(fs) == annotatedFrames;
  }

  /** Every line of the written file is a whole line. */
  lemma FileLinesAreLines(annotatedFrames: set<nat>, sorted: seq<Annotation>)
    requires annotatedFrames != {} && forall f | f in annotatedFrames :: IsUInt64(f)
    requires forall k | 0 <= k < |sorted| :: Storable(sorted[k])
    ensures var lines := HeaderLines(annotatedFrames) + DataLines(sorted);
      forall k | 0 <= k < |lines| :: IsLine(lines[k])
  {
    HeaderLinesAreLines(annotatedFrames);
    DataLinesAreLines(HeaderLines(annotatedFrames), sorted);
  }

  lemma HeaderLinesAreLines(annotatedFrames: set<nat>)
    requires annotatedFrames != {} && forall f | f in annotatedFrames :: IsUInt64(f)
    ensures forall k | 0 <= k < |HeaderLines(annotatedFrames)| :: IsLine(HeaderLines(annotatedFrames)[k])
  {
    FramesLineIsLine(annotatedFrames);
    HeaderShapeLines(HEADER, FRAMES_KEY + FrameList(SortedSeq(annotatedFrames)), "", DATA);
  }

  lemma HeaderShapeLines(a: string, b: string, c: string, d: string)
    requires IsLine(b)
    requires a == HEADER && c == "" && d == DATA
    ensures forall k | 0 <= k < 4 :: IsLine([a, b, c, d][k])
  {
    assert IsLine(HEADER) && IsLine(DATA);
  }

  lemma FramesLineIsLine(annotatedFrames: set<nat>)
    requires annotatedFrames != {} && forall f | f in annotatedFrames :: IsUInt64(f)
    ensures IsLine(FRAMES_KEY + FrameList(SortedSeq(annotatedFrames)))
  {
    FramesLine(annotatedFrames);
  }

  /** Round trip: reading the file `Write` produces for annotated frames
      `F` and annotations `A` gives back `A` split by label in comparer
      order, the distinct frames of each part ascending, and the annotated
      frames that carry no annotation as the normal frames. */
  lemma ReadWrite(annotatedFrames: set<nat>, annotations: seq<Annotation>)
    requires annotatedFrames != {} && forall f | f in annotatedFrames :: IsUInt64(f)
    requires forall k | 0 <= k < |annotations| :: Storable(annotations[k])
    ensures var sorted := SortAnnotations(annotations);
      var anomalies, unclear := Only(sorted, Anomaly), Only(sorted, Unclear);
      ReadText(WriteLines(FileLines(annotatedFrames, annotations))) ==
        Ok(Annotations(SortedSeq(annotatedFrames - FramesOf(anomalies) - FramesOf(unclear)),
                       SortedSeq(FramesOf(anomalies)), SortedSeq(FramesOf(unclear)), anomalies, unclear))
  {
    var sorted := SortAnnotations(annotations);
    forall k | 0 <= k < |sorted|
      ensures Storable(sorted[k])
    {
      assert sorted[k] in multiset(annotations);
    }
    var header := HeaderLines(annotatedFrames);
    FileLinesAreLines(annotatedFrames, sorted);
    ScanFile(annotatedFrames, sorted);
    var anomalies, unclear := Only(sorted, Anomaly), Only(sorted, Unclear);
    ReadBack(header + DataLines(sorted), Scan(DataSection, Some(FrameTexts(SortedSeq(annotatedFrames))), anomalies, unclear));
    FinishWritten(annotatedFrames, anomalies, unclear);
  }
}
