/** The rope segmentation of `HogTransformer` (AnomalyDetection/HogTransformer.cs):
    a grey image is cut into cells, each cell is classified by its share of
    dark (background) pixels, and every column of cells is scanned top to
    bottom for the rope's upper and lower edge. The rope runs horizontally,
    so a column of cells crosses it. */
module HogTransformer {
  import opened Common

  datatype CellType = Background | Edge | Rope

  /** A rope found in one column of cells: first and last cell, both
      included, its width in cells and the column's background fractions. */
  datatype RopeLocation = RopeLocation(startCellY: int, endCellY: int, ropeWidthCells: int,
                                       backgroundPixelPercentages: seq<real>)

  /** The `RopeLocation` constructor: the width counts the cell rows from
      the start row to the end row, both included. */
  function Location(startCellY: int, endCellY: int, percentages: seq<real>): (l: RopeLocation)
    ensures l.startCellY == startCellY && l.endCellY == endCellY && l.backgroundPixelPercentages == percentages
    ensures l.startCellY + l.ropeWidthCells - 1 == l.endCellY
    ensures startCellY <= endCellY ==> l.ropeWidthCells >= 1
  {
    RopeLocation(startCellY, endCellY, endCellY - startCellY + 1, percentages)
  }

  /** The exceptions of the segmentation: a zero cell size divides by zero,
      a negative grid size cannot be allocated, and a column either has a
      background cell inside the rope or no complete rope. */
  datatype SegmentError =
    | DivideByZero
    | NegativeSize
    | BackgroundInsideRope(cellX: int)
    | RopeNotFound(cellX: int)
    | NoLocations

  /** The transformer's read-only settings. */
  datatype Settings = Settings(cellWidth: int, cellHeight: int, maxBackgroundIntensity: real,
                               edgeThreshold: real, backgroundThreshold: real)

  /** A grey image as rows of intensities. */
  type Image = seq<seq<int>>

  function Cols(image: Image): nat
  {
    if |image| == 0 then 0 else |image[0]|
  }

  predicate Rectangular(image: Image)
  {
    forall y | 0 <= y < |image| :: |image[y]| == Cols(image)
  }

  // ---------------------------------------------------------------------
  // Cells
  // ---------------------------------------------------------------------

  /** The background pixels among `row[x0..x1]`. */
  function RowCount(row: seq<int>, x0: int, x1: int, maxIntensity: real): (n: nat)
    requires 0 <= x0 <= x1 <= |row|
    ensures n <= x1 - x0
    decreases x1 - x0
  {
    if x1 == x0 then 0
    else RowCount(row, x0, x1 - 1, maxIntensity) + (if row[x1 - 1] as real <= maxIntensity then 1 else 0)
  }

  /** The background pixels of the rectangle of rows `y0..y1` and columns `x0..x1`. */
  function CellCount(image: Image, y0: int, y1: int, x0: int, x1: int, maxIntensity: real): (n: nat)
    requires Rectangular(image) && 0 <= y0 <= y1 <= |image| && 0 <= x0 <= x1 <= Cols(image)
    decreases y1 - y0
  {
    if y1 == y0 then 0
    else CellCount(image, y0, y1 - 1, x0, x1, maxIntensity) + RowCount(image[y1 - 1], x0, x1, maxIntensity)
  }

  /** A rectangle holds at most as many background pixels as pixels. */
  lemma {:induction false} CellCountBounded(image: Image, y0: int, y1: int, x0: int, x1: int, maxIntensity: real)
    requires Rectangular(image) && 0 <= y0 <= y1 <= |image| && 0 <= x0 <= x1 <= Cols(image)
    ensures CellCount(image, y0, y1, x0, x1, maxIntensity) <= (y1 - y0) * (x1 - x0)
    decreases y1 - y0
  {
    if y1 > y0 {
      CellCountBounded(image, y0, y1 - 1, x0, x1, maxIntensity);
      assert (y1 - y0) * (x1 - x0) == (y1 - 1 - y0) * (x1 - x0) + (x1 - x0);
    }
  }

  /** `rows / CellHeight`: partial cells at the bottom are dropped. */
  function HeightCells(s: Settings, image: Image): int
    requires s.cellHeight != 0
  {
    Quotient(|image|, s.cellHeight)
  }

  /** `cols / CellWidth`: partial cells at the right are dropped. */
  function WidthCells(s: Settings, image: Image): int
    requires s.cellWidth != 0
  {
    Quotient(Cols(image), s.cellWidth)
  }

  /** Cell `k` of size `size` lies inside a length of `length` when there
      are more than `k` whole cells. */
  lemma CellInside(length: nat, size: int, k: int)
    requires size != 0 && 0 <= k < Quotient(length, size)
    ensures size > 0 && 0 <= k * size && k * size + size <= length
  {
    MulSign(k, size);
    var q := Quotient(length, size);
    assert q * size <= length;
    assert q * size - (k + 1) * size == (q - k - 1) * size;
    MulSign(q - k - 1, size);
  }

  lemma UnitFraction(n: nat, w: int, h: int)
    requires w > 0 && h > 0 && n <= h * w
    ensures 0.0 <= n as real / (w * h) as real <= 1.0
  {
    MulSign(w, h);
    assert (h * w) as real == (w * h) as real;
  }

  /** The share of background pixels of cell (`cellX`, `cellY`). */
  function Fraction(s: Settings, image: Image, cellX: int, cellY: int): (f: real)
    requires Rectangular(image) && s.cellWidth != 0 && s.cellHeight != 0
    requires 0 <= cellX < WidthCells(s, image) && 0 <= cellY < HeightCells(s, image)
    ensures 0.0 <= f <= 1.0
  {
    var w, h := s.cellWidth, s.cellHeight;
    CellInside(Cols(image), w, cellX);
    CellInside(|image|, h, cellY);
    var y0, x0 := cellY * h, cellX * w;
    var n := CellCount(image, y0, y0 + h, x0, x0 + w, s.maxBackgroundIntensity);
    CellCountBounded(image, y0, y0 + h, x0, x0 + w, s.maxBackgroundIntensity);
    UnitFraction(n, w, h);
    n as real / (w * h) as real
  }

  /** Few background pixels make a rope cell, many a background cell, and
      the rest an edge cell. */
  function Classify(fraction: real, edgeThreshold: real, backgroundThreshold: real): CellType
  {
    if fraction < edgeThreshold then Rope
    else if fraction < backgroundThreshold then Edge
    else Background
  }

  /** How dark a cell type is. */
  function Darkness(t: CellType): nat
  {
    match t
    case Rope => 0
    case Edge => 1
    case Background => 2
  }

  /** With ordered thresholds, a cell with more background pixels is never
      classified as more rope-like. */
  lemma ClassifyMonotone(f: real, g: real, edgeThreshold: real, backgroundThreshold: real)
    requires f <= g && edgeThreshold <= backgroundThreshold
    ensures Darkness(Classify(f, edgeThreshold, backgroundThreshold)) <= Darkness(Classify(g, edgeThreshold, backgroundThreshold))
  {
  }

  function TypeAt(s: Settings, image: Image, cellX: int, cellY: int): CellType
    requires Rectangular(image) && s.cellWidth != 0 && s.cellHeight != 0
    requires 0 <= cellX < WidthCells(s, image) && 0 <= cellY < HeightCells(s, image)
  {
    Classify(Fraction(s, image, cellX, cellY), s.edgeThreshold, s.backgroundThreshold)
  }

  /** Column `cellX` of the cell types, top to bottom. */
  function TypeColumn(s: Settings, image: Image, cellX: int): (c: seq<CellType>)
    requires Rectangular(image) && s.cellWidth != 0 && s.cellHeight != 0
    requires 0 <= cellX < WidthCells(s, image)
  {
    var h := HeightCells(s, image);
    seq(if h < 0 then 0 else h, cellY requires 0 <= cellY < h => TypeAt(s, image, cellX, cellY))
  }

  /** Column `cellX` of the background fractions, top to bottom. */
  function FractionColumn(s: Settings, image: Image, cellX: int): (c: seq<real>)
    requires Rectangular(image) && s.cellWidth != 0 && s.cellHeight != 0
    requires 0 <= cellX < WidthCells(s, image)
  {
    var h := HeightCells(s, image);
    seq(if h < 0 then 0 else h, cellY requires 0 <= cellY < h => Fraction(s, image, cellX, cellY))
  }

  // ---------------------------------------------------------------------
  // The column scan
  // ---------------------------------------------------------------------

  /** `lastCellType`, `startY` and `endY`; -1 means not found yet. */
  datatype Scan = Scan(last: Option<CellType>, startY: int, endY: int)

  const START: Scan := Scan(None, -1, -1)

  /** One cell of the scan: an upper edge or a direct change to rope sets
      the start, a change back to background sets the end, and background
      after the start but before any end is an error. */
  function ScanStep(st: Scan, cellY: int, current: CellType, rows: int, cellX: int): Result<Scan, SegmentError>
  {
    var seen := Some(current);
    if st.last.None? then Ok(st.(last := seen))
    else if st.startY == -1 && st.last.value == Background && current == Edge && cellY < rows - 1 then
      Ok(Scan(seen, cellY + 1, st.endY))
    else if st.startY == -1 && st.last.value == Background && current == Rope then
      Ok(Scan(seen, cellY, st.endY))
    else if st.startY != -1 && st.last.value == Edge && current == Background && cellY - 2 >= st.startY then
      Ok(Scan(seen, st.startY, cellY - 2))
    else if st.startY != -1 && st.last.value == Rope && current == Background then
      Ok(Scan(seen, st.startY, cellY - 1))
    else if st.startY != -1 && st.endY == -1 && current == Background then
      Err(BackgroundInsideRope(cellX))
    else Ok(st.(last := seen))
  }

  /** Once a cell fails, the whole column fails with that error. */
  lemma {:induction false} ScanErrorSticks(column: seq<CellType>, k: nat, cellX: int)
    requires k <= |column| && ScanColumn(column, k, cellX).Err?
    ensures ScanColumn(column, |column|, cellX) == ScanColumn(column, k, cellX)
    decreases |column| - k
  {
    if k < |column| {
      ScanErrorSticks(column, k + 1, cellX);
    }
  }

  /** The scan over the first `k` cells of a column. */
  function ScanColumn(column: seq<CellType>, k: nat, cellX: int): Result<Scan, SegmentError>
    requires k <= |column|
  {
    if k == 0 then Ok(START)
    else
      match ScanColumn(column, k - 1, cellX)
      case Err(e) => Err(e)
      case Ok(st) => ScanStep(st, k - 1, column[k - 1], |column|, cellX)
  }

  /** The location of the rope in a column, widened by one cell on each
      side to include the edges. */
  function LocateInColumn(column: seq<CellType>, percentages: seq<real>, cellX: int): Result<RopeLocation, SegmentError>
  {
    match ScanColumn(column, |column|, cellX)
    case Err(e) => Err(e)
    case Ok(st) =>
      if st.startY != -1 && st.endY != -1 then Ok(Location(st.startY - 1, st.endY + 1, percentages))
      else Err(RopeNotFound(cellX))
  }

  /** What the scan knows after `k` cells: the start, once found, lies in
      1..k and below the last row, and only an upper edge just seen puts it
      at `k`; the end, once found, lies between the start and `k - 2`. */
  ghost predicate ScanBounds(st: Scan, column: seq<CellType>, k: nat)
    requires k <= |column|
  {
    && st.last == (if k == 0 then None else Some(column[k - 1]))
    && (st.startY != -1 ==>
          1 <= st.startY <= k && st.startY <= |column| - 1 && (st.startY == k ==> st.last == Some(Edge)))
    && (st.endY != -1 ==> st.startY != -1 && st.startY <= st.endY <= k - 2)
  }

  lemma {:induction false} ScanKeepsBounds(column: seq<CellType>, k: nat, cellX: int)
    requires k <= |column| && ScanColumn(column, k, cellX).Ok?
    ensures ScanBounds(ScanColumn(column, k, cellX).value, column, k)
  {
    if k > 0 {
      ScanKeepsBounds(column, k - 1, cellX);
    }
  }

  /** A rope found in a column lies inside it, includes both edges and is
      at least three cells wide. */
  lemma LocationInside(column: seq<CellType>, percentages: seq<real>, cellX: int)
    requires LocateInColumn(column, percentages, cellX).Ok?
    ensures var l := LocateInColumn(column, percentages, cellX).value;
      && 0 <= l.startCellY <= l.endCellY <= |column| - 1
      && l.ropeWidthCells == l.endCellY - l.startCellY + 1 >= 3
      && l.backgroundPixelPercentages == percentages
  {
    ScanKeepsBounds(column, |column|, cellX);
  }

  /** A column of `a` background cells, `b` rope cells and `c` background
      cells, with an edge cell on both sides of the rope when `edged`. */
  function Column(a: nat, b: nat, c: nat, edged: bool): (col: seq<CellType>)
    ensures |col| == a + b + c + (if edged then 2 else 0)
  {
    var e := if edged then [Edge] else [];
    seq(a, _ => Background) + e + seq(b, _ => Rope) + e + seq(c, _ => Background)
  }

  /** The scan of a column without edge cells, after `k` cells. */
  function PlainScanAt(a: nat, b: nat, k: nat): Scan
  {
    if k == 0 then START
    else if k <= a then Scan(Some(Background), -1, -1)
    else if k <= a + b then Scan(Some(Rope), a, -1)
    else Scan(Some(Background), a, a + b - 1)
  }

  lemma {:induction false} PlainScan(a: nat, b: nat, c: nat, k: nat, cellX: int)
    requires a >= 1 && b >= 1 && k <= a + b + c
    ensures ScanColumn(Column(a, b, c, false), k, cellX) == Ok(PlainScanAt(a, b, k))
  {
    var col := Column(a, b, c, false);
    if k > 0 {
      PlainScan(a, b, c, k - 1, cellX);
      assert col[k - 1] == (if k - 1 < a then Background else if k - 1 < a + b then Rope else Background);
    }
  }

  /** The scan of a column with edge cells, after `k` cells. */
  function EdgedScanAt(a: nat, b: nat, k: nat): Scan
  {
    if k == 0 then START
    else if k <= a then Scan(Some(Background), -1, -1)
    else if k == a + 1 then Scan(Some(Edge), a + 1, -1)
    else if k <= a + b + 1 then Scan(Some(Rope), a + 1, -1)
    else if k == a + b + 2 then Scan(Some(Edge), a + 1, -1)
    else Scan(Some(Background), a + 1, a + b)
  }

  lemma {:induction false} EdgedScan(a: nat, b: nat, c: nat, k: nat, cellX: int)
    requires a >= 1 && b >= 1 && c >= 1 && k <= a + b + c + 2
    ensures ScanColumn(Column(a, b, c, true), k, cellX) == Ok(EdgedScanAt(a, b, k))
  {
    var col := Column(a, b, c, true);
    if k > 0 {
      EdgedScan(a, b, c, k - 1, cellX);
      assert col[k - 1] == (if k - 1 < a then Background else if k - 1 == a then Edge
                            else if k - 1 <= a + b then Rope else if k - 1 == a + b + 1 then Edge else Background);
    }
  }

  /** A rope of `b` cells between background, with or without an edge cell
      on each side, is located as the rope plus one cell on each side. */
  lemma LocateCleanRope(a: nat, b: nat, c: nat, edged: bool, percentages: seq<real>, cellX: int)
    requires a >= 1 && b >= 1 && c >= 1
    ensures var start := if edged then a else a - 1;
      LocateInColumn(Column(a, b, c, edged), percentages, cellX)
        == Ok(RopeLocation(start, start + b + 1, b + 2, percentages))
  {
    if edged {
      EdgedScan(a, b, c, a + b + c + 2, cellX);
    } else {
      PlainScan(a, b, c, a + b + c, cellX);
    }
  }

  // ---------------------------------------------------------------------
  // Whole frames
  // ---------------------------------------------------------------------

  /** The locations of the first `k` columns; the first failing column
      decides the error. */
  function LocateColumns(s: Settings, image: Image, k: nat): Result<seq<RopeLocation>, SegmentError>
    requires Rectangular(image) && s.cellWidth != 0 && s.cellHeight != 0 && k <= WidthCells(s, image)
  {
    if k == 0 then Ok([])
    else
      match LocateColumns(s, image, k - 1)
      case Err(e) => Err(e)
      case Ok(ls) =>
        match LocateInColumn(TypeColumn(s, image, k - 1), FractionColumn(s, image, k - 1), k - 1)
        case Err(e) => Err(e)
        case Ok(l) => Ok(ls + [l])
  }

  /** One more column, given the scan of that column. */
  lemma LocateStep(s: Settings, image: Image, k: nat, ls: seq<RopeLocation>, scan: Result<Scan, SegmentError>)
    requires Rectangular(image) && s.cellWidth != 0 && s.cellHeight != 0 && k < WidthCells(s, image)
    requires LocateColumns(s, image, k) == Ok(ls)
    requires scan == ScanColumn(TypeColumn(s, image, k), |TypeColumn(s, image, k)|, k)
    ensures scan.Err? ==> LocateColumns(s, image, k + 1) == Err(scan.error)
    ensures scan.Ok? && scan.value.startY != -1 && scan.value.endY != -1 ==>
      LocateColumns(s, image, k + 1) ==
        Ok(ls + [Location(scan.value.startY - 1, scan.value.endY + 1, FractionColumn(s, image, k))])
    ensures scan.Ok? && !(scan.value.startY != -1 && scan.value.endY != -1) ==>
      LocateColumns(s, image, k + 1) == Err(RopeNotFound(k))
  {
  }

  /** Once a column fails, the frame fails with that column's error. */
  lemma {:induction false} ColumnErrorSticks(s: Settings, image: Image, k: nat)
    requires Rectangular(image) && s.cellWidth != 0 && s.cellHeight != 0 && k <= WidthCells(s, image)
    requires LocateColumns(s, image, k).Err?
    ensures LocateColumns(s, image, WidthCells(s, image)) == LocateColumns(s, image, k)
    decreases WidthCells(s, image) - k
  {
    if k < WidthCells(s, image) {
      ColumnErrorSticks(s, image, k + 1);
    }
  }

  /** `SegmentRopeForFrame`: one rope location per column of cells. */
  function Segment(s: Settings, image: Image): Result<seq<RopeLocation>, SegmentError>
    requires Rectangular(image)
  {
    if s.cellHeight == 0 || s.cellWidth == 0 then Err(DivideByZero)
    else if HeightCells(s, image) < 0 || WidthCells(s, image) < 0 then Err(NegativeSize)
    else LocateColumns(s, image, WidthCells(s, image))
  }

  /** A segmented frame has a location for every column of cells, each
      inside the image's cell rows, at least three cells wide and carrying
      the background fractions of its column. */
  lemma {:induction false} SegmentedColumns(s: Settings, image: Image, k: nat)
    requires Rectangular(image) && s.cellWidth != 0 && s.cellHeight != 0 && k <= WidthCells(s, image)
    requires LocateColumns(s, image, k).Ok?
    ensures var ls := LocateColumns(s, image, k).value;
      && |ls| == k
      && forall cellX | 0 <= cellX < k ::
           && 0 <= ls[cellX].startCellY <= ls[cellX].endCellY <= HeightCells(s, image) - 1
           && ls[cellX].ropeWidthCells == ls[cellX].endCellY - ls[cellX].startCellY + 1 >= 3
           && ls[cellX].backgroundPixelPercentages == FractionColumn(s, image, cellX)
  {
    if k > 0 {
      SegmentedColumns(s, image, k - 1);
      LocationInside(TypeColumn(s, image, k - 1), FractionColumn(s, image, k - 1), k - 1);
    }
  }

  lemma SegmentShape(s: Settings, image: Image)
    requires Rectangular(image) && Segment(s, image).Ok?
    ensures s.cellWidth != 0 && s.cellHeight != 0 && |Segment(s, image).value| == WidthCells(s, image)
    ensures forall l | l in Segment(s, image).value ::
      && 0 <= l.startCellY <= l.endCellY <= HeightCells(s, image) - 1
      && l.ropeWidthCells == l.endCellY - l.startCellY + 1 >= 3
      && |l.backgroundPixelPercentages| == HeightCells(s, image)
  {
    SegmentedColumns(s, image, WidthCells(s, image));
  }

  /** `SegmentRopeForFrames`: the frames in order; the first failing frame
      decides the error. */
  function SegmentFrames(s: Settings, images: seq<Image>): Result<seq<seq<RopeLocation>>, SegmentError>
    requires forall i | 0 <= i < |images| :: Rectangular(images[i])
  {
    if |images| == 0 then Ok([])
    else
      match SegmentFrames(s, images[..|images| - 1])
      case Err(e) => Err(e)
      case Ok(done) =>
        match Segment(s, images[|images| - 1])
        case Err(e) => Err(e)
        case Ok(ls) => Ok(done + [ls])
  }

  /** Once a frame fails, segmenting all frames fails with its error. */
  lemma {:induction false} FrameErrorSticks(s: Settings, images: seq<Image>, k: nat)
    requires forall i | 0 <= i < |images| :: Rectangular(images[i])
    requires k <= |images| && SegmentFrames(s, images[..k]).Err?
    ensures SegmentFrames(s, images) == SegmentFrames(s, images[..k])
    decreases |images| - k
  {
    if k < |images| {
      assert images[..k + 1][..k] == images[..k];
      FrameErrorSticks(s, images, k + 1);
    } else {
      assert images[..k] == images;
    }
  }

  /** The widest rope over all frames and columns, if there is a location. */
  predicate IsMaxWidth(locations: seq<seq<RopeLocation>>, m: int)
  {
    && (exists i, j | 0 <= i < |locations| && 0 <= j < |locations[i]| :: locations[i][j].ropeWidthCells == m)
    && (forall i, j | 0 <= i < |locations| && 0 <= j < |locations[i]| :: locations[i][j].ropeWidthCells <= m)
  }

  predicate NoLocation(locations: seq<seq<RopeLocation>>)
  {
    forall i | 0 <= i < |locations| :: |locations[i]| == 0
  }

  /** Location (`i`, `j`) comes before (`a`, `b`) in frame-then-column order. */
  predicate Earlier(i: int, j: int, a: int, b: int)
  {
    i < a || (i == a && j < b)
  }

  /** `m` is the widest rope among the locations before (`a`, `b`). */
  ghost predicate MaxSoFar(locations: seq<seq<RopeLocation>>, a: int, b: int, m: int)
  {
    && (exists i, j | 0 <= i < |locations| && 0 <= j < |locations[i]| && Earlier(i, j, a, b) :: locations[i][j].ropeWidthCells == m)
    && (forall i, j | 0 <= i < |locations| && 0 <= j < |locations[i]| && Earlier(i, j, a, b) :: locations[i][j].ropeWidthCells <= m)
  }

  /** `ropeWidthsCells.Max()`: empty input has no maximum (`Min` and `Max`
      throw on it). */
  method MaxRopeWidth(locations: seq<seq<RopeLocation>>) returns (m: Option<int>)
    ensures m.None? <==> NoLocation(locations)
    ensures m.Some? ==> IsMaxWidth(locations, m.value)
  {
    m := None;
    for a := 0 to |locations|
      invariant m.None? <==> forall i | 0 <= i < a :: |locations[i]| == 0
      invariant m.Some? ==> MaxSoFar(locations, a, 0, m.value)
    {
      for b := 0 to |locations[a]|
        invariant m.None? <==> (forall i | 0 <= i < a :: |locations[i]| == 0) && b == 0
        invariant m.Some? ==> MaxSoFar(locations, a, b, m.value)
      {
        var w := locations[a][b].ropeWidthCells;
        if m.None? || w > m.value {
          m := Some(w);
        }
        assert locations[a][b].ropeWidthCells <= m.value;
      }
    }
  }

  // ---------------------------------------------------------------------
  // The transformer
  // ---------------------------------------------------------------------

  class HogTransformer {
    const cellWidth: int
    const cellHeight: int
    const maxBackgroundIntensity: real
    const edgeThreshold: real
    const backgroundThreshold: real
    const nBins: int

    /** The number of cells a sample spans, set by `Fit`. */
    var ropeWidthCells: int

    constructor(cellWidth: int, cellHeight: int, maxBackgroundIntensity: real,
                edgeThreshold: real, backgroundThreshold: real, nBins: int)
      ensures this.cellWidth == cellWidth && this.cellHeight == cellHeight
      ensures this.maxBackgroundIntensity == maxBackgroundIntensity
      ensures this.edgeThreshold == edgeThreshold && this.backgroundThreshold == backgroundThreshold
      ensures this.nBins == nBins && ropeWidthCells == 0
    {
      this.cellWidth := cellWidth;
      this.cellHeight := cellHeight;
      this.maxBackgroundIntensity := maxBackgroundIntensity;
      this.edgeThreshold := edgeThreshold;
      this.backgroundThreshold := backgroundThreshold;
      this.nBins := nBins;
      ropeWidthCells := 0;
    }

    function Config(): Settings
    {
      Settings(cellWidth, cellHeight, maxBackgroundIntensity, edgeThreshold, backgroundThreshold)
    }

    /** The background pixels of a rectangle, row by row. */
    method CountBackground(image: Image, y0: int, y1: int, x0: int, x1: int) returns (n: nat)
      requires Rectangular(image) && 0 <= y0 <= y1 <= |image| && 0 <= x0 <= x1 <= Cols(image)
      ensures n == CellCount(image, y0, y1, x0, x1, maxBackgroundIntensity)
    {
      n := 0;
      for y := y0 to y1
        invariant n == CellCount(image, y0, y, x0, x1, maxBackgroundIntensity)
      {
        var inRow := 0;
        for x := x0 to x1
          invariant inRow == RowCount(image[y], x0, x, maxBackgroundIntensity)
        {
          if image[y][x] as real <= maxBackgroundIntensity {
            inRow := inRow + 1;
          }
        }
        n := n + inRow;
      }
    }

    /** Classifies one cell and returns its background fraction. */
    method ClassifyCell(image: Image, cellX: int, cellY: int) returns (t: CellType, fraction: real)
      requires Rectangular(image) && cellWidth != 0 && cellHeight != 0
      requires 0 <= cellX < WidthCells(Config(), image) && 0 <= cellY < HeightCells(Config(), image)
      ensures fraction == Fraction(Config(), image, cellX, cellY) && t == TypeAt(Config(), image, cellX, cellY)
    {
      CellInside(Cols(image), cellWidth, cellX);
      CellInside(|image|, cellHeight, cellY);
      var y0, x0 := cellY * cellHeight, cellX * cellWidth;
      var n := CountBackground(image, y0, y0 + cellHeight, x0, x0 + cellWidth);
      fraction := n as real / (cellWidth * cellHeight) as real;
      if fraction < edgeThreshold {
        t := Rope;
      } else if fraction < backgroundThreshold {
        t := Edge;
      } else {
        t := Background;
      }
    }

    /** The cell types and background fractions, row by row of cells. */
    method ClassifyCells(image: Image) returns (types: seq<seq<CellType>>, fractions: seq<seq<real>>)
      requires Rectangular(image) && cellWidth != 0 && cellHeight != 0
      requires HeightCells(Config(), image) >= 0 && WidthCells(Config(), image) >= 0
      ensures Classified(Config(), image, types, fractions)
    {
      var s := Config();
      var rows, cols := HeightCells(s, image), WidthCells(s, image);
      types, fractions := [], [];
      for cellY := 0 to rows
        invariant |types| == |fractions| == cellY
        invariant forall y | 0 <= y < cellY :: |types[y]| == |fractions[y]| == cols
        invariant forall y, x | 0 <= y < cellY && 0 <= x < cols ::
          types[y][x] == TypeAt(s, image, x, y) && fractions[y][x] == Fraction(s, image, x, y)
      {
        var typeRow, fractionRow := [], [];
        for cellX := 0 to cols
          invariant |typeRow| == |fractionRow| == cellX
          invariant forall x | 0 <= x < cellX ::
            typeRow[x] == TypeAt(s, image, x, cellY) && fractionRow[x] == Fraction(s, image, x, cellY)
        {
          var t, f := ClassifyCell(image, cellX, cellY);
          typeRow, fractionRow := typeRow + [t], fractionRow + [f];
        }
        types, fractions := types + [typeRow], fractions + [fractionRow];
      }
    }

    /** The scan of one column of cells. */
    method ScanCells(types: seq<seq<CellType>>, cellX: int) returns (r: Result<Scan, SegmentError>)
      requires 0 <= cellX && forall cellY | 0 <= cellY < |types| :: cellX < |types[cellY]|
      ensures r == ScanColumn(ColumnOf(types, cellX), |types|, cellX)
    {
      var column := ColumnOf(types, cellX);
      var rows := |types|;
      var lastCellType: Option<CellType> := None;
      var startY, endY := -1, -1;
      for cellY := 0 to rows
        invariant ScanColumn(column, cellY, cellX) == Ok(Scan(lastCellType, startY, endY))
      {
        var current := types[cellY][cellX];
        if lastCellType.Some? {
          if startY == -1 && lastCellType.value == Background && current == Edge && cellY < rows - 1 {
            startY := cellY + 1;
          } else if startY == -1 && lastCellType.value == Background && current == Rope {
            startY := cellY;
          } else if startY != -1 && lastCellType.value == Edge && current == Background && cellY - 2 >= startY {
            endY := cellY - 2;
          } else if startY != -1 && lastCellType.value == Rope && current == Background {
            endY := cellY - 1;
          } else if startY != -1 && endY == -1 && current == Background {
            ScanErrorSticks(column, cellY + 1, cellX);
            return Err(BackgroundInsideRope(cellX));
          }
        }
        lastCellType := Some(current);
      }
      r := Ok(Scan(lastCellType, startY, endY));
    }

    /** `SegmentRopeForFrame`. */
    method SegmentRopeForFrame(image: Image) returns (r: Result<seq<RopeLocation>, SegmentError>)
      requires Rectangular(image)
      ensures r == Segment(Config(), image)
    {
      var s := Config();
      if cellHeight == 0 || cellWidth == 0 {
        return Err(DivideByZero);
      }
      var rows, cols := HeightCells(s, image), WidthCells(s, image);
      if rows < 0 || cols < 0 {
        return Err(NegativeSize);
      }
      var types, fractions := ClassifyCells(image);
      var locations := [];
      for cellX := 0 to cols
        invariant LocateColumns(s, image, cellX) == Ok(locations)
      {
        ClassifiedColumn(s, image, types, fractions, cellX);
        var scan := ScanCells(types, cellX);
        LocateStep(s, image, cellX, locations, scan);
        if scan.Err? {
          ColumnErrorSticks(s, image, cellX + 1);
          return Err(scan.error);
        }
        var st := scan.value;
        if st.startY != -1 && st.endY != -1 {
          locations := locations + [Location(st.startY - 1, st.endY + 1, ColumnOf(fractions, cellX))];
        } else {
          ColumnErrorSticks(s, image, cellX + 1);
          return Err(RopeNotFound(cellX));
        }
      }
      r := Ok(locations);
    }

    /** `SegmentRopeForFrames` over the decoded frames. */
    method SegmentRopeForFrames(images: seq<Image>) returns (r: Result<seq<seq<RopeLocation>>, SegmentError>)
      requires forall i | 0 <= i < |images| :: Rectangular(images[i])
      ensures r == SegmentFrames(Config(), images)
    {
      var done := [];
      for i := 0 to |images|
        invariant SegmentFrames(Config(), images[..i]) == Ok(done)
      {
        assert images[..i + 1][..i] == images[..i];
        var ls := SegmentRopeForFrame(images[i]);
        if ls.Err? {
          FrameErrorSticks(Config(), images, i + 1);
          return Err(ls.error);
        }
        done := done + [ls.value];
      }
      assert images[..|images|] == images;
      r := Ok(done);
    }

    /** `Fit`: segments the frames unless locations are given, then spans a
        sample over the widest rope. */
    method Fit(images: seq<Image>, given: Option<seq<seq<RopeLocation>>>) returns (r: Result<seq<seq<RopeLocation>>, SegmentError>)
      requires forall i | 0 <= i < |images| :: Rectangular(images[i])
      modifies this
      ensures given.None? && SegmentFrames(Config(), images).Err? ==> r == SegmentFrames(Config(), images)
      ensures r.Ok? ==> r == (if given.Some? then Ok(given.value) else SegmentFrames(Config(), images))
      ensures r.Ok? ==> IsMaxWidth(r.value, ropeWidthCells)
      ensures r.Err? ==> ropeWidthCells == old(ropeWidthCells)
      ensures r.Err? && (given.Some? || SegmentFrames(Config(), images).Ok?) ==> r == Err(NoLocations)
      ensures given.Some? || SegmentFrames(Config(), images).Ok? ==>
        (r.Ok? <==> !NoLocation(if given.Some? then given.value else SegmentFrames(Config(), images).value))
    {
      var locations: seq<seq<RopeLocation>>;
      if given.None? {
        var segmented := SegmentRopeForFrames(images);
        if segmented.Err? {
          return segmented;
        }
        locations := segmented.value;
      } else {
        locations := given.value;
      }
      var widest := MaxRopeWidth(locations);
      if widest.None? {
        return Err(NoLocations);
      }
      ropeWidthCells := widest.value;
      r := Ok(locations);
    }
  }

  /** `types` and `fractions` hold, row by row of cells, every cell's type
      and background fraction. */
  ghost predicate Classified(s: Settings, image: Image, types: seq<seq<CellType>>, fractions: seq<seq<real>>)
    requires Rectangular(image) && s.cellWidth != 0 && s.cellHeight != 0
  {
    && |types| == |fractions| == HeightCells(s, image)
    && (forall cellY | 0 <= cellY < |types| :: |types[cellY]| == |fractions[cellY]| == WidthCells(s, image))
    && (forall cellY, cellX | 0 <= cellY < |types| && 0 <= cellX < WidthCells(s, image) ::
          types[cellY][cellX] == TypeAt(s, image, cellX, cellY)
          && fractions[cellY][cellX] == Fraction(s, image, cellX, cellY))
  }

  /** A column of the classified grid is that column's types and fractions. */
  lemma ClassifiedColumn(s: Settings, image: Image, types: seq<seq<CellType>>, fractions: seq<seq<real>>, cellX: int)
    requires Rectangular(image) && s.cellWidth != 0 && s.cellHeight != 0 && 0 <= cellX < WidthCells(s, image)
    requires Classified(s, image, types, fractions)
    ensures forall cellY | 0 <= cellY < |types| :: cellX < |types[cellY]| && cellX < |fractions[cellY]|
    ensures ColumnOf(types, cellX) == TypeColumn(s, image, cellX)
    ensures ColumnOf(fractions, cellX) == FractionColumn(s, image, cellX)
  {
  }

  /** Column `cellX` of a grid stored row by row. */
  function ColumnOf<T>(grid: seq<seq<T>>, cellX: int): (c: seq<T>)
    requires 0 <= cellX && forall cellY | 0 <= cellY < |grid| :: cellX < |grid[cellY]|
    ensures |c| == |grid| && forall cellY | 0 <= cellY < |grid| :: c[cellY] == grid[cellY][cellX]
  {
    seq(|grid|, cellY requires 0 <= cellY < |grid| => grid[cellY][cellX])
  }
}
