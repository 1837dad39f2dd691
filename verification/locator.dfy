/** The barcode/QR locator (`detectBarcodeRegions`): a vertical run of
    barcode-like columns at the left margin and the most QR-like 60x60 window
    in the upper part of the page. Only the visual presence is detected. */
module Locator {
  import opened Options
  import opened Raster

  /** A luma change larger than 50 between vertically adjacent pixels. */
  const JumpLuma: int := 50 * LumaScale
  /** At most this many columns from the left edge are scanned for bars. */
  const BarcodeMaxColumns: int := 200
  /** Side of the QR search window, in pixels. */
  const QrSize: int := 60
  const QrArea: int := QrSize * QrSize
  /** Rows scanned for the QR window start below this row. */
  const QrMaxRows: int := 300
  /** Empirical variance threshold (in squared luma units) for a QR window. */
  const QrScoreThreshold: real := 1000.0
  /** Rows kept above the QR window in the reported `top`. */
  const QrTopMargin: int := 10

  function Abs(a: int): nat {
    if a < 0 then -a else a
  }

  function Max(a: int, b: int): int {
    if a < b then b else a
  }

  // ---------------------------------------------------------------------
  // Barcode columns

  /** Column `x` is scanned when `x < min(0.25 * width, 200)`. */
  predicate InBarcodeZone(w: int, x: int) {
    0 <= x && 4 * x < w && x < BarcodeMaxColumns
  }

  /** One past the last scanned column. */
  function BarcodeZoneEnd(w: int): (n: int)
    requires w > 0
    ensures 0 < n <= w
    ensures forall x :: 0 <= x ==> (x < n <==> InBarcodeZone(w, x))
  {
    var quarter := (w + 3) / 4;
    if quarter < BarcodeMaxColumns then quarter else BarcodeMaxColumns
  }

  /** Number of rows `y` in `[1, n)` whose luma differs from row `y - 1` by
      more than 50 in column `x`. */
  function Jumps(r: Raster, x: int, n: int): (t: nat)
    requires r.Valid() && 0 <= x < r.width && 0 <= n <= r.height
    ensures t < n || t == 0
  {
    if n <= 1 then 0
    else
      var here := if Abs(r.Lum(x, n - 1) - r.Lum(x, n - 2)) > JumpLuma then 1 else 0;
      Jumps(r, x, n - 1) + here
  }

  /** A column is barcode-like when its jump count exceeds a quarter of the
      image height. */
  predicate Qualifies(r: Raster, x: int)
    requires r.Valid() && 0 <= x < r.width
  {
    4 * Jumps(r, x, r.height) > r.height
  }

  datatype Edges = Edges(left: Option<int>, right: Option<int>)

  /** The left-to-right column loop over columns `[0, n)`. The source keeps
      `left` only once it is truthy, so a qualifying column 0 is replaced by
      the next qualifying column; `right` is overwritten on every hit. */
  function ScanColumns(r: Raster, n: int): (e: Edges)
    requires r.Valid() && 0 <= n <= r.width
    ensures e.left.Some? <==> e.right.Some?
    ensures e.right.None? ==> forall x :: 0 <= x < n ==> !Qualifies(r, x)
    ensures e.right.Some? ==>
      && 0 <= e.right.value < n
      && Qualifies(r, e.right.value)
      && forall x :: e.right.value < x < n ==> !Qualifies(r, x)
    ensures e.left.Some? ==>
      && 0 <= e.left.value <= e.right.value
      && Qualifies(r, e.left.value)
      && (forall x :: 0 < x < e.left.value ==> !Qualifies(r, x))
      && (e.left.value == 0 ==> forall x :: 0 < x < n ==> !Qualifies(r, x))
  {
    if n == 0 then Edges(None, None)
    else
      var e := ScanColumns(r, n - 1);
      var x := n - 1;
      if Qualifies(r, x) then
        var left := if e.left.None? || e.left.value == 0 then Some(x) else e.left;
        Edges(left, Some(x))
      else e
  }

  // ---------------------------------------------------------------------
  // QR window

  /** Window rows: `y < min(0.5 * height, 300)`. */
  predicate InQrRows(h: int, y: int) {
    0 <= y && 2 * y < h && y < QrMaxRows
  }

  /** Window columns: from the start column while `x < 0.95 * width`. */
  predicate InQrCols(w: int, start: int, x: int) {
    start <= x && 20 * x < 19 * w
  }

  /** The source skips a window unless `x + 60 < width` and `y + 60 < height`. */
  predicate WindowFits(r: Raster, x: int, y: int) {
    0 <= x && 0 <= y && x + QrSize < r.width && y + QrSize < r.height
  }

  predicate InQrScan(r: Raster, start: int, x: int, y: int) {
    InQrRows(r.height, y) && InQrCols(r.width, start, x) && WindowFits(r, x, y)
  }

  /** Scan order: row by row, left to right within a row. */
  predicate ScannedBefore(x1: int, y1: int, x2: int, y2: int) {
    y1 < y2 || (y1 == y2 && x1 < x2)
  }

  /** The 3600 lumas of a window, row by row. */
  function WindowLumas(r: Raster, x: int, y: int): (ls: seq<int>)
    requires r.Valid() && WindowFits(r, x, y)
    ensures |ls| == QrArea
  {
    seq(QrArea, k requires 0 <= k < QrArea => r.Lum(x + k % QrSize, y + k / QrSize))
  }

  function CountDark(ls: seq<int>): (n: nat)
    ensures n <= |ls|
  {
    if |ls| == 0 then 0
    else CountDark(ls[..|ls| - 1]) + (if IsDark(ls[|ls| - 1]) then 1 else 0)
  }

  function Sum(ls: seq<int>): int {
    if |ls| == 0 then 0 else Sum(ls[..|ls| - 1]) + ls[|ls| - 1]
  }

  /** Mean luma, in the source's units (luma / 1000). */
  function Mean(ls: seq<int>): real
    requires |ls| > 0
  {
    Sum(ls) as real / (|ls| * LumaScale) as real
  }

  function SquaredDeviations(ls: seq<int>, mean: real): (s: real)
    ensures s >= 0.0
  {
    if |ls| == 0 then 0.0
    else
      var d := ls[|ls| - 1] as real / LumaScale as real - mean;
      SquaredDeviations(ls[..|ls| - 1], mean) + d * d
  }

  /** Population variance of the lumas, in squared source units. */
  function Variance(ls: seq<int>): (v: real)
    requires |ls| > 0
    ensures v >= 0.0
  {
    SquaredDeviations(ls, Mean(ls)) / |ls| as real
  }

  /** A window scores its variance only when more than 20% of its pixels are
      dark and more than 20% are light; otherwise it scores 0. */
  function Score(r: Raster, x: int, y: int): (s: real)
    requires r.Valid() && WindowFits(r, x, y)
    ensures s >= 0.0
  {
    var ls := WindowLumas(r, x, y);
    var dark := CountDark(ls);
    var light := |ls| - dark;
    if 5 * dark > QrArea && 5 * light > QrArea then Variance(ls) else 0.0
  }

  datatype QrBest = QrBest(score: real, x: int, y: int)

  /** The inner loop: windows of row `y` from column `x` on. A window replaces
      the best one only when its score is strictly greater. */
  function ScanQrRow(r: Raster, start: int, y: int, x: int, b: QrBest): (res: QrBest)
    requires r.Valid() && 0 <= start <= x && 0 <= y
    decreases 19 * r.width - 20 * x
    ensures res.score >= b.score
    ensures res.score == b.score ==> res == b
    ensures forall x' :: x <= x' && InQrCols(r.width, start, x') && WindowFits(r, x', y) ==>
      Score(r, x', y) <= res.score
    ensures res.score > b.score ==>
      && res.y == y && x <= res.x && InQrCols(r.width, start, res.x) && WindowFits(r, res.x, y)
      && Score(r, res.x, y) == res.score
      && forall x' :: x <= x' < res.x && WindowFits(r, x', y) ==> Score(r, x', y) < res.score
  {
    if 20 * x >= 19 * r.width then b
    else
      var b' := if WindowFits(r, x, y) && Score(r, x, y) > b.score then QrBest(Score(r, x, y), x, y) else b;
      ScanQrRow(r, start, y, x + 1, b')
  }

  /** The outer loop: rows `y` on, each scanned from the start column. */
  function ScanQrRows(r: Raster, start: int, y: int, b: QrBest): (res: QrBest)
    requires r.Valid() && 0 <= start && 0 <= y
    decreases QrMaxRows - y
    ensures res.score >= b.score
    ensures res.score == b.score ==> res == b
    ensures forall x', y' :: y <= y' && InQrScan(r, start, x', y') ==> Score(r, x', y') <= res.score
    ensures res.score > b.score ==>
      && y <= res.y && InQrScan(r, start, res.x, res.y)
      && Score(r, res.x, res.y) == res.score
    ensures res.score > b.score ==>
      forall x', y' :: y <= y' && InQrScan(r, start, x', y') && ScannedBefore(x', y', res.x, res.y) ==>
        Score(r, x', y') < res.score
  {
    if !(2 * y < r.height && y < QrMaxRows) then b
    else
      var row := ScanQrRow(r, start, y, start, b);
      var res := ScanQrRows(r, start, y + 1, row);
      FirstMaxStep(r, start, y, b, row, res);
      res
  }

  /** One step of the outer loop keeps the chosen window the first maximal
      one: the rest of row `y` lies before any later row's window, and a
      window kept from row `y` comes after nothing in later rows. */
  lemma {:induction false} FirstMaxStep(r: Raster, start: int, y: int, b: QrBest, row: QrBest, res: QrBest)
    requires r.Valid() && 0 <= start && 0 <= y
    requires row.score >= b.score && (row.score == b.score ==> row == b)
    requires forall x' :: start <= x' && InQrCols(r.width, start, x') && WindowFits(r, x', y) ==>
      Score(r, x', y) <= row.score
    requires row.score > b.score ==>
      && row.y == y
      && forall x' :: start <= x' < row.x && WindowFits(r, x', y) ==> Score(r, x', y) < row.score
    requires res.score >= row.score && (res.score == row.score ==> res == row)
    requires res.score > row.score ==>
      && y + 1 <= res.y
      && forall x', y' :: y + 1 <= y' && InQrScan(r, start, x', y') && ScannedBefore(x', y', res.x, res.y) ==>
           Score(r, x', y') < res.score
    ensures res.score > b.score ==>
      forall x', y' :: y <= y' && InQrScan(r, start, x', y') && ScannedBefore(x', y', res.x, res.y) ==>
        Score(r, x', y') < res.score
  {
    if res.score > b.score {
      forall x', y' | y <= y' && InQrScan(r, start, x', y') && ScannedBefore(x', y', res.x, res.y)
        ensures Score(r, x', y') < res.score
      {
        if res.score > row.score {
          if y' == y {
            assert Score(r, x', y') <= row.score;
          }
        } else {
          assert res == row && y' == y;
        }
      }
    }
  }

  /** The locator's evidence. `bottom` is declared by the source but never set. */
  datatype Hints = Hints(left: Option<int>, right: Option<int>, top: Option<int>, qrCenter: Option<(int, int)>)

  /** What the column loop promises over the whole barcode zone: `right` is
      the last barcode-like column; `left` is the first barcode-like column
      after column 0, or 0 when column 0 is the only one; both are absent
      when no column qualifies. */
  ghost predicate BarcodeEdgesFound(r: Raster, e: Edges)
    requires r.Valid()
  {
    && (e.left.Some? <==> e.right.Some?)
    && (e.right.None? ==> forall x :: InBarcodeZone(r.width, x) ==> !Qualifies(r, x))
    && (e.right.Some? ==>
      && InBarcodeZone(r.width, e.right.value) && Qualifies(r, e.right.value)
      && forall x :: InBarcodeZone(r.width, x) && x > e.right.value ==> !Qualifies(r, x))
    && (e.left.Some? ==>
      && InBarcodeZone(r.width, e.left.value) && Qualifies(r, e.left.value)
      && e.left.value <= e.right.value
      && (forall x :: 0 < x < e.left.value ==> !Qualifies(r, x))
      && (e.left.value == 0 ==> forall x :: InBarcodeZone(r.width, x) && x > 0 ==> !Qualifies(r, x)))
  }

  function BarcodeEdges(r: Raster): (e: Edges)
    requires r.Valid()
    ensures BarcodeEdgesFound(r, e)
  {
    ScanColumns(r, BarcodeZoneEnd(r.width))
  }

  /** What the window scan promises: a centre is reported exactly when some
      window of the scan scores above 1000; it is the centre of the first
      window, in scan order, with the highest score, and `top` lies 10 rows
      above that window, clipped at 0. */
  ghost predicate QrFound(r: Raster, start: int, top: Option<int>, center: Option<(int, int)>)
    requires r.Valid()
  {
    && (center.None? <==> top.None?)
    && (center.None? ==> forall x, y :: InQrScan(r, start, x, y) ==> Score(r, x, y) <= QrScoreThreshold)
    && (center.Some? ==>
      var qx := center.value.0 - QrSize / 2;
      var qy := center.value.1 - QrSize / 2;
      && InQrScan(r, start, qx, qy)
      && Score(r, qx, qy) > QrScoreThreshold
      && (forall x, y :: InQrScan(r, start, x, y) ==> Score(r, x, y) <= Score(r, qx, qy))
      && (forall x, y :: InQrScan(r, start, x, y) && ScannedBefore(x, y, qx, qy) ==> Score(r, x, y) < Score(r, qx, qy))
      && top == Some(Max(0, qy - QrTopMargin)))
  }

  datatype QrEvidence = QrEvidence(top: Option<int>, center: Option<(int, int)>)

  function LocateQr(r: Raster, start: nat): (q: QrEvidence)
    requires r.Valid()
    ensures QrFound(r, start, q.top, q.center)
  {
    var best := ScanQrRows(r, start, 0, QrBest(0.0, 0, 0));
    if best.score > QrScoreThreshold then
      BestIsQr(r, start, best);
      QrEvidence(Some(Max(0, best.y - QrTopMargin)), Some((best.x + QrSize / 2, best.y + QrSize / 2)))
    else
      NoQr(r, start, best);
      QrEvidence(None, None)
  }

  /** A scan result above the threshold is QR evidence. */
  lemma {:induction false} BestIsQr(r: Raster, start: nat, best: QrBest)
    requires r.Valid() && best == ScanQrRows(r, start, 0, QrBest(0.0, 0, 0))
    requires best.score > QrScoreThreshold
    ensures QrFound(r, start, Some(Max(0, best.y - QrTopMargin)), Some((best.x + QrSize / 2, best.y + QrSize / 2)))
  {
    var qx, qy := best.x, best.y;
    assert best.score > 0.0;
    assert InQrScan(r, start, qx, qy) && Score(r, qx, qy) == best.score;
    assert forall x, y :: InQrScan(r, start, x, y) ==> Score(r, x, y) <= Score(r, qx, qy);
    assert forall x, y :: InQrScan(r, start, x, y) && ScannedBefore(x, y, qx, qy) ==> Score(r, x, y) < Score(r, qx, qy);
  }

  /** A scan result at or below the threshold means no window qualifies. */
  lemma {:induction false} NoQr(r: Raster, start: nat, best: QrBest)
    requires r.Valid() && best == ScanQrRows(r, start, 0, QrBest(0.0, 0, 0))
    requires best.score <= QrScoreThreshold
    ensures QrFound(r, start, None, None)
  {
  }

  /** The first window column the scan means to visit: the least integer
      column at or right of `0.3 * width`. */
  function QrStartColumn(w: nat): (x: nat)
    ensures 10 * x >= 3 * w && 10 * (x - 1) < 3 * w
  {
    (3 * w + 9) / 10
  }

  /** The QR scan as the source runs it. Its column counter starts at
      `width * 0.3` and keeps that value's fraction. For a width that is not
      a multiple of 10 every pixel index is then either non-integral (the
      read yields `undefined`, so the luma is NaN) or off by two bytes (it
      reads blue, alpha and the next pixel's red, a luma of at least 149.7
      on the opaque page). Either way no pixel counts as dark, every window
      scores 0 and no QR is reported. */
  function LocateQrAsWritten(r: Raster): (q: QrEvidence)
    requires r.Valid()
    ensures r.width % 10 != 0 ==> q.center.None? && q.top.None?
    ensures r.width % 10 == 0 ==> QrFound(r, 3 * r.width / 10, q.top, q.center)
  {
    if r.width % 10 == 0 then LocateQr(r, 3 * r.width / 10) else QrEvidence(None, None)
  }

  /** On widths that are multiples of 10 the source scans exactly the
      intended columns. */
  lemma {:induction false} AsWrittenAgreesOnTens(r: Raster)
    requires r.Valid() && r.width % 10 == 0
    ensures LocateQrAsWritten(r) == LocateQr(r, QrStartColumn(r.width))
  {
    var k := r.width / 10;
    assert r.width == 10 * k;
    assert 3 * r.width / 10 == 3 * k;
    assert QrStartColumn(r.width) == 3 * k;
  }

  /** On any other width the source misses a QR code that the intended scan
      finds: a qualifying window in the upper right of a 1785-pixel-wide page
      is reported by the intended scan and never by the source. */
  lemma {:induction false} AsWrittenMissesQr(r: Raster)
    requires r.Valid() && r.width % 10 != 0
    requires exists x, y :: InQrScan(r, QrStartColumn(r.width), x, y) && Score(r, x, y) > QrScoreThreshold
    ensures LocateQr(r, QrStartColumn(r.width)).center.Some?
    ensures LocateQrAsWritten(r).center.None?
  {
    var x, y :| InQrScan(r, QrStartColumn(r.width), x, y) && Score(r, x, y) > QrScoreThreshold;
    var q := LocateQr(r, QrStartColumn(r.width));
  }

  /** `detectBarcodeRegions`, with the QR scan starting at the intended
      column `QrStartColumn(width)`. */
  function DetectBarcodeRegions(r: Raster): (hs: Hints)
    requires r.Valid()
    ensures BarcodeEdgesFound(r, Edges(hs.left, hs.right))
    ensures QrFound(r, QrStartColumn(r.width), hs.top, hs.qrCenter)
  {
    var e := BarcodeEdges(r);
    var q := LocateQr(r, QrStartColumn(r.width));
    Hints(e.left, e.right, q.top, q.center)
  }
}
