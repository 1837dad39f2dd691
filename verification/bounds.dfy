/** The bounds detector (`detectLabelBounds`): density edge scans anchored by
    the locator's hints, a pixel-level refinement, a height cap and
    marketplace-dependent padding. */
module Bounds {
  import opened Options
  import opened Raster
  import opened Marketplaces
  import opened Locator
  import opened Profile

  /** Rows kept above and below the QR centre when the QR anchors the label. */
  const QrAbove: int := 120
  const QrBelow: int := 350
  /** Rows scanned from the top and from the bottom for the vertical edges. */
  const EdgeScanRows: int := 200
  /** Margin added around the first/last dense row or column. */
  const EdgeMargin: int := 8
  /** Margin kept left of the barcode. */
  const BarcodeMargin: int := 10
  /** The refinement scans this far outside the provisional box. */
  const ScanMargin: int := 15
  /** Height cap for QR-anchored labels. */
  const MaxLabelHeight: int := 500

  function Min(a: int, b: int): int {
    if a < b then a else b
  }

  function MaxR(a: real, b: real): real {
    if a < b then b else a
  }

  function MinR(a: real, b: real): real {
    if a < b then a else b
  }

  /** Refinement counts a pixel as content when its luma is below 240. */
  predicate Inked(r: Raster, x: int, y: int)
    requires r.Valid() && r.InBounds(x, y)
  {
    r.Lum(x, y) < 240 * LumaScale
  }

  // ---------------------------------------------------------------------
  // Edge scans

  /** The first index in `[lo, hi)` whose density exceeds `t`. */
  function FirstAbove(ds: seq<real>, lo: int, hi: int, t: real): (i: Option<int>)
    requires 0 <= lo && hi <= |ds|
    decreases hi - lo
    ensures i.None? ==> forall j :: lo <= j < hi ==> ds[j] <= t
    ensures i.Some? ==> lo <= i.value < hi && ds[i.value] > t && forall j :: lo <= j < i.value ==> ds[j] <= t
  {
    if lo >= hi then None
    else if ds[lo] > t then Some(lo)
    else FirstAbove(ds, lo + 1, hi, t)
  }

  /** The last index in `[lo, hi)` whose density exceeds `t`. The source finds
      it with a descending loop that breaks (right edge) and with an
      ascending loop that keeps overwriting (bottom edge); both yield this. */
  function LastAbove(ds: seq<real>, lo: int, hi: int, t: real): (i: Option<int>)
    requires 0 <= lo && hi <= |ds|
    decreases hi - lo
    ensures i.None? ==> forall j :: lo <= j < hi ==> ds[j] <= t
    ensures i.Some? ==> lo <= i.value < hi && ds[i.value] > t && forall j :: i.value < j < hi ==> ds[j] <= t
  {
    if lo >= hi then None
    else if ds[hi - 1] > t then Some(hi - 1)
    else LastAbove(ds, lo, hi - 1, t)
  }

  /** No density in `[lo, hi)` exceeds `t`. */
  predicate NoneAbove(ds: seq<real>, lo: int, hi: int, t: real)
    requires 0 <= lo && hi <= |ds|
  {
    forall j :: lo <= j < hi ==> ds[j] <= t
  }

  /** `i` is the first index of `[lo, hi)` whose density exceeds `t`. */
  predicate FirstAboveAt(ds: seq<real>, lo: int, hi: int, t: real, i: int)
    requires 0 <= lo && hi <= |ds|
  {
    lo <= i < hi && ds[i] > t && NoneAbove(ds, lo, i, t)
  }

  /** `i` is the last index of `[lo, hi)` whose density exceeds `t`. */
  predicate LastAboveAt(ds: seq<real>, lo: int, hi: int, t: real, i: int)
    requires 0 <= lo && hi <= |ds|
  {
    lo <= i < hi && ds[i] > t && NoneAbove(ds, i + 1, hi, t)
  }

  /** Inclusive content box in pixel coordinates. */
  datatype Box = Box(minX: int, minY: int, maxX: int, maxY: int)

  predicate Covers(b: Box, x: int, y: int) {
    b.minX <= x <= b.maxX && b.minY <= y <= b.maxY
  }

  /** Hints as the locator produces them: a left edge inside the image and a
      QR centre whose 60x60 window fits the image. */
  predicate HintsFit(r: Raster, hs: Hints) {
    && (hs.left.Some? ==> 0 <= hs.left.value < r.width)
    && (hs.qrCenter.Some? ==> 0 <= hs.qrCenter.value.1 < r.height)
  }

  /** Top edge: 120 rows above the QR centre when there is one. Otherwise
      the first dense row among the top 200 rows less the edge margin, or 0
      when none of them is dense. The source searches from `labelStartY`,
      which is 0 without a QR. */
  function TopEdge(r: Raster, hs: Hints, rowD: seq<real>): (minY: int)
    requires r.Valid() && HintsFit(r, hs) && |rowD| == r.height
    ensures 0 <= minY < r.height
    ensures hs.qrCenter.Some? ==> minY == Max(0, hs.qrCenter.value.1 - QrAbove)
    ensures hs.qrCenter.None? && NoneAbove(rowD, 0, Min(r.height, EdgeScanRows), Threshold(rowD)) ==> minY == 0
    ensures forall y :: hs.qrCenter.None? && FirstAboveAt(rowD, 0, Min(r.height, EdgeScanRows), Threshold(rowD), y) ==>
      minY == Max(0, y - EdgeMargin)
  {
    if hs.qrCenter.Some? then Max(0, hs.qrCenter.value.1 - QrAbove)
    else match FirstAbove(rowD, 0, Min(r.height, EdgeScanRows), Threshold(rowD))
      case Some(y) => Max(0, y - EdgeMargin)
      case None => 0
  }

  /** Bottom edge: 350 rows below the QR centre, clipped, when there is one.
      Otherwise the last dense row among the bottom 200 rows plus the edge
      margin, or the height when none of them is dense. The source searches
      up to `labelEndY`, which is the height without a QR. */
  function BottomEdge(r: Raster, hs: Hints, rowD: seq<real>): (maxY: int)
    requires r.Valid() && HintsFit(r, hs) && |rowD| == r.height
    ensures 0 <= maxY <= r.height
    ensures hs.qrCenter.Some? ==> maxY == Min(r.height, hs.qrCenter.value.1 + QrBelow)
    ensures hs.qrCenter.None? && NoneAbove(rowD, Max(0, r.height - EdgeScanRows), r.height, Threshold(rowD)) ==>
      maxY == r.height
    ensures hs.qrCenter.None? ==>
      var lo := Max(0, r.height - EdgeScanRows);
      forall y :: LastAboveAt(rowD, lo, r.height, Threshold(rowD), y) ==> maxY == Min(r.height - 1, y + EdgeMargin)
  {
    var h := r.height;
    if hs.qrCenter.Some? then Min(h, hs.qrCenter.value.1 + QrBelow)
    else match LastAbove(rowD, Max(0, h - EdgeScanRows), h, Threshold(rowD))
      case Some(y) => Min(h - 1, y + EdgeMargin)
      case None => h
  }

  /** Left and right edges. The left edge is 10 columns left of the barcode
      when there is one; otherwise the first dense column less the edge
      margin, or 0 when no column is dense. The right edge is the last dense
      column plus the edge margin, or the last column when none is dense. */
  function HorizontalEdges(r: Raster, hs: Hints, colD: seq<real>): (e: (int, int))
    requires r.Valid() && HintsFit(r, hs) && |colD| == r.width
    ensures 0 <= e.0 <= r.width - 1 && 0 <= e.1 <= r.width - 1
    ensures hs.left.Some? ==> e.0 == Max(0, hs.left.value - BarcodeMargin)
    ensures hs.left.None? && NoneAbove(colD, 0, r.width, Threshold(colD)) ==> e.0 == 0
    ensures forall x :: hs.left.None? && FirstAboveAt(colD, 0, r.width, Threshold(colD), x) ==> e.0 == Max(0, x - EdgeMargin)
    ensures NoneAbove(colD, 0, r.width, Threshold(colD)) ==> e.1 == r.width - 1
    ensures forall x :: LastAboveAt(colD, 0, r.width, Threshold(colD), x) ==> e.1 == Min(r.width - 1, x + EdgeMargin)
  {
    var w := r.width;
    var colT := Threshold(colD);
    var minX :=
      if hs.left.Some? then Max(0, hs.left.value - BarcodeMargin)
      else match FirstAbove(colD, 0, w, colT)
        case Some(x) => Max(0, x - EdgeMargin)
        case None => 0;
    var maxX :=
      match LastAbove(colD, 0, w, colT)
      case Some(x) => Min(w - 1, x + EdgeMargin)
      case None => w - 1;
    (minX, maxX)
  }

  /** The box from the density edge scans. Without a QR the first dense row
      of the top scan lies at or above the last dense row of the bottom
      scan, so the box is never upside down; without a barcode the same
      holds for the columns. */
  function ProvisionalBox(r: Raster, hs: Hints, rowD: seq<real>, colD: seq<real>): (b: Box)
    requires r.Valid() && HintsFit(r, hs)
    requires |rowD| == r.height && |colD| == r.width
    ensures b.minY == TopEdge(r, hs, rowD) && b.maxY == BottomEdge(r, hs, rowD)
    ensures (b.minX, b.maxX) == HorizontalEdges(r, hs, colD)
    ensures 0 <= b.minY <= b.maxY <= r.height && b.minY < r.height
    ensures hs.left.None? ==> b.minX <= b.maxX
  {
    var minY := TopEdge(r, hs, rowD);
    var maxY := BottomEdge(r, hs, rowD);
    var (minX, maxX) := HorizontalEdges(r, hs, colD);
    var h, t := r.height, Threshold(rowD);
    assert minY <= maxY by {
      if hs.qrCenter.None? {
        var top := FirstAbove(rowD, 0, Min(h, EdgeScanRows), t);
        if top.Some? {
          assert FirstAboveAt(rowD, 0, Min(h, EdgeScanRows), t, top.value);
          var bottom := LastAbove(rowD, Max(0, h - EdgeScanRows), h, t);
          if bottom.Some? {
            assert LastAboveAt(rowD, Max(0, h - EdgeScanRows), h, t, bottom.value);
            assert top.value <= bottom.value;
          } else {
            assert NoneAbove(rowD, Max(0, h - EdgeScanRows), h, t);
          }
        } else {
          assert NoneAbove(rowD, 0, Min(h, EdgeScanRows), t);
        }
      }
    }
    assert hs.left.None? ==> minX <= maxX by {
      var ct := Threshold(colD);
      if hs.left.None? {
        var first := FirstAbove(colD, 0, r.width, ct);
        var last := LastAbove(colD, 0, r.width, ct);
        if first.Some? {
          assert FirstAboveAt(colD, 0, r.width, ct, first.value);
          assert LastAboveAt(colD, 0, r.width, ct, last.value);
        } else {
          assert NoneAbove(colD, 0, r.width, ct);
        }
      }
    }
    Box(minX, minY, maxX, maxY)
  }

  // ---------------------------------------------------------------------
  // Pixel-level refinement

  /** The refinement state: the growing box and whether any inked pixel was
      seen. */
  datatype Refinement = Refinement(box: Box, found: bool)

  predicate Grows(a: Box, b: Box) {
    b.minX <= a.minX && b.minY <= a.minY && a.maxX <= b.maxX && a.maxY <= b.maxY
  }

  /** Columns `[x, xEnd)` of row `y`. */
  function RefineRow(r: Raster, y: int, x: int, xEnd: int, s: Refinement): (s': Refinement)
    requires r.Valid() && 0 <= y < r.height && 0 <= x && xEnd <= r.width
    decreases xEnd - x
    ensures Grows(s.box, s'.box)
    ensures forall x' :: x <= x' < xEnd && Inked(r, x', y) ==> Covers(s'.box, x', y)
    ensures s.found ==> s'.found
    ensures !s'.found ==> s'.box == s.box
    ensures s'.box.minX == s.box.minX || (x <= s'.box.minX < xEnd && Inked(r, s'.box.minX, y))
    ensures s'.box.maxX == s.box.maxX || (x <= s'.box.maxX < xEnd && Inked(r, s'.box.maxX, y))
    ensures s'.box.minY == s.box.minY || (s'.box.minY == y && exists x' :: x <= x' < xEnd && Inked(r, x', y))
    ensures s'.box.maxY == s.box.maxY || (s'.box.maxY == y && exists x' :: x <= x' < xEnd && Inked(r, x', y))
  {
    if x >= xEnd then s
    else if Inked(r, x, y) then
      var b := s.box;
      var b' := Box(Min(b.minX, x), Min(b.minY, y), Max(b.maxX, x), Max(b.maxY, y));
      RefineRow(r, y, x + 1, xEnd, Refinement(b', true))
    else RefineRow(r, y, x + 1, xEnd, s)
  }

  /** Rows `[y, yEnd)`, each over columns `[xStart, xEnd)`. */
  function RefineRows(r: Raster, y: int, yEnd: int, xStart: int, xEnd: int, s: Refinement): (s': Refinement)
    requires r.Valid() && 0 <= y && yEnd <= r.height && 0 <= xStart && xEnd <= r.width
    decreases yEnd - y
    ensures Grows(s.box, s'.box)
    ensures forall x', y' :: xStart <= x' < xEnd && y <= y' < yEnd && Inked(r, x', y') ==> Covers(s'.box, x', y')
    ensures s.found ==> s'.found
    ensures !s'.found ==> s'.box == s.box
    ensures s'.box.minX == s.box.minX ||
      (xStart <= s'.box.minX < xEnd && exists y' :: y <= y' < yEnd && Inked(r, s'.box.minX, y'))
    ensures s'.box.maxX == s.box.maxX ||
      (xStart <= s'.box.maxX < xEnd && exists y' :: y <= y' < yEnd && Inked(r, s'.box.maxX, y'))
    ensures s'.box.minY == s.box.minY ||
      (y <= s'.box.minY < yEnd && exists x' :: xStart <= x' < xEnd && Inked(r, x', s'.box.minY))
    ensures s'.box.maxY == s.box.maxY ||
      (y <= s'.box.maxY < yEnd && exists x' :: xStart <= x' < xEnd && Inked(r, x', s'.box.maxY))
  {
    if y >= yEnd then s
    else RefineRows(r, y + 1, yEnd, xStart, xEnd, RefineRow(r, y, xStart, xEnd, s))
  }

  /** The refinement window: the box widened by the scan margin, clipped. */
  datatype Window = Window(x0: int, y0: int, x1: int, y1: int)

  function ScanWindow(r: Raster, p: Box): (win: Window)
    requires r.Valid()
    ensures 0 <= win.x0 && win.x1 <= r.width && 0 <= win.y0 && win.y1 <= r.height
  {
    Window(Max(0, p.minX - ScanMargin), Max(0, p.minY - ScanMargin),
           Min(r.width, p.maxX + ScanMargin), Min(r.height, p.maxY + ScanMargin))
  }

  predicate InWindow(win: Window, x: int, y: int) {
    win.x0 <= x < win.x1 && win.y0 <= y < win.y1
  }

  /** Grows the provisional box to cover every inked pixel of the scan
      window; each bound that moved sits on an inked pixel of the window. */
  function Refine(r: Raster, p: Box): (b: Box)
    requires r.Valid()
    ensures Grows(p, b)
    ensures forall x, y :: InWindow(ScanWindow(r, p), x, y) && r.InBounds(x, y) && Inked(r, x, y) ==> Covers(b, x, y)
    ensures b.minX == p.minX || exists y :: InWindow(ScanWindow(r, p), b.minX, y) && Inked(r, b.minX, y)
    ensures b.maxX == p.maxX || exists y :: InWindow(ScanWindow(r, p), b.maxX, y) && Inked(r, b.maxX, y)
    ensures b.minY == p.minY || exists x :: InWindow(ScanWindow(r, p), x, b.minY) && Inked(r, x, b.minY)
    ensures b.maxY == p.maxY || exists x :: InWindow(ScanWindow(r, p), x, b.maxY) && Inked(r, x, b.maxY)
  {
    var win := ScanWindow(r, p);
    var s := RefineRows(r, win.y0, win.y1, win.x0, win.x1, Refinement(p, false));
    if s.found then s.box else p
  }

  // ---------------------------------------------------------------------
  // Height cap and padding

  /** With a QR anchor the label is at most 500 rows tall: a taller box
      keeps its top and loses rows at the bottom. */
  function CapHeight(b: Box, anchored: bool): (c: Box)
    ensures c.minX == b.minX && c.minY == b.minY && c.maxX == b.maxX && c.maxY <= b.maxY
    ensures anchored ==> c.maxY - c.minY <= MaxLabelHeight
    ensures anchored && b.maxY - b.minY > MaxLabelHeight ==> c.maxY == b.minY + MaxLabelHeight
    ensures b.minY <= b.maxY ==> c.minY <= c.maxY
    ensures !anchored || b.maxY - b.minY <= MaxLabelHeight ==> c == b
  {
    if anchored && b.maxY - b.minY > MaxLabelHeight then b.(maxY := b.minY + MaxLabelHeight) else b
  }

  /** The padding policy: a floor in pixels and a fraction of the extent. */
  function PadFloor(m: Marketplace): real {
    if m == Flipkart then 15.0 else 10.0
  }

  function PadFraction(m: Marketplace): real {
    if m == Flipkart then 0.03 else 0.02
  }

  /** The larger of the floor and the fraction of the content extent. */
  function Pad(m: Marketplace, extent: int): (p: real)
    ensures p >= PadFloor(m) && p >= PadFraction(m) * extent as real
    ensures p == PadFloor(m) || p == PadFraction(m) * extent as real
  {
    MaxR(PadFloor(m), PadFraction(m) * extent as real)
  }

  /** The detected crop rectangle; coordinates can be fractional because the
      padding is. */
  datatype Region = Region(x: real, y: real, w: real, h: real)

  predicate InsideImage(g: Region, width: int, height: int) {
    0.0 <= g.x && 0.0 <= g.y && g.x + g.w <= width as real && g.y + g.h <= height as real
  }

  /** Pads the content box and clips the result to the image. */
  function PadAndClip(width: int, height: int, m: Marketplace, c: Box): (g: Region)
    requires 0 <= c.minX && 0 <= c.minY
    ensures InsideImage(g, width, height)
    ensures g.x <= c.minX as real && g.y <= c.minY as real
    ensures g.x + g.w >= MinR(width as real, c.maxX as real) && g.y + g.h >= MinR(height as real, c.maxY as real)
    // the padding is kept in full unless the image edge cuts it
    ensures g.x == 0.0 || g.x == c.minX as real - Pad(m, c.maxX - c.minX)
    ensures g.y == 0.0 || g.y == c.minY as real - Pad(m, c.maxY - c.minY)
    ensures g.x + g.w == width as real || g.x + g.w == c.maxX as real + Pad(m, c.maxX - c.minX)
    ensures g.y + g.h == height as real || g.y + g.h == c.maxY as real + Pad(m, c.maxY - c.minY)
    // and it never reaches further than the padding
    ensures g.x >= c.minX as real - Pad(m, c.maxX - c.minX) && g.y >= c.minY as real - Pad(m, c.maxY - c.minY)
    ensures g.x + g.w <= c.maxX as real + Pad(m, c.maxX - c.minX)
    ensures g.y + g.h <= c.maxY as real + Pad(m, c.maxY - c.minY)
    ensures 0 <= c.minY <= c.maxY && c.minY < height ==> g.h > 0.0
    ensures 0 <= c.minX <= c.maxX && c.minX < width ==> g.w > 0.0
  {
    var padX := Pad(m, c.maxX - c.minX);
    var padY := Pad(m, c.maxY - c.minY);
    var x := MaxR(0.0, c.minX as real - padX);
    var y := MaxR(0.0, c.minY as real - padY);
    Region(x, y, MinR(width as real, c.maxX as real + padX) - x, MinR(height as real, c.maxY as real + padY) - y)
  }

  // ---------------------------------------------------------------------
  // The whole detector

  /** Every intermediate result of one detection run. */
  datatype Detection = Detection(hints: Hints, provisional: Box, refined: Box, content: Box, region: Region)

  function Detect(r: Raster, m: Marketplace): (d: Detection)
    requires r.Valid()
    ensures d.hints == DetectBarcodeRegions(r)
    ensures d.provisional == ProvisionalBox(r, d.hints, RowDensities(r), ColDensities(r))
    ensures d.refined == Refine(r, d.provisional)
    ensures d.hints.qrCenter.Some? ==>
      var qrY := d.hints.qrCenter.value.1;
      d.provisional.minY == Max(0, qrY - QrAbove) && d.provisional.maxY == Min(r.height, qrY + QrBelow)
    ensures d.hints.left.Some? ==> d.provisional.minX == Max(0, d.hints.left.value - BarcodeMargin)
    ensures Grows(d.provisional, d.refined)
    ensures forall x, y :: InWindow(ScanWindow(r, d.provisional), x, y) && r.InBounds(x, y) && Inked(r, x, y) ==>
      Covers(d.refined, x, y)
    ensures d.content == CapHeight(d.refined, d.hints.qrCenter.Some?)
    ensures 0 <= d.content.minX && d.content.maxX < r.width && d.content.maxY <= r.height
    ensures 0 <= d.content.minY <= d.content.maxY && d.content.minY < r.height
    ensures d.hints.qrCenter.Some? ==> d.content.maxY - d.content.minY <= MaxLabelHeight
    ensures d.region == PadAndClip(r.width, r.height, m, d.content)
    ensures InsideImage(d.region, r.width, r.height)
    ensures d.region.x <= d.content.minX as real && d.region.y <= d.content.minY as real
    ensures d.region.x + d.region.w >= d.content.maxX as real && d.region.y + d.region.h >= d.content.maxY as real
    ensures d.region.h > 0.0
    ensures d.hints.left.None? ==> d.region.w > 0.0
  {
    var hs := DetectBarcodeRegions(r);
    var p := ProvisionalBox(r, hs, RowDensities(r), ColDensities(r));
    var f := Refine(r, p);
    var c := CapHeight(f, hs.qrCenter.Some?);
    Detection(hs, p, f, c, PadAndClip(r.width, r.height, m, c))
  }

  /** `detectLabelBounds`. Its `catch` returns null, which no well-formed
      raster reaches. */
  function DetectLabelBounds(r: Raster, m: Marketplace): (g: Option<Region>)
    requires r.Valid()
    ensures g.Some? && InsideImage(g.value, r.width, r.height) && g.value.h > 0.0
  {
    Some(Detect(r, m).region)
  }
}
