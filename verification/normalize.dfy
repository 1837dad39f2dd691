/** The crop decision of `handlePdfUpload`, the fit-and-centre geometry of
    `createMarketplaceCanvas`, and the export sizes. */
module Normalize {
  import opened Options
  import opened Raster
  import opened Marketplaces
  import opened Bounds

  /** A detected box is used only when it covers more than 0.5% of the page. */
  const MinAreaFraction: real := 0.005
  const ExportDpi: int := 300
  const MmPerInch: real := 25.4
  const PtPerMm: real := 2.83465

  function FullPage(width: int, height: int): Region {
    Region(0.0, 0.0, width as real, height as real)
  }

  /** Whether the area fraction of `b` exceeds the threshold. */
  predicate LargeEnough(b: Region, width: int, height: int)
    requires width > 0 && height > 0
  {
    (b.w * b.h) / (width * height) as real > MinAreaFraction
  }

  lemma LargeEnoughArea(b: Region, width: int, height: int)
    requires width > 0 && height > 0
    ensures LargeEnough(b, width, height) <==> b.w * b.h > MinAreaFraction * (width * height) as real
  {
    var a, k := b.w * b.h, (width * height) as real;
    assert k > 0.0 by {
      assert width * height > 0;
    }
    assert (a / k) * k == a;
  }

  /** The region of the page that becomes the cropped canvas: the detected
      bounds when present and larger than 0.5% of the page, else the
      untouched page. */
  function CropDecision(width: int, height: int, bounds: Option<Region>): (c: Region)
    requires width > 0 && height > 0
    ensures bounds.Some? && bounds.value.w * bounds.value.h > MinAreaFraction * (width * height) as real ==>
      c == bounds.value
    ensures bounds.None? || bounds.value.w * bounds.value.h <= MinAreaFraction * (width * height) as real ==>
      c == FullPage(width, height)
    ensures c == FullPage(width, height) || LargeEnough(c, width, height)
  {
    if bounds.Some? then LargeEnoughArea(bounds.value, width, height); CropOrKeep(width, height, bounds.value)
    else FullPage(width, height)
  }

  function CropOrKeep(width: int, height: int, b: Region): Region
    requires width > 0 && height > 0
  {
    if LargeEnough(b, width, height) then b else FullPage(width, height)
  }

  /** A box whose width came out negative (a barcode left of the dense
      columns) is never used for cropping, because the heights the detector
      produces are positive. */
  lemma NegativeWidthNeverCrops(width: int, height: int, b: Region)
    requires width > 0 && height > 0 && b.w <= 0.0 && b.h > 0.0
    ensures CropDecision(width, height, Some(b)) == FullPage(width, height)
  {
    assert b.w * b.h <= 0.0;
    assert (width * height) as real > 0.0 by {
      assert width * height > 0;
    }
  }

  /** What the external renderer returns for a PDF: a load error (thrown and
      caught), a document without pages, or the first page at scale 3. */
  datatype Rendered = LoadFailed | NoPages | FirstPage(page: Raster)

  /** `handlePdfUpload`: the region of the first page that becomes the
      cropped canvas, or none when the document could not be rendered. */
  function HandlePdfUpload(doc: Rendered, m: Marketplace): (c: Option<Region>)
    requires doc.FirstPage? ==> doc.page.Valid()
    ensures c.Some? <==> doc.FirstPage?
    // the detected region is used exactly when it is large enough
    ensures doc.FirstPage? && LargeEnough(Detect(doc.page, m).region, doc.page.width, doc.page.height) ==>
      c == Some(Detect(doc.page, m).region)
    ensures doc.FirstPage? && !LargeEnough(Detect(doc.page, m).region, doc.page.width, doc.page.height) ==>
      c == Some(FullPage(doc.page.width, doc.page.height))
    ensures c.Some? ==>
      && InsideImage(c.value, doc.page.width, doc.page.height)
      && c.value.w > 0.0 && c.value.h > 0.0
      && (c.value == FullPage(doc.page.width, doc.page.height) || LargeEnough(c.value, doc.page.width, doc.page.height))
  {
    match doc
    case LoadFailed => None
    case NoPages => None
    case FirstPage(page) =>
      var bounds := DetectLabelBounds(page, m);
      var c := CropDecision(page.width, page.height, bounds);
      CropKeepsContent(page.width, page.height, bounds);
      Some(c)
  }

  /** The chosen region lies in the page and has positive size whenever the
      detected bounds do and have a positive height. */
  lemma CropKeepsContent(width: int, height: int, bounds: Option<Region>)
    requires width > 0 && height > 0
    requires bounds.Some? ==> InsideImage(bounds.value, width, height) && bounds.value.h > 0.0
    ensures var c := CropDecision(width, height, bounds);
      InsideImage(c, width, height) && c.w > 0.0 && c.h > 0.0
  {
    var c := CropDecision(width, height, bounds);
    if c != FullPage(width, height) {
      assert (width * height) as real > 0.0 by {
        assert width * height > 0;
      }
      assert c.w * c.h > 0.0;
    }
  }

  // ---------------------------------------------------------------------
  // Fit and centre

  /** Where the source image lands on the target canvas. */
  datatype Placement = Placement(scale: real, x: real, y: real, w: real, h: real)

  /** An `sw` x `sh` image placed on a `tw` x `th` target: one scale on both
      axes, so the aspect ratio is kept; it fits the target and touches it on
      at least one axis; the margins on opposite sides are equal. */
  predicate FitsCentred(p: Placement, sw: real, sh: real, tw: real, th: real) {
    && p.scale > 0.0
    && p.w == sw * p.scale && p.h == sh * p.scale
    && p.w * sh == p.h * sw
    && p.w <= tw && p.h <= th && (p.w == tw || p.h == th)
    && p.x >= 0.0 && p.y >= 0.0
    && p.x + p.w + p.x == tw && p.y + p.h + p.y == th
  }

  /** Uniform scale to fit, then centring. */
  function FitAndCentre(sw: real, sh: real, tw: real, th: real): (p: Placement)
    requires sw > 0.0 && sh > 0.0 && tw > 0.0 && th > 0.0
    ensures FitsCentred(p, sw, sh, tw, th)
  {
    var sx, sy := tw / sw, th / sh;
    DivMul(tw, sw);
    DivMul(th, sh);
    var s := MinR(sx, sy);
    MulLe(sw, s, sx);
    MulLe(sh, s, sy);
    var w, h := sw * s, sh * s;
    assert w * sh == h * sw by {
      MulComm(sw, s, sh);
    }
    Placement(s, (tw - w) / 2.0, (th - h) / 2.0, w, h)
  }

  lemma DivMul(a: real, b: real)
    requires a > 0.0 && b > 0.0
    ensures a / b > 0.0 && b * (a / b) == a
  {
  }

  lemma MulComm(a: real, s: real, b: real)
    ensures (a * s) * b == (b * s) * a
  {
  }

  lemma MulLe(k: real, a: real, b: real)
    requires k > 0.0 && a <= b
    ensures k * a <= k * b
  {
  }

  /** No larger uniform scale fits: the fit is as large as possible. */
  lemma FitIsLargest(sw: real, sh: real, tw: real, th: real, s: real)
    requires sw > 0.0 && sh > 0.0 && tw > 0.0 && th > 0.0
    requires sw * s <= tw && sh * s <= th
    ensures s <= FitAndCentre(sw, sh, tw, th).scale
  {
    var p := FitAndCentre(sw, sh, tw, th);
  }

  // ---------------------------------------------------------------------
  // Export sizes

  datatype Size = Size(w: real, h: real)

  /** The export canvas in pixels: `mm / 25.4 * 300`, not rounded. */
  function ExportPixelSize(m: Marketplace): (s: Size)
    ensures s.w * MmPerInch == LabelSizeMm(m).width as real * ExportDpi as real
    ensures s.h * MmPerInch == LabelSizeMm(m).height as real * ExportDpi as real
    ensures 0.0 < s.w < s.h
  {
    var mm := LabelSizeMm(m);
    Size(mm.width as real / MmPerInch * ExportDpi as real, mm.height as real / MmPerInch * ExportDpi as real)
  }

  /** The exported PDF page in points: `mm * 2.83465`. */
  function PageSizePt(m: Marketplace): (s: Size)
    ensures s.w / PtPerMm == LabelSizeMm(m).width as real
    ensures s.h / PtPerMm == LabelSizeMm(m).height as real
  {
    var mm := LabelSizeMm(m);
    Size(mm.width as real * PtPerMm, mm.height as real * PtPerMm)
  }

  /** The export canvas and the page have the same aspect ratio, so drawing
      the canvas full-bleed on the page does not distort it. */
  lemma CanvasFillsPage(m: Marketplace)
    ensures ExportPixelSize(m).w * PageSizePt(m).h == ExportPixelSize(m).h * PageSizePt(m).w
  {
    var mm := LabelSizeMm(m);
    var k := ExportDpi as real / MmPerInch;
    assert ExportPixelSize(m).w == mm.width as real * k;
    assert ExportPixelSize(m).h == mm.height as real * k;
  }

  /** One page of an exported PDF: the page size and where the processed
      canvas lands on the export canvas. */
  datatype ExportPage = ExportPage(page: Size, canvas: Size, placement: Placement)

  datatype Export = NothingToExport | ExportFailed | Single(p: ExportPage) | Combined(ps: seq<ExportPage>)

  predicate Drawable(c: Size) {
    c.w > 0.0 && c.h > 0.0
  }

  function RenderPage(m: Marketplace, c: Size): (p: ExportPage)
    requires Drawable(c)
    ensures p.page == PageSizePt(m) && p.canvas == ExportPixelSize(m)
    ensures FitsCentred(p.placement, c.w, c.h, p.canvas.w, p.canvas.h)
  {
    var t := ExportPixelSize(m);
    ExportPage(PageSizePt(m), t, FitAndCentre(c.w, c.h, t.w, t.h))
  }

  /** `handleExportPdf`: one processed canvas (by index) or all of them, one
      page each in list order; a missing index throws and is caught. */
  function ExportPdf(m: Marketplace, canvases: seq<Size>, index: Option<int>): (e: Export)
    requires forall i :: 0 <= i < |canvases| ==> Drawable(canvases[i])
    ensures e == NothingToExport <==> index.None? && |canvases| == 0
    ensures e == ExportFailed <==> index.Some? && !(0 <= index.value < |canvases|)
    ensures e.Single? <==> (index.Some? && 0 <= index.value < |canvases|) || (index.None? && |canvases| == 1)
    ensures e.Combined? <==> index.None? && |canvases| >= 2
    ensures e.Single? ==> e.p == RenderPage(m, if index.Some? then canvases[index.value] else canvases[0])
    ensures e.Combined? ==>
      && index.None? && |e.ps| == |canvases| >= 2
      && forall i :: 0 <= i < |canvases| ==> e.ps[i] == RenderPage(m, canvases[i])
  {
    if index.Some? then
      if 0 <= index.value < |canvases| then Single(RenderPage(m, canvases[index.value])) else ExportFailed
    else if |canvases| == 0 then NothingToExport
    else if |canvases| == 1 then Single(RenderPage(m, canvases[0]))
    else Combined(seq(|canvases|, i requires 0 <= i < |canvases| => RenderPage(m, canvases[i])))
  }
}
