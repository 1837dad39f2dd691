# LabelCrop core, modelled in Dafny

LabelCrop is a browser tool that turns e-commerce shipping-label PDFs into
printer-ready labels. This project models its core logic:

- **The label cropper** (`LabelCropTool`). It rasterises the first page of
  each uploaded PDF. It finds the label on the page with pixel heuristics:
  a barcode-column scan, a QR-window variance scan, row and column ink
  densities, a pixel refinement, a height cap and padding. It crops to the
  label only when the label covers more than 0.5% of the page. It then fits
  the crop, centred, onto a canvas of the marketplace's label size
  (Flipkart, Meesho, Amazon, Myntra, Snapdeal) and exports it at 300 DPI to
  a PDF page measured in points.
- **The batch loop** that runs the cropper over every chosen PDF in order.
- **The merge page** (`PDFMerge`). It keeps a reorderable list of uploaded
  PDFs and concatenates their pages in list order.

Modules, one per file:

| file | module | what it holds |
|---|---|---|
| options.dfy | `Options` | `Option` |
| sequences.dfy | `Sequences` | `Filter`, `IsSubsequence`, insertion `Sort` |
| files.dfy | `Files` | uploaded files and the `application/pdf` filter |
| raster.dfy | `Raster` | pixels, luma, the row-major raster |
| locator.dfy | `Locator` | `detectBarcodeRegions` |
| profile.dfy | `Profile` | ink weights, row and column densities, the 5% rank threshold |
| marketplace.dfy | `Marketplaces` | `LABEL_SIZE_MM` |
| bounds.dfy | `Bounds` | `detectLabelBounds` |
| normalize.dfy | `Normalize` | the crop decision of `handlePdfUpload`, `createMarketplaceCanvas`, export sizes, `handleExportPdf` |
| batch.dfy | `Batch` | `processFiles` |
| merge.dfy | `Merge` | `handleFileUpload`, `removeFile`, `moveFile`, `mergePDFs` of the merge page |

Conventions:

- **Luma.** The source's luma is `0.299 R + 0.587 G + 0.114 B`. The model
  keeps it exactly as the integer `299 R + 587 G + 114 B`, which is 1000
  times that value. Every threshold is scaled to match: dark means below
  128000, inked means below 240000, and a jump means a difference above
  50000.
- **Reals.** Densities, variance, padding and scale are `real`.
- **Loops.** Every source loop is a recursive function over its index. Its
  contract states what the loop has established so far.

## Model

| member | source | states |
|---|---|---|
| Raster.Luma | src/components/LabelCropTool.tsx:87 | The luma of a valid RGB pixel lies between 0 and 255 (scaled by 1000). |
| Locator.BarcodeZoneEnd | src/components/LabelCropTool.tsx:81 | The barcode scan visits column `x` exactly when `x < min(0.25 * width, 200)`. |
| Locator.ScanColumns | src/components/LabelCropTool.tsx:81-98 | After the first `n` columns, `right` is the last column with more than `height / 4` luma jumps. `left` is the first such column after column 0, or 0 when column 0 is the only one, because `!left` treats a left edge of 0 as unset. Both are set or neither. |
| Locator.BarcodeEdges | src/components/LabelCropTool.tsx:81-98 | The same characterisation over the whole barcode zone, including "no column qualifies" exactly when no edge is reported. |
| Locator.ScanQrRow | src/components/LabelCropTool.tsx:106-132 | Within a row, the best score never drops and bounds every fitting window's score. A new best is the first window of the row with that score, because replacement needs a strictly greater score. |
| Locator.ScanQrRows | src/components/LabelCropTool.tsx:105-134 | Over rows `y < min(0.5 * height, 300)`, the result scores at least as high as every scanned window. When it beats the start value, it is a scanned window with that score, and every window scanned before it scores strictly less. |
| Locator.FirstMaxStep | src/components/LabelCropTool.tsx:105-132 | Finishing one row and then the later rows keeps the chosen window the first maximal one in row-by-row, left-to-right scan order. |
| Locator.LocateQr | src/components/LabelCropTool.tsx:101-139 | A QR centre is reported if and only if some scanned window scores above 1000. It is the centre of the first highest-scoring window, and `top` is 10 rows above that window, clipped at 0. |
| Locator.BestIsQr | src/components/LabelCropTool.tsx:128-139 | A best score above 1000 makes the best window's centre the reported QR, with `top` 10 rows above it. |
| Locator.NoQr | src/components/LabelCropTool.tsx:105-139 | A best score of at most 1000 means no scanned window scores above 1000. |
| Locator.QrStartColumn | src/components/LabelCropTool.tsx:106 | The intended first column is the least integer column at or right of `0.3 * width`. |
| Locator.LocateQrAsWritten | src/components/LabelCropTool.tsx:105-139 | The scan as written: no QR evidence at all when the width is not a multiple of 10, and otherwise the evidence of a scan from column `0.3 * width`. |
| Locator.AsWrittenAgreesOnTens | src/components/LabelCropTool.tsx:106 | On widths that are multiples of 10 the scan as written equals the intended scan. |
| Locator.AsWrittenMissesQr | src/components/LabelCropTool.tsx:106-118 | On any other width, a window scoring above 1000 is found by the intended scan and missed by the scan as written. |
| Locator.DetectBarcodeRegions | src/components/LabelCropTool.tsx:74-142 | The hints combine both scans: barcode edges as in `BarcodeEdges`, and the QR evidence as in `LocateQr` with the scan starting at `QrStartColumn(width)`. |
| Profile.Weight | src/components/LabelCropTool.tsx:173 | A pixel's ink weight is between 0 and 2 and is 0 exactly for pure white. |
| Profile.WeightAntitone | src/components/LabelCropTool.tsx:173 | A darker pixel never weighs less than a lighter one. |
| Profile.RowDensities | src/components/LabelCropTool.tsx:168-177 | There is one density per row, each between 0 and 2. |
| Profile.ColDensities | src/components/LabelCropTool.tsx:179-188 | There is one density per column, each between 0 and 2. |
| Profile.RowSumZero | src/components/LabelCropTool.tsx:168-176 | The weights of the first `n` pixels of a row add up to 0 exactly when all of them are white. |
| Profile.ColSumZero | src/components/LabelCropTool.tsx:179-187 | The weights of the first `n` pixels of a column add up to 0 exactly when all of them are white. |
| Profile.RowDensityZero | src/components/LabelCropTool.tsx:168-177 | A row's density is 0 exactly when every pixel of the row is white. |
| Profile.ColDensityZero | src/components/LabelCropTool.tsx:179-188 | A column's density is 0 exactly when every pixel of the column is white. |
| Sequences.Sort | src/components/LabelCropTool.tsx:190-191 | The sorted densities are ascending and a permutation of the input. |
| Profile.Threshold | src/components/LabelCropTool.tsx:190-193 | Half of the threshold is one of the densities. |
| Profile.ThresholdIsRankStatistic | src/components/LabelCropTool.tsx:190-193 | At most `floor(0.05 n)` densities lie strictly below half the threshold, and more than that many lie at or below it. This makes it the 5% order statistic. |
| Marketplaces.LabelSizeMm | src/components/LabelCropTool.tsx:32-38 | Every label is 100-105 mm wide and 148-152 mm tall, portrait, and Flipkart's is 100 x 148. |
| Bounds.FirstAbove | src/components/LabelCropTool.tsx:202-207 | The result is the first index in the range whose density exceeds the threshold; none means no index does. |
| Bounds.LastAbove | src/components/LabelCropTool.tsx:213-218 | The result is the last index in the range whose density exceeds the threshold; none means no index does. |
| Bounds.TopEdge | src/components/LabelCropTool.tsx:199-208 | With a QR the top is 120 rows above its centre, clipped at 0. Otherwise it is 8 rows above the first dense row among the first 200 rows, clipped at 0, or 0 when none of them is dense. |
| Bounds.BottomEdge | src/components/LabelCropTool.tsx:210-219 | With a QR the bottom is 350 rows below its centre, clipped to the height. Otherwise it is 8 rows below the last dense row among the last 200 rows, clipped to the last row, or the height when none of them is dense. |
| Bounds.HorizontalEdges | src/components/LabelCropTool.tsx:221-238 | With a barcode the left edge is 10 columns left of it, clipped at 0. Otherwise it is 8 columns left of the first dense column, clipped, or 0 when no column is dense. The right edge is 8 columns right of the last dense column, clipped, or the last column when none is dense. |
| Bounds.ProvisionalBox | src/components/LabelCropTool.tsx:195-238 | The box is made of the top, bottom, left and right edges above. Its top lies in the image and never below its bottom, and without a barcode its left edge never lies right of its right edge. |
| Bounds.RefineRow | src/components/LabelCropTool.tsx:248-258 | Scanning a row segment only grows the box. It covers every inked pixel of the segment. Each bound that moved sits on an inked pixel of the segment. |
| Bounds.RefineRows | src/components/LabelCropTool.tsx:247-259 | The same over the whole scan rectangle. |
| Bounds.Refine | src/components/LabelCropTool.tsx:240-267 | The refined box contains the provisional one and every inked pixel of the 15-pixel scan window. Each bound that moved is witnessed by an inked pixel. |
| Bounds.CapHeight | src/components/LabelCropTool.tsx:269-274 | With a QR, a box taller than 500 rows keeps its top and ends exactly 500 rows below it. Without a QR, or when the box is short enough, it is unchanged. |
| Bounds.Pad | src/components/LabelCropTool.tsx:277-284 | The padding is the larger of the floor (15 for Flipkart, else 10) and the fraction (3% for Flipkart, else 2%) of the extent. |
| Bounds.PadAndClip | src/components/LabelCropTool.tsx:276-291 | Each side of the region is the content edge moved outward by the padding and clipped to the image: it never reaches past the padding, and it reaches the full padding unless the image edge stops it. The region lies in the image and contains the content box, and its height is positive for a non-empty box. |
| Bounds.Detect | src/components/LabelCropTool.tsx:145-291 | The detector chains the stages: the hints, the provisional box from them and the densities, its refinement, the 500-row cap under a QR, and the padded and clipped region. The region lies inside the image, contains the content and has positive height. |
| Bounds.DetectLabelBounds | src/components/LabelCropTool.tsx:145-295 | A valid raster always yields a region inside the image with positive height. |
| Normalize.LargeEnoughArea | src/components/LabelCropTool.tsx:426-428 | The area fraction exceeds 0.5% exactly when the area exceeds 0.5% of the page area. |
| Normalize.CropDecision | src/components/LabelCropTool.tsx:420-447 | Detected bounds larger than 0.5% of the page are used. Otherwise, or with no bounds, the whole page is kept. |
| Normalize.NegativeWidthNeverCrops | src/components/LabelCropTool.tsx:286-291 | A region whose width came out non-positive never causes a crop. |
| Normalize.CropKeepsContent | src/components/LabelCropTool.tsx:420-450 | The chosen region lies in the page and has positive width and height. |
| Normalize.HandlePdfUpload | src/components/LabelCropTool.tsx:391-453 | A canvas is produced exactly when the document has a first page; a load error or zero pages gives null. The detected region is used exactly when it covers more than 0.5% of the page, and the whole page otherwise. The result lies in the page and has positive size. |
| Normalize.FitAndCentre | src/components/LabelCropTool.tsx:456-473 | The source is scaled by one factor on both axes, so its aspect ratio is kept. It fits the target and touches it on at least one axis, with equal margins on opposite sides. |
| Normalize.FitIsLargest | src/components/LabelCropTool.tsx:465 | No larger uniform scale fits the target. |
| Normalize.ExportPixelSize | src/components/LabelCropTool.tsx:482-485 | The export canvas is exactly `mm / 25.4 * 300` pixels on each axis, unrounded, and portrait. |
| Normalize.PageSizePt | src/components/LabelCropTool.tsx:585-588 | The exported page is `mm * 2.83465` points on each axis. |
| Normalize.CanvasFillsPage | src/components/LabelCropTool.tsx:585-614 | The export canvas and the page have the same aspect ratio, so drawing one full-bleed on the other does not distort it. |
| Normalize.RenderPage | src/components/LabelCropTool.tsx:581-614 | Each exported page has the marketplace page size and the export canvas. The processed canvas is scaled uniformly onto the export canvas, fits it, touches it on one axis and is centred. |
| Normalize.ExportPdf | src/components/LabelCropTool.tsx:565-688 | A valid index exports that one canvas as a single page, and an invalid index fails. Without an index: nothing to export for no canvases, a single page for one, and for two or more a combined document with one page per canvas in list order. |
| Files.PdfOnly | src/components/LabelCropTool.tsx:301 | The kept files are a subsequence of the input, all typed `application/pdf`, and every PDF file keeps its multiplicity. |
| Sequences.FilterKeepsExactly | src/components/LabelCropTool.tsx:301 | A filter keeps an in-order subsequence. Every kept element passes, and each passing element keeps its multiplicity while each failing one is dropped. |
| Batch.Loop | src/components/LabelCropTool.tsx:320-340 | After `n` iterations, progress `(k + 1, total)` was reported for each `k < n`. Every processed entry is a file whose upload returned that canvas. |
| Batch.LoopKeepsSuccesses | src/components/LabelCropTool.tsx:320-340 | After `n` iterations the processed files are exactly the first `n` PDF files whose upload returned a canvas, in order. |
| Batch.ProcessFiles | src/components/LabelCropTool.tsx:300-344 | Nothing runs exactly when no file is a PDF. Otherwise the files are the PDF files, and the ignored count is the number of others. Progress goes `(0, n)`, `(1, n)` … `(n, n)`, `(0, 0)`. The processed files are exactly those whose upload returned a canvas, in order. |
| Batch.EverySuccessIsKept | src/components/LabelCropTool.tsx:320-340 | Any PDF file whose upload succeeds is processed with its canvas, whatever the other files do. |
| Batch.AllSucceed | src/components/LabelCropTool.tsx:300-344 | When every upload succeeds, every PDF file is processed, in order. |
| Merge.AddUploads | src/components/PDFMerge.tsx:15-26 | The existing entries are kept as a prefix. The PDF uploads follow in upload order, each with a minted id. |
| Merge.UploadKeepsIdsUnique | src/components/PDFMerge.tsx:15-26 | With fresh and distinct minted ids, the list keeps unique ids. |
| Merge.RemoveFile | src/components/PDFMerge.tsx:28-30 | The result is an in-order subsequence with no entry of that id, and every other entry keeps its multiplicity. |
| Merge.RemoveAbsent | src/components/PDFMerge.tsx:28-30 | Removing an id that is not listed changes nothing. |
| Merge.MoveFile | src/components/PDFMerge.tsx:32-40 | The result is a permutation. It swaps the entry with its neighbour and leaves every other position alone, or changes nothing when the neighbour does not exist. |
| Merge.MoveUpThenDown | src/components/PDFMerge.tsx:32-40 | Moving an entry up and then back down restores the list. |
| Merge.MoveAtEnds | src/components/PDFMerge.tsx:35-37 | The first entry cannot move up and the last cannot move down. |
| Merge.MoveKeepsIdsUnique | src/components/PDFMerge.tsx:32-40 | Moving keeps the ids unique. |
| Merge.ConcatBlocks | src/components/PDFMerge.tsx:50-55 | Document `k`'s pages form one contiguous block of the concatenation, right after the pages of the documents before it. |
| Merge.LoadAll | src/components/PDFMerge.tsx:50-55 | Loading fails if and only if some file fails to load. Otherwise there is one document per entry, in list order. |
| Merge.MergePdfs | src/components/PDFMerge.tsx:42-73 | Fewer than two files do nothing. The merge fails exactly when some file fails to load. Otherwise the result is the concatenated pages in list order. |
| Merge.MergedKeepsListOrder | src/components/PDFMerge.tsx:42-73 | In a merged document, the pages of the `k`-th file appear unchanged as one block, after those of the files before it. |

Facts about the source that the model keeps:

- **The QR search window is unused.** With a QR the vertical edges are
  pinned at 120 rows above and 350 rows below its centre (LabelCropTool.tsx:199-200,
  210-211). The `labelStartY`/`labelEndY` window (150 above, 400 below,
  :158-162) is read only on the non-QR path, where it is 0 and the page
  height, so the model scans from row 0 and up to the page height.
- **The crop test is strict.** The crop needs an area fraction strictly
  above 0.5% (LabelCropTool.tsx:428).
- **Export sizes are not rounded.** The canvas is `mm / 25.4 * 300` pixels
  (LabelCropTool.tsx:484-485).
- **Failures are skipped.** A file whose upload returns null or throws is
  left out of the processed list, and nothing records it as failed
  (LabelCropTool.tsx:324-339).
- **A left edge of 0 is overwritten.** `!left` treats 0 as unset, so a
  barcode-like column 0 is replaced by the next barcode-like column
  (LabelCropTool.tsx:96). `Locator.ScanColumns` states this.
- **The width can be negative.** When a barcode lies far enough right of
  the last dense column that the left edge passes the right edge by more
  than twice the padding, and the refinement window holds no ink, the
  region's width comes out negative (LabelCropTool.tsx:221-238, 286-288).
  The area test then refuses the crop (`Normalize.NegativeWidthNeverCrops`).
- **Files are values.** A file is its name, type and bytes. Loading and
  uploading are functions of the whole file, so two uploads of different
  PDFs that share a name are still distinct.

## Findings

| source | as written | input that shows it | evidently intended | confidence | as-written member | corrected member |
|---|---|---|---|---|---|---|
| src/components/LabelCropTool.tsx:106 | The QR scan's column counter starts at `width * 0.3` and keeps its fraction. Unless the width is a multiple of 10, every pixel index at :115 is either non-integral, so the read is `undefined` and the luma NaN, or two bytes off, so it reads blue, alpha and the next red, a luma of at least 149.7 on the opaque page. No pixel counts as dark, every window scores 0, and no QR is ever reported. | A label page rendered 1785 pixels wide (A4 at scale 3) with a QR code in its upper right: `0.3 * 1785 = 535.5`. | Scan the integer columns from `0.3 * width` on, so a QR code is found on a page of any width. | medium; not executed | Locator.LocateQrAsWritten, Locator.AsWrittenMissesQr | Locator.QrStartColumn, Locator.DetectBarcodeRegions |

## Left out

- PDF parsing and rasterisation (`getDocument`, `render`) are outside the model. `HandlePdfUpload` takes the rendered first page, or the load or empty-document outcome, as its input.
- Canvas operations are outside the model: `drawImage` resampling, `getImageData`/`putImageData`, PNG encoding, `Blob`, downloads, and `PDFDocument.load/copyPages/save/embedPng`. The model keeps only the geometry and page sizes they receive, and `MergePdfs` takes document loading as a function.
- React state, `setTimeout`, the preview (zoom, pan, display downscaling), drag-and-drop wiring and alerts are outside the model. Alerts appear only as result variants.
- LabelCropTool's own `removeFile` (:375-389) only keeps the preview index in range and is not modelled.
- Merge ids come from `Date.now()` and `Math.random()`. A `mint` function parameter supplies them instead.
- Locator.DetectBarcodeRegions: it scans from the intended column `QrStartColumn(width)`. The source's behaviour on widths that are not multiples of 10 is kept separately in `Locator.LocateQrAsWritten` (see Findings); the individual misaligned byte reads behind it are not modelled.
- The raster is one RGB pixel per position, indexed row-major. The alpha channel and the `* 4` RGBA stride are not modelled. The page is filled white before rendering (LabelCropTool.tsx:410-412), so every pixel is opaque; the source reads alpha only through the misaligned index of the Finding.
- Floating-point rounding is not modelled. Densities, variance, padding and scale are exact reals, and luma is an exact scaled integer. The canvas's truncation of fractional widths and heights (for a crop, or the unrounded export size) is not modelled either.
- Bounds.DetectLabelBounds: its `catch` returning null is not reachable for a well-formed raster, so the function always returns a region. The crop decision still accepts a missing region, as the source's `if (bounds)` does.
- Normalize.ExportPdf: it takes the processed canvases' sizes. The pixel content drawn on each page is not modelled.
