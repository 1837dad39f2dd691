/** The batch loop of `processFiles`: PDF files are handled strictly in
    order, one failing file never stops the others, and progress is reported
    per file. */
module Batch {
  import opened Sequences
  import opened Files

  /** What `handlePdfUpload` did for one file: it threw, returned null, or
      returned a canvas. */
  datatype Upload<C> = Threw | ReturnedNull | Returned(canvas: C)

  datatype Processed<C> = Processed(file: File, canvas: C)

  /** The `{ current, total }` pairs passed to `setProcessingProgress`. */
  datatype Progress = Progress(current: nat, total: nat)

  /** One call of `processFiles`: either the upload held no PDF (an alert,
      nothing else changes), or a run over the PDF files. */
  datatype Run<C> =
    | NoPdfFiles
    | Ran(files: seq<File>, ignored: nat, processed: seq<Processed<C>>, progress: seq<Progress>)

  function FilesOf<C>(ps: seq<Processed<C>>): (fs: seq<File>)
    ensures |fs| == |ps| && forall k :: 0 <= k < |ps| ==> fs[k] == ps[k].file
  {
    seq(|ps|, k requires 0 <= k < |ps| => ps[k].file)
  }

  /** The files whose upload returns a canvas. */
  function Succeeds<C>(upload: File -> Upload<C>): File -> bool {
    f => upload(f).Returned?
  }

  datatype LoopState<C> = LoopState(processed: seq<Processed<C>>, progress: seq<Progress>)

  /** The state after the first `n` iterations of the loop. */
  function Loop<C>(pdfs: seq<File>, upload: File -> Upload<C>, n: nat): (s: LoopState<C>)
    requires n <= |pdfs|
    ensures |s.progress| == n
    ensures forall k :: 0 <= k < n ==> s.progress[k] == Progress(k + 1, |pdfs|)
    ensures forall k :: 0 <= k < |s.processed| ==> upload(s.processed[k].file) == Returned(s.processed[k].canvas)
  {
    if n == 0 then LoopState([], [])
    else
      var s := Loop(pdfs, upload, n - 1);
      var f := pdfs[n - 1];
      var processed := match upload(f)
        case Returned(c) => s.processed + [Processed(f, c)]
        case _ => s.processed;
      LoopState(processed, s.progress + [Progress(n, |pdfs|)])
  }

  /** After `n` iterations the processed files are exactly the first `n` PDF
      files whose upload returned a canvas, in order. */
  lemma {:induction false} LoopKeepsSuccesses<C>(pdfs: seq<File>, upload: File -> Upload<C>, n: nat)
    requires n <= |pdfs|
    ensures FilesOf(Loop(pdfs, upload, n).processed) == Filter(pdfs[..n], Succeeds(upload))
  {
    if n > 0 {
      var f := pdfs[n - 1];
      LoopKeepsSuccesses(pdfs, upload, n - 1);
      assert pdfs[..n] == pdfs[..n - 1] + [f];
      FilterAppend(pdfs[..n - 1], [f], Succeeds(upload));
      assert [f][1..] == [];
    }
  }

  /** `processFiles` over the chosen files, with `handlePdfUpload` as `upload`. */
  function ProcessFiles<C>(fileList: seq<File>, upload: File -> Upload<C>): (r: Run<C>)
    ensures r.NoPdfFiles? <==> forall f :: f in fileList ==> !IsPdf(f)
    ensures r.Ran? ==>
      && r.files == PdfOnly(fileList)
      && r.ignored == |fileList| - |r.files|
      // progress: (0, n) first, then (i + 1, n) for every file, then (0, 0)
      && |r.progress| == |r.files| + 2
      && r.progress[0] == Progress(0, |r.files|)
      && (forall i :: 1 <= i <= |r.files| ==> r.progress[i] == Progress(i, |r.files|))
      && r.progress[|r.files| + 1] == Progress(0, 0)
      // exactly the files whose upload returned a canvas, in order
      && FilesOf(r.processed) == Filter(r.files, Succeeds(upload))
      && (forall k :: 0 <= k < |r.processed| ==> upload(r.processed[k].file) == Returned(r.processed[k].canvas))
  {
    var pdfs := PdfOnly(fileList);
    if |pdfs| == 0 then
      assert forall f :: f in fileList && IsPdf(f) ==> multiset(pdfs)[f] > 0;
      NoPdfFiles
    else
      assert pdfs[0] in fileList by {
        assert multiset(pdfs)[pdfs[0]] > 0;
      }
      var s := Loop(pdfs, upload, |pdfs|);
      LoopKeepsSuccesses(pdfs, upload, |pdfs|);
      assert pdfs[..|pdfs|] == pdfs;
      Ran(pdfs, |fileList| - |pdfs|, s.processed, [Progress(0, |pdfs|)] + s.progress + [Progress(0, 0)])
  }

  /** Isolation: every PDF file whose upload returns a canvas is processed,
      whatever the other files do; the processed files keep their input order. */
  lemma {:induction false} EverySuccessIsKept<C>(fileList: seq<File>, upload: File -> Upload<C>, f: File)
    requires f in fileList && IsPdf(f) && upload(f).Returned?
    ensures ProcessFiles(fileList, upload).Ran?
    ensures Processed(f, upload(f).canvas) in ProcessFiles(fileList, upload).processed
    ensures IsSubsequence(FilesOf(ProcessFiles(fileList, upload).processed), PdfOnly(fileList))
  {
    FilterKeepsExactly(PdfOnly(fileList), Succeeds(upload));
    var r := ProcessFiles(fileList, upload);
    var pdfs := PdfOnly(fileList);
    assert multiset(pdfs)[f] == multiset(fileList)[f] > 0;
    var kept := Filter(pdfs, Succeeds(upload));
    FilterKeepsExactly(pdfs, Succeeds(upload));
    assert multiset(kept)[f] > 0;
    assert f in FilesOf(r.processed);
    var k :| 0 <= k < |r.processed| && FilesOf(r.processed)[k] == f;
    assert r.processed[k] == Processed(f, upload(f).canvas);
  }

  /** When every upload succeeds, every PDF file is processed, in order. */
  lemma AllSucceed<C>(fileList: seq<File>, upload: File -> Upload<C>)
    requires exists f :: f in fileList && IsPdf(f)
    requires forall f :: upload(f).Returned?
    ensures FilesOf(ProcessFiles(fileList, upload).processed) == PdfOnly(fileList)
  {
    FilterAll(PdfOnly(fileList), Succeeds(upload));
  }
}
