/** Uploaded files as the browser reports them: a name, a MIME type and the
    bytes that loading or rendering reads. */
module Files {
  import opened Sequences

  datatype File = File(name: string, mime: string, contents: seq<bv8>)

  const PdfMime: string := "application/pdf"

  /** Both components accept a file only when its reported type is exactly
      `application/pdf`. */
  predicate IsPdf(f: File) {
    f.mime == PdfMime
  }

  /** The PDF-typed files of an upload, in upload order. */
  function PdfOnly(fs: seq<File>): (r: seq<File>)
    ensures IsSubsequence(r, fs)
    ensures forall f :: f in r ==> IsPdf(f)
    ensures forall f :: IsPdf(f) ==> multiset(r)[f] == multiset(fs)[f]
  {
    FilterKeepsExactly(fs, IsPdf);
    Filter(fs, IsPdf)
  }
}
