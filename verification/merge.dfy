/** The reorderable file list of the PDF merge page and the merge itself. */
module Merge {
  import opened Options
  import opened Sequences
  import opened Files

  /** A listed file with its identifier (`Date.now()` and `Math.random()` in
      the source; minted by the caller here). */
  datatype Entry = Entry(id: string, file: File)

  datatype Direction = Up | Down

  predicate UniqueIds(es: seq<Entry>) {
    forall i, j :: 0 <= i < |es| && 0 <= j < |es| && i != j ==> es[i].id != es[j].id
  }

  // ---------------------------------------------------------------------
  // Upload

  /** `handleFileUpload`: the PDF-typed uploads are appended after the
      existing entries, in upload order; the `k`-th new entry gets the id
      `mint(k)`. */
  function AddUploads(es: seq<Entry>, uploaded: seq<File>, mint: nat -> string): (r: seq<Entry>)
    ensures |r| == |es| + |PdfOnly(uploaded)|
    ensures r[..|es|] == es
    ensures forall k :: |es| <= k < |r| ==> IsPdf(r[k].file) && r[k].id == mint(k - |es|)
    ensures forall k :: 0 <= k < |PdfOnly(uploaded)| ==> r[|es| + k].file == PdfOnly(uploaded)[k]
  {
    var pdfs := PdfOnly(uploaded);
    assert forall k :: 0 <= k < |pdfs| ==> pdfs[k] in pdfs;
    es + seq(|pdfs|, k requires 0 <= k < |pdfs| => Entry(mint(k), pdfs[k]))
  }

  /** With fresh, distinct minted ids the list keeps unique ids. */
  lemma UploadKeepsIdsUnique(es: seq<Entry>, uploaded: seq<File>, mint: nat -> string)
    requires UniqueIds(es)
    requires forall a, b :: 0 <= a < b < |PdfOnly(uploaded)| ==> mint(a) != mint(b)
    requires forall k, i :: 0 <= k < |PdfOnly(uploaded)| && 0 <= i < |es| ==> mint(k) != es[i].id
    ensures UniqueIds(AddUploads(es, uploaded, mint))
  {
    var r := AddUploads(es, uploaded, mint);
    forall i, j | 0 <= i < |r| && 0 <= j < |r| && i != j
      ensures r[i].id != r[j].id
    {
      if i < |es| && j < |es| {
        assert r[i] == es[i] && r[j] == es[j];
      } else if i < |es| {
        assert r[i] == es[i];
      } else if j < |es| {
        assert r[j] == es[j];
      } else if i < j {
        assert mint(i - |es|) != mint(j - |es|);
      } else {
        assert mint(j - |es|) != mint(i - |es|);
      }
    }
  }

  // ---------------------------------------------------------------------
  // Remove

  /** The entries `removeFile` keeps. */
  function HasOtherId(id: string): Entry -> bool {
    (e: Entry) => e.id != id
  }

  /** `removeFile`: drops the entries with the given id. */
  function RemoveFile(es: seq<Entry>, id: string): (r: seq<Entry>)
    ensures IsSubsequence(r, es)
    ensures forall e :: e in r ==> e.id != id
    ensures forall e: Entry :: e.id != id ==> multiset(r)[e] == multiset(es)[e]
  {
    FilterKeepsExactly(es, HasOtherId(id));
    Filter(es, HasOtherId(id))
  }

  /** An id that is not listed removes nothing. */
  lemma RemoveAbsent(es: seq<Entry>, id: string)
    requires forall i :: 0 <= i < |es| ==> es[i].id != id
    ensures RemoveFile(es, id) == es
  {
    FilterAll(es, HasOtherId(id));
  }

  // ---------------------------------------------------------------------
  // Move

  function Target(index: int, d: Direction): int {
    if d == Up then index - 1 else index + 1
  }

  /** `moveFile`: swaps the entry with its neighbour in the given direction;
      nothing happens when that neighbour does not exist. */
  function MoveFile(es: seq<Entry>, index: int, d: Direction): (r: seq<Entry>)
    requires 0 <= index < |es|
    ensures |r| == |es| && multiset(r) == multiset(es)
    ensures !(0 <= Target(index, d) < |es|) ==> r == es
    ensures 0 <= Target(index, d) < |es| ==>
      && r[index] == es[Target(index, d)] && r[Target(index, d)] == es[index]
      && forall k :: 0 <= k < |es| && k != index && k != Target(index, d) ==> r[k] == es[k]
  {
    var t := Target(index, d);
    if t < 0 || t >= |es| then es
    else es[index := es[t]][t := es[index]]
  }

  /** Moving an entry up and then moving it back down restores the list. */
  lemma MoveUpThenDown(es: seq<Entry>, i: int)
    requires 1 <= i < |es|
    ensures MoveFile(MoveFile(es, i, Up), i - 1, Down) == es
  {
    var once := MoveFile(es, i, Up);
    var twice := MoveFile(once, i - 1, Down);
    assert forall k :: 0 <= k < |es| ==> twice[k] == es[k];
  }

  /** The first entry cannot move up and the last cannot move down. */
  lemma MoveAtEnds(es: seq<Entry>)
    requires |es| > 0
    ensures MoveFile(es, 0, Up) == es
    ensures MoveFile(es, |es| - 1, Down) == es
  {
  }

  /** Moving keeps the ids unique. */
  lemma MoveKeepsIdsUnique(es: seq<Entry>, index: int, d: Direction)
    requires 0 <= index < |es| && UniqueIds(es)
    ensures UniqueIds(MoveFile(es, index, d))
  {
    var r := MoveFile(es, index, d);
    var t := Target(index, d);
    if 0 <= t < |es| {
      // position k of the result holds the entry from position Source(k)
      forall i, j | 0 <= i < |r| && 0 <= j < |r| && i != j
        ensures r[i].id != r[j].id
      {
        var si := if i == index then t else if i == t then index else i;
        var sj := if j == index then t else if j == t then index else j;
        assert r[i] == es[si] && r[j] == es[sj] && si != sj;
      }
    }
  }

  // ---------------------------------------------------------------------
  // Merge

  datatype MergeResult<P> = NotEnoughFiles | MergeFailed | Merged(pages: seq<P>)

  /** All pages of a list of documents, document after document. */
  function Concat<P>(docs: seq<seq<P>>): (ps: seq<P>)
    ensures |ps| == PageCount(docs)
  {
    if |docs| == 0 then [] else Concat(docs[..|docs| - 1]) + docs[|docs| - 1]
  }

  function PageCount<P>(docs: seq<seq<P>>): nat {
    if |docs| == 0 then 0 else PageCount(docs[..|docs| - 1]) + |docs[|docs| - 1]|
  }

  /** Document `k`'s pages form the block that starts after the pages of
      the documents before it. */
  lemma {:induction false} ConcatBlocks<P>(docs: seq<seq<P>>, k: int)
    requires 0 <= k < |docs|
    ensures PageCount(docs[..k]) + |docs[k]| <= |Concat(docs)|
    ensures Concat(docs)[PageCount(docs[..k]) .. PageCount(docs[..k]) + |docs[k]|] == docs[k]
  {
    var n := |docs|;
    var front := docs[..n - 1];
    if k == n - 1 {
      assert docs[..k] == front;
    } else {
      assert front[..k] == docs[..k] && front[k] == docs[k];
      ConcatBlocks(front, k);
    }
  }

  /** Loads every document in list order; the first failure aborts. */
  function LoadAll<P>(es: seq<Entry>, load: File -> Option<seq<P>>): (r: Option<seq<seq<P>>>)
    ensures r.None? <==> exists k :: 0 <= k < |es| && load(es[k].file).None?
    ensures r.Some? ==> |r.value| == |es| && forall k :: 0 <= k < |es| ==> r.value[k] == load(es[k].file).value
  {
    if |es| == 0 then Some([])
    else
      match LoadAll(es[..|es| - 1], load)
      case None =>
        assert forall k :: 0 <= k < |es| - 1 ==> es[..|es| - 1][k] == es[k];
        None
      case Some(docs) =>
        match load(es[|es| - 1].file)
        case None => None
        case Some(pages) => Some(docs + [pages])
  }

  /** `mergePDFs`: fewer than two files do nothing; otherwise the pages of
      every file in list order, unless some file fails to load. */
  function MergePdfs<P>(es: seq<Entry>, load: File -> Option<seq<P>>): (r: MergeResult<P>)
    ensures r.NotEnoughFiles? <==> |es| < 2
    ensures r.MergeFailed? <==> |es| >= 2 && exists k :: 0 <= k < |es| && load(es[k].file).None?
    ensures r.Merged? ==> r.pages == Concat(LoadAll(es, load).value)
  {
    if |es| < 2 then NotEnoughFiles
    else
      match LoadAll(es, load)
      case None => MergeFailed
      case Some(docs) => Merged(Concat(docs))
  }

  /** In a merged document the pages of the `k`-th file appear as one
      contiguous block, after those of the files before it. */
  lemma MergedKeepsListOrder<P>(es: seq<Entry>, load: File -> Option<seq<P>>, k: int)
    requires MergePdfs(es, load).Merged? && 0 <= k < |es|
    ensures var docs := LoadAll(es, load).value;
      var start := PageCount(docs[..k]);
      && start + |load(es[k].file).value| <= |MergePdfs(es, load).pages|
      && MergePdfs(es, load).pages[start .. start + |load(es[k].file).value|] == load(es[k].file).value
  {
    ConcatBlocks(LoadAll(es, load).value, k);
  }
}
