/**
  Page selection (`extrair_texto_pdf` and the clamp just before its call).
  The document is the sequence of its page texts, as the PDF library would
  return them; page numbers are 1-based and inclusive at both ends.
 */
module Pages {
  import opened Wrappers

  /** Reading a page past the end of the document (the library's `IndexError`). */
  datatype PageError = PageOutOfRange

  /** `min(end, total)`: the last page can be no later than the document's last page. */
  function ClampEnd(end: int, total: nat): (e: int)
    ensures e <= end && e <= total
    ensures e == end || e == total
  {
    if end < total then end else total
  }

  /** Number of pages in the inclusive range `[start, end]`; zero when it is empty. */
  function RangeCount(start: int, end: int): nat {
    if end - start + 1 > 0 then end - start + 1 else 0
  }

  /** `range(start - 1, end)`: the 0-based indices of pages `start..end`. */
  function PageIndices(start: int, end: int): (r: seq<int>)
    ensures |r| == RangeCount(start, end)
    ensures forall k :: 0 <= k < |r| ==> r[k] == start - 1 + k
  {
    seq(RangeCount(start, end), k => start - 1 + k)
  }

  /** The texts of pages `start..end` in page order, or the error of reading past the last page. */
  function ExtractText(doc: seq<string>, start: int, end: int): (r: Result<seq<string>, PageError>)
    requires 1 <= start
    ensures r.Failure? <==> start <= end && end > |doc|
    ensures r.Success? ==> |r.value| == RangeCount(start, end)
    ensures r.Success? ==> forall k :: 0 <= k < |r.value| ==> r.value[k] == doc[start - 1 + k]
  {
    var indices := PageIndices(start, end);
    assert start <= end && end > |doc| ==> indices[end - start] == end - 1;
    if exists k :: 0 <= k < |indices| && indices[k] >= |doc| then
      Failure(PageOutOfRange)
    else
      Success(seq(|indices|, k requires 0 <= k < |indices| => doc[indices[k]]))
  }

  /**
    Once the last page is clamped to the document's length, extraction cannot
    fail: every index it reads lies inside the document and it returns one text
    per page of the (possibly empty) range.
   */
  lemma ClampedExtraction(doc: seq<string>, start: int, end: int)
    requires 1 <= start
    ensures var e := ClampEnd(end, |doc|);
      && (forall k :: 0 <= k < |PageIndices(start, e)| ==> 0 <= PageIndices(start, e)[k] < |doc|)
      && ExtractText(doc, start, e).Success?
      && |ExtractText(doc, start, e).value| == RangeCount(start, e)
  {
  }
}
