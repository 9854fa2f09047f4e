/** What a page of a file holds and why a page is refused, and the text of the response. */
module PagingLaws {
  import opened Wrappers
  import opened Decimals
  import opened Utf8
  import opened Paging

  /** The response with `n` lines of the file from line `start` on. */
  predicate IsPage(lines: seq<string>, start: nat, n: nat, r: Response) {
    && r.startLine == start && r.totalLines == |lines| && |r.lines| == n
    && (if n == 0 then r.endLine == None && !r.truncated
        else r.endLine == Some(start + n - 1) && (r.truncated <==> start + n - 1 < |lines|))
    && start >= 1 && start - 1 + n <= |lines|
    && forall i :: 0 <= i < n ==> r.lines[i] == Line(start + i, lines[start - 1 + i])
  }

  predicate SmallEnough(c: Context, r: Response) {
    |Encode(Json(c, r))| <= c.maxResponseBytes
  }

  /** The lines asked for lie in the file, or the file is empty and its beginning is asked for. */
  predicate Askable(c: Context, lines: seq<string>, start: int, limit: int) {
    && 1 <= limit <= c.maxLineLimit
    && if |lines| == 0 then start == 1 else 1 <= start <= |lines|
  }

  lemma RangeExactly(c: Context, lines: seq<string>, start: int, limit: int)
    ensures ReadPage(c, lines, start, limit) == Err(ContentRangeInvalid) <==> !Askable(c, lines, start, limit)
  {
    hide LongestFit, ResponseFor;
  }

  lemma ResponseIsPage(lines: seq<string>, start: nat, limit: nat, k: nat)
    requires 1 <= start <= |lines| + 1 && k <= |Selected(lines, start, limit)|
    ensures IsPage(lines, start, k, ResponseFor(start, Selected(lines, start, limit), |lines|, k))
  {
  }

  lemma SelectedExactly(lines: seq<string>, start: nat, limit: nat)
    requires 1 <= start <= |lines| + 1
    ensures |Selected(lines, start, limit)| == if start - 1 + limit <= |lines| then limit else |lines| - start + 1
  {
  }

  lemma PagesAreUnique(lines: seq<string>, start: nat, n: nat, q: Response, r: Response)
    requires IsPage(lines, start, n, q) && IsPage(lines, start, n, r)
    ensures q == r
  {
  }

  /** A page that can be asked for holds as many lines as the limit, the file and the byte limit allow, and not one
      more would fit; it is refused exactly if its first line, or the empty page of an empty file, does not fit. */
  lemma {:induction false} PageExactly(c: Context, lines: seq<string>, start: nat, limit: nat)
    requires Askable(c, lines, start, limit)
    ensures
      var most := if start - 1 + limit <= |lines| then limit else |lines| - start + 1;
      match ReadPage(c, lines, start, limit)
      case Ok(r) =>
        && SmallEnough(c, r) && IsPage(lines, start, |r.lines|, r) && |r.lines| <= most
        && (most > 0 ==> |r.lines| > 0)
        && forall q, n :: |r.lines| < n <= most && IsPage(lines, start, n, q) ==> !SmallEnough(c, q)
      case Err(e) =>
        && e == FileTooLarge
        && forall q, n :: (if most > 0 then 1 else 0) <= n <= most && IsPage(lines, start, n, q) ==> !SmallEnough(c, q)
  {
    hide IsPage, LongestFit, Json, ResponseFor, Selected;
    var selected := Selected(lines, start, limit);
    SelectedExactly(lines, start, limit);
    LongestIsLongest(c, start, selected, |lines|, |selected|);
    forall k | 0 <= k <= |selected| ensures IsPage(lines, start, k, ResponseFor(start, selected, |lines|, k)) {
      ResponseIsPage(lines, start, limit, k);
    }
    forall q, n | 0 <= n <= |selected| && IsPage(lines, start, n, q)
      ensures SmallEnough(c, q) <==> Fits(c, start, selected, |lines|, n)
    {
      PagesAreUnique(lines, start, n, q, ResponseFor(start, selected, |lines|, n));
    }
    forall k | 0 <= k <= |selected| ensures |ResponseFor(start, selected, |lines|, k).lines| == k {
      PageLength(lines, start, k, ResponseFor(start, selected, |lines|, k));
    }
  }

  lemma PageLength(lines: seq<string>, start: nat, n: nat, r: Response)
    requires IsPage(lines, start, n, r)
    ensures |r.lines| == n
  {
  }

  // ----- the text of a response -----

  function Quoted(text: string): string {
    "\"" + text + "\""
  }

  function Sample(): Context {
    Context("{", Quoted, 0, 0)
  }

  lemma Digits()
    ensures Decimal(9) == "9" && Decimal(10) == "10" && Decimal(12) == "12"
  {
    assert Decimal(1) == "1";
  }

  lemma LineExamples()
    ensures LineJson(Sample(), Line(9, "a")) == "{\"number\":9,\"text\":\"a\"}"
    ensures LineJson(Sample(), Line(10, "b")) == "{\"number\":10,\"text\":\"b\"}"
  {
    Digits();
    hide Decimal;
  }

  /** Lines are written one after the other with commas between them. */
  lemma LinesExample()
    ensures
      LinesJson(Sample(), [Line(9, "a"), Line(10, "b")]) ==
      "{\"number\":9,\"text\":\"a\"},{\"number\":10,\"text\":\"b\"}"
  {
    LineExamples();
    hide LineJson;
    var lines := [Line(9, "a"), Line(10, "b")];
    assert lines[..1] == [Line(9, "a")];
  }

  /** A page of two lines, byte by byte. */
  lemma JsonExample()
    ensures
      Json(Sample(), Response(9, Some(10), 12, true, [Line(9, "a"), Line(10, "b")])) ==
      "{" + "\"start_line\":" + "9" + ",\"end_line\":" + "10" + ",\"total_lines\":" + "12" + ",\"truncated\":" + "true"
      + ",\"lines\":[" + "{\"number\":9,\"text\":\"a\"},{\"number\":10,\"text\":\"b\"}" + "]}"
  {
    Digits();
    LinesExample();
    hide Decimal, LinesJson;
  }

  /** The page of an empty file, byte by byte. */
  lemma EmptyJsonExample()
    ensures
      Json(Sample(), Response(9, None, 12, false, [])) ==
      "{" + "\"start_line\":" + "9" + ",\"end_line\":" + "null" + ",\"total_lines\":" + "12" + ",\"truncated\":"
      + "false" + ",\"lines\":[" + "]}"
  {
    Digits();
    assert LinesJson(Sample(), []) == "";
    hide Decimal, LinesJson;
  }
}
