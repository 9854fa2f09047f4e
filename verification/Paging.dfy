/**
 * apps/api/app/artifacts/content.py: reading a text file page by page. A page holds the longest
 * run of lines whose JSON response stays within the byte limit, found by binary search.
 */
module Paging {
  import opened Wrappers
  import opened Decimals
  import opened Utf8

  datatype Line = Line(number: nat, text: string)

  datatype Response = Response(startLine: nat, endLine: Option<nat>, totalLines: nat, truncated: bool, lines: seq<Line>)

  datatype Error = ContentRangeInvalid | FileTooLarge

  /** `head` is the response up to its "start_line" key; `quote` writes a JSON string. */
  datatype Context = Context(head: string, quote: string -> string, maxResponseBytes: nat, maxLineLimit: nat)

  // ----- the response and its size -----

  function Numbered(start: nat, texts: seq<string>): (r: seq<Line>)
    ensures |r| == |texts| && forall i :: 0 <= i < |r| ==> r[i] == Line(start + i, texts[i])
  {
    seq(|texts|, i requires 0 <= i < |texts| => Line(start + i, texts[i]))
  }

  /** response_for */
  function ResponseFor(start: nat, selected: seq<string>, total: nat, count: nat): Response
    requires start >= 1 && count <= |selected|
  {
    var endLine := if count > 0 then Some(start + count - 1) else None;
    Response(start, endLine, total, endLine.Some? && endLine.value < total, Numbered(start, selected[..count]))
  }

  function LineJson(c: Context, l: Line): string {
    "{\"number\":" + Decimal(l.number) + ",\"text\":" + c.quote(l.text) + "}"
  }

  function LinesJson(c: Context, lines: seq<Line>): string {
    if lines == [] then ""
    else if |lines| == 1 then LineJson(c, lines[0])
    else LinesJson(c, lines[..|lines| - 1]) + "," + LineJson(c, lines[|lines| - 1])
  }

  function EndJson(endLine: Option<nat>): string {
    match endLine case Some(n) => Decimal(n) case None => "null"
  }

  function BoolJson(b: bool): string {
    if b then "true" else "false"
  }

  function Json(c: Context, r: Response): string {
    c.head + "\"start_line\":" + Decimal(r.startLine) + ",\"end_line\":" + EndJson(r.endLine)
    + ",\"total_lines\":" + Decimal(r.totalLines) + ",\"truncated\":" + BoolJson(r.truncated)
    + ",\"lines\":[" + LinesJson(c, r.lines) + "]}"
  }

  function Size(s: string): nat {
    |Encode(s)|
  }

  /** _json_size */
  function JsonSize(c: Context, r: Response): nat {
    Size(Json(c, r))
  }

  predicate Fits(c: Context, start: nat, selected: seq<string>, total: nat, count: nat)
    requires start >= 1 && count <= |selected|
  {
    JsonSize(c, ResponseFor(start, selected, total, count)) <= c.maxResponseBytes
  }

  // ----- reading a page -----

  /** The largest count up to `n` that fits, or -1. */
  function LongestFit(c: Context, start: nat, selected: seq<string>, total: nat, n: nat): (k: int)
    requires start >= 1 && n <= |selected|
    ensures -1 <= k <= n
  {
    if Fits(c, start, selected, total, n) then n
    else if n == 0 then -1
    else LongestFit(c, start, selected, total, n - 1)
  }

  /** The chosen count fits and no larger one does. */
  lemma {:induction false} LongestIsLongest(c: Context, start: nat, selected: seq<string>, total: nat, n: nat)
    requires start >= 1 && n <= |selected|
    ensures
      var k := LongestFit(c, start, selected, total, n);
      (k >= 0 ==> Fits(c, start, selected, total, k)) && forall j :: k < j <= n ==> !Fits(c, start, selected, total, j)
  {
    hide Fits;
    if !Fits(c, start, selected, total, n) && n > 0 {
      LongestIsLongest(c, start, selected, total, n - 1);
    }
  }

  function BoundedResponse(c: Context, start: nat, selected: seq<string>, total: nat): Result<Response, Error>
    requires start >= 1
  {
    var k := LongestFit(c, start, selected, total, |selected|);
    if k < 0 || (selected != [] && k == 0) then Err(FileTooLarge) else Ok(ResponseFor(start, selected, total, k))
  }

  function Selected(lines: seq<string>, start: nat, limit: nat): seq<string>
    requires 1 <= start <= |lines| + 1
  {
    if start - 1 + limit <= |lines| then lines[start - 1..start - 1 + limit] else lines[start - 1..]
  }

  predicate InRange(c: Context, lines: seq<string>, start: int, limit: int) {
    && start >= 1 && 1 <= limit <= c.maxLineLimit
    && (lines != [] ==> start <= |lines|) && (lines == [] ==> start == 1)
  }

  function ReadPage(c: Context, lines: seq<string>, start: int, limit: int): (r: Result<Response, Error>)
    ensures r.Ok? && r.value.truncated ==> r.value.endLine.Some? && start <= r.value.endLine.value < |lines|
  {
    if !InRange(c, lines, start, limit) then Err(ContentRangeInvalid)
    else BoundedResponse(c, start, Selected(lines, start, limit), |lines|)
  }

  /** read_file, once the file's content is at hand */
  method ReadFile(c: Context, lines: seq<string>, start: int, limit: int) returns (r: Result<Response, Error>)
    ensures r == ReadPage(c, lines, start, limit)
  {
    if start < 1 || limit < 1 || limit > c.maxLineLimit {
      return Err(ContentRangeInvalid);
    }
    if lines != [] && start > |lines| {
      return Err(ContentRangeInvalid);
    }
    if lines == [] && start != 1 {
      return Err(ContentRangeInvalid);
    }
    r := BoundedFileResponse(c, start, Selected(lines, start, limit), |lines|);
  }

  /** _bounded_file_response */
  method BoundedFileResponse(c: Context, start: nat, selected: seq<string>, total: nat)
    returns (r: Result<Response, Error>)
    requires start >= 1
    ensures r == BoundedResponse(c, start, selected, total)
  {
    hide JsonSize, ResponseFor;
    var low, high := 0, |selected|;
    var best: Option<Response> := None;
    while low <= high
      invariant 0 <= low <= high + 1 <= |selected| + 1
      invariant forall k :: 0 <= k < low ==> Fits(c, start, selected, total, k)
      invariant forall k :: high < k <= |selected| ==> !Fits(c, start, selected, total, k)
      invariant best == if low == 0 then None else Some(ResponseFor(start, selected, total, low - 1))
      decreases high + 1 - low
    {
      var count := (low + high) / 2;
      var candidate := ResponseFor(start, selected, total, count);
      FitsDownwards(c, start, selected, total, count);
      if JsonSize(c, candidate) <= c.maxResponseBytes {
        best := Some(candidate);
        low := count + 1;
      } else {
        high := count - 1;
      }
    }
    ghost var k := LongestFit(c, start, selected, total, |selected|);
    LongestIsLongest(c, start, selected, total, |selected|);
    assert high >= 0 ==> Fits(c, start, selected, total, high);
    assert k >= 0 ==> Fits(c, start, selected, total, k);
    assert k == high;
    ResponseLines(start, selected, total, low);
    if best.None? || (selected != [] && best.value.lines == []) {
      return Err(FileTooLarge);
    }
    r := Ok(best.value);
  }

  lemma FitsDownwards(c: Context, start: nat, selected: seq<string>, total: nat, count: nat)
    requires start >= 1 && count <= |selected|
    ensures Fits(c, start, selected, total, count) ==>
      forall k :: 0 <= k <= count ==> Fits(c, start, selected, total, k)
    ensures !Fits(c, start, selected, total, count) ==>
      forall k :: count <= k <= |selected| ==> !Fits(c, start, selected, total, k)
  {
    hide JsonSize, ResponseFor;
    forall k | 0 <= k <= |selected|
      ensures k < count && Fits(c, start, selected, total, count) ==> Fits(c, start, selected, total, k)
      ensures k > count && Fits(c, start, selected, total, k) ==> Fits(c, start, selected, total, count)
    {
      if k < count {
        SizeIncreases(c, start, selected, total, k, count);
      } else if k > count {
        SizeIncreases(c, start, selected, total, count, k);
      }
    }
  }

  lemma ResponseLines(start: nat, selected: seq<string>, total: nat, low: nat)
    requires start >= 1 && low <= |selected| + 1
    ensures low > 0 ==> (ResponseFor(start, selected, total, low - 1).lines == [] <==> low == 1)
  {
  }

  // ----- the size grows with every line -----

  lemma {:induction false} AsciiSize(s: string)
    requires forall c :: c in s ==> c as int < 128
    ensures Size(s) == |s|
  {
    if s != "" {
      assert s[0] in s && forall c :: c in s[1..] ==> c in s;
      AsciiSize(s[1..]);
    }
  }

  lemma DecimalSize(n: nat)
    ensures Size(Decimal(n)) == |Decimal(n)| >= 1
  {
    AsciiSize(Decimal(n));
    DecimalShape(n);
  }

  lemma SizeAppend(s: string, t: string)
    ensures Size(s + t) == Size(s) + Size(t)
  {
    EncodeAppend(s, t);
  }

  /** The bytes of a response that do not depend on its lines. */
  function Frame(c: Context): nat {
    Size(c.head) + Size("\"start_line\":") + Size(",\"end_line\":") + Size(",\"total_lines\":")
    + Size(",\"truncated\":") + Size(",\"lines\":[") + Size("]}")
  }

  lemma SizeOfJson(c: Context, r: Response)
    ensures JsonSize(c, r) ==
      Frame(c) + Size(Decimal(r.startLine)) + Size(EndJson(r.endLine)) + Size(Decimal(r.totalLines))
      + Size(BoolJson(r.truncated)) + Size(LinesJson(c, r.lines))
  {
    hide Size, LinesJson, Decimal;
    var s1 := c.head + "\"start_line\":";
    var s2 := s1 + Decimal(r.startLine);
    var s3 := s2 + ",\"end_line\":";
    var s4 := s3 + EndJson(r.endLine);
    var s5 := s4 + ",\"total_lines\":";
    var s6 := s5 + Decimal(r.totalLines);
    var s7 := s6 + ",\"truncated\":";
    var s8 := s7 + BoolJson(r.truncated);
    var s9 := s8 + ",\"lines\":[";
    var s10 := s9 + LinesJson(c, r.lines);
    SizeAppend(c.head, "\"start_line\":");
    SizeAppend(s1, Decimal(r.startLine));
    SizeAppend(s2, ",\"end_line\":");
    SizeAppend(s3, EndJson(r.endLine));
    SizeAppend(s4, ",\"total_lines\":");
    SizeAppend(s5, Decimal(r.totalLines));
    SizeAppend(s6, ",\"truncated\":");
    SizeAppend(s7, BoolJson(r.truncated));
    SizeAppend(s8, ",\"lines\":[");
    SizeAppend(s9, LinesJson(c, r.lines));
    SizeAppend(s10, "]}");
  }

  lemma NumberKeySize()
    ensures Size("{\"number\":") == 10
  {
    AsciiSize("{\"number\":");
  }

  lemma LineSize(c: Context, l: Line)
    ensures Size(LineJson(c, l)) >= 10 + Size(Decimal(l.number))
  {
    hide Decimal, Size;
    NumberKeySize();
    var a, b := "{\"number\":" + Decimal(l.number), "{\"number\":" + Decimal(l.number) + ",\"text\":";
    SizeAppend("{\"number\":", Decimal(l.number));
    SizeAppend(a, ",\"text\":");
    SizeAppend(b, c.quote(l.text));
    SizeAppend(b + c.quote(l.text), "}");
  }

  /** A list of at least two lines, without its first. */
  lemma {:induction false} DropFirstLine(c: Context, lines: seq<Line>)
    requires |lines| >= 2
    ensures Size(LinesJson(c, lines)) >= Size(LineJson(c, lines[0])) + Size(LinesJson(c, lines[1..]))
  {
    hide Size, LineJson;
    var n := |lines| - 1;
    var init, last := LinesJson(c, lines[..n]), LineJson(c, lines[n]);
    assert LinesJson(c, lines) == init + "," + last;
    SizeAppend(init + ",", last);
    SizeAppend(init, ",");
    if |lines| > 2 {
      DropFirstLine(c, lines[..n]);
      assert lines[1..][..n - 1] == lines[..n][1..];
      assert LinesJson(c, lines[1..]) == LinesJson(c, lines[1..][..n - 1]) + "," + last;
      SizeAppend(LinesJson(c, lines[1..][..n - 1]) + ",", last);
      SizeAppend(LinesJson(c, lines[1..][..n - 1]), ",");
    }
  }

  lemma AddLastLine(c: Context, lines: seq<Line>, l: Line)
    ensures Size(LinesJson(c, lines + [l])) >= Size(LinesJson(c, lines)) + Size(LineJson(c, l))
  {
    hide LineJson;
    assert (lines + [l])[..|lines|] == lines;
    SizeAppend(LinesJson(c, lines) + ",", LineJson(c, l));
    SizeAppend(LinesJson(c, lines), ",");
  }

  lemma FlagSizes()
    ensures Size("null") == 4 && Size("true") == 4 && Size("false") == 5
  {
    AsciiSize("null");
    AsciiSize("true");
    AsciiSize("false");
  }

  /** One more line makes the response longer, although "truncated" and "end_line" may get shorter. */
  lemma OneMoreLineIsLonger(c: Context, start: nat, selected: seq<string>, total: nat, count: nat)
    requires start >= 1 && count < |selected|
    ensures JsonSize(c, ResponseFor(start, selected, total, count)) <
      JsonSize(c, ResponseFor(start, selected, total, count + 1))
  {
    hide Size, LineJson, LinesJson, Decimal, Frame, JsonSize;
    var a, b := ResponseFor(start, selected, total, count), ResponseFor(start, selected, total, count + 1);
    SizeOfJson(c, a);
    SizeOfJson(c, b);
    var l := Line(start + count, selected[count]);
    assert b.lines == a.lines + [l];
    AddLastLine(c, a.lines, l);
    LineSize(c, l);
    FlagSizes();
    DecimalSize(start + count);
    if count > 0 {
      DecimalSize(start + count - 1);
      NextIsNoShorter(start + count - 1);
    }
  }

  lemma {:induction false} SizeIncreases(c: Context, start: nat, selected: seq<string>, total: nat, few: nat, many: nat)
    requires start >= 1 && few < many <= |selected|
    ensures JsonSize(c, ResponseFor(start, selected, total, few)) <
      JsonSize(c, ResponseFor(start, selected, total, many))
    decreases many
  {
    hide JsonSize, ResponseFor;
    OneMoreLineIsLonger(c, start, selected, total, many - 1);
    if few < many - 1 {
      SizeIncreases(c, start, selected, total, few, many - 1);
    }
  }

  // ----- following the pages -----

  /** A file's lines from `start` on: pages of any sizes, each asked for where the last one ended. */
  ghost function Follow(c: Context, lines: seq<string>, start: nat, limits: nat -> int, page: nat)
    : Result<seq<Line>, Error>
    decreases |lines| + 1 - start
  {
    match ReadPage(c, lines, start, limits(page))
    case Err(e) => Err(e)
    case Ok(r) =>
      if !r.truncated then Ok(r.lines)
      else
        match Follow(c, lines, r.endLine.value + 1, limits, page + 1)
        case Err(e) => Err(e)
        case Ok(rest) => Ok(r.lines + rest)
  }

  ghost predicate ValidLimits(c: Context, limits: nat -> int) {
    forall page :: 1 <= limits(page) <= c.maxLineLimit
  }

  /** Line `i` (from zero) fits into a response of its own. */
  predicate FitsAlone(c: Context, lines: seq<string>, i: nat)
    requires i < |lines|
  {
    Fits(c, i + 1, [lines[i]], |lines|, 1)
  }

  ghost predicate EveryLineFits(c: Context, lines: seq<string>, from_: nat) {
    forall i :: from_ <= i < |lines| ==> FitsAlone(c, lines, i)
  }

  /** Starting one line later saves more than a longer line number can cost. */
  lemma DropFirstShrinks(c: Context, start: nat, selected: seq<string>, total: nat, count: nat)
    requires start >= 1 && 2 <= count <= |selected|
    ensures JsonSize(c, ResponseFor(start + 1, selected[1..], total, count - 1)) <=
      JsonSize(c, ResponseFor(start, selected, total, count))
  {
    hide Size, LineJson, LinesJson, Decimal, Frame, JsonSize;
    var a, b := ResponseFor(start, selected, total, count), ResponseFor(start + 1, selected[1..], total, count - 1);
    SizeOfJson(c, a);
    SizeOfJson(c, b);
    assert b.lines == a.lines[1..];
    DropFirstLine(c, a.lines);
    LineSize(c, a.lines[0]);
    DecimalSize(start);
    DecimalSize(start + 1);
    NextIsNoShorter(start);
  }

  /** Whatever line a fitting page holds fits into a response of its own. */
  lemma {:induction false} PartFitsAlone(c: Context, start: nat, selected: seq<string>, total: nat, count: nat, j: nat)
    requires start >= 1 && j < count <= |selected| && Fits(c, start, selected, total, count)
    ensures Fits(c, start + j, [selected[j]], total, 1)
    decreases j
  {
    hide JsonSize;
    if j == 0 {
      if count > 1 {
        SizeIncreases(c, start, selected, total, 1, count);
      }
      assert ResponseFor(start, selected, total, 1) == ResponseFor(start, [selected[0]], total, 1);
    } else {
      DropFirstShrinks(c, start, selected, total, count);
      PartFitsAlone(c, start + 1, selected[1..], total, count - 1, j - 1);
    }
  }

  /** What one page does: it fails exactly when its first line does not fit alone, and otherwise delivers a
      run of lines that all do. */
  lemma {:induction false} PageDelivers(c: Context, lines: seq<string>, start: nat, limit: int)
    requires 1 <= start <= |lines| && 1 <= limit <= c.maxLineLimit
    ensures
      match ReadPage(c, lines, start, limit)
      case Err(_) => !FitsAlone(c, lines, start - 1)
      case Ok(r) =>
        && r.endLine.Some? && start <= r.endLine.value <= |lines| && (r.truncated <==> r.endLine.value < |lines|)
        && r.lines == Numbered(start, lines[start - 1..r.endLine.value])
        && forall i :: start - 1 <= i < r.endLine.value ==> FitsAlone(c, lines, i)
  {
    hide Fits, Selected, FitsAlone;
    var selected, total := Selected(lines, start, limit), |lines|;
    SelectedLines(lines, start, limit);
    var k := LongestFit(c, start, selected, total, |selected|);
    LongestIsLongest(c, start, selected, total, |selected|);
    FirstLineAlone(c, lines, start, selected);
    if k > 0 {
      forall i | start - 1 <= i < start - 1 + k ensures FitsAlone(c, lines, i) {
        LineAlone(c, lines, start, selected, k, i - (start - 1));
      }
      assert selected[..k] == lines[start - 1..start - 1 + k];
    } else {
      assert !Fits(c, start, selected, total, 1);
    }
  }

  lemma SelectedLines(lines: seq<string>, start: nat, limit: nat)
    requires 1 <= start <= |lines| && limit >= 1
    ensures
      var selected := Selected(lines, start, limit);
      && 1 <= |selected| <= |lines| - start + 1
      && forall i :: 0 <= i < |selected| ==> selected[i] == lines[start - 1 + i]
  {
  }

  lemma FirstLineAlone(c: Context, lines: seq<string>, start: nat, selected: seq<string>)
    requires 1 <= start <= |lines| && selected != [] && selected[0] == lines[start - 1]
    ensures Fits(c, start, selected, |lines|, 1) <==> FitsAlone(c, lines, start - 1)
  {
    hide JsonSize;
    assert ResponseFor(start, selected, |lines|, 1) == ResponseFor(start, [lines[start - 1]], |lines|, 1);
  }

  lemma LineAlone(c: Context, lines: seq<string>, start: nat, selected: seq<string>, count: nat, j: nat)
    requires start >= 1 && j < count <= |selected| && Fits(c, start, selected, |lines|, count)
    requires start - 1 + j < |lines| && selected[j] == lines[start - 1 + j]
    ensures FitsAlone(c, lines, start - 1 + j)
  {
    hide Fits;
    PartFitsAlone(c, start, selected, |lines|, count, j);
  }

  lemma NumberedSplit(lines: seq<string>, start: nat, end: nat)
    requires 1 <= start <= end <= |lines|
    ensures Numbered(start, lines[start - 1..]) == Numbered(start, lines[start - 1..end])
      + Numbered(end + 1, lines[end..])
  {
  }

  /** Following the pages delivers every line once and in order exactly when every line fits alone. */
  lemma {:induction false} FollowExact(c: Context, lines: seq<string>, start: nat, limits: nat -> int, page: nat)
    requires ValidLimits(c, limits) && 1 <= start <= |lines|
    ensures Follow(c, lines, start, limits, page).Ok? <==> EveryLineFits(c, lines, start - 1)
    ensures Follow(c, lines, start, limits, page).Ok? ==>
      Follow(c, lines, start, limits, page).value == Numbered(start, lines[start - 1..])
    decreases |lines| - start
  {
    hide ReadPage, FitsAlone, Numbered;
    PageDelivers(c, lines, start, limits(page));
    match ReadPage(c, lines, start, limits(page))
    case Err(_) =>
    case Ok(r) =>
      var end := r.endLine.value;
      if r.truncated {
        FollowExact(c, lines, end + 1, limits, page + 1);
        NumberedSplit(lines, start, end);
      } else {
        assert lines[start - 1..] == lines[start - 1..end];
      }
  }

  /** Reading a file from its first line, with any page sizes. */
  lemma {:induction false} PagingExact(c: Context, lines: seq<string>, limits: nat -> int)
    requires ValidLimits(c, limits)
    ensures Follow(c, lines, 1, limits, 0).Ok? <==>
      if lines == [] then Fits(c, 1, [], 0, 0) else EveryLineFits(c, lines, 0)
    ensures Follow(c, lines, 1, limits, 0).Ok? ==> Follow(c, lines, 1, limits, 0).value == Numbered(1, lines)
  {
    hide Fits;
    if lines == [] {
      assert Selected(lines, 1, limits(0)) == [];
      assert Numbered(1, []) == [];
    } else {
      FollowExact(c, lines, 1, limits, 0);
      assert lines[0..] == lines;
    }
  }

  // ----- a line that is too long -----

  lemma SizeOfLine(c: Context, l: Line)
    ensures Size(LineJson(c, l)) >= Size(c.quote(l.text))
  {
    hide Decimal, Size;
    var a, b := "{\"number\":" + Decimal(l.number), "{\"number\":" + Decimal(l.number) + ",\"text\":";
    SizeAppend(b, c.quote(l.text));
    SizeAppend(b + c.quote(l.text), "}");
  }

  /** Whatever the limit, a line that alone is longer as a JSON string makes its file unreadable, with any page
      sizes. */
  lemma LongLineIsNeverRead(c: Context, text: string, limits: nat -> int)
    requires Size(c.quote(text)) > c.maxResponseBytes && ValidLimits(c, limits)
    ensures Follow(c, [text], 1, limits, 0).Err?
  {
    hide Size, LineJson, Frame, JsonSize, Follow;
    var r := ResponseFor(1, [text], 1, 1);
    SizeOfJson(c, r);
    assert r.lines == [Line(1, text)];
    SizeOfLine(c, Line(1, text));
    assert !FitsAlone(c, [text], 0);
    PagingExact(c, [text], limits);
  }

  /** Such a line: "text" in quotes does not fit into five bytes. */
  lemma ShortLimitExample(limits: nat -> int)
    requires forall page :: limits(page) == 1
    ensures Follow(Context("{", (s: string) => "\"" + s + "\"", 5, 1), ["text"], 1, limits, 0).Err?
  {
    hide Follow;
    AsciiSize("\"text\"");
    assert "\"" + "text" + "\"" == "\"text\"";
    LongLineIsNeverRead(Context("{", (s: string) => "\"" + s + "\"", 5, 1), "text", limits);
  }
}
