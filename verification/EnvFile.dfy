/** apps/api/app/env_file.py: reading, merging and rewriting a KEY=value settings file. */
module EnvFile {
  import opened Wrappers
  import opened Ordering
  import opened Sequences

  /** str.isspace for one character. */
  predicate IsSpace(c: char) {
    || '\U{9}' <= c <= '\U{D}' || '\U{1C}' <= c <= '\U{20}' || c == '\U{85}' || c == '\U{A0}'
    || c == '\U{1680}' || '\U{2000}' <= c <= '\U{200A}' || c == '\U{2028}' || c == '\U{2029}'
    || c == '\U{202F}' || c == '\U{205F}' || c == '\U{3000}'
  }

  /** The characters str.splitlines breaks at. */
  predicate IsBreak(c: char) {
    '\U{A}' <= c <= '\U{D}' || '\U{1C}' <= c <= '\U{1E}' || c == '\U{85}'
    || c == '\U{2028}' || c == '\U{2029}'
  }

  predicate OneLine(s: string) {
    forall c :: c in s ==> !IsBreak(c)
  }

  // ----- Python string methods -----

  function StripLeft(s: string): string {
    if s != "" && IsSpace(s[0]) then StripLeft(s[1..]) else s
  }

  function StripRight(s: string): string {
    if s != "" && IsSpace(s[|s| - 1]) then StripRight(s[..|s| - 1]) else s
  }

  function Strip(s: string): string {
    StripRight(StripLeft(s))
  }

  predicate Stripped(s: string) {
    s == "" || (!IsSpace(s[0]) && !IsSpace(s[|s| - 1]))
  }

  function FirstBreak(s: string): (k: nat)
    ensures k <= |s| && OneLine(s[..k]) && (k < |s| ==> IsBreak(s[k]))
  {
    if s == "" || IsBreak(s[0]) then 0 else
      assert s[..1 + FirstBreak(s[1..])] == [s[0]] + s[1..][..FirstBreak(s[1..])];
      1 + FirstBreak(s[1..])
  }

  function SplitLines(s: string): seq<string> {
    if s == "" then []
    else
      var k := FirstBreak(s);
      if k == |s| then [s]
      else
        var width := if s[k] == '\r' && k + 1 < |s| && s[k + 1] == '\n' then 2 else 1;
        [s[..k]] + SplitLines(s[k + width..])
  }

  /** str.replace: left to right, occurrences do not overlap. */
  function Replace(s: string, old_: string, new_: string): string
    requires old_ != ""
  {
    if |s| < |old_| then s
    else if s[..|old_|] == old_ then new_ + Replace(s[|old_|..], old_, new_)
    else [s[0]] + Replace(s[1..], old_, new_)
  }

  function IndexOf(s: string, c: char): (k: nat)
    ensures k <= |s| && c !in s[..k] && (k < |s| <==> c in s) && (k < |s| ==> s[k] == c)
  {
    if s == "" || s[0] == c then 0 else
      assert s[..1 + IndexOf(s[1..], c)] == [s[0]] + s[1..][..IndexOf(s[1..], c)];
      assert s == [s[0]] + s[1..];
      1 + IndexOf(s[1..], c)
  }

  // ----- quoting -----

  function Escape(value: string): string {
    Replace(Replace(value, "\\", "\\\\"), "\"", "\\\"")
  }

  function Unescape(value: string): string {
    Replace(Replace(value, "\\\"", "\""), "\\\\", "\\")
  }

  predicate NeedsQuotes(value: string) {
    exists c :: c in value && (IsSpace(c) || c == '#' || c == '"' || c == '\'')
  }

  function Quote(value: string): string {
    if value == "" then ""
    else if NeedsQuotes(value) then "\"" + Escape(value) + "\""
    else value
  }

  function Unquote(value: string): string {
    if |value| >= 2 && value[0] == value[|value| - 1] && (value[0] == '"' || value[0] == '\'')
    then Unescape(value[1..|value| - 1])
    else value
  }

  // ----- parsing and rendering -----

  function ParseLine(line: string): Option<(string, string)> {
    var raw := Strip(line);
    if raw == "" || raw[0] == '#' || '=' !in raw then None
    else
      var i := IndexOf(raw, '=');
      Some((Strip(raw[..i]), Unquote(Strip(raw[i + 1..]))))
  }

  function Entries(lines: seq<string>): (entries: seq<Option<(string, string)>>)
    ensures |entries| == |lines|
    ensures forall i :: 0 <= i < |lines| ==> entries[i] == ParseLine(lines[i])
  {
    seq(|lines|, i requires 0 <= i < |lines| => ParseLine(lines[i]))
  }

  /** Later entries win. */
  function Collect(entries: seq<Option<(string, string)>>): map<string, string> {
    if entries == [] then map[]
    else
      var before := Collect(entries[..|entries| - 1]);
      match entries[|entries| - 1]
      case None => before
      case Some((key, value)) => before[key := value]
  }

  /** What reading the file yields; a missing file has no text. */
  function Parse(text: Option<string>): map<string, string> {
    match text
    case None => map[]
    case Some(t) => Collect(Entries(SplitLines(t)))
  }

  function RenderLine(key: string, value: string): string {
    key + "=" + Quote(value)
  }

  function RenderLines(keys: seq<string>, values: map<string, string>): (lines: seq<string>)
    requires forall k :: k in keys ==> k in values
    ensures |lines| == |keys|
    ensures forall i :: 0 <= i < |keys| ==> lines[i] == RenderLine(keys[i], values[keys[i]])
  {
    seq(|keys|, i requires 0 <= i < |keys| => RenderLine(keys[i], values[keys[i]]))
  }

  /** `text` lists every key of `values` once, in increasing order. */
  ghost predicate IsRendering(text: string, values: map<string, string>) {
    exists keys: seq<string> ::
      && StrictlySorted(keys) && (forall k :: k in keys <==> k in values)
      && text == Join("\n", RenderLines(keys, values)) + "\n"
  }

  method ReadEnvFile(text: Option<string>) returns (values: map<string, string>)
    ensures values == Parse(text)
  {
    values := map[];
    if text.None? {
      return;
    }
    var lines := SplitLines(text.value);
    ghost var entries := Entries(lines);
    for n := 0 to |lines|
      invariant values == Collect(entries[..n])
    {
      assert entries[..n + 1][..n] == entries[..n];
      var raw := Strip(lines[n]);
      if raw == "" || raw[0] == '#' || '=' !in raw {
        continue;
      }
      var i := IndexOf(raw, '=');
      values := values[Strip(raw[..i]) := Unquote(Strip(raw[i + 1..]))];
    }
    assert entries[..|lines|] == entries;
  }

  /** Merges `values` over what the file holds and writes the result back. */
  method WriteEnvFile(text: Option<string>, values: map<string, string>) returns (written: string)
    ensures IsRendering(written, Parse(text) + values)
  {
    var merged := ReadEnvFile(text);
    merged := merged + values;
    var keys, rest := [], merged.Keys;
    while rest != {}
      invariant rest <= merged.Keys
      invariant forall k :: k in keys <==> k in merged.Keys - rest
      invariant NoDup(keys)
      decreases rest
    {
      var k :| k in rest;
      NoDupAppend(keys, k);
      keys := keys + [k];
      rest := rest - {k};
    }
    var ordered := Sort(keys, (k: string) => k);
    SameMembers(ordered, keys);
    SortedDistinct(keys, ordered);
    written := Join("\n", RenderLines(ordered, merged)) + "\n";
  }

  lemma SortedDistinct(keys: seq<string>, ordered: seq<string>)
    requires multiset(keys) == multiset(ordered) && SortedBy(ordered, (k: string) => k)
    requires NoDup(keys)
    ensures StrictlySorted(ordered)
  {
    var key := (k: string) => k;
    NoDupPermutation(keys, ordered);
    forall i, j | 0 <= i < j < |ordered| ensures Le(ordered[i], ordered[j]) {
      assert Le(key(ordered[i]), key(ordered[j]));
    }
  }

  // ----- the two-pass unescape inverts the two-pass escape -----

  function Doubled(v: string): string {
    if v == "" then "" else (if v[0] == '\\' then ['\\', '\\'] else [v[0]]) + Doubled(v[1..])
  }

  function EscapeChar(c: char): string {
    if c == '\\' then ['\\', '\\'] else if c == '"' then ['\\', '"'] else [c]
  }

  function Escaped(v: string): (r: string)
    ensures r == "" || r[0] != '"'
  {
    if v == "" then "" else EscapeChar(v[0]) + Escaped(v[1..])
  }

  lemma ReplaceMatch(t: string, old_: string, new_: string)
    requires old_ != ""
    ensures Replace(old_ + t, old_, new_) == new_ + Replace(t, old_, new_)
  {
    var s := old_ + t;
    assert s[..|old_|] == old_ && s[|old_|..] == t;
  }

  lemma ReplaceSkip(x: char, t: string, old_: string, new_: string)
    requires old_ != "" && (old_[0] != x || (|old_| > 1 && (t == "" || t[0] != old_[1])))
    ensures Replace([x] + t, old_, new_) == [x] + Replace(t, old_, new_)
  {
    var s := [x] + t;
    assert s[1..] == t;
    if |s| >= |old_| {
      assert s[..|old_|][0] == x;
      assert |old_| > 1 ==> s[..|old_|][1] == t[0];
    } else if t != "" {
      assert Replace(t, old_, new_) == t;
    }
  }

  lemma ReplaceSkipTwo(x: char, y: char, t: string, old_: string, new_: string)
    requires old_ != "" && (old_[0] != x || (|old_| > 1 && y != old_[1]))
    requires old_[0] != y || (|old_| > 1 && (t == "" || t[0] != old_[1]))
    ensures Replace([x, y] + t, old_, new_) == [x, y] + Replace(t, old_, new_)
  {
    ReplaceSkip(y, t, old_, new_);
    ReplaceSkip(x, [y] + t, old_, new_);
    assert [x, y] + t == [x] + ([y] + t);
    assert [x, y] + Replace(t, old_, new_) == [x] + ([y] + Replace(t, old_, new_));
  }

  lemma {:induction false} EscapeFirstPass(v: string)
    ensures Replace(v, ['\\'], ['\\', '\\']) == Doubled(v)
  {
    if v != "" {
      EscapeFirstPass(v[1..]);
      assert v == [v[0]] + v[1..];
      if v[0] == '\\' {
        ReplaceMatch(v[1..], ['\\'], ['\\', '\\']);
      } else {
        ReplaceSkip(v[0], v[1..], ['\\'], ['\\', '\\']);
      }
    }
  }

  lemma {:induction false} EscapeSecondPass(v: string)
    ensures Replace(Doubled(v), ['"'], ['\\', '"']) == Escaped(v)
  {
    if v != "" {
      EscapeSecondPass(v[1..]);
      var d := Doubled(v[1..]);
      if v[0] == '\\' {
        ReplaceSkipTwo('\\', '\\', d, ['"'], ['\\', '"']);
      } else if v[0] == '"' {
        ReplaceMatch(d, ['"'], ['\\', '"']);
      } else {
        ReplaceSkip(v[0], d, ['"'], ['\\', '"']);
      }
    }
  }

  lemma {:induction false} UnescapeFirstPass(v: string)
    ensures Replace(Escaped(v), ['\\', '"'], ['"']) == Doubled(v)
  {
    if v != "" {
      UnescapeFirstPass(v[1..]);
      var e := Escaped(v[1..]);
      if v[0] == '\\' {
        ReplaceSkipTwo('\\', '\\', e, ['\\', '"'], ['"']);
      } else if v[0] == '"' {
        ReplaceMatch(e, ['\\', '"'], ['"']);
      } else {
        ReplaceSkip(v[0], e, ['\\', '"'], ['"']);
      }
    }
  }

  lemma {:induction false} UnescapeSecondPass(v: string)
    ensures Replace(Doubled(v), ['\\', '\\'], ['\\']) == v
  {
    if v != "" {
      UnescapeSecondPass(v[1..]);
      var d := Doubled(v[1..]);
      assert v == [v[0]] + v[1..];
      if v[0] == '\\' {
        ReplaceMatch(d, ['\\', '\\'], ['\\']);
      } else {
        ReplaceSkip(v[0], d, ['\\', '\\'], ['\\']);
      }
    }
  }

  /** Unquoting undoes quoting for every value, whatever mix of backslashes and quotes it has. */
  lemma UnquoteQuote(value: string)
    ensures Unquote(Quote(value)) == value
  {
    if NeedsQuotes(value) {
      EscapeFirstPass(value);
      EscapeSecondPass(value);
      UnescapeFirstPass(value);
      UnescapeSecondPass(value);
      var q := "\"" + Escape(value) + "\"";
      assert q[1..|q| - 1] == Escape(value);
    } else if value != "" {
      assert value[0] in value;
    }
  }

  // ----- stripping -----

  lemma OneLineSlice(s: string, i: nat, j: nat)
    requires i <= j <= |s| && OneLine(s)
    ensures OneLine(s[i..j])
  {
    forall n | 0 <= n < j - i ensures !IsBreak(s[i..j][n]) {
      assert s[i..j][n] == s[i + n];
    }
  }

  lemma {:induction false} StripLeftSlice(s: string)
    ensures exists i :: 0 <= i <= |s| && StripLeft(s) == s[i..]
    ensures StripLeft(s) == "" || !IsSpace(StripLeft(s)[0])
  {
    if s != "" && IsSpace(s[0]) {
      StripLeftSlice(s[1..]);
      var i :| 0 <= i <= |s[1..]| && StripLeft(s[1..]) == s[1..][i..];
      assert s[1..][i..] == s[i + 1..];
    } else {
      assert s == s[0..];
    }
  }

  lemma {:induction false} StripRightSlice(s: string)
    ensures exists j :: 0 <= j <= |s| && StripRight(s) == s[..j]
    ensures StripRight(s) == "" || !IsSpace(StripRight(s)[|StripRight(s)| - 1])
  {
    if s != "" && IsSpace(s[|s| - 1]) {
      var t := s[..|s| - 1];
      StripRightSlice(t);
      var j :| 0 <= j <= |t| && StripRight(t) == t[..j];
      assert t[..j] == s[..j];
    } else {
      assert s == s[..|s|];
    }
  }

  lemma StripFacts(s: string)
    ensures Stripped(Strip(s))
    ensures OneLine(s) ==> OneLine(Strip(s))
    ensures forall c :: c in Strip(s) ==> c in s
    ensures Strip(s) != "" && (s == "" || !IsSpace(s[0])) ==> Strip(s)[0] == s[0]
    ensures Stripped(s) ==> Strip(s) == s
  {
    StripLeftSlice(s);
    StripRightSlice(StripLeft(s));
    var i :| 0 <= i <= |s| && StripLeft(s) == s[i..];
    var j :| 0 <= j <= |s[i..]| && Strip(s) == s[i..][..j];
    assert Strip(s) == s[i..i + j];
    assert forall n :: 0 <= n < j ==> Strip(s)[n] == s[i + n];
    if OneLine(s) {
      OneLineSlice(s, i, i + j);
    }
  }

  // ----- what parsing can produce -----

  /** Keys a line can carry: no "=", no line break, no blanks around, not a comment. */
  predicate CleanKey(key: string) {
    Stripped(key) && OneLine(key) && '=' !in key && (key == "" || key[0] != '#')
  }

  ghost predicate Clean(values: map<string, string>) {
    forall k :: k in values ==> CleanKey(k) && OneLine(values[k])
  }

  lemma {:induction false} ReplaceKeepsOneLine(s: string, old_: string, new_: string)
    requires old_ != "" && OneLine(s) && OneLine(new_)
    ensures OneLine(Replace(s, old_, new_))
  {
    if |s| < |old_| {
    } else if s[..|old_|] == old_ {
      ReplaceKeepsOneLine(s[|old_|..], old_, new_);
    } else {
      ReplaceKeepsOneLine(s[1..], old_, new_);
    }
  }

  lemma ParsedLineIsClean(line: string)
    requires OneLine(line)
    ensures var p := ParseLine(line); p.Some? ==> CleanKey(p.value.0) && OneLine(p.value.1)
  {
    hide Strip, Replace, IndexOf, IsSpace;
    var raw := Strip(line);
    StripFacts(line);
    if ParseLine(line).Some? {
      var i := IndexOf(raw, '=');
      OneLineSlice(raw, 0, i);
      OneLineSlice(raw, i + 1, |raw|);
      StripFacts(raw[..i]);
      StripFacts(raw[i + 1..]);
      var v := Strip(raw[i + 1..]);
      if Unquote(v) != v {
        OneLineSlice(v, 1, |v| - 1);
        ReplaceKeepsOneLine(v[1..|v| - 1], "\\\"", "\"");
        ReplaceKeepsOneLine(Replace(v[1..|v| - 1], "\\\"", "\""), "\\\\", "\\");
      }
    }
  }

  lemma {:induction false} SplitLinesAreOneLine(s: string)
    ensures forall l :: l in SplitLines(s) ==> OneLine(l)
  {
    if s != "" {
      var k := FirstBreak(s);
      if k == |s| {
        assert s == s[..k];
      } else {
        var width := if s[k] == '\r' && k + 1 < |s| && s[k + 1] == '\n' then 2 else 1;
        SplitLinesAreOneLine(s[k + width..]);
      }
    }
  }

  lemma {:induction false} CollectIsClean(entries: seq<Option<(string, string)>>)
    requires forall e :: e in entries && e.Some? ==> CleanKey(e.value.0) && OneLine(e.value.1)
    ensures Clean(Collect(entries))
  {
    if entries != [] {
      CollectIsClean(entries[..|entries| - 1]);
    }
  }

  /** Whatever the file holds, reading it yields clean settings. */
  lemma ParsedIsClean(text: Option<string>)
    ensures Clean(Parse(text))
  {
    if text.Some? {
      var lines := SplitLines(text.value);
      SplitLinesAreOneLine(text.value);
      forall e | e in Entries(lines) && e.Some? ensures CleanKey(e.value.0) && OneLine(e.value.1) {
        var i :| 0 <= i < |lines| && Entries(lines)[i] == e;
        ParsedLineIsClean(lines[i]);
      }
      CollectIsClean(Entries(lines));
    }
  }

  // ----- round trip -----

  lemma QuoteFacts(value: string)
    ensures Quote(value) == "" || (!IsSpace(Quote(value)[0]) && !IsSpace(Quote(value)[|Quote(value)| - 1]))
    ensures OneLine(value) ==> OneLine(Quote(value))
  {
    if NeedsQuotes(value) {
      if OneLine(value) {
        ReplaceKeepsOneLine(value, "\\", "\\\\");
        ReplaceKeepsOneLine(Replace(value, "\\", "\\\\"), "\"", "\\\"");
      }
    } else if value != "" {
      assert value[0] in value && value[|value| - 1] in value;
    }
  }

  lemma {:induction false} IndexOfAt(s: string, c: char, n: nat)
    requires n < |s| && s[n] == c && forall i :: 0 <= i < n ==> s[i] != c
    ensures IndexOf(s, c) == n
  {
    if n > 0 {
      assert forall i :: 0 <= i < n - 1 ==> s[1..][i] == s[i + 1];
      IndexOfAt(s[1..], c, n - 1);
    }
  }

  lemma {:induction false} FirstBreakAt(s: string, n: nat)
    requires n < |s| && IsBreak(s[n]) && forall i :: 0 <= i < n ==> !IsBreak(s[i])
    ensures FirstBreak(s) == n
  {
    if n > 0 {
      assert forall i :: 0 <= i < n - 1 ==> s[1..][i] == s[i + 1];
      FirstBreakAt(s[1..], n - 1);
    }
  }

  lemma ParseRenderedLine(key: string, value: string)
    requires CleanKey(key) && OneLine(value)
    ensures OneLine(RenderLine(key, value))
    ensures ParseLine(RenderLine(key, value)) == Some((key, value))
  {
    var line := RenderLine(key, value);
    QuoteFacts(value);
    assert line[|key|] == '=' && line[..|key|] == key && line[|key| + 1..] == Quote(value);
    assert Stripped(line);
    StripFacts(line);
    assert forall n :: 0 <= n < |key| ==> line[n] == key[n];
    IndexOfAt(line, '=', |key|);
    StripFacts(key);
    StripFacts(Quote(value));
    UnquoteQuote(value);
  }

  lemma SplitFirst(l: string, rest: string)
    requires OneLine(l)
    ensures SplitLines(l + "\n" + rest) == [l] + SplitLines(rest)
  {
    var s := l + "\n" + rest;
    assert s[|l|] == '\n' && s[..|l|] == l && s[|l| + 1..] == rest;
    assert forall n :: 0 <= n < |l| ==> s[n] == l[n] && l[n] in l;
    FirstBreakAt(s, |l|);
  }

  lemma {:induction false} SplitJoined(lines: seq<string>)
    requires lines != [] && forall l :: l in lines ==> OneLine(l)
    ensures SplitLines(Join("\n", lines) + "\n") == lines
  {
    assert lines[0] in lines && lines == [lines[0]] + lines[1..];
    if |lines| == 1 {
      assert Join("\n", lines) + "\n" == lines[0] + "\n" + "";
      SplitFirst(lines[0], "");
    } else {
      assert Join("\n", lines) + "\n" == lines[0] + "\n" + (Join("\n", lines[1..]) + "\n");
      SplitFirst(lines[0], Join("\n", lines[1..]) + "\n");
      SplitJoined(lines[1..]);
    }
  }

  function Pairs(keys: seq<string>, values: map<string, string>): seq<Option<(string, string)>>
    requires forall k :: k in keys ==> k in values
  {
    seq(|keys|, i requires 0 <= i < |keys| => Some((keys[i], values[keys[i]])))
  }

  lemma EntriesOfRendered(keys: seq<string>, values: map<string, string>)
    requires Clean(values) && forall k :: k in keys ==> k in values
    ensures Entries(RenderLines(keys, values)) == Pairs(keys, values)
  {
    forall i | 0 <= i < |keys| ensures Entries(RenderLines(keys, values))[i] == Pairs(keys, values)[i] {
      ParseRenderedLine(keys[i], values[keys[i]]);
    }
  }

  lemma {:induction false} CollectPairs(keys: seq<string>, values: map<string, string>)
    requires forall k :: k in keys ==> k in values
    ensures Collect(Pairs(keys, values)) == map k | k in keys :: values[k]
  {
    if keys != [] {
      var n := |keys| - 1;
      CollectPairs(keys[..n], values);
      assert Pairs(keys, values)[..n] == Pairs(keys[..n], values);
      assert keys == keys[..n] + [keys[n]];
    }
  }

  lemma BlankFile()
    ensures Parse(Some("\n")) == map[]
  {
    var s := "\n";
    assert FirstBreak(s) == 0 && s[..0] == "" && s[1..] == "";
    assert SplitLines(s) == [""];
    assert Entries([""]) == [None];
    assert Entries([""])[..0] == [];
  }

  lemma RenderedKeysReadBack(keys: seq<string>, values: map<string, string>)
    requires Clean(values) && forall k :: k in keys ==> k in values
    ensures Parse(Some(Join("\n", RenderLines(keys, values)) + "\n")) == map k | k in keys :: values[k]
  {
    if keys == [] {
      BlankFile();
    } else {
      var lines := RenderLines(keys, values);
      forall l | l in lines ensures OneLine(l) {
        var i :| 0 <= i < |lines| && lines[i] == l;
        ParseRenderedLine(keys[i], values[keys[i]]);
      }
      SplitJoined(lines);
      EntriesOfRendered(keys, values);
      CollectPairs(keys, values);
    }
  }

  lemma RenderingReadsBack(text: string, values: map<string, string>)
    requires IsRendering(text, values)
    requires Clean(values)
    ensures Parse(Some(text)) == values
  {
    var keys: seq<string> :|
      && StrictlySorted(keys) && (forall k :: k in keys <==> k in values)
      && text == Join("\n", RenderLines(keys, values)) + "\n";
    RenderedKeysReadBack(keys, values);
  }

  /**
   * Reading a written file gives the old settings updated with the new values exactly when every
   * new key is clean and every new value is one line. Keys already in the file never spoil this.
   */
  lemma {:induction false} RoundTrip(text: Option<string>, values: map<string, string>, written: string)
    requires IsRendering(written, Parse(text) + values)
    ensures Parse(Some(written)) == Parse(text) + values
      <==> Clean(values)
  {
    hide Parse, CleanKey, OneLine, IsRendering;
    ParsedIsClean(text);
    ParsedIsClean(Some(written));
    var merged := Parse(text) + values;
    if Parse(Some(written)) == merged {
      forall k | k in values ensures CleanKey(k) && OneLine(values[k]) {
        assert k in merged && merged[k] == values[k];
      }
    }
    if Clean(values) {
      RenderingReadsBack(written, merged);
    }
  }
}
