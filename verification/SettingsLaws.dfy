/** What a settings file's text means, line by line, and what is written. */
module SettingsLaws {
  import opened Wrappers
  import opened Ordering
  import opened Sequences
  import opened EnvFile

  // ----- characters -----

  /** The code points Python counts as white space. */
  lemma SpaceExactly(c: char)
    ensures IsSpace(c) <==>
      var n := c as int;
      || 9 <= n <= 13 || 28 <= n <= 32 || n == 133 || n == 160 || n == 5760 || 8192 <= n <= 8202
      || n == 8232 || n == 8233 || n == 8239 || n == 8287 || n == 12288
  {
  }

  /** The code points Python breaks lines at. */
  lemma BreakExactly(c: char)
    ensures IsBreak(c) <==>
      var n := c as int;
      10 <= n <= 13 || 28 <= n <= 30 || n == 133 || n == 8232 || n == 8233
  {
  }

  predicate AllSpace(s: string) {
    forall c :: c in s ==> IsSpace(c)
  }

  predicate Trimmed(s: string) {
    s == "" || (!IsSpace(s[0]) && !IsSpace(s[|s| - 1]))
  }

  lemma {:induction false} LeftExactly(s: string) returns (blank: string)
    ensures s == blank + StripLeft(s) && AllSpace(blank)
  {
    if s != "" && IsSpace(s[0]) {
      var rest := LeftExactly(s[1..]);
      blank := [s[0]] + rest;
      assert s == [s[0]] + s[1..];
    } else {
      blank := "";
    }
  }

  lemma {:induction false} RightExactly(s: string) returns (blank: string)
    ensures s == StripRight(s) + blank && AllSpace(blank)
  {
    if s != "" && IsSpace(s[|s| - 1]) {
      var rest := RightExactly(s[..|s| - 1]);
      blank := rest + [s[|s| - 1]];
      assert s == s[..|s| - 1] + [s[|s| - 1]];
    } else {
      blank := "";
    }
  }

  /** Stripping removes white space on both sides, all of it, and nothing else. */
  lemma StripExactly(s: string) returns (left: string, right: string)
    ensures s == left + Strip(s) + right && AllSpace(left) && AllSpace(right) && Trimmed(Strip(s))
  {
    left := LeftExactly(s);
    right := RightExactly(StripLeft(s));
    StripFacts(s);
    assert left + (Strip(s) + right) == left + Strip(s) + right;
  }

  // ----- lines -----

  /** A line separator: any break character, and "\r\n" as one. */
  predicate Separator(sep: string, rest: string) {
    || sep == "\r\n"
    || (|sep| == 1 && IsBreak(sep[0]) && !(sep == "\r" && rest != "" && rest[0] == '\n'))
  }

  /** A text is its first line, a separator and the lines of the rest; the last line needs no separator. */
  lemma {:induction false} LinesExactly(line: string, sep: string, rest: string)
    requires forall c :: c in line ==> !IsBreak(c)
    requires Separator(sep, rest)
    ensures SplitLines(line + sep + rest) == [line] + SplitLines(rest)
    ensures SplitLines(line) == if line == "" then [] else [line]
  {
    var s := line + sep + rest;
    assert s[|line|] == sep[0] && s[..|line|] == line && s[|line| + |sep|..] == rest;
    assert forall n :: 0 <= n < |line| ==> s[n] == line[n] && line[n] in line;
    FirstBreakAt(s, |line|);
    if sep == "\r\n" {
      assert s[|line| + 1] == '\n';
    } else if rest != "" {
      assert s[|line| + 1] == rest[0];
    }
    if line != "" {
      NoBreak(line);
    }
  }

  lemma {:induction false} NoBreak(line: string)
    requires forall c :: c in line ==> !IsBreak(c)
    ensures FirstBreak(line) == |line|
  {
    if line != "" {
      assert line[0] in line && forall c :: c in line[1..] ==> c in line;
      NoBreak(line[1..]);
    }
  }

  /** A line says nothing if it is blank, a comment or without "="; otherwise its key is what stands before the
      first "=" and its value what stands behind it, both stripped, the value unquoted. */
  lemma {:induction false} LineExactly(line: string, key: string, value: string)
    ensures
      var raw := Strip(line);
      ParseLine(line) == None <==> |raw| == 0 || raw[0] == '#' || forall i :: 0 <= i < |raw| ==> raw[i] != '='
    ensures Strip(line) == key + "=" + value && '=' !in key && Strip(line)[0] != '#' ==>
      ParseLine(line) == Some((Strip(key), Unquote(Strip(value))))
  {
    var raw := Strip(line);
    if raw == key + "=" + value && '=' !in key && raw[0] != '#' {
      assert raw[|key|] == '=' && raw[..|key|] == key && raw[|key| + 1..] == value;
      assert forall n :: 0 <= n < |key| ==> raw[n] == key[n] && key[n] in key;
      IndexOfAt(raw, '=', |key|);
    }
  }

  /** Entry `i` sets the key, and none behind it does. */
  predicate SetLast(entries: seq<Option<(string, string)>>, i: nat, key: string) {
    && i < |entries| && entries[i].Some? && entries[i].value.0 == key
    && forall j :: i < j < |entries| && entries[j].Some? ==> entries[j].value.0 != key
  }

  /** The setting of a key is the one on its last line. */
  lemma {:induction false} LastLineWins(entries: seq<Option<(string, string)>>, key: string, i: nat)
    requires SetLast(entries, i, key)
    ensures key in Collect(entries) && Collect(entries)[key] == entries[i].value.1
  {
    var n := |entries| - 1;
    if i < n {
      assert entries[n].Some? ==> entries[n].value.0 != key;
      LastLineWins(entries[..n], key, i);
    }
  }

  /** A key without a line of its own has no setting. */
  lemma {:induction false} NoLineNoSetting(entries: seq<Option<(string, string)>>, key: string)
    requires forall i :: 0 <= i < |entries| && entries[i].Some? ==> entries[i].value.0 != key
    ensures key !in Collect(entries)
  {
    if entries != [] {
      NoLineNoSetting(entries[..|entries| - 1], key);
    }
  }

  // ----- values -----

  predicate Marked(c: char) {
    IsSpace(c) || c == '#' || c == '"' || c == '\''
  }

  /** A value is written as it is unless it has white space, '#' or a quote; then it is put into double quotes with
      a backslash before every backslash and double quote. */
  lemma {:induction false} QuoteExactly(value: string)
    ensures Quote(value) ==
      if exists i :: 0 <= i < |value| && Marked(value[i]) then "\"" + Backslashed(value) + "\"" else value
  {
    EscapeFirstPass(value);
    EscapeSecondPass(value);
    BackslashedExactly(value);
    assert "\\" == ['\\'] && "\\\\" == ['\\', '\\'] && "\"" == ['"'] && "\\\"" == ['\\', '"'];
    if i :| 0 <= i < |value| && Marked(value[i]) {
      assert value[i] in value;
    }
  }

  function Backslashed(value: string): string {
    if value == "" then ""
    else (if value[0] == '\\' || value[0] == '"' then "\\" + [value[0]] else [value[0]]) + Backslashed(value[1..])
  }

  lemma {:induction false} BackslashedExactly(value: string)
    ensures Escaped(value) == Backslashed(value)
  {
    if value != "" {
      BackslashedExactly(value[1..]);
    }
  }

  predicate InQuotes(value: string) {
    |value| >= 2 && value[0] == value[|value| - 1] && value[0] in {'"', '\''}
  }

  /** A value in matching quotes of either kind loses them, and one without backslashes inside nothing else. Any
      other value stays. */
  lemma {:induction false} UnquoteExactly(value: string)
    ensures !InQuotes(value) ==> Unquote(value) == value
    ensures InQuotes(value) && '\\' !in value[1..|value| - 1] ==> Unquote(value) == value[1..|value| - 1]
  {
    if |value| >= 2 && '\\' !in value[1..|value| - 1] {
      var inner := value[1..|value| - 1];
      NothingToReplace(inner, "\\\"", "\"");
      NothingToReplace(inner, "\\\\", "\\");
    }
  }

  lemma {:induction false} NothingToReplace(s: string, old_: string, new_: string)
    requires old_ != "" && old_[0] !in s
    ensures Replace(s, old_, new_) == s
  {
    if |s| >= |old_| {
      assert s[..|old_|][0] == s[0] && s[0] in s;
      assert forall c :: c in s[1..] ==> c in s;
      NothingToReplace(s[1..], old_, new_);
    }
  }

  /** Any inner text between single quotes is unescaped as one between double quotes is. */
  lemma EitherQuote(inner: string)
    ensures Unquote("'" + inner + "'") == Unquote("\"" + inner + "\"")
  {
    var a, b := "'" + inner + "'", "\"" + inner + "\"";
    assert a[1..|a| - 1] == inner && b[1..|b| - 1] == inner;
  }

  // ----- the written file -----

  /** The text has one line "key=value" for each setting, in the order of the keys, each ended by a newline. */
  lemma {:induction false} WrittenExactly(text: string, values: map<string, string>) returns (keys: seq<string>)
    requires IsRendering(text, values)
    ensures StrictlySorted(keys) && forall k :: k in keys <==> k in values
    ensures keys == [] ==> text == "\n"
    ensures keys != [] ==> text == LinesFor(keys, values)
  {
    keys :|
      && StrictlySorted(keys) && (forall k :: k in keys <==> k in values)
      && text == Join("\n", RenderLines(keys, values)) + "\n";
    if keys != [] {
      LinesJoined(keys, values);
    }
  }

  function LinesFor(keys: seq<string>, values: map<string, string>): string
    requires forall k :: k in keys ==> k in values
  {
    if keys == [] then "" else keys[0] + "=" + Quote(values[keys[0]]) + "\n" + LinesFor(keys[1..], values)
  }

  lemma {:induction false} LinesJoined(keys: seq<string>, values: map<string, string>)
    requires keys != [] && forall k :: k in keys ==> k in values
    ensures Join("\n", RenderLines(keys, values)) + "\n" == LinesFor(keys, values)
  {
    hide Quote;
    var lines := RenderLines(keys, values);
    if |keys| > 1 {
      LinesJoined(keys[1..], values);
      assert lines[1..] == RenderLines(keys[1..], values);
      var a, b := lines[0] + "\n", Join("\n", lines[1..]);
      assert a + b + "\n" == a + (b + "\n");
    } else {
      assert LinesFor(keys[1..], values) == "";
    }
  }
}
