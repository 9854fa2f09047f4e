/** Putting every entry of an archive under one top directory: what the archive check makes of it. */
module ArchiveWrapping {
  import opened Wrappers
  import opened Ordering
  import opened Sequences
  import opened Utf8
  import opened Paths
  import opened Archive
  import opened ArchiveLaws

  function Under(top: string): Entry -> Entry {
    (e: Entry) => e.(name := top + "/" + e.name)
  }

  function RowUnder(top: string): Row -> Row {
    (r: Row) => r.(name := top + "/" + r.name)
  }

  function MemberUnder(top: string): Member -> Member {
    (m: Member) => m.(sourceName := top + "/" + m.sourceName)
  }

  /** The same verdict, the members' source names carrying the directory. */
  function Renamed(r: Result<PrecheckResult, Error>, top: string): Result<PrecheckResult, Error> {
    match r
    case Err(e) => Err(e)
    case Ok(v) => Ok(v.(members := Map(v.members, MemberUnder(top))))
  }

  /** A slash neither composes with its neighbours nor is reordered by Unicode normalisation. */
  ghost predicate NfcKeepsSlashes(nfc: string -> string) {
    forall a, b :: nfc(a + "/" + b) == nfc(a) + "/" + nfc(b)
  }

  predicate ValidTop(nfc: string -> string, top: string) {
    && top != "" && '\0' !in top && '\\' !in top
    && CleanPart(nfc(top)) && nfc(top) != ".." && !StartsWithDrive(nfc(top))
  }

  // ----- names -----

  lemma NormalizeUnder(nfc: string -> string, top: string, name: string)
    requires NfcKeepsSlashes(nfc) && ValidTop(nfc, top) && Normalize(nfc, name).Some?
    ensures Normalize(nfc, top + "/" + name) == Some(AsPosix([nfc(top)] + Parts(nfc(name))))
    ensures Parts(AsPosix([nfc(top)] + Parts(nfc(name)))) == [nfc(top)] + Parts(nfc(name))
  {
    hide Parts, AsPosix, StartsWithDrive;
    var t := nfc(top);
    assert nfc(top + "/" + name) == t + "/" + nfc(name);
    PartsUnderTop(t, nfc(name));
    PartsAreClean(nfc(name));
    PartsOfPosix([t] + Parts(nfc(name)));
  }

  lemma DotHasNoParts()
    ensures Parts(".") == []
  {
    SplitWhole(".");
  }

  /** A name that does not come to "." keeps its whole path behind the directory. */
  lemma PathUnder(nfc: string -> string, top: string, name: string)
    requires NfcKeepsSlashes(nfc) && ValidTop(nfc, top) && Normalize(nfc, name).Some?
    ensures Parts(nfc(name)) == [] <==> Normalize(nfc, name).value == "."
    ensures Normalize(nfc, name).value != "." ==>
      Normalize(nfc, top + "/" + name) == Some(nfc(top) + "/" + Normalize(nfc, name).value)
    ensures Normalize(nfc, name).value == "." ==> Normalize(nfc, top + "/" + name) == Some(nfc(top))
  {
    hide Parts;
    NormalizeUnder(nfc, top, name);
    NormalizedParts(nfc, name);
    DotHasNoParts();
    var parts := Parts(nfc(name));
    if parts != [] {
      assert ([nfc(top)] + parts)[1..] == parts;
    }
  }

  lemma FileUnder(e: Entry, top: string)
    requires e.name != ""
    ensures IsFile(Under(top)(e)) <==> IsFile(e)
  {
  }

  lemma MapOne<T, U>(x: T, f: T -> U)
    ensures Map([x], f) == [f(x)]
  {
  }

  lemma {:induction false} FilesUnder(entries: seq<Entry>, top: string)
    requires forall e :: e in entries ==> e.name != ""
    ensures Filter(Map(entries, Under(top)), IsFile) == Map(Filter(entries, IsFile), Under(top))
  {
    if entries != [] {
      FilesUnder(entries[1..], top);
      assert entries == [entries[0]] + entries[1..];
      OneFileUnder(entries[0], entries[1..], top);
    }
  }

  lemma OneFileUnder(e: Entry, rest: seq<Entry>, top: string)
    requires e.name != "" && Filter(Map(rest, Under(top)), IsFile) == Map(Filter(rest, IsFile), Under(top))
    ensures Filter(Map([e] + rest, Under(top)), IsFile) == Map(Filter([e] + rest, IsFile), Under(top))
  {
    hide Filter, Map, IsFile;
    var under := Under(top);
    FileUnder(e, top);
    MapAppend([e], rest, under);
    MapOne(e, under);
    FilterAppend([under(e)], Map(rest, under), IsFile);
    FilterAppend([e], rest, IsFile);
    FilterOne(under(e), IsFile);
    FilterOne(e, IsFile);
    MapAppend(Filter([e], IsFile), Filter(rest, IsFile), under);
    if !IsFile(e) {
      assert Map([], under) == [];
    }
  }

  // ----- the verdict on renamed rows -----

  lemma {:induction false} SumUnder(rows: seq<Row>, top: string)
    ensures Sum(Map(rows, RowUnder(top)), Size()) == Sum(rows, Size())
  {
    if rows != [] {
      SumUnder(rows[1..], top);
      assert Map(rows, RowUnder(top))[1..] == Map(rows[1..], RowUnder(top));
    }
  }

  lemma EntryErrorUnder(env: Env, l: Limits, rows: seq<Row>, top: string, k: nat)
    requires k < |rows|
    ensures EntryError(env, l, Map(rows, RowUnder(top)), k) == EntryError(env, l, rows, k)
  {
    hide Parts, HeaderError, ContentError, Sum;
    var rows' := Map(rows, RowUnder(top));
    SumUnder(rows[..k + 1], top);
    assert rows'[..k + 1] == Map(rows[..k + 1], RowUnder(top));
    assert Repeats(env, rows', k) == Repeats(env, rows, k);
  }

  lemma {:induction false} FirstErrorUnder(env: Env, l: Limits, rows: seq<Row>, top: string, k: nat)
    requires k <= |rows|
    ensures FirstError(env, l, Map(rows, RowUnder(top)), k) == FirstError(env, l, rows, k)
    decreases |rows| - k
  {
    hide EntryError;
    if k < |rows| {
      EntryErrorUnder(env, l, rows, top, k);
      FirstErrorUnder(env, l, rows, top, k + 1);
    }
  }

  lemma {:induction false} TextsUnder(env: Env, rows: seq<Row>, top: string)
    ensures Texts(env, Map(rows, RowUnder(top))) == Texts(env, rows)
  {
    if rows != [] {
      var n := |rows| - 1;
      TextsUnder(env, rows[..n], top);
      assert Map(rows, RowUnder(top))[..n] == Map(rows[..n], RowUnder(top));
    }
  }

  lemma {:induction false} InsertUnder(m: Member, members: seq<Member>, top: string)
    ensures Insert(MemberUnder(top)(m), Map(members, MemberUnder(top)), Path()) ==
      Map(Insert(m, members, Path()), MemberUnder(top))
  {
    hide Le;
    var f := MemberUnder(top);
    if members == [] || Le(m.path, members[0].path) {
      assert [f(m)] + Map(members, f) == Map([m] + members, f);
    } else {
      InsertUnder(m, members[1..], top);
      assert Map(members, f)[1..] == Map(members[1..], f);
      assert Map([members[0]] + Insert(m, members[1..], Path()), f) == [f(members[0])]
        + Map(Insert(m, members[1..], Path()), f);
    }
  }

  lemma {:induction false} SortUnder(members: seq<Member>, top: string)
    ensures Sort(Map(members, MemberUnder(top)), Path()) == Map(Sort(members, Path()), MemberUnder(top))
  {
    hide Insert;
    if members != [] {
      SortUnder(members[1..], top);
      assert Map(members, MemberUnder(top))[1..] == Map(members[1..], MemberUnder(top));
      InsertUnder(members[0], Sort(members[1..], Path()), top);
    }
  }

  lemma {:induction false} LinesUnder(members: seq<Member>, top: string)
    ensures DigestLines(Map(members, MemberUnder(top))) == DigestLines(members)
  {
    hide Encode;
    if members != [] {
      LinesUnder(members[1..], top);
      assert Map(members, MemberUnder(top))[1..] == Map(members[1..], MemberUnder(top));
    }
  }

  /** Source names reach the result's members and nothing else. */
  lemma JudgeUnder(env: Env, l: Limits, rows: seq<Row>, top: string)
    ensures Judge(env, l, Map(rows, RowUnder(top))) == Renamed(Judge(env, l, rows), top)
  {
    hide MetadataPath, Sort, DigestLines, FirstError, Texts;
    var rows' := Map(rows, RowUnder(top));
    FirstErrorUnder(env, l, rows, top, 0);
    TextsUnder(env, rows, top);
    SamePathsUnder(rows, top);
    var members := Map(rows, ToMember(env));
    assert Map(rows', ToMember(env)) == Map(members, MemberUnder(top));
    SortUnder(members, top);
    LinesUnder(Sort(members, Path()), top);
  }

  lemma SamePathsUnder(rows: seq<Row>, top: string)
    ensures PathSet(Map(rows, RowUnder(top))) == PathSet(rows)
  {
    var rows' := Map(rows, RowUnder(top));
    assert forall i :: 0 <= i < |rows| ==> rows'[i].path == rows[i].path && rows'[i] in rows' && rows[i] in rows;
  }

  // ----- the wrapper -----

  /** Valid names, and one of the three root files is at the root. */
  ghost predicate RootLevel(env: Env, files: seq<Entry>) {
    && (forall e :: e in files ==> Normalize(env.nfc, e.name).Some?)
    && exists e :: e in files && IsRootFile(PathOf(env, e))
  }

  ghost predicate HasDot(env: Env, files: seq<Entry>) {
    exists e :: e in files && PathOf(env, e) == "."
  }

  lemma PrefixOfRootLevel(env: Env, files: seq<Entry>)
    requires RootLevel(env, files)
    ensures CommonPrefix(Map(files, ToPath(env))) == ""
  {
    hide IsRootFile, Normalize, OneRoot, Parts;
    var e :| e in files && IsRootFile(PathOf(env, e));
    var i :| 0 <= i < |files| && files[i] == e;
    assert Map(files, ToPath(env))[i] in Map(files, ToPath(env));
  }

  lemma PathsUnder(env: Env, files: seq<Entry>, top: string)
    requires NfcKeepsSlashes(env.nfc) && ValidTop(env.nfc, top) && RootLevel(env, files)
    ensures forall i :: 0 <= i < |files| ==> Normalize(env.nfc, Under(top)(files[i]).name).Some?
    ensures forall i :: 0 <= i < |files| ==>
      PathOf(env, Under(top)(files[i])) ==
        (if PathOf(env, files[i]) == "." then env.nfc(top) else env.nfc(top) + "/" + PathOf(env, files[i]))
    ensures forall i :: 0 <= i < |files| && PathOf(env, files[i]) != "." ==>
      |Parts(PathOf(env, Under(top)(files[i])))| >= 2 && Parts(PathOf(env, Under(top)(files[i])))[0] == env.nfc(top)
  {
    hide Normalize, Parts, IsRootFile, AsPosix;
    forall i | 0 <= i < |files|
      ensures Normalize(env.nfc, Under(top)(files[i]).name).Some?
      ensures PathOf(env, Under(top)(files[i])) ==
        (if PathOf(env, files[i]) == "." then env.nfc(top) else env.nfc(top) + "/" + PathOf(env, files[i]))
      ensures PathOf(env, files[i]) != "." ==>
        |Parts(PathOf(env, Under(top)(files[i])))| >= 2 && Parts(PathOf(env, Under(top)(files[i])))[0] == env.nfc(top)
    {
      assert files[i] in files;
      NormalizeUnder(env.nfc, top, files[i].name);
      PathUnder(env.nfc, top, files[i].name);
    }
  }

  lemma SlashIsNoRootFile(top: string, path: string)
    ensures !IsRootFile(top + "/" + path)
  {
    assert (top + "/" + path)[|top|] == '/';
  }

  lemma PrefixUnder(env: Env, files: seq<Entry>, top: string)
    requires NfcKeepsSlashes(env.nfc) && ValidTop(env.nfc, top) && RootLevel(env, files) && !HasDot(env, files)
    ensures CommonPrefix(Map(Map(files, Under(top)), ToPath(env))) == env.nfc(top)
  {
    hide Normalize, Parts, IsRootFile;
    var raw := Map(Map(files, Under(top)), ToPath(env));
    PathsUnder(env, files, top);
    forall i | 0 <= i < |raw| ensures !IsRootFile(raw[i]) && |Parts(raw[i])| >= 2 && Parts(raw[i])[0] == env.nfc(top) {
      assert files[i] in files;
      SlashIsNoRootFile(env.nfc(top), PathOf(env, files[i]));
    }
    assert OneRoot(raw);
  }

  lemma StripUnder(top: string, path: string)
    requires top != ""
    ensures StripPrefix(top + "/" + path, top) == path
  {
    assert (top + "/" + path)[..|top| + 1] == top + "/";
  }

  lemma RowsUnder(env: Env, files: seq<Entry>, top: string)
    requires NfcKeepsSlashes(env.nfc) && ValidTop(env.nfc, top) && RootLevel(env, files) && !HasDot(env, files)
    ensures Rows(env, Map(files, Under(top))) == Map(Rows(env, files), RowUnder(top))
  {
    hide Normalize, Parts, IsRootFile, CommonPrefix, StripPrefix;
    PrefixOfRootLevel(env, files);
    PrefixUnder(env, files, top);
    PathsUnder(env, files, top);
    var x, y := Rows(env, Map(files, Under(top))), Map(Rows(env, files), RowUnder(top));
    forall i | 0 <= i < |files| ensures x[i] == y[i] {
      assert files[i] in files;
      StripUnder(env.nfc(top), PathOf(env, files[i]));
      assert StripPrefix(PathOf(env, files[i]), "") == PathOf(env, files[i]) by { StripNothing(PathOf(env, files[i])); }
    }
  }

  lemma StripNothing(path: string)
    ensures StripPrefix(path, "") == path
  {
  }

  /** Without an entry that comes to ".", the wrapped archive gets the very verdict of the bare one. */
  lemma {:induction false} WrapperKeepsVerdict(env: Env, l: Limits, entries: seq<Entry>, top: string)
    requires NfcKeepsSlashes(env.nfc) && ValidTop(env.nfc, top)
    ensures RootLevel(env, Filter(entries, IsFile)) && !HasDot(env, Filter(entries, IsFile)) ==>
      Verdict(env, l, Map(entries, Under(top))) == Renamed(Verdict(env, l, entries), top)
  {
    hide Normalize, Judge, Rows, RootLevel, HasDot, ValidTop, NfcKeepsSlashes, Filter;
    if RootLevel(env, Filter(entries, IsFile)) && !HasDot(env, Filter(entries, IsFile)) {
      var files := Filter(entries, IsFile);
      NamesAreNonempty(env, entries);
      FilesUnder(entries, top);
      NamesUnder(env, files, top);
      RowsUnder(env, files, top);
      JudgeUnder(env, l, Rows(env, files), top);
    }
  }

  lemma NamesUnder(env: Env, files: seq<Entry>, top: string)
    requires NfcKeepsSlashes(env.nfc) && ValidTop(env.nfc, top) && RootLevel(env, files)
    ensures !exists e :: e in Map(files, Under(top)) && Normalize(env.nfc, e.name).None?
    ensures !exists e :: e in files && Normalize(env.nfc, e.name).None?
  {
    hide Normalize, Parts, IsRootFile;
    PathsUnder(env, files, top);
    var wrapped := Map(files, Under(top));
    forall e | e in wrapped ensures Normalize(env.nfc, e.name).Some? {
      var i :| 0 <= i < |files| && wrapped[i] == e;
      assert e == Under(top)(files[i]);
    }
  }

  lemma NamesAreNonempty(env: Env, entries: seq<Entry>)
    requires RootLevel(env, Filter(entries, IsFile))
    ensures forall e :: e in entries ==> e.name != ""
  {
    forall e | e in entries ensures e.name != "" {
      assert IsFile(e) ==> e in Filter(entries, IsFile);
    }
  }

  /** An entry that comes to "." becomes a file named as the directory, and the archive is refused. */
  lemma {:induction false} DotDefeatsWrapper(env: Env, l: Limits, entries: seq<Entry>, top: string)
    requires NfcKeepsSlashes(env.nfc) && ValidTop(env.nfc, top)
    ensures RootLevel(env, Filter(entries, IsFile)) && HasDot(env, Filter(entries, IsFile)) ==>
      Verdict(env, l, Map(entries, Under(top))).Err?
  {
    hide Normalize, Judge, Rows, MetadataPath, IsRootFile;
    if RootLevel(env, Filter(entries, IsFile)) && HasDot(env, Filter(entries, IsFile)) {
      var files := Filter(entries, IsFile);
      NamesAreNonempty(env, entries);
      FilesUnder(entries, top);
      DotHasNoMetadata(env, files, top);
      JudgeNeedsMetadata(env, l, Rows(env, Map(files, Under(top))));
    }
  }

  lemma JudgeNeedsMetadata(env: Env, l: Limits, rows: seq<Row>)
    requires MetadataPath(PathSet(rows)).Err?
    ensures Judge(env, l, rows).Err?
  {
    hide MetadataPath, FirstError;
  }

  lemma DotMeansNoPrefix(env: Env, files: seq<Entry>, top: string)
    requires NfcKeepsSlashes(env.nfc) && ValidTop(env.nfc, top) && RootLevel(env, files) && HasDot(env, files)
    ensures CommonPrefix(Map(Map(files, Under(top)), ToPath(env))) == ""
  {
    hide Normalize, IsRootFile;
    var e :| e in files && PathOf(env, e) == ".";
    var i :| 0 <= i < |files| && files[i] == e;
    PathsUnder(env, files, top);
    var raw := Map(Map(files, Under(top)), ToPath(env));
    assert raw[i] == env.nfc(top);
    SplitWhole(env.nfc(top));
    KeptClean([env.nfc(top)]);
    assert |Parts(raw[i])| == 1;
  }

  lemma DotHasNoMetadata(env: Env, files: seq<Entry>, top: string)
    requires NfcKeepsSlashes(env.nfc) && ValidTop(env.nfc, top) && RootLevel(env, files) && HasDot(env, files)
    ensures MetadataPath(PathSet(Rows(env, Map(files, Under(top))))).Err?
  {
    hide Normalize, Parts, CommonPrefix, StripPrefix;
    DotMeansNoPrefix(env, files, top);
    PathsUnder(env, files, top);
    var rows := Rows(env, Map(files, Under(top)));
    forall i | 0 <= i < |rows| ensures IsRootFile(rows[i].path) ==> rows[i].path == env.nfc(top) {
      assert rows[i].path == PathOf(env, Under(top)(files[i])) by {
        StripNothing(PathOf(env, Under(top)(files[i])));
      }
      SlashIsNoRootFile(env.nfc(top), PathOf(env, files[i]));
    }
    assert forall p :: p in PathSet(rows) && IsRootFile(p) ==> p == env.nfc(top);
  }

  /** Wrapping an accepted root-level archive: accepted exactly when no entry comes to ".", with the same
      metadata, digest and members up to source names. */
  lemma {:induction false} WrapperIsInvisible(env: Env, l: Limits, entries: seq<Entry>, top: string)
    requires NfcKeepsSlashes(env.nfc) && ValidTop(env.nfc, top)
    ensures
      var bare, wrapped := Verdict(env, l, entries), Verdict(env, l, Map(entries, Under(top)));
      bare.Ok? && CommonPrefix(Map(Filter(entries, IsFile), ToPath(env))) == "" ==>
        && (wrapped.Ok? <==> !HasDot(env, Filter(entries, IsFile)))
        && (wrapped.Ok? ==> wrapped == Renamed(bare, top))
  {
    hide NfcKeepsSlashes, ValidTop, Verdict, Filter, HasDot, RootLevel, CommonPrefix;
    if Verdict(env, l, entries).Ok? && CommonPrefix(Map(Filter(entries, IsFile), ToPath(env))) == "" {
      AcceptedIsRootLevel(env, l, entries);
      if HasDot(env, Filter(entries, IsFile)) {
        DotDefeatsWrapper(env, l, entries, top);
      } else {
        WrapperKeepsVerdict(env, l, entries, top);
      }
    }
  }

  lemma AcceptedIsRootLevel(env: Env, l: Limits, entries: seq<Entry>)
    requires Verdict(env, l, entries).Ok? && CommonPrefix(Map(Filter(entries, IsFile), ToPath(env))) == ""
    ensures RootLevel(env, Filter(entries, IsFile))
  {
    hide Normalize, Parts, CommonPrefix, FirstError, TextAt;
    var files := Filter(entries, IsFile);
    var rows := Rows(env, files);
    assert "main.py" in PathSet(rows);
    var i :| 0 <= i < |rows| && rows[i].path == "main.py";
    assert rows[i].path == PathOf(env, files[i]);
    assert files[i] in files && IsRootFile(PathOf(env, files[i]));
  }

  // ----- an accepted archive that its wrapper defeats -----

  predicate IsPlain(s: string) {
    forall c :: c in s ==> c as int < 128 && !('A' <= c <= 'Z')
  }

  /** Normalising, folding and lowering leave ASCII without capitals alone. */
  ghost predicate AsciiLaws(env: Env) {
    forall s :: IsPlain(s) ==> env.nfc(s) == s && env.casefold(s) == s && env.lower(s) == s
  }

  function Stored(name: string, data: seq<Byte>): Entry {
    Entry(name, Body(false, false, |data|, |data|, Some(data)))
  }

  function StoredRow(name: string, data: seq<Byte>): Row {
    Row(name, name, Stored(name, data).body)
  }

  /** The two files every plugin has, and one more called ".". */
  function DottedEntries(metadata: seq<Byte>): seq<Entry> {
    [Stored("main.py", []), Stored("metadata.yaml", metadata), Stored(".", [])]
  }

  function DottedRows(metadata: seq<Byte>): seq<Row> {
    [StoredRow("main.py", []), StoredRow("metadata.yaml", metadata), StoredRow(".", [])]
  }

  lemma PlainName(env: Env, name: string)
    requires AsciiLaws(env) && IsPlain(name) && name != "" && name != "." && name != ".." && !StartsWithDrive(name)
    requires '/' !in name && '\0' !in name && '\\' !in name
    ensures Normalize(env.nfc, name) == Some(name) && Parts(name) == [name]
  {
    SplitWhole(name);
    KeptClean([name]);
  }

  lemma MainName(env: Env)
    requires AsciiLaws(env)
    ensures Normalize(env.nfc, "main.py") == Some("main.py") && Parts("main.py") == ["main.py"]
  {
    hide Normalize, Parts, AsciiLaws;
    PlainName(env, "main.py");
  }

  lemma MetadataName(env: Env)
    requires AsciiLaws(env)
    ensures Normalize(env.nfc, "metadata.yaml") == Some("metadata.yaml")
      && Parts("metadata.yaml") == ["metadata.yaml"]
  {
    hide Normalize, Parts, AsciiLaws;
    PlainName(env, "metadata.yaml");
  }

  lemma DotName(env: Env)
    requires AsciiLaws(env)
    ensures Normalize(env.nfc, ".") == Some(".") && Parts(".") == []
  {
    DotHasNoParts();
    assert IsPlain(".");
  }

  lemma DottedFiles(metadata: seq<Byte>)
    ensures Filter(DottedEntries(metadata), IsFile) == DottedEntries(metadata)
  {
    var entries := DottedEntries(metadata);
    assert entries[1..] == [Stored("metadata.yaml", metadata), Stored(".", [])];
    FilterOne(Stored(".", []), IsFile);
    assert entries[1..][1..] == [Stored(".", [])];
  }

  lemma DottedAtRoot(env: Env, metadata: seq<Byte>)
    requires AsciiLaws(env)
    ensures RootLevel(env, DottedEntries(metadata)) && HasDot(env, DottedEntries(metadata))
    ensures Rows(env, DottedEntries(metadata)) == DottedRows(metadata)
  {
    hide Normalize, Parts, AsciiLaws;
    var entries := DottedEntries(metadata);
    MainName(env);
    MetadataName(env);
    DotName(env);
    assert entries[0] in entries && IsRootFile(PathOf(env, entries[0]));
    assert entries[2] in entries && PathOf(env, entries[2]) == ".";
    PrefixOfRootLevel(env, entries);
  }

  lemma {:induction false} LastDotAt(s: string, k: nat)
    requires k < |s| && s[k] == '.' && forall i :: k < i < |s| ==> s[i] != '.'
    ensures LastDot(s) == k
  {
    if k < |s| - 1 {
      LastDotAt(s[..|s| - 1], k);
    }
  }

  lemma SuffixAt(name: string, k: nat)
    requires Parts(name) == [name] && 0 < k < |name| - 1
    requires name[k] == '.' && forall i :: k < i < |name| ==> name[i] != '.'
    ensures Suffix(name) == name[k..]
  {
    LastDotAt(name, k);
  }

  lemma PlainSuffixes(env: Env)
    requires AsciiLaws(env)
    ensures env.lower(Suffix("main.py")) !in NATIVE_SUFFIXES && env.lower(Suffix("metadata.yaml")) !in NATIVE_SUFFIXES
    ensures env.lower(Suffix(".")) !in NATIVE_SUFFIXES
  {
    hide Normalize, Parts;
    MainName(env);
    MetadataName(env);
    DotName(env);
    SuffixAt("main.py", 4);
    SuffixAt("metadata.yaml", 8);
    assert "main.py"[4..] == ".py" && "metadata.yaml"[8..] == ".yaml";
    assert IsPlain(".py") && IsPlain(".yaml") && IsPlain("");
  }

  /** What a stored file must be like to be accepted: within the limits and no Git LFS pointer. */
  predicate Storable(l: Limits, data: seq<Byte>) {
    && l.maxFiles >= 3 && l.maxDepth >= 1 && l.maxRatio >= 1 && |data| <= l.maxFileBytes && |data| <= l.maxUnpacked
    && !(Encode("version https://git-lfs.github.com/spec/v1") <= data)
  }

  lemma StoredIsFine(env: Env, l: Limits, name: string, data: seq<Byte>)
    requires Storable(l, data) && name != "" && name != ".gitmodules" && |Parts(name)| <= 1
    requires env.lower(Suffix(name)) !in NATIVE_SUFFIXES
    ensures OwnError(env, l, StoredRow(name, data)).None?
  {
    hide Parts, Suffix, Encode;
    assert |data| <= l.maxRatio * (if |data| > 1 then |data| else 1);
  }

  lemma EmptyIsStorable(l: Limits, data: seq<Byte>)
    requires Storable(l, data)
    ensures Storable(l, [])
  {
    CodeIsNonempty("version https://git-lfs.github.com/spec/v1");
  }

  lemma CodeIsNonempty(s: string)
    requires s != ""
    ensures |Encode(s)| > 0
  {
  }

  lemma DottedFolds(env: Env, metadata: seq<Byte>)
    requires AsciiLaws(env)
    ensures NoDup(Map(DottedRows(metadata), RowPath())) && NoDup(Map(DottedRows(metadata), RowFold(env)))
  {
    assert IsPlain("main.py") && IsPlain("metadata.yaml") && IsPlain(".");
    assert |"main.py"| == 7 && |"metadata.yaml"| == 13 && |"."| == 1;
  }

  lemma DottedIsClean(env: Env, l: Limits, metadata: seq<Byte>)
    requires AsciiLaws(env) && Storable(l, metadata)
    ensures Clean(env, l, DottedRows(metadata))
  {
    hide Parts, OwnError, Suffix, AsciiLaws, Storable, NoDup, Map;
    MainName(env);
    MetadataName(env);
    DotName(env);
    PlainSuffixes(env);
    EmptyIsStorable(l, metadata);
    StoredIsFine(env, l, "main.py", []);
    StoredIsFine(env, l, "metadata.yaml", metadata);
    StoredIsFine(env, l, ".", []);
    DottedFolds(env, metadata);
    DottedSize(metadata);
    assert |metadata| <= l.maxUnpacked by { StorableFits(l, metadata); }
  }

  lemma StorableFits(l: Limits, data: seq<Byte>)
    requires Storable(l, data)
    ensures |data| <= l.maxUnpacked && l.maxFiles >= 3
  {
  }

  lemma DottedSize(metadata: seq<Byte>)
    ensures Sum(DottedRows(metadata), Size()) == |metadata|
  {
    var rows := DottedRows(metadata);
    assert rows[1..] == [StoredRow("metadata.yaml", metadata), StoredRow(".", [])];
    assert rows[1..][1..] == [StoredRow(".", [])];
    assert rows[1..][1..][1..] == [];
    assert Sum(rows[1..][1..], Size()) == 0 + Sum(rows[1..][1..][1..], Size());
    assert Sum(rows[1..], Size()) == |metadata| + Sum(rows[1..][1..], Size());
    assert Sum(rows, Size()) == 0 + Sum(rows[1..], Size());
  }

  /** In every environment that leaves ASCII alone and accepts the metadata, an accepted archive at root level
      that is refused under every top directory. */
  lemma DottedArchive(env: Env, l: Limits, metadata: seq<Byte>, top: string)
    requires AsciiLaws(env) && NfcKeepsSlashes(env.nfc) && ValidTop(env.nfc, top) && Storable(l, metadata)
    requires env.lines("metadata.yaml", metadata).Some? && env.metadata(metadata).Ok?
    ensures Verdict(env, l, DottedEntries(metadata)).Ok?
    ensures Verdict(env, l, Map(DottedEntries(metadata), Under(top))).Err?
  {
    hide Verdict, DottedEntries, RootLevel, HasDot, Filter, AsciiLaws, NfcKeepsSlashes, ValidTop, Storable;
    DottedIsAccepted(env, l, metadata);
    DottedAtRoot(env, metadata);
    DottedFiles(metadata);
    DotDefeatsWrapper(env, l, DottedEntries(metadata), top);
  }

  lemma DottedIsAccepted(env: Env, l: Limits, metadata: seq<Byte>)
    requires AsciiLaws(env) && Storable(l, metadata)
    requires env.lines("metadata.yaml", metadata).Some? && env.metadata(metadata).Ok?
    ensures Verdict(env, l, DottedEntries(metadata)).Ok?
  {
    hide Normalize, FirstError, Clean, Finish, Rows, Filter, AsciiLaws, Storable, DottedRows;
    StorableFits(l, metadata);
    DottedFiles(metadata);
    DottedAtRoot(env, metadata);
    DottedIsClean(env, l, metadata);
    LoopAcceptsCleanRows(env, l, DottedRows(metadata));
    DottedFinish(env, metadata);
  }

  lemma DottedFinish(env: Env, metadata: seq<Byte>)
    requires env.lines("metadata.yaml", metadata).Some? && env.metadata(metadata).Ok?
    ensures Finish(env, DottedRows(metadata)).Ok?
  {
    hide DigestInput, Sort, TextAt;
    var rows := DottedRows(metadata);
    var paths := PathSet(rows);
    assert rows[0].path in paths && rows[1].path in paths;
    assert forall p :: p in paths ==> p == "main.py" || p == "metadata.yaml" || p == ".";
    assert |"metadata.yml"| == 12 && |"metadata.yaml"| == 13 && |"main.py"| == 7;
    DottedText(env, metadata);
  }

  lemma DottedText(env: Env, metadata: seq<Byte>)
    requires env.lines("metadata.yaml", metadata).Some?
    ensures TextAt(env, DottedRows(metadata), "metadata.yaml") == metadata
  {
    var rows := DottedRows(metadata);
    assert |"main.py"| == 7 && |"metadata.yaml"| == 13 && |"."| == 1;
    DistinctRowPaths(metadata);
    TextsAreRows(env, rows);
    assert rows[1] in rows && HasText(env, rows[1]);
  }

  lemma DistinctRowPaths(metadata: seq<Byte>)
    ensures NoDup(Map(DottedRows(metadata), RowPath()))
  {
    assert |"main.py"| == 7 && |"metadata.yaml"| == 13 && |"."| == 1;
  }
}
