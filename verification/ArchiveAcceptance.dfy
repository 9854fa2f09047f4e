/**
 * Which archives the check accepts, what it makes of them and what its refusals mean, said on the
 * entries and their names.
 */
module ArchiveAcceptance {
  import opened Wrappers
  import opened Ordering
  import opened Sequences
  import opened Utf8
  import opened Paths
  import opened Archive
  import opened ArchiveLaws

  // ----- names and paths -----

  /** Splitting and joining at '/' are inverse, and no segment holds one. */
  lemma {:induction false} SplitJoins(s: string)
    ensures Join("/", Split(s)) == s && forall p :: p in Split(s) ==> '/' !in p
  {
    if s != "" {
      SplitJoins(s[1..]);
      SplitHasNoSlash(s);
      assert s == [s[0]] + s[1..];
    }
  }

  ghost function Segments(s: string): seq<string> {
    Filter(Split(s), (p: string) => p != "" && p != ".")
  }

  lemma {:induction false} KeptIsFilter(segments: seq<string>)
    ensures Kept(segments) == Filter(segments, (p: string) => p != "" && p != ".")
  {
    if segments != [] {
      KeptIsFilter(segments[1..]);
    }
  }

  lemma PartsAreSegments(s: string)
    ensures Parts(s) == Segments(s)
  {
    KeptIsFilter(Split(s));
  }

  predicate Driven(p: string) {
    |p| >= 2 && p[1] == ':' && ('a' <= p[0] <= 'z' || 'A' <= p[0] <= 'Z')
  }

  /** Not empty, no NUL or backslash, and in normal form a relative path without ".." or a drive letter. */
  ghost predicate ValidName(nfc: string -> string, name: string) {
    && name != "" && '\0' !in name && '\\' !in name
    && (nfc(name) == "" || nfc(name)[0] != '/')
    && ".." !in Segments(nfc(name))
    && (Segments(nfc(name)) == [] || !Driven(Segments(nfc(name))[0]))
  }

  ghost function Written(segments: seq<string>): string {
    if segments == [] then "." else Join("/", segments)
  }

  lemma NormalizeExactly(nfc: string -> string, name: string)
    ensures Normalize(nfc, name) == if ValidName(nfc, name) then Some(Written(Segments(nfc(name)))) else None
  {
    hide Segments;
    PartsAreSegments(nfc(name));
  }

  // ----- the wrapper -----

  ghost function SegmentsOf(env: Env, e: Entry): seq<string> {
    Segments(env.nfc(e.name))
  }

  /** Every file lies in one and the same top directory. */
  ghost predicate Wrapped(env: Env, files: seq<Entry>) {
    files != [] && forall e, f :: e in files && f in files ==>
      |SegmentsOf(env, e)| >= 2 && |SegmentsOf(env, f)| >= 2 && SegmentsOf(env, e)[0] == SegmentsOf(env, f)[0]
  }

  /** The path of a file without the common top directory, if there is one. */
  ghost function InnerPath(env: Env, files: seq<Entry>, e: Entry): string {
    Written(if Wrapped(env, files) && |SegmentsOf(env, e)| > 0 then SegmentsOf(env, e)[1..] else SegmentsOf(env, e))
  }

  lemma WrittenSegments(nfc: string -> string, name: string)
    requires ValidName(nfc, name)
    ensures Parts(Written(Segments(nfc(name)))) == Segments(nfc(name)) && CleanParts(Segments(nfc(name)))
  {
    hide Segments;
    NormalizeExactly(nfc, name);
    NormalizedParts(nfc, name);
    PartsAreSegments(nfc(name));
  }

  lemma RootFilesHaveOneSegment(path: string)
    ensures IsRootFile(path) ==> |Parts(path)| == 1
  {
    if IsRootFile(path) {
      assert '/' !in path;
      SplitWhole(path);
      KeptClean([path]);
    }
  }

  lemma StripHead(segments: seq<string>)
    requires CleanParts(segments) && |segments| >= 2
    ensures StripPrefix(Join("/", segments), segments[0]) == Join("/", segments[1..])
  {
    var path := Join("/", segments);
    assert path == segments[0] + "/" + Join("/", segments[1..]);
    assert path[..|segments[0]| + 1] == segments[0] + "/";
  }

  ghost predicate ValidNames(env: Env, files: seq<Entry>) {
    forall e :: e in files ==> ValidName(env.nfc, e.name)
  }

  lemma RawPath(env: Env, e: Entry)
    requires ValidName(env.nfc, e.name)
    ensures PathOf(env, e) == Written(SegmentsOf(env, e)) && Parts(PathOf(env, e)) == SegmentsOf(env, e)
    ensures CleanParts(SegmentsOf(env, e))
  {
    hide Segments, ValidName, Normalize, Written, Parts;
    NormalizeExactly(env.nfc, e.name);
    WrittenSegments(env.nfc, e.name);
  }

  lemma PrefixExactly(env: Env, files: seq<Entry>)
    requires ValidNames(env, files)
    ensures
      CommonPrefix(Map(files, ToPath(env))) == if Wrapped(env, files) then SegmentsOf(env, files[0])[0] else ""
  {
    hide SegmentsOf, Parts, IsRootFile, ValidName;
    var paths := Map(files, ToPath(env));
    forall i | 0 <= i < |files|
      ensures Parts(paths[i]) == SegmentsOf(env, files[i])
      ensures IsRootFile(paths[i]) ==> |SegmentsOf(env, files[i])| == 1
    {
      assert files[i] in files;
      RawPath(env, files[i]);
      RootFilesHaveOneSegment(paths[i]);
    }
    OneRootExactly(env, files, paths);
    if p :| p in paths && IsRootFile(p) {
      var i :| 0 <= i < |paths| && paths[i] == p;
      assert files[i] in files;
    }
  }

  lemma OneRootExactly(env: Env, files: seq<Entry>, paths: seq<string>)
    requires |paths| == |files| && forall i :: 0 <= i < |files| ==> Parts(paths[i]) == SegmentsOf(env, files[i])
    ensures files != [] ==> (OneRoot(paths) <==> Wrapped(env, files))
  {
    hide SegmentsOf, Parts;
    if OneRoot(paths) {
      forall e, f | e in files && f in files
        ensures |SegmentsOf(env, e)| >= 2 && |SegmentsOf(env, f)| >= 2 && SegmentsOf(env, e)[0] == SegmentsOf(env, f)[0]
      {
        var i :| 0 <= i < |files| && files[i] == e;
        var j :| 0 <= j < |files| && files[j] == f;
        assert Parts(paths[i])[0] == Parts(paths[j])[0];
      }
    }
    if files != [] && Wrapped(env, files) {
      forall i, j | 0 <= i < |paths| && 0 <= j < |paths|
        ensures |Parts(paths[i])| >= 2 && |Parts(paths[j])| >= 2 && Parts(paths[i])[0] == Parts(paths[j])[0]
      {
        assert files[i] in files && files[j] in files;
      }
    }
  }

  /** The loop sees every file under its own path without the wrapper, with its own name and body. */
  lemma RowsExactly(env: Env, files: seq<Entry>)
    requires ValidNames(env, files)
    ensures |Rows(env, files)| == |files|
    ensures forall i :: 0 <= i < |files| ==>
      Rows(env, files)[i] == Row(InnerPath(env, files, files[i]), files[i].name, files[i].body)
  {
    hide SegmentsOf, Parts, CommonPrefix, ValidName, StripPrefix, Wrapped;
    PrefixExactly(env, files);
    forall i | 0 <= i < |files|
      ensures Rows(env, files)[i] == Row(InnerPath(env, files, files[i]), files[i].name, files[i].body)
    {
      assert files[i] in files;
      RawPath(env, files[i]);
      InnerPathStrips(env, files, files[i]);
    }
  }

  lemma InnerPathStrips(env: Env, files: seq<Entry>, e: Entry)
    requires e in files && CleanParts(SegmentsOf(env, e))
    ensures
      var prefix := if Wrapped(env, files) then SegmentsOf(env, files[0])[0] else "";
      InnerPath(env, files, e) == StripPrefix(Written(SegmentsOf(env, e)), prefix)
  {
    hide SegmentsOf;
    if Wrapped(env, files) {
      assert files[0] in files;
      StripHead(SegmentsOf(env, e));
    }
  }

  // ----- one file -----

  /** The name ends in "." and one of the eleven native extensions, after something and in any case. */
  ghost predicate NativeName(env: Env, name: string) {
    exists stem, ext :: NativeWith(env, name, stem, ext)
  }

  predicate NativeWith(env: Env, name: string, stem: string, ext: string) {
    Divides(name, stem, ext) && stem != "" && ext != "" && Native(env.lower("." + ext))
  }

  predicate Native(suffix: string) {
    || suffix == ".a" || suffix == ".app" || suffix == ".bin" || suffix == ".com" || suffix == ".dll"
    || suffix == ".dylib" || suffix == ".exe" || suffix == ".msi" || suffix == ".o" || suffix == ".pyd"
    || suffix == ".so"
  }

  lemma NativeExactly(suffix: string)
    ensures suffix in NATIVE_SUFFIXES <==> Native(suffix)
  {
  }

  ghost predicate NativePath(env: Env, path: string) {
    Segments(path) != [] && NativeName(env, Segments(path)[|Segments(path)| - 1])
  }

  predicate StartsWith(data: seq<Byte>, text: string) {
    |data| >= |text| && forall i :: 0 <= i < |text| ==> data[i] == text[i] as int
  }

  /** An acceptable file: plain, within the limits, no native suffix, readable at its stated size, no Git LFS
      pointer, and a path that is neither empty nor ".gitmodules" nor too deep. */
  ghost predicate FileOk(env: Env, l: Limits, path: string, body: Body) {
    && !body.encrypted && !body.symlink && body.fileSize <= l.maxFileBytes
    && body.fileSize <= l.maxRatio * (if body.compressSize == 0 then 1 else body.compressSize)
    && !NativePath(env, path)
    && body.data.Some? && |body.data.value| == body.fileSize
    && !StartsWith(body.data.value, "version https://git-lfs.github.com/spec/v1")
    && path != "" && path != ".gitmodules" && |Segments(path)| <= l.maxDepth
  }

  lemma {:induction false} EncodeAscii(s: string)
    requires forall c :: c in s ==> c as int < 128
    ensures |Encode(s)| == |s| && forall i :: 0 <= i < |s| ==> Encode(s)[i] == s[i] as int
  {
    if s != "" {
      assert s[0] in s && forall c :: c in s[1..] ==> c in s;
      EncodeAscii(s[1..]);
      assert Encode(s) == [s[0] as int] + Encode(s[1..]);
    }
  }

  lemma MarkerExactly(data: seq<Byte>, text: string)
    requires forall c :: c in text ==> c as int < 128
    ensures Encode(text) <= data <==> StartsWith(data, text)
  {
    EncodeAscii(text);
    if StartsWith(data, text) {
      assert data[..|text|] == Encode(text);
    }
  }

  lemma {:induction false} LastDotExactly(s: string)
    ensures -1 <= LastDot(s) < |s| && (LastDot(s) >= 0 ==> s[LastDot(s)] == '.')
    ensures forall i :: LastDot(s) < i < |s| ==> s[i] != '.'
  {
    if s != "" && s[|s| - 1] != '.' {
      LastDotExactly(s[..|s| - 1]);
    }
  }

  /** The suffix is what follows the last dot of the last segment, with the dot, between other characters. */
  lemma SuffixExactly(env: Env, path: string)
    requires !Native(env.lower(""))
    ensures Native(env.lower(Suffix(path))) <==> NativePath(env, path)
  {
    hide Segments, Native, NativeName, LastDot;
    PartsAreSegments(path);
    if Segments(path) != [] {
      NativeNameExactly(env, Segments(path)[|Segments(path)| - 1]);
    }
  }

  predicate Divides(name: string, stem: string, ext: string) {
    name == stem + "." + ext && '.' !in ext
  }

  lemma DividedAtLastDot(name: string, stem: string, ext: string)
    requires Divides(name, stem, ext)
    ensures LastDot(name) == |stem| && |name| == |stem| + 1 + |ext| && name[|stem|..] == "." + ext
  {
    LastDotExactly(name);
    assert name[|stem|] == '.';
    assert forall i :: |stem| < i < |name| ==> name[i] == ext[i - |stem| - 1] && name[i] in ext;
  }

  lemma DividesAtLastDot(name: string, dot: nat)
    requires dot == LastDot(name) && dot < |name|
    ensures Divides(name, name[..dot], name[dot + 1..]) && "." + name[dot + 1..] == name[dot..]
  {
    LastDotExactly(name);
    hide LastDot;
    var ext := name[dot + 1..];
    assert forall i :: 0 <= i < |ext| ==> ext[i] == name[dot + 1 + i] && ext[i] != '.';
    assert name == name[..dot] + "." + ext;
  }

  lemma NativeNameExactly(env: Env, name: string)
    requires !Native(env.lower(""))
    ensures
      var dot := LastDot(name);
      Native(env.lower(if 0 < dot < |name| - 1 then name[dot..] else "")) <==> NativeName(env, name)
  {
    hide Native, LastDot, Divides;
    var dot := LastDot(name);
    LastDotExactly(name);
    if 0 < dot < |name| - 1 && Native(env.lower(name[dot..])) {
      DividesAtLastDot(name, dot);
      assert NativeWith(env, name, name[..dot], name[dot + 1..]);
    }
    if stem, ext :| NativeWith(env, name, stem, ext) {
      DividedAtLastDot(name, stem, ext);
    }
  }

  lemma OwnErrorExactly(env: Env, l: Limits, row: Row)
    requires !Native(env.lower(""))
    ensures OwnError(env, l, row).None? <==> FileOk(env, l, row.path, row.body)
  {
    hide Parts, Segments, Suffix, Encode, StartsWith, NativePath, Native;
    NativeExactly(env.lower(Suffix(row.path)));
    PartsAreSegments(row.path);
    SuffixExactly(env, row.path);
    LfsMarkerIsAscii();
    if row.body.data.Some? {
      MarkerExactly(row.body.data.value, "version https://git-lfs.github.com/spec/v1");
    }
  }

  lemma LfsMarkerIsAscii()
    ensures forall c :: c in "version https://git-lfs.github.com/spec/v1" ==> c as int < 128
  {
  }

  // ----- the whole archive -----

  predicate IsMetadata(path: string) {
    path == "metadata.yaml" || path == "metadata.yml"
  }

  ghost function FilesOf(entries: seq<Entry>): seq<Entry> {
    Filter(entries, (e: Entry) => e.name == "" || e.name[|e.name| - 1] != '/')
  }

  function FileSize(): Entry -> nat {
    (e: Entry) => e.body.fileSize
  }

  /** The content read as metadata: a file that is no text counts as empty. */
  function TextOf(env: Env, path: string, body: Body): seq<Byte> {
    if body.data.Some? && env.lines(path, body.data.value).Some? then body.data.value else []
  }

  /** The one metadata file, whose content is accepted. */
  ghost predicate HasMetadata(env: Env, files: seq<Entry>, m: Entry) {
    && m in files && IsMetadata(InnerPath(env, files, m))
    && (forall o :: o in files && IsMetadata(InnerPath(env, files, o)) ==>
      InnerPath(env, files, o) == InnerPath(env, files, m))
    && env.metadata(TextOf(env, InnerPath(env, files, m), m.body)).Ok?
  }

  ghost predicate DistinctPaths(env: Env, files: seq<Entry>) {
    forall i, j :: 0 <= i < j < |files| ==>
      && InnerPath(env, files, files[i]) != InnerPath(env, files, files[j])
      && env.casefold(InnerPath(env, files, files[i])) != env.casefold(InnerPath(env, files, files[j]))
  }

  ghost predicate FilesAcceptable(env: Env, l: Limits, files: seq<Entry>) {
    && (forall e :: e in files ==> FileOk(env, l, InnerPath(env, files, e), e.body))
    && DistinctPaths(env, files) && Sum(files, FileSize()) <= l.maxUnpacked
  }

  ghost predicate Acceptable(env: Env, l: Limits, entries: seq<Entry>) {
    var files := FilesOf(entries);
    && 1 <= |files| <= l.maxFiles && ValidNames(env, files) && FilesAcceptable(env, l, files)
    && (exists m :: HasMetadata(env, files, m))
    && (exists m :: m in files && InnerPath(env, files, m) == "main.py")
  }

  lemma {:induction false} FilesExactly(entries: seq<Entry>)
    ensures FilesOf(entries) == Filter(entries, IsFile)
  {
    if entries != [] {
      FilesExactly(entries[1..]);
    }
  }

  lemma {:induction false} SizesExactly(env: Env, files: seq<Entry>, rows: seq<Row>)
    requires |rows| == |files| && forall i :: 0 <= i < |files| ==> rows[i].body == files[i].body
    ensures Sum(rows, Size()) == Sum(files, FileSize())
  {
    if files != [] {
      SizesExactly(env, files[1..], rows[1..]);
    }
  }

  lemma CleanExactly(env: Env, l: Limits, files: seq<Entry>)
    requires ValidNames(env, files) && !Native(env.lower(""))
    ensures Clean(env, l, Rows(env, files)) <==> FilesAcceptable(env, l, files)
  {
    hide InnerPath, FileOk, OwnError, ValidNames, Rows;
    RowsExactly(env, files);
    var rows := Rows(env, files);
    SizesExactly(env, files, rows);
    forall i | 0 <= i < |files|
      ensures OwnError(env, l, rows[i]).None? <==> FileOk(env, l, InnerPath(env, files, files[i]), files[i].body)
    {
      OwnErrorExactly(env, l, rows[i]);
    }
    var paths, folds := Map(rows, RowPath()), Map(rows, RowFold(env));
    assert forall i :: 0 <= i < |files| ==>
      paths[i] == InnerPath(env, files, files[i]) && folds[i] == env.casefold(InnerPath(env, files, files[i]));
    OwnErrorsExactly(env, l, files, rows);
  }

  lemma OwnErrorsExactly(env: Env, l: Limits, files: seq<Entry>, rows: seq<Row>)
    requires |rows| == |files|
    requires forall i :: 0 <= i < |files| ==>
      (OwnError(env, l, rows[i]).None? <==> FileOk(env, l, InnerPath(env, files, files[i]), files[i].body))
    ensures (forall r :: r in rows ==> OwnError(env, l, r).None?) <==>
      (forall e :: e in files ==> FileOk(env, l, InnerPath(env, files, e), e.body))
  {
    hide InnerPath, FileOk, OwnError;
    if forall r :: r in rows ==> OwnError(env, l, r).None? {
      forall e | e in files ensures FileOk(env, l, InnerPath(env, files, e), e.body) {
        var i :| 0 <= i < |files| && files[i] == e;
        assert rows[i] in rows;
      }
    }
    if forall e :: e in files ==> FileOk(env, l, InnerPath(env, files, e), e.body) {
      forall r | r in rows ensures OwnError(env, l, r).None? {
        var i :| 0 <= i < |rows| && rows[i] == r;
        assert files[i] in files;
      }
    }
  }

  lemma PathsInRows(env: Env, files: seq<Entry>, path: string)
    requires ValidNames(env, files)
    ensures path in PathSet(Rows(env, files)) <==> exists e :: e in files && InnerPath(env, files, e) == path
  {
    hide InnerPath, ValidNames, Rows;
    RowsExactly(env, files);
    var rows := Rows(env, files);
    if path in PathSet(rows) {
      var i :| 0 <= i < |rows| && rows[i].path == path;
      assert files[i] in files;
    }
    if e :| e in files && InnerPath(env, files, e) == path {
      var i :| 0 <= i < |files| && files[i] == e;
      assert rows[i] in rows;
    }
  }

  lemma TextExactly(env: Env, files: seq<Entry>, m: Entry)
    requires ValidNames(env, files) && DistinctPaths(env, files) && m in files && m.body.data.Some?
    ensures TextAt(env, Rows(env, files), InnerPath(env, files, m)) == TextOf(env, InnerPath(env, files, m), m.body)
  {
    hide InnerPath, ValidNames, Rows, Texts;
    RowsExactly(env, files);
    var rows := Rows(env, files);
    var paths := Map(rows, RowPath());
    assert forall i :: 0 <= i < |files| ==> paths[i] == InnerPath(env, files, files[i]);
    TextsAreRows(env, rows);
    var i :| 0 <= i < |files| && files[i] == m;
    assert rows[i] in rows;
    forall r | r in rows && r.path == rows[i].path ensures r == rows[i] {
      var j :| 0 <= j < |rows| && rows[j] == r;
      assert paths[j] == paths[i];
    }
  }

  lemma FinishExactly(env: Env, l: Limits, files: seq<Entry>)
    requires ValidNames(env, files) && FilesAcceptable(env, l, files)
    ensures Finish(env, Rows(env, files)).Ok? <==>
      && (exists m :: HasMetadata(env, files, m))
      && (exists m :: m in files && InnerPath(env, files, m) == "main.py")
    ensures Finish(env, Rows(env, files)).Ok? ==> forall m :: HasMetadata(env, files, m) ==>
      env.metadata(TextOf(env, InnerPath(env, files, m), m.body)) == Ok(Finish(env, Rows(env, files)).value.metadata)
  {
    hide InnerPath, ValidNames, Rows, TextAt, TextOf, FileOk, DigestInput, Sort;
    PathsInRows(env, files, "metadata.yaml");
    PathsInRows(env, files, "metadata.yml");
    PathsInRows(env, files, "main.py");
    forall m | m in files
      ensures TextAt(env, Rows(env, files), InnerPath(env, files, m)) == TextOf(env, InnerPath(env, files, m), m.body)
    {
      ReadableData(env, l, files, m);
      TextExactly(env, files, m);
    }
    var result := MetadataPath(PathSet(Rows(env, files)));
    if result.Ok? {
      var m :| m in files && InnerPath(env, files, m) == result.value;
      assert HasMetadata(env, files, m) <==> env.metadata(TextOf(env, InnerPath(env, files, m), m.body)).Ok?;
      forall o | HasMetadata(env, files, o) ensures InnerPath(env, files, o) == result.value {
      }
    }
  }

  lemma ReadableData(env: Env, l: Limits, files: seq<Entry>, m: Entry)
    requires FilesAcceptable(env, l, files) && m in files
    ensures m.body.data.Some?
  {
    hide InnerPath;
  }

  /** An archive is accepted exactly if it is acceptable. */
  lemma {:induction false} AcceptedExactly(env: Env, l: Limits, entries: seq<Entry>)
    requires !Native(env.lower(""))
    ensures Verdict(env, l, entries).Ok? <==> Acceptable(env, l, entries)
  {
    hide Finish, FirstError, Rows, Normalize, ValidName, FilesAcceptable, HasMetadata, InnerPath, Clean;
    FilesExactly(entries);
    var files := FilesOf(entries);
    forall e | e in files ensures Normalize(env.nfc, e.name).None? <==> !ValidName(env.nfc, e.name) {
      NormalizeExactly(env.nfc, e.name);
    }
    if ValidNames(env, files) {
      LoopAcceptsCleanRows(env, l, Rows(env, files));
      CleanExactly(env, l, files);
      if FilesAcceptable(env, l, files) {
        FinishExactly(env, l, files);
      }
    }
  }

  // ----- what an accepted archive is turned into -----

  ghost predicate IsMemberOf(env: Env, files: seq<Entry>, m: Member) {
    exists e :: e in files && Describes(env, files, e, m)
  }

  /** The member has the file's path, name, hash, size and line count. */
  ghost predicate Describes(env: Env, files: seq<Entry>, e: Entry, m: Member) {
    && m.path == InnerPath(env, files, e) && m.sourceName == e.name && e.body.data.Some?
    && m.sha256 == env.sha(e.body.data.value) && m.size == |e.body.data.value|
    && m.lines == env.lines(m.path, e.body.data.value)
  }

  /** The result's members are the files with their paths, names, hashes, sizes and line counts, and its metadata
      is what the one metadata file says. */
  lemma {:induction false} ResultExactly(env: Env, l: Limits, entries: seq<Entry>)
    requires !Native(env.lower(""))
    ensures
      var verdict, files := Verdict(env, l, entries), FilesOf(entries);
      verdict.Ok? ==>
        && (forall m :: m in verdict.value.members <==> IsMemberOf(env, files, m))
        && |verdict.value.members| == |files|
        && (forall m :: HasMetadata(env, files, m) ==>
          env.metadata(TextOf(env, InnerPath(env, files, m), m.body)) == Ok(verdict.value.metadata))
  {
    hide FirstError, Rows, Normalize, ValidName, FilesAcceptable, HasMetadata, InnerPath, Clean, Finish;
    if Verdict(env, l, entries).Ok? {
      AcceptedExactly(env, l, entries);
      FilesExactly(entries);
      FinishExactly(env, l, FilesOf(entries));
      FinishedMembers(env, l, FilesOf(entries));
    }
  }

  lemma FinishedMembers(env: Env, l: Limits, files: seq<Entry>)
    requires ValidNames(env, files) && FilesAcceptable(env, l, files) && Finish(env, Rows(env, files)).Ok?
    ensures
      var members := Finish(env, Rows(env, files)).value.members;
      |members| == |files| && forall m :: m in members <==> IsMemberOf(env, files, m)
  {
    hide InnerPath, ValidNames, Rows, FilesAcceptable, MetadataPath, TextAt, DigestInput, IsMemberOf, Sort;
    var rows := Rows(env, files);
    RowsExactly(env, files);
    CleanPathsDiffer(env, l, files);
    SortedMembers(env, rows);
    var members := Sort(Map(rows, ToMember(env)), Path());
    assert |members| == |multiset(members)| == |multiset(Map(rows, ToMember(env)))| == |rows|;
    forall m ensures (exists r :: r in rows && m == ToMember(env)(r)) <==> IsMemberOf(env, files, m) {
      MemberOfRow(env, l, files, rows, m);
    }
  }

  lemma CleanPathsDiffer(env: Env, l: Limits, files: seq<Entry>)
    requires ValidNames(env, files) && FilesAcceptable(env, l, files)
    ensures NoDup(Map(Rows(env, files), RowPath()))
  {
    hide InnerPath, ValidNames, Rows;
    RowsExactly(env, files);
    var paths := Map(Rows(env, files), RowPath());
    assert forall i :: 0 <= i < |files| ==> paths[i] == InnerPath(env, files, files[i]);
  }

  lemma MemberOfRow(env: Env, l: Limits, files: seq<Entry>, rows: seq<Row>, m: Member)
    requires FilesAcceptable(env, l, files) && |rows| == |files|
    requires forall i :: 0 <= i < |files| ==>
      rows[i] == Row(InnerPath(env, files, files[i]), files[i].name, files[i].body)
    ensures (exists r :: r in rows && m == ToMember(env)(r)) <==> IsMemberOf(env, files, m)
  {
    hide InnerPath, FilesAcceptable;
    if r :| r in rows && m == ToMember(env)(r) {
      var i :| 0 <= i < |rows| && rows[i] == r;
      assert files[i] in files;
      ReadableData(env, l, files, files[i]);
      assert r == Row(InnerPath(env, files, files[i]), files[i].name, files[i].body);
      assert m == Member(r.path, r.name, env.sha(Data(r.body)), |Data(r.body)|, env.lines(r.path, Data(r.body)));
      assert Data(r.body) == files[i].body.data.value;
      assert Describes(env, files, files[i], m);
    }
    if IsMemberOf(env, files, m) {
      var e :| e in files && Describes(env, files, e, m);
      var i :| 0 <= i < |files| && files[i] == e;
      var r := rows[i];
      assert Data(r.body) == e.body.data.value;
      assert r in rows && m == ToMember(env)(r);
    }
  }

  // ----- what a refusal means -----

  /** The fault an error names, found in one of the files. */
  ghost predicate FaultOf(env: Env, l: Limits, files: seq<Entry>, e: Entry, error: Error) {
    var path, body := InnerPath(env, files, e), e.body;
    match error
    case InvalidPath => path == ""
    case PathTooDeep => |Segments(path)| > l.maxDepth
    case DuplicatePath => !DistinctPaths(env, files)
    case EncryptedEntry => body.encrypted
    case SymlinkNotAllowed => body.symlink
    case FileTooLarge => body.fileSize > l.maxFileBytes
    case ArchiveUnpackedTooLarge => Sum(files, FileSize()) > l.maxUnpacked
    case ZipBombSuspected => body.fileSize > l.maxRatio * (if body.compressSize == 0 then 1 else body.compressSize)
    case NativeBinaryNotSupported => NativePath(env, path)
    case ZipReadFailed => body.data.None?
    case ZipSizeMismatch => body.data.Some? && |body.data.value| != body.fileSize
    case GitLfsNotSupported =>
      body.data.Some? && StartsWith(body.data.value, "version https://git-lfs.github.com/spec/v1")
    case SubmoduleNotSupported => path == ".gitmodules"
    case _ => false
  }

  ghost predicate RejectedFor(env: Env, files: seq<Entry>, m: Entry, code: string) {
    && m in files && IsMetadata(InnerPath(env, files, m))
    && env.metadata(TextOf(env, InnerPath(env, files, m), m.body)) == Err(code)
  }

  lemma {:induction false} FirstErrorIsSome(env: Env, l: Limits, rows: seq<Row>, k: nat) returns (i: nat)
    requires k <= |rows| && FirstError(env, l, rows, k).Some?
    ensures i < |rows| && EntryError(env, l, rows, i) == FirstError(env, l, rows, k)
    decreases |rows| - k
  {
    hide EntryError;
    if EntryError(env, l, rows, k).Some? {
      i := k;
    } else {
      i := FirstErrorIsSome(env, l, rows, k + 1);
    }
  }

  lemma FaultExactly(env: Env, l: Limits, files: seq<Entry>, rows: seq<Row>, i: nat, error: Error)
    requires |rows| == |files| && i < |rows| && !Native(env.lower(""))
    requires forall j :: 0 <= j < |files| ==>
      rows[j] == Row(InnerPath(env, files, files[j]), files[j].name, files[j].body)
    requires EntryError(env, l, rows, i) == Some(error)
    ensures FaultOf(env, l, files, files[i], error)
  {
    hide InnerPath, Parts, Segments, Suffix, Encode, StartsWith, NativePath, Native, DistinctPaths, Repeats;
    var row := rows[i];
    PartsAreSegments(row.path);
    SuffixExactly(env, row.path);
    NativeExactly(env.lower(Suffix(row.path)));
    LfsMarkerIsAscii();
    if row.body.data.Some? {
      MarkerExactly(row.body.data.value, "version https://git-lfs.github.com/spec/v1");
    }
    PartialSum(rows, i + 1);
    SizesExactly(env, files, rows);
    RepeatsAmongFiles(env, files, rows, i);
  }

  lemma RepeatsAmongFiles(env: Env, files: seq<Entry>, rows: seq<Row>, i: nat)
    requires |rows| == |files| && i < |rows|
    requires forall j :: 0 <= j < |files| ==>
      rows[j] == Row(InnerPath(env, files, files[j]), files[j].name, files[j].body)
    ensures Repeats(env, rows, i) ==> !DistinctPaths(env, files)
  {
    hide InnerPath;
    if Repeats(env, rows, i) {
      var j :| 0 <= j < i && (rows[j].path == rows[i].path || env.casefold(rows[j].path) == env.casefold(rows[i].path));
      assert rows[j].path == InnerPath(env, files, files[j]);
    }
  }

  /** Every refusal names a fault the archive has. */
  lemma {:induction false} RefusalIsTrue(env: Env, l: Limits, entries: seq<Entry>)
    requires !Native(env.lower("")) && Verdict(env, l, entries).Err?
    ensures
      var files, error := FilesOf(entries), Verdict(env, l, entries).error;
      match error
      case TooManyFiles => |files| > l.maxFiles
      case EmptyArchive => files == []
      case PathTraversal => !ValidNames(env, files)
      case MetadataMissing => forall e :: e in files ==> !IsMetadata(InnerPath(env, files, e))
      case MetadataAmbiguous =>
        && (exists e :: e in files && InnerPath(env, files, e) == "metadata.yaml")
        && (exists e :: e in files && InnerPath(env, files, e) == "metadata.yml")
      case EntrypointMissing => forall e :: e in files ==> InnerPath(env, files, e) != "main.py"
      case MetadataRejected(code) => exists m :: RejectedFor(env, files, m, code)
      case _ => exists e :: e in files && FaultOf(env, l, files, e, error)
  {
    hide Finish, FirstError, Rows, Normalize, ValidName, FilesAcceptable, InnerPath, Clean, FaultOf, TextOf;
    FilesExactly(entries);
    var files, error := FilesOf(entries), Verdict(env, l, entries).error;
    forall e | e in files ensures Normalize(env.nfc, e.name).None? <==> !ValidName(env.nfc, e.name) {
      NormalizeExactly(env.nfc, e.name);
    }
    if 1 <= |files| <= l.maxFiles && ValidNames(env, files) {
      var rows := Rows(env, files);
      RowsExactly(env, files);
      if FirstError(env, l, rows, 0).Some? {
        var i := FirstErrorIsSome(env, l, rows, 0);
        FaultExactly(env, l, files, rows, i, error);
        FaultIsNoConclusion(env, l, files, files[i], error);
        assert files[i] in files;
      } else {
        LoopAcceptsCleanRows(env, l, rows);
        CleanExactly(env, l, files);
        ConclusionExactly(env, l, files, error);
      }
    }
  }

  lemma FaultIsNoConclusion(env: Env, l: Limits, files: seq<Entry>, e: Entry, error: Error)
    requires FaultOf(env, l, files, e, error)
    ensures !error.TooManyFiles? && !error.EmptyArchive? && !error.PathTraversal? && !error.MetadataMissing?
    ensures !error.MetadataAmbiguous? && !error.EntrypointMissing? && !error.MetadataRejected?
  {
  }

  lemma ConclusionExactly(env: Env, l: Limits, files: seq<Entry>, error: Error)
    requires ValidNames(env, files) && FilesAcceptable(env, l, files) && Finish(env, Rows(env, files)) == Err(error)
    ensures
      match error
      case MetadataMissing => forall e :: e in files ==> !IsMetadata(InnerPath(env, files, e))
      case MetadataAmbiguous =>
        && (exists e :: e in files && InnerPath(env, files, e) == "metadata.yaml")
        && (exists e :: e in files && InnerPath(env, files, e) == "metadata.yml")
      case EntrypointMissing => forall e :: e in files ==> InnerPath(env, files, e) != "main.py"
      case MetadataRejected(code) => exists m :: RejectedFor(env, files, m, code)
      case _ => false
  {
    hide InnerPath, ValidNames, FilesAcceptable, Rows, TextAt, TextOf, DigestInput, Sort, MetadataPath, RejectedFor;
    MetadataPathExactly(env, files);
    var result := MetadataPath(PathSet(Rows(env, files)));
    if result.Ok? {
      var m :| m in files && InnerPath(env, files, m) == result.value;
      ReadableData(env, l, files, m);
      NoRepeats(env, l, files);
      TextExactly(env, files, m);
      if error.MetadataRejected? {
        RejectedExactly(env, files, m, error.code);
      }
    }
  }

  lemma NoRepeats(env: Env, l: Limits, files: seq<Entry>)
    requires FilesAcceptable(env, l, files)
    ensures DistinctPaths(env, files)
  {
  }

  lemma RejectedExactly(env: Env, files: seq<Entry>, m: Entry, code: string)
    ensures RejectedFor(env, files, m, code) <==>
      && m in files && IsMetadata(InnerPath(env, files, m))
      && env.metadata(TextOf(env, InnerPath(env, files, m), m.body)) == Err(code)
  {
  }

  lemma MetadataPathExactly(env: Env, files: seq<Entry>)
    requires ValidNames(env, files)
    ensures
      match MetadataPath(PathSet(Rows(env, files)))
      case Err(MetadataMissing) => forall e :: e in files ==> !IsMetadata(InnerPath(env, files, e))
      case Err(MetadataAmbiguous) =>
        && (exists e :: e in files && InnerPath(env, files, e) == "metadata.yaml")
        && (exists e :: e in files && InnerPath(env, files, e) == "metadata.yml")
      case Err(EntrypointMissing) => forall e :: e in files ==> InnerPath(env, files, e) != "main.py"
      case Err(_) => false
      case Ok(path) => IsMetadata(path) && exists e :: e in files && InnerPath(env, files, e) == path
  {
    hide InnerPath, ValidNames, Rows, PathSet;
    PathsInRows(env, files, "metadata.yaml");
    PathsInRows(env, files, "metadata.yml");
    PathsInRows(env, files, "main.py");
  }
}
