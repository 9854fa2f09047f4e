/**
 * apps/api/app/artifacts/archive.py: the check a plugin archive passes before review, one loop
 * over its entries with running totals, and the tree digest of the members it accepts.
 */
module Archive {
  import opened Wrappers
  import opened Ordering
  import opened Sequences
  import opened Utf8
  import opened Paths

  /** What the ZIP directory says of one entry; `data` is None when it cannot be read. */
  datatype Body = Body(encrypted: bool, symlink: bool, fileSize: nat, compressSize: nat, data: Option<seq<Byte>>)

  datatype Entry = Entry(name: string, body: Body)

  /** An entry under its normalised path with the wrapper directory removed. */
  datatype Row = Row(path: string, name: string, body: Body)

  datatype Limits = Limits(maxFiles: nat, maxDepth: nat, maxFileBytes: nat, maxUnpacked: nat, maxRatio: nat)

  datatype Member = Member(path: string, sourceName: string, sha256: string, size: nat, lines: Option<nat>)

  datatype Metadata = Metadata(name: string, version: string, normalizedVersion: string)

  datatype PrecheckResult = PrecheckResult(metadata: Metadata, treeSha256: string, members: seq<Member>)

  datatype Error =
    | TooManyFiles | EmptyArchive | PathTraversal | InvalidPath | PathTooDeep | DuplicatePath | EncryptedEntry
    | SymlinkNotAllowed | FileTooLarge | ArchiveUnpackedTooLarge | ZipBombSuspected | NativeBinaryNotSupported
    | ZipReadFailed | ZipSizeMismatch | GitLfsNotSupported | SubmoduleNotSupported
    | MetadataMissing | MetadataAmbiguous | EntrypointMissing | MetadataRejected(code: string)

  /** Unicode normalisation and folding, SHA-256, text detection, and metadata parsing for one repository. */
  datatype Env = Env(
    nfc: string -> string, casefold: string -> string, lower: string -> string, sha: seq<Byte> -> string,
    lines: (string, seq<Byte>) -> Option<nat>, metadata: seq<Byte> -> Result<Metadata, string>)

  // ----- the checks -----

  predicate IsDir(name: string) {
    name != "" && name[|name| - 1] == '/'
  }

  predicate IsFile(e: Entry) {
    !IsDir(e.name)
  }

  function PathOf(env: Env, e: Entry): string {
    match Normalize(env.nfc, e.name) case Some(p) => p case None => ""
  }

  function ToPath(env: Env): Entry -> string {
    (e: Entry) => PathOf(env, e)
  }

  function ToRow(env: Env, prefix: string): Entry -> Row {
    (e: Entry) => Row(StripPrefix(PathOf(env, e), prefix), e.name, e.body)
  }

  function Rows(env: Env, files: seq<Entry>): seq<Row> {
    Map(files, ToRow(env, CommonPrefix(Map(files, ToPath(env)))))
  }

  function Data(body: Body): seq<Byte> {
    match body.data case Some(d) => d case None => []
  }

  const NATIVE_SUFFIXES: set<string> :=
    {".a", ".app", ".bin", ".com", ".dll", ".dylib", ".exe", ".msi", ".o", ".pyd", ".so"}

  function HeaderError(l: Limits, body: Body): Option<Error> {
    if body.encrypted then Some(EncryptedEntry)
    else if body.symlink then Some(SymlinkNotAllowed)
    else if body.fileSize > l.maxFileBytes then Some(FileTooLarge)
    else None
  }

  function ContentError(env: Env, l: Limits, path: string, body: Body): Option<Error> {
    if body.fileSize > l.maxRatio * (if body.compressSize > 1 then body.compressSize else 1) then Some(ZipBombSuspected)
    else if env.lower(Suffix(path)) in NATIVE_SUFFIXES then Some(NativeBinaryNotSupported)
    else if body.data.None? then Some(ZipReadFailed)
    else if |body.data.value| != body.fileSize then Some(ZipSizeMismatch)
    else if Encode("version https://git-lfs.github.com/spec/v1") <= body.data.value then Some(GitLfsNotSupported)
    else if path == ".gitmodules" then Some(SubmoduleNotSupported)
    else None
  }

  predicate Repeats(env: Env, rows: seq<Row>, k: nat)
    requires k < |rows|
  {
    exists j :: 0 <= j < k && (rows[j].path == rows[k].path || env.casefold(rows[j].path) == env.casefold(rows[k].path))
  }

  function Size(): Row -> nat {
    (r: Row) => r.body.fileSize
  }

  /** What the loop raises at an entry, given whether its path was seen and the running total with it. */
  function RowError(env: Env, l: Limits, row: Row, repeated: bool, total: nat): Option<Error> {
    if row.path == "" then Some(InvalidPath)
    else if |Parts(row.path)| > l.maxDepth then Some(PathTooDeep)
    else if repeated then Some(DuplicatePath)
    else if HeaderError(l, row.body).Some? then HeaderError(l, row.body)
    else if total > l.maxUnpacked then Some(ArchiveUnpackedTooLarge)
    else ContentError(env, l, row.path, row.body)
  }

  function EntryError(env: Env, l: Limits, rows: seq<Row>, k: nat): Option<Error>
    requires k < |rows|
  {
    RowError(env, l, rows[k], Repeats(env, rows, k), Sum(rows[..k + 1], Size()))
  }

  /** The error of the first entry from `k` on that has one. */
  function FirstError(env: Env, l: Limits, rows: seq<Row>, k: nat): Option<Error>
    requires k <= |rows|
    decreases |rows| - k
  {
    if k == |rows| then None
    else if EntryError(env, l, rows, k).Some? then EntryError(env, l, rows, k)
    else FirstError(env, l, rows, k + 1)
  }

  function ToMember(env: Env): Row -> Member {
    (r: Row) => Member(r.path, r.name, env.sha(Data(r.body)), |Data(r.body)|, env.lines(r.path, Data(r.body)))
  }

  function Path(): Member -> string {
    (m: Member) => m.path
  }

  function PathSet(rows: seq<Row>): set<string> {
    set r | r in rows :: r.path
  }

  /** content_by_path: text files only */
  function Texts(env: Env, rows: seq<Row>): map<string, seq<Byte>> {
    if rows == [] then map[]
    else
      var last := rows[|rows| - 1];
      var before := Texts(env, rows[..|rows| - 1]);
      if env.lines(last.path, Data(last.body)).Some? then before[last.path := Data(last.body)] else before
  }

  function TextAt(env: Env, rows: seq<Row>, path: string): seq<Byte> {
    if path in Texts(env, rows) then Texts(env, rows)[path] else []
  }

  // ----- the tree digest -----

  function DigestLine(m: Member): seq<Byte> {
    Encode(m.path) + [0] + Encode(m.sha256) + [10]
  }

  function DigestLines(members: seq<Member>): seq<Byte> {
    if members == [] then [] else DigestLine(members[0]) + DigestLines(members[1..])
  }

  /** The bytes _tree_digest hashes. */
  function DigestInput(members: seq<Member>): seq<Byte> {
    DigestLines(Sort(members, Path()))
  }

  method TreeDigest(env: Env, members: seq<Member>) returns (digest: string)
    ensures digest == env.sha(DigestInput(members))
  {
    var sorted := Sort(members, Path());
    var fed: seq<Byte> := [];
    assert sorted[0..] == sorted;
    for i := 0 to |sorted|
      invariant fed + DigestLines(sorted[i..]) == DigestLines(sorted)
    {
      OneMoreLine(fed, sorted, i);
      fed := fed + Encode(sorted[i].path);
      fed := fed + [0];
      fed := fed + Encode(sorted[i].sha256);
      fed := fed + [10];
    }
    assert fed == DigestLines(sorted);
    digest := env.sha(fed);
  }

  lemma OneMoreLine(fed: seq<Byte>, members: seq<Member>, k: nat)
    requires k < |members|
    ensures fed + Encode(members[k].path) + [0] + Encode(members[k].sha256) + [10] + DigestLines(members[k + 1..])
      == fed + DigestLines(members[k..])
  {
    var m := members[k];
    assert members[k..][1..] == members[k + 1..];
    var a, b, rest := Encode(m.path), Encode(m.sha256), DigestLines(members[k + 1..]);
    assert DigestLines(members[k..]) == a + [0] + b + [10] + rest;
    assert fed + a + [0] + b + [10] + rest == fed + (a + [0] + b + [10] + rest);
  }

  // ----- the verdict -----

  function MetadataPath(paths: set<string>): Result<string, Error> {
    if "metadata.yaml" !in paths && "metadata.yml" !in paths then Err(MetadataMissing)
    else if "metadata.yaml" in paths && "metadata.yml" in paths then Err(MetadataAmbiguous)
    else if "main.py" !in paths then Err(EntrypointMissing)
    else Ok(if "metadata.yaml" in paths then "metadata.yaml" else "metadata.yml")
  }

  function Finish(env: Env, rows: seq<Row>): Result<PrecheckResult, Error> {
    match MetadataPath(PathSet(rows))
    case Err(e) => Err(e)
    case Ok(path) =>
      match env.metadata(TextAt(env, rows, path))
      case Err(code) => Err(MetadataRejected(code))
      case Ok(metadata) =>
        var members := Map(rows, ToMember(env));
        Ok(PrecheckResult(metadata, env.sha(DigestInput(members)), Sort(members, Path())))
  }

  function Judge(env: Env, l: Limits, rows: seq<Row>): Result<PrecheckResult, Error> {
    match FirstError(env, l, rows, 0)
    case Some(e) => Err(e)
    case None => Finish(env, rows)
  }

  function Verdict(env: Env, l: Limits, entries: seq<Entry>): Result<PrecheckResult, Error> {
    var files := Filter(entries, IsFile);
    if |files| > l.maxFiles then Err(TooManyFiles)
    else if files == [] then Err(EmptyArchive)
    else if exists e :: e in files && Normalize(env.nfc, e.name).None? then Err(PathTraversal)
    else Judge(env, l, Rows(env, files))
  }

  /** ArchivePrechecker.inspect */
  method Inspect(env: Env, l: Limits, entries: seq<Entry>) returns (r: Result<PrecheckResult, Error>)
    ensures r == Verdict(env, l, entries)
  {
    var files := Filter(entries, IsFile);
    if |files| > l.maxFiles {
      return Err(TooManyFiles);
    }
    if files == [] {
      return Err(EmptyArchive);
    }
    var raw := NormalizeAll(env, files);
    if raw.None? {
      return Err(PathTraversal);
    }
    r := Scan(env, l, files, raw.value);
  }

  method NormalizeAll(env: Env, files: seq<Entry>) returns (raw: Option<seq<string>>)
    ensures raw.None? <==> exists e :: e in files && Normalize(env.nfc, e.name).None?
    ensures raw.Some? ==> raw.value == Map(files, ToPath(env))
  {
    hide Normalize;
    var paths: seq<string> := [];
    for i := 0 to |files|
      invariant |paths| == i && forall j :: 0 <= j < i ==> Normalize(env.nfc, files[j].name) == Some(paths[j])
    {
      var path := Normalize(env.nfc, files[i].name);
      if path.None? {
        assert files[i] in files;
        return None;
      }
      paths := paths + [path.value];
    }
    raw := Some(paths);
  }

  /** The loop over the normalised entries and what follows it. */
  method Scan(env: Env, l: Limits, files: seq<Entry>, raw: seq<string>) returns (r: Result<PrecheckResult, Error>)
    requires raw == Map(files, ToPath(env))
    ensures r == Judge(env, l, Rows(env, files))
  {
    hide ContentError, HeaderError, Parts, StripPrefix, CommonPrefix, Rows, Sum, Map;
    RowsAre(env, files, raw);
    var prefix := CommonPrefix(raw);
    var seen: set<string>, seenCasefold: set<string>, totalUnpacked: nat := {}, {}, 0;
    var members: seq<Member> := [];
    var contentByPath: map<string, seq<Byte>> := map[];
    ghost var rows := Rows(env, files);
    NothingScanned(env, rows);
    for i := 0 to |files|
      invariant FirstError(env, l, rows, 0) == FirstError(env, l, rows, i)
      invariant Progress(seen, seenCasefold, totalUnpacked, members, contentByPath) == After(env, rows, i)
    {
      var path := StripPrefix(raw[i], prefix);
      var body := files[i].body;
      ghost var row := Row(path, files[i].name, body);
      assert rows[i] == row;
      ghost var now := Progress(seen, seenCasefold, totalUnpacked, members, contentByPath);
      OneMoreError(env, l, rows, i, now);
      OneMoreRow(env, rows, i, now);
      if path == "" {
        return Err(InvalidPath);
      }
      if |Parts(path)| > l.maxDepth {
        return Err(PathTooDeep);
      }
      var folded := env.casefold(path);
      if path in seen || folded in seenCasefold {
        return Err(DuplicatePath);
      }
      seen := seen + {path};
      seenCasefold := seenCasefold + {folded};
      var header := HeaderError(l, body);
      if header.Some? {
        return Err(header.value);
      }
      totalUnpacked := totalUnpacked + body.fileSize;
      if totalUnpacked > l.maxUnpacked {
        return Err(ArchiveUnpackedTooLarge);
      }
      var content := ContentError(env, l, path, body);
      if content.Some? {
        return Err(content.value);
      }
      var lines := env.lines(path, Data(body));
      if lines.Some? {
        contentByPath := contentByPath[path := Data(body)];
      }
      members := members + [Member(path, files[i].name, env.sha(Data(body)), |Data(body)|, lines)];
    }
    assert rows[..|files|] == rows;
    r := Conclude(env, rows, seen, members, contentByPath);
  }

  /** The checks after the loop, and the result. */
  method Conclude(
    env: Env, ghost rows: seq<Row>, seen: set<string>, members: seq<Member>, contentByPath: map<string, seq<Byte>>)
    returns (r: Result<PrecheckResult, Error>)
    requires seen == PathSet(rows) && members == Map(rows, ToMember(env)) && contentByPath == Texts(env, rows)
    ensures r == Finish(env, rows)
  {
    var metadataPath := MetadataPath(seen);
    if metadataPath.Err? {
      return Err(metadataPath.error);
    }
    var content := if metadataPath.value in contentByPath then contentByPath[metadataPath.value] else [];
    var metadata := env.metadata(content);
    if metadata.Err? {
      return Err(MetadataRejected(metadata.error));
    }
    var tree := TreeDigest(env, members);
    r := Ok(PrecheckResult(metadata.value, tree, Sort(members, Path())));
  }

  datatype Progress = Progress(
    seen: set<string>, seenCasefold: set<string>, total: nat, members: seq<Member>,
    contentByPath: map<string, seq<Byte>>)

  /** The loop's variables after its first `k` rows. */
  ghost function After(env: Env, rows: seq<Row>, k: nat): Progress
    requires k <= |rows|
  {
    var done := rows[..k];
    Progress(PathSet(done), Folded(env, PathSet(done)), Sum(done, Size()), Map(done, ToMember(env)), Texts(env, done))
  }

  function Folded(env: Env, paths: set<string>): set<string> {
    set x | x in paths :: env.casefold(x)
  }

  lemma RepeatsIsSeen(env: Env, rows: seq<Row>, k: nat)
    requires k < |rows|
    ensures Repeats(env, rows, k) <==>
      rows[k].path in PathSet(rows[..k]) || env.casefold(rows[k].path) in Folded(env, PathSet(rows[..k]))
  {
    assert forall j :: 0 <= j < k ==> rows[..k][j] == rows[j];
    if Repeats(env, rows, k) {
      var j :| 0 <= j < k && (rows[j].path == rows[k].path || env.casefold(rows[j].path) == env.casefold(rows[k].path));
      assert rows[..k][j].path in PathSet(rows[..k]);
    }
  }

  lemma RowsAre(env: Env, files: seq<Entry>, raw: seq<string>)
    requires raw == Map(files, ToPath(env))
    ensures
      var rows := Rows(env, files);
      |rows| == |files| && forall i :: 0 <= i < |rows| ==>
        rows[i] == Row(StripPrefix(raw[i], CommonPrefix(raw)), files[i].name, files[i].body)
  {
  }

  lemma NothingScanned(env: Env, rows: seq<Row>)
    ensures After(env, rows, 0) == Progress({}, {}, 0, [], map[])
  {
    assert rows[..0] == [];
  }

  lemma OneMoreError(env: Env, l: Limits, rows: seq<Row>, k: nat, now: Progress)
    requires k < |rows| && now == After(env, rows, k)
    ensures
      var r := rows[k];
      var repeated := r.path in now.seen || env.casefold(r.path) in now.seenCasefold;
      var error := RowError(env, l, r, repeated, now.total + r.body.fileSize);
      FirstError(env, l, rows, k) == if error.Some? then error else FirstError(env, l, rows, k + 1)
  {
    hide RowError;
    RepeatsIsSeen(env, rows, k);
    OneMoreSize(rows, k);
  }

  lemma OneMoreSize(rows: seq<Row>, k: nat)
    requires k < |rows|
    ensures Sum(rows[..k + 1], Size()) == Sum(rows[..k], Size()) + rows[k].body.fileSize
  {
    assert rows[..k + 1] == rows[..k] + [rows[k]];
    SumAppend(rows[..k], [rows[k]], Size());
    assert Sum([rows[k]], Size()) == Size()(rows[k]) + Sum([], Size());
  }

  lemma OneMoreRow(env: Env, rows: seq<Row>, k: nat, now: Progress)
    requires k < |rows| && now == After(env, rows, k)
    ensures
      var r := rows[k];
      After(env, rows, k + 1) == Progress(
        now.seen + {r.path}, now.seenCasefold + {env.casefold(r.path)}, now.total + r.body.fileSize,
        now.members + [ToMember(env)(r)],
        if env.lines(r.path, Data(r.body)).Some? then now.contentByPath[r.path := Data(r.body)] else now.contentByPath)
  {
    assert rows[..k + 1] == rows[..k] + [rows[k]];
    assert rows[..k + 1][..k] == rows[..k];
    OneMoreSize(rows, k);
    MapAppend(rows[..k], [rows[k]], ToMember(env));
  }
}
