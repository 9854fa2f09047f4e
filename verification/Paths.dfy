/** apps/api/app/artifacts/archive.py: POSIX paths of archive members. */
module Paths {
  import opened Wrappers
  import opened Sequences

  /** The split of the rest, with one more character in front. */
  function Push(c: char, segments: seq<string>): seq<string>
    requires |segments| > 0
  {
    if c == '/' then [""] + segments else [[c] + segments[0]] + segments[1..]
  }

  /** Text split at every '/'. */
  function Split(s: string): (r: seq<string>)
    ensures |r| > 0
  {
    if s == "" then [""] else Push(s[0], Split(s[1..]))
  }

  function Kept(segments: seq<string>): seq<string> {
    if segments == [] then []
    else (if segments[0] == "" || segments[0] == "." then [] else [segments[0]]) + Kept(segments[1..])
  }

  /** PurePosixPath(s).parts of a relative path: empty segments and "." are dropped. */
  function Parts(s: string): seq<string> {
    Kept(Split(s))
  }

  /** PurePosixPath.as_posix() */
  function AsPosix(parts: seq<string>): string {
    if parts == [] then "." else Join("/", parts)
  }

  predicate IsLetter(c: char) {
    'a' <= c <= 'z' || 'A' <= c <= 'Z'
  }

  predicate StartsWithDrive(p: string) {
    |p| >= 2 && IsLetter(p[0]) && p[1] == ':'
  }

  /** _normalize_member_path; None stands for path_traversal. */
  function Normalize(nfc: string -> string, value: string): Option<string> {
    if value == "" || '\0' in value || '\\' in value then None
    else
      var name := nfc(value);
      var parts := Parts(name);
      if name != "" && name[0] == '/' then None
      else if ".." in parts then None
      else if parts != [] && StartsWithDrive(parts[0]) then None
      else Some(AsPosix(parts))
  }

  predicate IsRootFile(path: string) {
    path == "metadata.yaml" || path == "metadata.yml" || path == "main.py"
  }

  /** _common_wrapper_prefix */
  function CommonPrefix(paths: seq<string>): string {
    if exists p :: p in paths && IsRootFile(p) then ""
    else if paths != [] && OneRoot(paths) then Parts(paths[0])[0]
    else ""
  }

  predicate OneRoot(paths: seq<string>) {
    forall i, j :: 0 <= i < |paths| && 0 <= j < |paths| ==>
      |Parts(paths[i])| >= 2 && |Parts(paths[j])| >= 2 && Parts(paths[i])[0] == Parts(paths[j])[0]
  }

  /** _strip_prefix */
  function StripPrefix(path: string, prefix: string): string {
    if prefix == "" then path
    else if prefix + "/" <= path then path[|prefix| + 1..]
    else path
  }

  function LastDot(s: string): int {
    if s == "" then -1 else if s[|s| - 1] == '.' then |s| - 1 else LastDot(s[..|s| - 1])
  }

  /** PurePosixPath(path).suffix */
  function Suffix(path: string): string {
    var parts := Parts(path);
    if parts == [] then ""
    else
      var name := parts[|parts| - 1];
      var dot := LastDot(name);
      if 0 < dot < |name| - 1 then name[dot..] else ""
  }

  // ----- canonical paths -----

  predicate CleanPart(p: string) {
    p != "" && p != "." && '/' !in p
  }

  predicate CleanParts(parts: seq<string>) {
    forall i :: 0 <= i < |parts| ==> CleanPart(parts[i])
  }

  lemma SplitFirst(s: string)
    requires s != ""
    ensures Split(s) == Push(s[0], Split(s[1..]))
  {
  }

  lemma PushAppend(c: char, a: seq<string>, b: seq<string>)
    requires |a| > 0
    ensures Push(c, a + b) == Push(c, a) + b
  {
  }

  lemma {:induction false} SplitSlash(a: string, b: string)
    ensures Split(a + "/" + b) == Split(a) + Split(b)
  {
    if a == "" {
      assert (a + "/" + b)[1..] == b;
    } else {
      hide Split;
      var s := a + "/" + b;
      assert s[0] == a[0] && s[1..] == a[1..] + "/" + b;
      SplitSlash(a[1..], b);
      SplitFirst(s);
      SplitFirst(a);
      PushAppend(a[0], Split(a[1..]), Split(b));
    }
  }

  lemma {:induction false} SplitWhole(p: string)
    requires '/' !in p
    ensures Split(p) == [p]
  {
    if p != "" {
      SplitWhole(p[1..]);
      assert p == [p[0]] + p[1..];
    }
  }

  lemma {:induction false} SplitHasNoSlash(s: string)
    ensures forall p :: p in Split(s) ==> '/' !in p
    ensures forall p, c :: p in Split(s) && c in p ==> c in s
  {
    if s != "" {
      SplitHasNoSlash(s[1..]);
    }
  }

  lemma {:induction false} KeptAppend(a: seq<string>, b: seq<string>)
    ensures Kept(a + b) == Kept(a) + Kept(b)
  {
    if a == [] {
      assert a + b == b;
    } else {
      assert (a + b)[1..] == a[1..] + b;
      KeptAppend(a[1..], b);
    }
  }

  lemma {:induction false} KeptMembers(segments: seq<string>)
    ensures forall p :: p in Kept(segments) <==> p in segments && p != "" && p != "."
  {
    if segments != [] {
      KeptMembers(segments[1..]);
    }
  }

  lemma {:induction false} KeptClean(parts: seq<string>)
    requires CleanParts(parts)
    ensures Kept(parts) == parts
  {
    if parts != [] {
      KeptClean(parts[1..]);
    }
  }

  lemma PartsAreClean(s: string)
    ensures CleanParts(Parts(s))
    ensures forall p, c :: p in Parts(s) && c in p ==> c in s
  {
    SplitHasNoSlash(s);
    KeptMembers(Split(s));
    var parts := Parts(s);
    assert forall i :: 0 <= i < |parts| ==> parts[i] in parts;
  }

  lemma {:induction false} SplitJoin(parts: seq<string>)
    requires CleanParts(parts) && parts != []
    ensures Split(Join("/", parts)) == parts
  {
    SplitWhole(parts[0]);
    if |parts| > 1 {
      SplitJoin(parts[1..]);
      SplitSlash(parts[0], Join("/", parts[1..]));
    }
  }

  /** Joining parts and splitting again gives the parts back. */
  lemma PartsOfPosix(parts: seq<string>)
    requires CleanParts(parts)
    ensures Parts(AsPosix(parts)) == parts
  {
    if parts == [] {
      SplitWhole(".");
    } else {
      SplitJoin(parts);
      KeptClean(parts);
    }
  }

  /** A normalised path is "." or its own parts joined, none of them empty, "." or "..". */
  lemma NormalizedParts(nfc: string -> string, value: string)
    requires Normalize(nfc, value).Some?
    ensures
      var path := Normalize(nfc, value).value;
      && path == AsPosix(Parts(path)) && Parts(path) == Parts(nfc(value)) && CleanParts(Parts(path))
        && ".." !in Parts(path)
  {
    PartsAreClean(nfc(value));
    PartsOfPosix(Parts(nfc(value)));
  }

  lemma {:induction false} JoinChars(parts: seq<string>, c: char)
    requires c in Join("/", parts)
    ensures c == '/' || exists p :: p in parts && c in p
  {
    if |parts| > 1 {
      if c in Join("/", parts[1..]) {
        JoinChars(parts[1..], c);
      }
    } else if parts != [] {
      assert parts[0] in parts;
    }
  }

  /** No NUL gets into a normalised path. */
  lemma NormalizedHasNoNul(nfc: string -> string, value: string)
    requires Normalize(nfc, value).Some? && '\0' !in nfc(value)
    ensures '\0' !in Normalize(nfc, value).value
  {
    var parts := Parts(nfc(value));
    PartsAreClean(nfc(value));
    if parts != [] && '\0' in Join("/", parts) {
      JoinChars(parts, '\0');
    }
  }

  /** Under one more directory a path keeps its parts. */
  lemma PartsUnderTop(top: string, name: string)
    requires CleanPart(top)
    ensures Parts(top + "/" + name) == [top] + Parts(name)
  {
    SplitSlash(top, name);
    SplitWhole(top);
    KeptAppend([top], Split(name));
    assert Kept([top]) == [top] + Kept([]);
  }
}
