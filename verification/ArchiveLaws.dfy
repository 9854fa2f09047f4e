/**
 * What the archive check promises about whole archives: neither the order of the entries nor a
 * wrapper directory matters, and the digest input names exactly one set of (path, hash) pairs.
 */
module ArchiveLaws {
  import opened Wrappers
  import opened Ordering
  import opened Sequences
  import opened Utf8
  import opened Paths
  import opened Archive

  // ----- acceptance without an order -----

  /** Everything wrong with a row that does not depend on the other rows. */
  function OwnError(env: Env, l: Limits, row: Row): Option<Error> {
    RowError(env, l, row, false, 0)
  }

  function RowPath(): Row -> string {
    (r: Row) => r.path
  }

  function RowFold(env: Env): Row -> string {
    (r: Row) => env.casefold(r.path)
  }

  ghost predicate Clean(env: Env, l: Limits, rows: seq<Row>) {
    && (forall r :: r in rows ==> OwnError(env, l, r).None?)
    && NoDup(Map(rows, RowPath())) && NoDup(Map(rows, RowFold(env)))
    && Sum(rows, Size()) <= l.maxUnpacked
  }

  lemma {:induction false} NoErrorFrom(env: Env, l: Limits, rows: seq<Row>, k: nat)
    requires k <= |rows|
    ensures FirstError(env, l, rows, k).None? <==> forall i :: k <= i < |rows| ==> EntryError(env, l, rows, i).None?
    decreases |rows| - k
  {
    hide EntryError;
    if k < |rows| {
      NoErrorFrom(env, l, rows, k + 1);
    }
  }

  lemma ErrorsSplit(env: Env, l: Limits, row: Row, repeated: bool, total: nat)
    ensures RowError(env, l, row, repeated, total).None? <==>
      OwnError(env, l, row).None? && !repeated && total <= l.maxUnpacked
  {
    hide Parts, HeaderError, ContentError;
  }

  lemma PartialSum(rows: seq<Row>, k: nat)
    requires k <= |rows|
    ensures Sum(rows[..k], Size()) <= Sum(rows, Size())
  {
    assert rows == rows[..k] + rows[k..];
    SumAppend(rows[..k], rows[k..], Size());
  }

  lemma NoRepeats(env: Env, rows: seq<Row>)
    ensures NoDup(Map(rows, RowPath())) && NoDup(Map(rows, RowFold(env))) <==>
      forall k :: 0 <= k < |rows| ==> !Repeats(env, rows, k)
  {
    var paths, folds := Map(rows, RowPath()), Map(rows, RowFold(env));
    assert forall i :: 0 <= i < |rows| ==> paths[i] == rows[i].path && folds[i] == env.casefold(rows[i].path);
    if forall k :: 0 <= k < |rows| ==> !Repeats(env, rows, k) {
      forall i, j | 0 <= i < j < |rows| ensures paths[i] != paths[j] && folds[i] != folds[j] {
        assert !Repeats(env, rows, j);
      }
    }
  }

  /** The one-pass loop accepts exactly the rows that are clean as a whole. */
  lemma {:induction false} LoopAcceptsCleanRows(env: Env, l: Limits, rows: seq<Row>)
    ensures FirstError(env, l, rows, 0).None? <==> Clean(env, l, rows)
  {
    hide RowError;
    NoErrorFrom(env, l, rows, 0);
    NoRepeats(env, rows);
    forall k | 0 <= k < |rows|
      ensures EntryError(env, l, rows, k).None? <==>
        OwnError(env, l, rows[k]).None? && !Repeats(env, rows, k) && Sum(rows[..k + 1], Size()) <= l.maxUnpacked
      ensures EntryError(env, l, rows, k).None? <== OwnError(env, l, rows[k]).None? && !Repeats(env, rows, k)
        && Sum(rows, Size()) <= l.maxUnpacked
    {
      ErrorsSplit(env, l, rows[k], Repeats(env, rows, k), Sum(rows[..k + 1], Size()));
      PartialSum(rows, k + 1);
    }
    if FirstError(env, l, rows, 0).None? {
      forall r | r in rows ensures OwnError(env, l, r).None? {
        var k :| 0 <= k < |rows| && rows[k] == r;
        assert EntryError(env, l, rows, k).None?;
      }
      if rows != [] {
        assert EntryError(env, l, rows, |rows| - 1).None?;
        assert rows[..|rows|] == rows;
      }
    }
  }

  // ----- order -----

  lemma CleanInAnyOrder(env: Env, l: Limits, a: seq<Row>, b: seq<Row>)
    requires multiset(a) == multiset(b) && Clean(env, l, a)
    ensures Clean(env, l, b)
  {
    SameMembers(a, b);
    MapPermutation(a, b, RowPath());
    MapPermutation(a, b, RowFold(env));
    NoDupPermutation(Map(a, RowPath()), Map(b, RowPath()));
    NoDupPermutation(Map(a, RowFold(env)), Map(b, RowFold(env)));
    SumPermutation(a, b, Size());
  }

  /** With distinct paths the recorded text of a path is the text of its row. */
  lemma {:induction false} TextsAreRows(env: Env, rows: seq<Row>)
    requires NoDup(Map(rows, RowPath()))
    ensures forall r :: r in rows && HasText(env, r) ==>
      r.path in Texts(env, rows) && Texts(env, rows)[r.path] == Data(r.body)
    ensures forall p :: p in Texts(env, rows) ==> exists r :: r in rows && r.path == p && HasText(env, r)
  {
    hide Map, NoDup, Data;
    if rows != [] {
      var n := |rows| - 1;
      LastPathIsNew(rows);
      TextsAreRows(env, rows[..n]);
      assert forall r :: r in rows <==> r in rows[..n] || r == rows[n] by {
        assert rows == rows[..n] + [rows[n]];
      }
    }
  }

  lemma LastPathIsNew(rows: seq<Row>)
    requires rows != [] && NoDup(Map(rows, RowPath()))
    ensures NoDup(Map(rows[..|rows| - 1], RowPath()))
    ensures forall r :: r in rows[..|rows| - 1] ==> r.path != rows[|rows| - 1].path
  {
    var n := |rows| - 1;
    var paths := Map(rows, RowPath());
    assert forall i :: 0 <= i <= n ==> paths[i] == rows[i].path;
    assert Map(rows[..n], RowPath()) == paths[..n];
  }

  predicate HasText(env: Env, r: Row) {
    env.lines(r.path, Data(r.body)).Some?
  }

  lemma SortedByKeyIsUnique<T>(a: seq<T>, b: seq<T>, key: T -> string)
    requires multiset(a) == multiset(b) && NoDup(Map(a, key))
    ensures Sort(a, key) == Sort(b, key)
  {
    hide Le;
    var x, y := Sort(a, key), Sort(b, key);
    MapPermutation(a, x, key);
    MapPermutation(a, y, key);
    NoDupPermutation(Map(a, key), Map(x, key));
    NoDupPermutation(Map(a, key), Map(y, key));
    SameMembers(Map(x, key), Map(y, key));
    StrictlySortedUnique(Map(x, key), Map(y, key));
    SameMembers(x, y);
    forall i | 0 <= i < |x| ensures x[i] == y[i] {
      assert x[i] in y;
      var j :| 0 <= j < |y| && y[j] == x[i];
      assert Map(y, key)[j] == Map(y, key)[i];
    }
    assert |x| == |Map(x, key)| == |Map(y, key)| == |y|;
  }

  lemma TextInAnyOrder(env: Env, a: seq<Row>, b: seq<Row>, path: string)
    requires multiset(a) == multiset(b) && NoDup(Map(a, RowPath()))
    ensures TextAt(env, a, path) == TextAt(env, b, path)
  {
    MapPermutation(a, b, RowPath());
    NoDupPermutation(Map(a, RowPath()), Map(b, RowPath()));
    SameMembers(a, b);
    TextsAreRows(env, a);
    TextsAreRows(env, b);
  }

  lemma FinishInAnyOrder(env: Env, a: seq<Row>, b: seq<Row>)
    requires multiset(a) == multiset(b) && NoDup(Map(a, RowPath()))
    ensures Finish(env, a) == Finish(env, b)
  {
    hide TextAt, Sort, MetadataPath;
    SameMembers(a, b);
    assert PathSet(a) == PathSet(b);
    if MetadataPath(PathSet(a)).Ok? {
      TextInAnyOrder(env, a, b, MetadataPath(PathSet(a)).value);
    }
    MembersInAnyOrder(env, a, b);
  }

  lemma MembersInAnyOrder(env: Env, a: seq<Row>, b: seq<Row>)
    requires multiset(a) == multiset(b) && NoDup(Map(a, RowPath()))
    ensures Sort(Map(a, ToMember(env)), Path()) == Sort(Map(b, ToMember(env)), Path())
  {
    hide Sort;
    var x, y := Map(a, ToMember(env)), Map(b, ToMember(env));
    MapPermutation(a, b, ToMember(env));
    assert Map(x, Path()) == Map(a, RowPath());
    SortedByKeyIsUnique(x, y, Path());
  }

  lemma PrefixInAnyOrder(a: seq<string>, b: seq<string>)
    requires multiset(a) == multiset(b)
    ensures CommonPrefix(a) == CommonPrefix(b)
  {
    hide Parts, IsRootFile;
    SameMembers(a, b);
    assert |a| == |multiset(a)| == |multiset(b)| == |b|;
    OneRootMembers(a);
    OneRootMembers(b);
    if a != [] {
      assert a[0] in b;
    }
  }

  lemma OneRootMembers(paths: seq<string>)
    ensures OneRoot(paths) <==> forall p, q :: p in paths && q in paths ==>
      |Parts(p)| >= 2 && |Parts(q)| >= 2 && Parts(p)[0] == Parts(q)[0]
  {
    hide Parts;
  }

  /** Reordering the entries of an archive changes neither its acceptance nor its result. */
  lemma {:induction false} OrderDoesNotMatter(env: Env, l: Limits, a: seq<Entry>, b: seq<Entry>)
    requires multiset(a) == multiset(b)
    ensures Verdict(env, l, a).Ok? <==> Verdict(env, l, b).Ok?
    ensures Verdict(env, l, a).Ok? ==> Verdict(env, l, a) == Verdict(env, l, b)
  {
    hide Verdict;
    if Verdict(env, l, a).Ok? {
      AcceptedInAnyOrder(env, l, a, b);
    }
    if Verdict(env, l, b).Ok? {
      AcceptedInAnyOrder(env, l, b, a);
    }
  }

  lemma AcceptedInAnyOrder(env: Env, l: Limits, a: seq<Entry>, b: seq<Entry>)
    requires multiset(a) == multiset(b) && Verdict(env, l, a).Ok?
    ensures Verdict(env, l, b) == Verdict(env, l, a)
  {
    hide Finish, FirstError, CommonPrefix, Normalize, StripPrefix;
    var x, y := Filter(a, IsFile), Filter(b, IsFile);
    FilterPermutation(a, b, IsFile);
    SameMembers(x, y);
    assert |x| == |multiset(x)| == |multiset(y)| == |y|;
    MapPermutation(x, y, ToPath(env));
    PrefixInAnyOrder(Map(x, ToPath(env)), Map(y, ToPath(env)));
    MapPermutation(x, y, ToRow(env, CommonPrefix(Map(x, ToPath(env)))));
    LoopAcceptsCleanRows(env, l, Rows(env, x));
    CleanInAnyOrder(env, l, Rows(env, x), Rows(env, y));
    LoopAcceptsCleanRows(env, l, Rows(env, y));
    FinishInAnyOrder(env, Rows(env, x), Rows(env, y));
  }

  // ----- the digest input -----

  /** The digest input before it is encoded. */
  function DigestText(members: seq<Member>): string {
    if members == [] then "" else members[0].path + "\0" + members[0].sha256 + "\n" + DigestText(members[1..])
  }

  lemma {:induction false} LinesEncodeText(members: seq<Member>)
    ensures DigestLines(members) == Encode(DigestText(members))
  {
    if members != [] {
      hide EncodeChar;
      var m, rest := members[0], DigestText(members[1..]);
      LinesEncodeText(members[1..]);
      EncodeAppend(m.path, "\0");
      EncodeAppend(m.path + "\0", m.sha256);
      EncodeAppend(m.path + "\0" + m.sha256, "\n");
      EncodeAppend(m.path + "\0" + m.sha256 + "\n", rest);
      EncodedControls();
    }
  }

  lemma EncodedControls()
    ensures Encode("\0") == [0] && Encode("\n") == [10]
  {
    assert "\0"[1..] == "" && "\n"[1..] == "";
  }

  ghost predicate Writable(m: Member) {
    '\0' !in m.path && |m.sha256| == 64
  }

  /** The path ends at the first NUL and the hash is 64 characters long: the text can be read back. */
  lemma {:induction false} TextDecodes(a: seq<Member>, b: seq<Member>)
    requires forall m :: m in a || m in b ==> Writable(m)
    requires DigestText(a) == DigestText(b)
    ensures |a| == |b| && forall i :: 0 <= i < |a| ==> a[i].path == b[i].path && a[i].sha256 == b[i].sha256
  {
    if a != [] && b != [] {
      assert a[0] in a && b[0] in b && Writable(a[0]) && Writable(b[0]);
      var s, t := a[0].sha256 + "\n" + DigestText(a[1..]), b[0].sha256 + "\n" + DigestText(b[1..]);
      assert DigestText(a) == a[0].path + "\0" + s && DigestText(b) == b[0].path + "\0" + t;
      NulEndsPath(a[0].path, s, b[0].path, t);
      assert a[0].sha256 == s[..64] && b[0].sha256 == t[..64];
      assert DigestText(a[1..]) == s[65..] && DigestText(b[1..]) == t[65..];
      TextDecodes(a[1..], b[1..]);
    }
  }

  lemma NulEndsPath(p: string, s: string, q: string, t: string)
    requires '\0' !in p && '\0' !in q && p + "\0" + s == q + "\0" + t
    ensures p == q && s == t
  {
    var x := p + "\0" + s;
    assert x[|p|] == '\0' && x[|q|] == '\0';
    assert forall i :: 0 <= i < |p| ==> x[i] == p[i];
    assert forall i :: 0 <= i < |q| ==> x[i] == q[i];
    assert |p| == |q|;
    assert p == x[..|p|] && q == x[..|q|] && s == x[|p| + 1..] && t == x[|q| + 1..];
  }

  function Pairs(members: seq<Member>): set<(string, string)> {
    set m | m in members :: (m.path, m.sha256)
  }

  /** What an accepted archive's member list is like. */
  ghost predicate Canonical(members: seq<Member>) {
    StrictlySorted(Map(members, Path())) && forall m :: m in members ==> Writable(m)
  }

  lemma SamePairsSameList(a: seq<Member>, b: seq<Member>)
    requires Canonical(a) && Canonical(b) && Pairs(a) == Pairs(b)
    ensures |a| == |b| && forall i :: 0 <= i < |a| ==> a[i].path == b[i].path && a[i].sha256 == b[i].sha256
  {
    var x, y := Map(a, Path()), Map(b, Path());
    PairsInPaths(a, b);
    PairsInPaths(b, a);
    StrictlySortedUnique(x, y);
    assert |a| == |x| == |y| == |b|;
    forall i | 0 <= i < |a| ensures a[i].path == b[i].path && a[i].sha256 == b[i].sha256 {
      assert a[i].path == x[i] && b[i].path == y[i];
      assert (a[i].path, a[i].sha256) in Pairs(b);
      var m :| m in b && m.path == a[i].path && m.sha256 == a[i].sha256;
      var j :| 0 <= j < |b| && b[j] == m;
      assert y[j] == y[i];
    }
  }

  lemma PairsInPaths(a: seq<Member>, b: seq<Member>)
    requires Pairs(a) <= Pairs(b)
    ensures forall p :: p in Map(a, Path()) ==> p in Map(b, Path())
  {
    var x, y := Map(a, Path()), Map(b, Path());
    forall p | p in x ensures p in y {
      var i :| 0 <= i < |a| && x[i] == p;
      assert a[i] in a && (a[i].path, a[i].sha256) in Pairs(b);
      var m :| m in b && m.path == a[i].path;
      var j :| 0 <= j < |b| && b[j] == m;
      assert y[j] == p;
    }
  }

  lemma {:induction false} SameListSameLines(a: seq<Member>, b: seq<Member>)
    requires |a| == |b| && forall i :: 0 <= i < |a| ==> a[i].path == b[i].path && a[i].sha256 == b[i].sha256
    ensures DigestLines(a) == DigestLines(b) && Pairs(a) == Pairs(b)
  {
    hide Encode;
    if a != [] {
      SameListSameLines(a[1..], b[1..]);
      assert forall m :: m in a <==> m == a[0] || m in a[1..];
      assert forall m :: m in b <==> m == b[0] || m in b[1..];
      assert Pairs(a) == {(a[0].path, a[0].sha256)} + Pairs(a[1..]);
      assert Pairs(b) == {(b[0].path, b[0].sha256)} + Pairs(b[1..]);
    }
  }

  lemma CanonicalLines(a: seq<Member>, b: seq<Member>)
    requires Canonical(a) && Canonical(b)
    ensures DigestLines(a) == DigestLines(b) <==> Pairs(a) == Pairs(b)
  {
    if DigestLines(a) == DigestLines(b) {
      LinesEncodeText(a);
      LinesEncodeText(b);
      EncodeInjective(DigestText(a), DigestText(b));
      TextDecodes(a, b);
      SameListSameLines(a, b);
    }
    if Pairs(a) == Pairs(b) {
      SamePairsSameList(a, b);
      SameListSameLines(a, b);
    }
  }

  /** Normalisation invents no NUL, and a SHA-256 in hexadecimal has 64 digits. */
  ghost predicate EnvLaws(env: Env) {
    && (forall s: string :: '\0' !in s ==> '\0' !in env.nfc(s))
    && (forall data :: |env.sha(data)| == 64)
  }

  lemma NoNulAtAll(env: Env, files: seq<Entry>, i: nat)
    requires EnvLaws(env) && i < |files| && Normalize(env.nfc, files[i].name).Some?
    ensures '\0' !in Rows(env, files)[i].path
  {
    NormalizedHasNoNul(env.nfc, files[i].name);
    hide Normalize, CommonPrefix;
  }

  lemma {:induction false} AcceptedIsCanonical(env: Env, l: Limits, entries: seq<Entry>)
    requires EnvLaws(env)
    ensures
      var verdict, rows := Verdict(env, l, entries), Rows(env, Filter(entries, IsFile));
      verdict.Ok? ==>
        && Canonical(verdict.value.members) && verdict.value.treeSha256 == env.sha(DigestLines(verdict.value.members))
        && Pairs(verdict.value.members) == set r | r in rows :: (r.path, env.sha(Data(r.body)))
  {
    hide Normalize, Judge, Rows, DigestLines;
    if Verdict(env, l, entries).Ok? {
      var files := Filter(entries, IsFile);
      var rows := Rows(env, files);
      RowsCount(env, files);
      forall r | r in rows ensures '\0' !in r.path {
        var i :| 0 <= i < |rows| && rows[i] == r;
        assert files[i] in files;
        NoNulAtAll(env, files, i);
      }
      JudgedIsCanonical(env, l, rows);
    }
  }

  lemma JudgedIsCanonical(env: Env, l: Limits, rows: seq<Row>)
    requires EnvLaws(env) && Judge(env, l, rows).Ok?
    requires forall r :: r in rows ==> '\0' !in r.path
    ensures Canonical(Judge(env, l, rows).value.members)
    ensures Judge(env, l, rows).value.treeSha256 == env.sha(DigestLines(Judge(env, l, rows).value.members))
    ensures Pairs(Judge(env, l, rows).value.members) == set r | r in rows :: (r.path, env.sha(Data(r.body)))
  {
    hide FirstError, MetadataPath, TextAt, DigestLines, Sort;
    LoopAcceptsCleanRows(env, l, rows);
    SortedMembers(env, rows);
    var members := Judge(env, l, rows).value.members;
    forall x ensures x in Pairs(members) <==> x in (set r | r in rows :: (r.path, env.sha(Data(r.body)))) {
      if r :| r in rows && x == (r.path, env.sha(Data(r.body))) {
        assert ToMember(env)(r) in members;
      }
    }
  }

  lemma RowsCount(env: Env, files: seq<Entry>)
    ensures |Rows(env, files)| == |files|
  {
  }

  lemma SortedMembers(env: Env, rows: seq<Row>)
    requires NoDup(Map(rows, RowPath()))
    ensures
      var members := Sort(Map(rows, ToMember(env)), Path());
      && StrictlySorted(Map(members, Path()))
      && (forall m :: m in members <==> exists r :: r in rows && m == ToMember(env)(r))
  {
    var unsorted := Map(rows, ToMember(env));
    var members := Sort(unsorted, Path());
    SameMembers(unsorted, members);
    assert Map(unsorted, Path()) == Map(rows, RowPath());
    MapPermutation(unsorted, members, Path());
    NoDupPermutation(Map(unsorted, Path()), Map(members, Path()));
    forall m ensures m in members <==> exists r :: r in rows && m == ToMember(env)(r) {
      assert m in members <==> m in unsorted;
      if r :| r in rows && m == ToMember(env)(r) {
        var i :| 0 <= i < |rows| && rows[i] == r;
        assert unsorted[i] == m;
      }
      if m in unsorted {
        var i :| 0 <= i < |unsorted| && unsorted[i] == m;
        assert rows[i] in rows && m == ToMember(env)(rows[i]);
      }
    }
  }

  /** Two accepted archives feed the same bytes to the tree hash exactly when, without their wrappers, they
      hold the same set of (path, content hash) pairs. */
  lemma {:induction false} DigestIsCanonical(env: Env, l: Limits, a: seq<Entry>, b: seq<Entry>)
    requires EnvLaws(env)
    ensures
      var x, y := Verdict(env, l, a), Verdict(env, l, b);
      x.Ok? && y.Ok? ==> (DigestLines(x.value.members) == DigestLines(y.value.members) <==>
        Pairs(x.value.members) == Pairs(y.value.members))
  {
    hide DigestLines, Verdict;
    AcceptedIsCanonical(env, l, a);
    AcceptedIsCanonical(env, l, b);
    var x, y := Verdict(env, l, a), Verdict(env, l, b);
    if x.Ok? && y.Ok? {
      CanonicalLines(x.value.members, y.value.members);
    }
  }
}
