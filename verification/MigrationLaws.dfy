/** What a run of migrations answers, said on what it committed. */
module MigrationLaws {
  import opened Wrappers
  import opened Ordering
  import opened Sequences
  import opened Migrations

  /** Two migrations of the catalogue have one version. */
  predicate Duplicated(catalogue: seq<Migration>) {
    exists i, j :: 0 <= i < j < |catalogue| && catalogue[i].version == catalogue[j].version
  }

  /** The migration is recorded with another checksum. */
  predicate Changed(m: Migration, s: Store) {
    m.version in s.table && s.table[m.version] != m.checksum
  }

  predicate Unchanged(catalogue: seq<Migration>, s: Store) {
    forall m :: m in catalogue ==> !Changed(m, s)
  }

  lemma {:induction false} FirstMismatchExactly(ms: seq<Migration>, s: Store)
    ensures FirstMismatch(ms, s.table).None? <==> Unchanged(ms, s)
    ensures FirstMismatch(ms, s.table).Some? ==>
      exists m :: m in ms && Changed(m, s) && m.version == FirstMismatch(ms, s.table).value
  {
    if ms != [] {
      assert Mismatched(ms[0], s.table) <==> Changed(ms[0], s);
      assert ms == [ms[0]] + ms[1..];
      hide Mismatched, Changed;
      FirstMismatchExactly(ms[1..], s);
      if Mismatched(ms[0], s.table) {
        assert ms[0] in ms;
      }
    }
  }

  /** What a run commits, one after the other: each is of the catalogue, was not recorded before, comes in strictly
      increasing version order, and is recorded with its checksum; nothing recorded before changes. */
  ghost predicate Committed(s: Store, t: Store, catalogue: seq<Migration>, new_: seq<Migration>) {
    && t.committed == s.committed + new_
    && (forall i :: 0 <= i < |new_| ==> new_[i] in catalogue && new_[i].version !in s.table)
    && (forall i, j :: 0 <= i < j < |new_| ==>
      Le(new_[i].version, new_[j].version) && new_[i].version != new_[j].version)
    && Recorded(s, t, new_)
  }

  /** The table of `t` is that of `s` with the new migrations recorded. */
  ghost predicate Recorded(s: Store, t: Store, new_: seq<Migration>) {
    && (forall m :: m in new_ ==> m.version in t.table && t.table[m.version] == m.checksum)
    && (forall v :: v in s.table ==> v in t.table && t.table[v] == s.table[v])
    && (forall v :: v in t.table ==> v in s.table || exists m :: m in new_ && m.version == v)
  }

  lemma {:induction false} OneMoreRecorded(s: Store, t: Store, new_: seq<Migration>, m: Migration)
    requires Recorded(s, t, new_) && m.version !in t.table
    ensures Recorded(s, Commit(t, m), new_ + [m])
  {
    var u, all := Commit(t, m), new_ + [m];
    assert m in all && forall x :: x in all <==> x in new_ || x == m;
    forall v | v in u.table && v !in s.table ensures exists x :: x in all && x.version == v {
      if v == m.version {
        assert m in all && m.version == v;
      } else {
        var x :| x in new_ && x.version == v;
        assert x in all && x.version == v;
      }
    }
  }

  /** One more commit records the next missing migration, which was not recorded before. */
  lemma NextCommit(s: Store, ordered: seq<Migration>, n: nat)
    requires UniqueVersions(ordered) && 0 < n
    ensures
      var missing, u := Missing(ordered, s.table), CommitFirst(s, ordered, n - 1);
      CommitFirst(s, ordered, n) == if n <= |missing| then Commit(u, missing[n - 1]) else u
    ensures
      var missing := Missing(ordered, s.table);
      n <= |missing| ==> missing[n - 1].version !in CommitFirst(s, ordered, n - 1).table
  {
    hide UniqueVersions, Missing, Commit;
    var missing, u := Missing(ordered, s.table), CommitFirst(s, ordered, n - 1);
    CommitsArePrefix(s, ordered, n - 1);
    if n <= |missing| {
      assert missing[n - 1..][0] == missing[n - 1];
      MissingMembers(ordered, u.table);
      assert missing[n - 1] in missing[n - 1..];
    }
  }

  lemma {:induction false} TableExactly(s: Store, ordered: seq<Migration>, n: nat)
    requires UniqueVersions(ordered)
    ensures
      var t, missing := CommitFirst(s, ordered, n), Missing(ordered, s.table);
      Recorded(s, t, missing[..if n < |missing| then n else |missing|])
  {
    hide Recorded, UniqueVersions, Missing, Commit;
    if n == 0 {
      NothingRecorded(s);
    } else {
      hide CommitFirst;
      var missing, u := Missing(ordered, s.table), CommitFirst(s, ordered, n - 1);
      TableExactly(s, ordered, n - 1);
      NextCommit(s, ordered, n);
      if n <= |missing| {
        assert missing[..n] == missing[..n - 1] + [missing[n - 1]];
        OneMoreRecorded(s, u, missing[..n - 1], missing[n - 1]);
      }
    }
  }

  lemma NothingRecorded(s: Store)
    ensures Recorded(s, s, [])
  {
  }

  /** A run is refused for a duplicate version or a changed checksum, naming it, and commits nothing. Otherwise it
      commits new migrations of the catalogue in order; it reports their versions if none is left, and else was cut
      off after just as many commits as it could make. */
  lemma {:induction false} RunExactly(s: Store, catalogue: seq<Migration>, commits: nat) returns (new_: seq<Migration>)
    ensures
      var (t, outcome) := Run(s, catalogue, commits);
      if Duplicated(catalogue) then t == s && outcome == DuplicateVersions
      else if !Unchanged(catalogue, s) then
        t == s && exists m :: m in catalogue && Changed(m, s) && outcome == ChecksumMismatch(m.version)
      else
        && Committed(s, t, catalogue, new_) && |new_| <= commits
        && if AllRecorded(catalogue, t) then outcome == Completed(VersionsOf(new_))
           else outcome == CutOff && |new_| == commits
  {
    var ordered := Sort(catalogue, VersionOf);
    SameMembers(ordered, catalogue);
    RefusedRunCommitsNothing(s, catalogue, commits);
    FirstMismatchExactly(ordered, s);
    DuplicatedExactly(catalogue);
    new_ := [];
    if !Duplicated(catalogue) && Unchanged(catalogue, s) {
      UniquePermutation(catalogue, ordered);
      var missing := Missing(ordered, s.table);
      new_ := missing[..if commits < |missing| then commits else |missing|];
      NewExactly(s, catalogue, ordered, commits, new_);
      assert forall m :: m in ordered <==> m in catalogue;
      OutcomeExactly(s, ordered, commits, new_);
    }
  }

  function VersionsOf(ms: seq<Migration>): seq<string> {
    Map(ms, (m: Migration) => m.version)
  }

  lemma DuplicatedExactly(catalogue: seq<Migration>)
    ensures UniqueVersions(catalogue) <==> !Duplicated(catalogue)
  {
  }

  lemma {:induction false} NewExactly(
      s: Store, catalogue: seq<Migration>, ordered: seq<Migration>, commits: nat, new_: seq<Migration>)
    requires ordered == Sort(catalogue, VersionOf) && UniqueVersions(ordered)
    requires
      var missing := Missing(ordered, s.table);
      new_ == missing[..if commits < |missing| then commits else |missing|]
    ensures Committed(s, CommitFirst(s, ordered, commits), catalogue, new_)
  {
    hide UniqueVersions, Missing, CommitFirst, Recorded, Sort;
    CommitsArePrefix(s, ordered, commits);
    TableExactly(s, ordered, commits);
    NewInOrder(s, catalogue, ordered, new_);
  }

  lemma {:induction false} NewInOrder(
      s: Store, catalogue: seq<Migration>, ordered: seq<Migration>, new_: seq<Migration>)
    requires ordered == Sort(catalogue, VersionOf) && UniqueVersions(ordered) && new_ <= Missing(ordered, s.table)
    ensures forall i :: 0 <= i < |new_| ==> new_[i] in catalogue && new_[i].version !in s.table
    ensures InVersionOrder(new_)
  {
    hide UniqueVersions, Missing, Sort;
    var missing := Missing(ordered, s.table);
    SameMembers(ordered, catalogue);
    SortedInVersionOrder(catalogue);
    MissingInOrder(ordered, s.table);
    MissingMembers(ordered, s.table);
    forall i | 0 <= i < |new_| ensures new_[i] in catalogue && new_[i].version !in s.table {
      assert new_[i] == missing[i] && missing[i] in missing;
    }
  }

  ghost predicate AllRecorded(ms: seq<Migration>, s: Store) {
    forall m :: m in ms ==> m.version in s.table
  }

  lemma {:induction false} NoneMissing(ms: seq<Migration>, s: Store)
    ensures Missing(ms, s.table) == [] <==> AllRecorded(ms, s)
  {
    if ms != [] {
      NoneMissing(ms[1..], s);
      assert ms == [ms[0]] + ms[1..];
    }
  }

  lemma {:induction false} OutcomeExactly(s: Store, ordered: seq<Migration>, commits: nat, new_: seq<Migration>)
    requires UniqueVersions(ordered) && FirstMismatch(ordered, s.table).None?
    requires
      var missing := Missing(ordered, s.table);
      new_ == missing[..if commits < |missing| then commits else |missing|]
    ensures
      var (t, outcome) := RunOrdered(s, ordered, commits);
      if AllRecorded(ordered, t) then outcome == Completed(VersionsOf(new_)) else outcome == CutOff && |new_| == commits
  {
    hide UniqueVersions, Missing, FirstMismatch, AllRecorded, CommitFirst;
    var missing, t := Missing(ordered, s.table), CommitFirst(s, ordered, commits);
    CommitsArePrefix(s, ordered, commits);
    NoneMissing(ordered, t);
    if commits >= |missing| {
      assert new_ == missing;
      assert Versions(missing) == VersionsOf(new_);
    }
  }
}
