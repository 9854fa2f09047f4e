/** apps/api/app/schema_migrations.py: applying versioned SQL migrations, run after run, under crashes. */
module Migrations {
  import opened Wrappers
  import opened Ordering
  import opened Sequences

  datatype Migration = Migration(version: string, checksum: string, sql: string)

  function VersionOf(m: Migration): string { m.version }

  /** market_schema_migrations: version to checksum. */
  type Table = map<string, string>

  /** The table, and the migrations whose transaction has committed so far, oldest first. */
  datatype Store = Store(table: Table, committed: seq<Migration>)

  datatype Outcome =
    | Completed(versions: seq<string>)
    | CutOff
    | DuplicateVersions
    | ChecksumMismatch(version: string)

  // ----- what one run does -----

  ghost predicate UniqueVersions(ms: seq<Migration>) {
    forall i, j :: 0 <= i < j < |ms| ==> ms[i].version != ms[j].version
  }

  predicate Mismatched(m: Migration, table: Table) {
    m.version in table && table[m.version] != m.checksum
  }

  function FirstMismatch(ms: seq<Migration>, table: Table): Option<string> {
    if ms == [] then None
    else if Mismatched(ms[0], table) then Some(ms[0].version)
    else FirstMismatch(ms[1..], table)
  }

  function Missing(ms: seq<Migration>, table: Table): seq<Migration> {
    if ms == [] then []
    else if ms[0].version in table then Missing(ms[1..], table)
    else [ms[0]] + Missing(ms[1..], table)
  }

  function Versions(ms: seq<Migration>): (vs: seq<string>)
    ensures |vs| == |ms| && forall i :: 0 <= i < |ms| ==> vs[i] == ms[i].version
  {
    seq(|ms|, i requires 0 <= i < |ms| => ms[i].version)
  }

  function Commit(s: Store, m: Migration): Store {
    Store(s.table[m.version := m.checksum], s.committed + [m])
  }

  /** Commits the first missing migration `n` times over, as long as one is missing. */
  function CommitFirst(s: Store, ordered: seq<Migration>, n: nat): Store {
    if n == 0 then s
    else
      var t := CommitFirst(s, ordered, n - 1);
      var missing := Missing(ordered, t.table);
      if missing == [] then t else Commit(t, missing[0])
  }

  /** A run over an ordered catalogue, cut off (crash or failing SQL) once `commits` transactions are through. */
  ghost function RunOrdered(s: Store, ordered: seq<Migration>, commits: nat): (Store, Outcome) {
    if !UniqueVersions(ordered) then (s, DuplicateVersions)
    else if FirstMismatch(ordered, s.table).Some? then
      (s, ChecksumMismatch(FirstMismatch(ordered, s.table).value))
    else
      var missing := Missing(ordered, s.table);
      (CommitFirst(s, ordered, commits), if commits < |missing| then CutOff else Completed(Versions(missing)))
  }

  ghost function Run(s: Store, catalogue: seq<Migration>, commits: nat): (Store, Outcome) {
    RunOrdered(s, Sort(catalogue, VersionOf), commits)
  }

  class Database {
    var table: Table
    var committed: seq<Migration>

    ghost function Contents(): Store
      reads this
    {
      Store(table, committed)
    }

    constructor ()
      ensures Contents() == Store(map[], [])
    {
      table, committed := map[], [];
    }

    /** One transaction: the migration's SQL and its row commit together. */
    method Transaction(m: Migration)
      modifies this
      ensures Contents() == Commit(old(Contents()), m)
    {
      committed := committed + [m];
      table := table[m.version := m.checksum];
    }

    method ApplySchemaMigrations(migrations: seq<Migration>, commits: nat) returns (outcome: Outcome)
      modifies this
      ensures (Contents(), outcome) == Run(old(Contents()), migrations, commits)
    {
      var ordered := Sort(migrations, VersionOf);
      var unique := HasUniqueVersions(ordered);
      if !unique {
        return DuplicateVersions;
      }
      var mismatch := FindMismatch(ordered, table);
      if mismatch.Some? {
        return ChecksumMismatch(mismatch.value);
      }
      outcome := ApplyMissing(ordered, commits);
    }

    /** The loop over the ordered catalogue; `applied` is the table as read when the run started. */
    method ApplyMissing(ordered: seq<Migration>, commits: nat) returns (outcome: Outcome)
      requires UniqueVersions(ordered) && FirstMismatch(ordered, table).None?
      modifies this
      ensures (Contents(), outcome) == RunOrdered(old(Contents()), ordered, commits)
    {
      hide UniqueVersions, FirstMismatch, Missing;
      var applied := table;
      var completed: seq<string> := [];
      assert ordered[0..] == ordered;
      ghost var before, missing, done := Contents(), Missing(ordered, applied), [];
      for i := 0 to |ordered|
        invariant |completed| == |done| <= commits
        invariant Contents() == CommitFirst(before, ordered, |done|)
        invariant Missing(ordered, table) == Missing(ordered[i..], applied)
        invariant missing == done + Missing(ordered, table)
        invariant forall k :: 0 <= k < |done| ==> completed[k] == done[k].version
      {
        var migration := ordered[i];
        MissingFrom(ordered, i, applied);
        if migration.version in applied {
          continue;
        }
        if |completed| == commits {
          return CutOff;
        }
        MissingAfterCommit(ordered, table);
        assert Missing(ordered, table)[1..] == Missing(ordered[i + 1..], applied);
        Transaction(migration);
        completed := completed + [migration.version];
        done := done + [migration];
      }
      assert ordered[|ordered|..] == [];
      NothingMissing(applied);
      assert missing == done;
      CommitFirstIsDone(before, ordered, |completed|, commits);
      assert completed == Versions(missing);
      outcome := Completed(completed);
    }
  }

  method HasUniqueVersions(ms: seq<Migration>) returns (unique: bool)
    ensures unique <==> UniqueVersions(ms)
  {
    for j := 0 to |ms|
      invariant UniqueVersions(ms[..j])
    {
      for i := 0 to j
        invariant forall k :: 0 <= k < i ==> ms[k].version != ms[j].version
      {
        if ms[i].version == ms[j].version {
          return false;
        }
      }
    }
    assert ms[..|ms|] == ms;
    unique := true;
  }

  method FindMismatch(ms: seq<Migration>, table: Table) returns (version: Option<string>)
    ensures version == FirstMismatch(ms, table)
  {
    for i := 0 to |ms|
      invariant FirstMismatch(ms[i..], table) == FirstMismatch(ms, table)
    {
      if Mismatched(ms[i], table) {
        return Some(ms[i].version);
      }
      assert ms[i..][1..] == ms[i + 1..];
    }
    version := None;
  }

  // ----- one commit -----

  lemma {:induction false} MismatchIsFound(ms: seq<Migration>, table: Table)
    ensures FirstMismatch(ms, table).None? <==> forall m :: m in ms ==> !Mismatched(m, table)
  {
    if ms != [] {
      MismatchIsFound(ms[1..], table);
      assert ms == [ms[0]] + ms[1..];
    }
  }

  lemma MissingFrom(ms: seq<Migration>, i: nat, table: Table)
    requires i < |ms|
    ensures Missing(ms[i..], table) ==
      (if ms[i].version in table then [] else [ms[i]]) + Missing(ms[i + 1..], table)
  {
    assert ms[i..][1..] == ms[i + 1..];
  }

  lemma NothingMissing(table: Table)
    ensures Missing([], table) == []
  {
  }

  lemma {:induction false} MissingMembers(ms: seq<Migration>, table: Table)
    ensures forall m :: m in Missing(ms, table) <==> m in ms && m.version !in table
  {
    if ms != [] {
      MissingMembers(ms[1..], table);
      assert ms == [ms[0]] + ms[1..];
    }
  }

  lemma {:induction false} MissingIgnoresOthers(ms: seq<Migration>, t: Table, version: string, checksum: string)
    requires forall m :: m in ms ==> m.version != version
    ensures Missing(ms, t[version := checksum]) == Missing(ms, t)
  {
    if ms != [] {
      assert ms[0] in ms && forall m :: m in ms[1..] ==> m in ms;
      MissingIgnoresOthers(ms[1..], t, version, checksum);
    }
  }

  /** Recording the first missing migration leaves exactly the others missing. */
  lemma {:induction false} MissingAfterCommit(ms: seq<Migration>, t: Table)
    requires UniqueVersions(ms) && Missing(ms, t) != []
    ensures var missing := Missing(ms, t);
      Missing(ms, t[missing[0].version := missing[0].checksum]) == missing[1..]
  {
    if ms[0].version in t {
      MissingAfterCommit(ms[1..], t);
    } else {
      forall m | m in ms[1..] ensures m.version != ms[0].version {
        var i :| 0 <= i < |ms[1..]| && ms[1..][i] == m;
        assert ms[i + 1] == m;
      }
      MissingIgnoresOthers(ms[1..], t, ms[0].version, ms[0].checksum);
    }
  }

  lemma {:induction false} CommitFirstIsDone(s: Store, ordered: seq<Migration>, n: nat, more: nat)
    requires n <= more && Missing(ordered, CommitFirst(s, ordered, n).table) == []
    ensures CommitFirst(s, ordered, more) == CommitFirst(s, ordered, n)
  {
    if n < more {
      CommitFirstIsDone(s, ordered, n, more - 1);
    }
  }

  // ----- any number of commits -----

  /**
   * The committed SQL is a prefix of the initially missing migrations, in their order: nothing runs
   * twice and nothing is skipped.
   */
  lemma {:induction false} CommitsArePrefix(s: Store, ordered: seq<Migration>, n: nat)
    requires UniqueVersions(ordered)
    ensures var missing := Missing(ordered, s.table); var t := CommitFirst(s, ordered, n);
      var k := if n < |missing| then n else |missing|;
      t.committed == s.committed + missing[..k] && Missing(ordered, t.table) == missing[k..]
  {
    if n > 0 {
      CommitsArePrefix(s, ordered, n - 1);
      var missing, t := Missing(ordered, s.table), CommitFirst(s, ordered, n - 1);
      if n <= |missing| {
        assert missing[n - 1..][0] == missing[n - 1] && missing[n - 1..][1..] == missing[n..];
        assert missing[..n] == missing[..n - 1] + [missing[n - 1]];
        MissingAfterCommit(ordered, t.table);
      }
    }
  }

  lemma {:induction false} CommitsKeepChecksums(s: Store, ordered: seq<Migration>, n: nat)
    requires UniqueVersions(ordered) && FirstMismatch(ordered, s.table).None?
    ensures FirstMismatch(ordered, CommitFirst(s, ordered, n).table).None?
  {
    if n > 0 {
      CommitsKeepChecksums(s, ordered, n - 1);
      var t := CommitFirst(s, ordered, n - 1);
      MissingMembers(ordered, t.table);
      MismatchIsFound(ordered, t.table);
      MismatchIsFound(ordered, CommitFirst(s, ordered, n).table);
    }
  }

  lemma {:induction false} CommitFirstAdds(s: Store, ordered: seq<Migration>, n: nat, more: nat)
    ensures CommitFirst(CommitFirst(s, ordered, n), ordered, more) == CommitFirst(s, ordered, n + more)
  {
    if more > 0 {
      CommitFirstAdds(s, ordered, n, more - 1);
    }
  }

  // ----- every sequence of runs -----

  /** The store after runs over one catalogue, each cut off anywhere or not at all. */
  ghost function Runs(s: Store, ordered: seq<Migration>, commits: seq<nat>): Store {
    if commits == [] then s
    else RunOrdered(Runs(s, ordered, commits[..|commits| - 1]), ordered, commits[|commits| - 1]).0
  }

  function Each(): nat -> nat {
    (n: nat) => n
  }

  function Total(commits: seq<nat>): nat {
    Sum(commits, Each())
  }

  lemma TotalOneMore(commits: seq<nat>)
    requires commits != []
    ensures Total(commits) == Total(commits[..|commits| - 1]) + commits[|commits| - 1]
  {
    var n := |commits| - 1;
    assert commits == commits[..n] + [commits[n]];
    SumAppend(commits[..n], [commits[n]], Each());
    var last: seq<nat> := [commits[n]];
    assert last[1..] == [] && Sum(last, Each()) == commits[n] + Sum(last[1..], Each());
  }

  /** However the runs are cut off, together they do what one run with all their commits does. */
  lemma {:induction false} RunsAreOneRun(s: Store, ordered: seq<Migration>, commits: seq<nat>)
    requires UniqueVersions(ordered) && FirstMismatch(ordered, s.table).None?
    ensures Runs(s, ordered, commits) == CommitFirst(s, ordered, Total(commits))
  {
    if commits != [] {
      var n := |commits| - 1;
      RunsAreOneRun(s, ordered, commits[..n]);
      TotalOneMore(commits);
      CommitsKeepChecksums(s, ordered, Total(commits[..n]));
      CommitFirstAdds(s, ordered, Total(commits[..n]), commits[n]);
    }
  }

  ghost predicate InVersionOrder(ms: seq<Migration>) {
    forall i, j :: 0 <= i < j < |ms| ==> Le(ms[i].version, ms[j].version) && ms[i].version != ms[j].version
  }

  lemma {:induction false} MissingInOrder(ms: seq<Migration>, table: Table)
    requires InVersionOrder(ms)
    ensures InVersionOrder(Missing(ms, table))
  {
    if ms != [] {
      MissingInOrder(ms[1..], table);
      MissingMembers(ms[1..], table);
      forall m | m in ms[1..] ensures Le(ms[0].version, m.version) && ms[0].version != m.version {
        var i :| 0 <= i < |ms[1..]| && ms[1..][i] == m;
        assert ms[i + 1] == m;
      }
    }
  }

  lemma SortedInVersionOrder(catalogue: seq<Migration>)
    requires UniqueVersions(Sort(catalogue, VersionOf))
    ensures InVersionOrder(Sort(catalogue, VersionOf))
  {
    var ordered := Sort(catalogue, VersionOf);
    forall i, j | 0 <= i < j < |ordered| ensures Le(ordered[i].version, ordered[j].version) {
      assert Le(VersionOf(ordered[i]), VersionOf(ordered[j]));
    }
  }

  /**
   * Over any sequence of cut-off runs on a fixed catalogue, what has committed beyond the start is a
   * prefix of the initially missing migrations, and these are in strictly increasing version order.
   */
  lemma {:induction false} ExactlyOnceInOrder(s: Store, catalogue: seq<Migration>, commits: seq<nat>)
    requires UniqueVersions(Sort(catalogue, VersionOf))
    requires FirstMismatch(Sort(catalogue, VersionOf), s.table).None?
    ensures var missing := Missing(Sort(catalogue, VersionOf), s.table);
      var k := if Total(commits) < |missing| then Total(commits) else |missing|;
      && Runs(s, Sort(catalogue, VersionOf), commits).committed == s.committed + missing[..k]
      && InVersionOrder(missing)
      && (forall m :: m in missing <==> m in catalogue && m.version !in s.table)
  {
    var ordered := Sort(catalogue, VersionOf);
    RunsAreOneRun(s, ordered, commits);
    CommitsArePrefix(s, ordered, Total(commits));
    SortedInVersionOrder(catalogue);
    MissingInOrder(ordered, s.table);
    MissingMembers(ordered, s.table);
    SameMembers(ordered, catalogue);
  }

  /** A run that completes records the whole catalogue; the next run then applies nothing. */
  lemma CompletedRunIsFinal(s: Store, catalogue: seq<Migration>, commits: nat, again: nat)
    requires Run(s, catalogue, commits).1.Completed?
    ensures var t := Run(s, catalogue, commits).0;
      && (forall m :: m in catalogue ==> m.version in t.table && t.table[m.version] == m.checksum)
      && Run(t, catalogue, again) == (t, Completed([]))
  {
    var ordered := Sort(catalogue, VersionOf);
    var t := Run(s, catalogue, commits).0;
    CommitsArePrefix(s, ordered, commits);
    CommitsKeepChecksums(s, ordered, commits);
    assert Missing(ordered, t.table) == [];
    CommitFirstIsDone(t, ordered, 0, again);
    assert Versions([]) == [];
    MissingMembers(ordered, t.table);
    MismatchIsFound(ordered, t.table);
    SameMembers(ordered, catalogue);
    forall m | m in catalogue ensures m.version in t.table && t.table[m.version] == m.checksum {
      assert m in ordered && m !in Missing(ordered, t.table);
    }
  }

  /** A run is refused, before anything commits, exactly for a duplicate version or a changed checksum. */
  lemma {:induction false} RefusedRunCommitsNothing(s: Store, catalogue: seq<Migration>, commits: nat)
    ensures var (t, outcome) := Run(s, catalogue, commits);
      && (outcome.DuplicateVersions? <==> !UniqueVersions(catalogue))
      && (outcome.ChecksumMismatch? <==>
        UniqueVersions(catalogue) && exists m :: m in catalogue && Mismatched(m, s.table))
      && (outcome.DuplicateVersions? || outcome.ChecksumMismatch? ==> t == s)
  {
    var ordered := Sort(catalogue, VersionOf);
    SameMembers(ordered, catalogue);
    MismatchIsFound(ordered, s.table);
    if UniqueVersions(catalogue) {
      UniquePermutation(catalogue, ordered);
    }
    if UniqueVersions(ordered) {
      UniquePermutation(ordered, catalogue);
    }
  }

  lemma UniquePermutation(a: seq<Migration>, b: seq<Migration>)
    requires multiset(a) == multiset(b) && UniqueVersions(a)
    ensures UniqueVersions(b)
  {
    NoDupPermutation(a, b);
    SameMembers(a, b);
    forall i, j | 0 <= i < j < |b| ensures b[i].version != b[j].version {
      assert b[i] in a && b[j] in a;
    }
  }

  // ----- catalogues that change between runs -----

  datatype Attempt = Attempt(ordered: seq<Migration>, commits: nat)

  ghost function Attempts(s: Store, attempts: seq<Attempt>): Store {
    if attempts == [] then s
    else
      var last := attempts[|attempts| - 1];
      RunOrdered(Attempts(s, attempts[..|attempts| - 1]), last.ordered, last.commits).0
  }

  ghost predicate RecordedOnce(s: Store) {
    && UniqueVersions(s.committed)
    && forall m :: m in s.committed ==> m.version in s.table && s.table[m.version] == m.checksum
  }

  ghost predicate Extends(s: Store, t: Store) {
    s.committed <= t.committed && forall v :: v in s.table ==> v in t.table && t.table[v] == s.table[v]
  }

  lemma {:induction false} CommitsKeepRecordedOnce(s: Store, ordered: seq<Migration>, n: nat)
    requires RecordedOnce(s)
    ensures var t := CommitFirst(s, ordered, n); RecordedOnce(t) && Extends(s, t)
  {
    if n > 0 {
      CommitsKeepRecordedOnce(s, ordered, n - 1);
      var t := CommitFirst(s, ordered, n - 1);
      MissingMembers(ordered, t.table);
      assert forall i :: 0 <= i < |t.committed| ==> t.committed[i] in t.committed;
    }
  }

  /** Even if every run brings its own catalogue, no version commits twice and no recorded checksum changes. */
  lemma {:induction false} EveryVersionCommitsAtMostOnce(s: Store, attempts: seq<Attempt>)
    requires RecordedOnce(s)
    ensures RecordedOnce(Attempts(s, attempts)) && Extends(s, Attempts(s, attempts))
  {
    if attempts != [] {
      var n := |attempts| - 1;
      EveryVersionCommitsAtMostOnce(s, attempts[..n]);
      CommitsKeepRecordedOnce(Attempts(s, attempts[..n]), attempts[n].ordered, attempts[n].commits);
    }
  }
}
