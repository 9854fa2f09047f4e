/**
 * What a plan for the files of an artifact promises: every manifest file ends in one place, and a
 * plan that calls itself complete leaves nothing out that the policy wants read.
 */
module FileCoverage {
  import opened Wrappers
  import opened Ordering
  import opened Sequences
  import opened FileSelection

  ghost predicate DistinctIds(files: seq<File>) {
    forall i, j :: 0 <= i < j < |files| ==> files[i].id != files[j].id
  }

  /** No later file of another path takes this file's id, as is always so when ids are distinct. */
  predicate NamedByItsId(files: seq<File>, f: File) {
    f.id in ById(files) && ById(files)[f.id] == f.path
  }

  /** An identifier that stands for the path can be reached from an entrypoint. */
  ghost predicate StandsForReachable(input: Input, id: string, path: string) {
    id in ById(input.files) && ById(input.files)[id] == path && Reachable(input.edges, EntryIds(input.files), id)
  }

  /** The path is required, changed, hit by an open deterministic finding of medium severity or worse, in the
      incremental impact, or suggested by the package review. */
  ghost predicate AskedOtherwise(input: Input, path: string) {
    || path in input.required
    || (exists d :: d in input.diffs && Changes(d) && DiffPath(d) == path)
    || (exists h :: h in input.findings && Serious(input, h) && h.path == path)
    || path in input.impact
    || path in Suggested(input)
  }

  /** What a review has to read, said on the input alone. */
  ghost predicate Asked(input: Input, path: string) {
    (exists id :: StandsForReachable(input, id, path)) || AskedOtherwise(input, path)
  }

  ghost predicate Becomes(safe: string -> bool, input: Input, f: File, c: Candidate) {
    Fate(safe, input, f).None? && c == CandidateFor(f, ReasonsOf(input, f.path), Hits(input, f.path))
  }

  ghost predicate IsSkippedBy(safe: string -> bool, input: Input, f: File, s: Skipped) {
    Fate(safe, input, f).Some? && s == SkippedAs(f, Fate(safe, input, f).value)
  }

  lemma {:induction false} CandidateMembers(safe: string -> bool, input: Input, files: seq<File>)
    ensures forall f :: f in files && Fate(safe, input, f).None? ==>
      CandidateFor(f, ReasonsOf(input, f.path), Hits(input, f.path)) in CandidatesOf(safe, input, files)
    ensures forall c :: c in CandidatesOf(safe, input, files) ==> exists f :: f in files && Becomes(safe, input, f, c)
  {
    hide Fate, ReasonsOf, Hits, CandidateFor;
    if files != [] {
      var n := |files| - 1;
      CandidateMembers(safe, input, files[..n]);
      assert forall f :: f in files <==> f in files[..n] || f == files[n] by {
        assert files == files[..n] + [files[n]];
      }
    }
  }

  lemma {:induction false} SkipMembers(safe: string -> bool, input: Input, files: seq<File>)
    ensures forall f :: f in files && Fate(safe, input, f).Some? ==>
      SkippedAs(f, Fate(safe, input, f).value) in ManifestSkips(safe, input, files)
    ensures forall s :: s in ManifestSkips(safe, input, files) ==>
      exists f :: f in files && IsSkippedBy(safe, input, f, s)
  {
    hide Fate, SkippedAs;
    if files != [] {
      var n := |files| - 1;
      SkipMembers(safe, input, files[..n]);
      assert forall f :: f in files <==> f in files[..n] || f == files[n] by {
        assert files == files[..n] + [files[n]];
      }
    }
  }

  lemma {:induction false} MissingMembers(files: seq<File>, paths: seq<string>, reason: SkipReason)
    ensures forall s :: s in Missing(files, paths, reason) <==>
      s.reason == reason && s.path in paths && s.path !in Paths(files)
  {
    hide Paths;
    if paths != [] {
      var n := |paths| - 1;
      MissingMembers(files, paths[..n], reason);
      assert forall p :: p in paths <==> p in paths[..n] || p == paths[n] by {
        assert paths == paths[..n] + [paths[n]];
      }
      var p := paths[n];
      assert Missing(files, paths, reason) ==
        Missing(files, paths[..n], reason) + if p in Paths(files) then [] else [Skipped(p, reason)];
    }
  }

  // ----- every file once -----

  ghost function IsRead(safe: string -> bool, input: Input): File -> bool {
    (f: File) => Fate(safe, input, f).None?
  }

  ghost function IsLeft(safe: string -> bool, input: Input): File -> bool {
    (f: File) => Fate(safe, input, f).Some?
  }

  ghost function ToCandidate(input: Input): File -> Candidate {
    (f: File) => CandidateFor(f, ReasonsOf(input, f.path), Hits(input, f.path))
  }

  ghost function ToSkipped(safe: string -> bool, input: Input): File -> Skipped {
    (f: File) => if Fate(safe, input, f).Some? then SkippedAs(f, Fate(safe, input, f).value)
      else Skipped(f.path, NonText)
  }

  lemma {:induction false} FilesSplit(safe: string -> bool, input: Input, files: seq<File>)
    ensures multiset(Filter(files, IsRead(safe, input))) + multiset(Filter(files, IsLeft(safe, input))) ==
      multiset(files)
  {
    hide Fate;
    if files != [] {
      FilesSplit(safe, input, files[1..]);
      assert files == [files[0]] + files[1..];
    }
  }

  lemma {:induction false} CandidatesAreRead(safe: string -> bool, input: Input, files: seq<File>)
    ensures CandidatesOf(safe, input, files) == Map(Filter(files, IsRead(safe, input)), ToCandidate(input))
  {
    hide Fate, ReasonsOf, Hits, CandidateFor, Filter, Map;
    if files == [] {
      MapNone(ToCandidate(input), IsRead(safe, input));
    } else {
      var n := |files| - 1;
      var init, last := files[..n], files[n];
      CandidatesAreRead(safe, input, init);
      assert files == init + [last];
      FilterAppend(init, [last], IsRead(safe, input));
      FilterOne(last, IsRead(safe, input));
      MapAppend(Filter(init, IsRead(safe, input)), Filter([last], IsRead(safe, input)), ToCandidate(input));
      MapOneOrNone(last, IsRead(safe, input), ToCandidate(input));
    }
  }

  lemma {:induction false} SkipsAreLeft(safe: string -> bool, input: Input, files: seq<File>)
    ensures ManifestSkips(safe, input, files) == Map(Filter(files, IsLeft(safe, input)), ToSkipped(safe, input))
  {
    hide Fate, SkippedAs, Filter, Map;
    if files == [] {
      MapNone(ToSkipped(safe, input), IsLeft(safe, input));
    } else {
      var n := |files| - 1;
      var init, last := files[..n], files[n];
      SkipsAreLeft(safe, input, init);
      assert files == init + [last];
      FilterAppend(init, [last], IsLeft(safe, input));
      FilterOne(last, IsLeft(safe, input));
      MapAppend(Filter(init, IsLeft(safe, input)), Filter([last], IsLeft(safe, input)), ToSkipped(safe, input));
      MapOneOrNone(last, IsLeft(safe, input), ToSkipped(safe, input));
    }
  }

  lemma MapNone<U>(f: File -> U, keep: File -> bool)
    ensures Map(Filter([], keep), f) == []
  {
  }

  lemma MapOneOrNone<U>(x: File, keep: File -> bool, f: File -> U)
    ensures Map(Filter([x], keep), f) == if keep(x) then [f(x)] else []
  {
    FilterOne(x, keep);
  }

  /** The manifest splits into the files that are read, which are the plan's candidates, and the files that are
      left, which beside the missing paths are what the plan skips: every file once, in one of the two. */
  lemma {:induction false} EveryFileLandsOnce(safe: string -> bool, input: Input, plan: Plan)
    requires IsPlan(safe, input, plan)
    ensures
      var read, left := Filter(input.files, IsRead(safe, input)), Filter(input.files, IsLeft(safe, input));
      && multiset(read) + multiset(left) == multiset(input.files)
      && multiset(plan.candidates) == multiset(Map(read, ToCandidate(input)))
      && multiset(plan.skipped) ==
        multiset(Missing(input.files, input.required, PolicyRequiredMissing))
        + multiset(Missing(input.files, Suggested(input), PackageSuggestionInvalid))
        + multiset(Map(left, ToSkipped(safe, input)))
  {
    hide Missing, ManifestSkips, CandidatesOf, Suggested, LatestPackage, Filter, Map;
    FilesSplit(safe, input, input.files);
    CandidatesAreRead(safe, input, input.files);
    SkipsAreLeft(safe, input, input.files);
  }

  /** With distinct ids a file is a candidate, under its own id, exactly when nothing skips it. */
  lemma CandidateByItsId(safe: string -> bool, input: Input, plan: Plan, f: File)
    requires IsPlan(safe, input, plan) && DistinctIds(input.files) && f in input.files
    ensures (exists c :: c in plan.candidates && c.fileId == f.id) <==> Fate(safe, input, f).None?
  {
    hide Fate, ReasonsOf, Hits;
    CandidateMembers(safe, input, input.files);
    SameMembers(plan.candidates, CandidatesOf(safe, input, input.files));
    if c :| c in plan.candidates && c.fileId == f.id {
      var g :| g in input.files && Becomes(safe, input, g, c);
      SameIdSameFile(input.files, f, g);
    }
  }

  lemma SameIdSameFile(files: seq<File>, f: File, g: File)
    requires DistinctIds(files) && f in files && g in files && f.id == g.id
    ensures f == g
  {
  }

  lemma SkippedHolds(safe: string -> bool, input: Input, plan: Plan)
    requires IsPlan(safe, input, plan)
    ensures forall s :: s in plan.skipped <==>
      || s in Missing(input.files, input.required, PolicyRequiredMissing)
      || s in Missing(input.files, Suggested(input), PackageSuggestionInvalid)
      || s in ManifestSkips(safe, input, input.files)
  {
    hide Missing, ManifestSkips, CandidatesOf, Suggested, LatestPackage;
    var all := Missing(input.files, input.required, PolicyRequiredMissing)
      + Missing(input.files, Suggested(input), PackageSuggestionInvalid)
      + ManifestSkips(safe, input, input.files);
    SameMembers(plan.skipped, all);
  }

  // ----- completeness -----

  ghost predicate NothingMissing(input: Input) {
    && (forall p :: p in input.required ==> p in Paths(input.files))
    && (forall p :: p in Suggested(input) ==> p in Paths(input.files))
  }

  /** Every manifest path is safe, and every text file with a reason fits and has its content. */
  ghost predicate NothingUnreadable(safe: string -> bool, input: Input) {
    forall f :: f in input.files ==>
      && safe(f.path)
      && (f.isText && ReasonsOf(input, f.path) != {} ==> f.size <= input.maxFileBytes && f.contentKey != "")
  }

  /** When a plan calls itself complete, said without the plan. */
  lemma CompleteExactly(safe: string -> bool, input: Input, plan: Plan)
    requires IsPlan(safe, input, plan)
    ensures Complete(plan) <==>
      && plan.graphComplete && plan.packageComplete && NothingMissing(input) && NothingUnreadable(safe, input)
  {
    SkippedHolds(safe, input, plan);
    MissingMembers(input.files, input.required, PolicyRequiredMissing);
    MissingMembers(input.files, Suggested(input), PackageSuggestionInvalid);
    SkipMembers(safe, input, input.files);
    SkipsAreReadable(safe, input);
    MissingIsNothing(input);
    hide Fate, NothingUnreadable, NothingMissing, Missing, ManifestSkips, Suggested, IsPlan;
  }

  lemma MissingIsNothing(input: Input)
    ensures NothingMissing(input) <==>
      && (forall s :: s in Missing(input.files, input.required, PolicyRequiredMissing) ==> !IsIncomplete(s.reason))
      && (forall s :: s in Missing(input.files, Suggested(input), PackageSuggestionInvalid) ==> !IsIncomplete(s.reason))
  {
    hide Paths, Suggested;
    MissingMembers(input.files, input.required, PolicyRequiredMissing);
    MissingMembers(input.files, Suggested(input), PackageSuggestionInvalid);
    forall p | p in input.required && p !in Paths(input.files)
      ensures Skipped(p, PolicyRequiredMissing) in Missing(input.files, input.required, PolicyRequiredMissing) {
    }
    forall p | p in Suggested(input) && p !in Paths(input.files)
      ensures Skipped(p, PackageSuggestionInvalid) in Missing(input.files, Suggested(input), PackageSuggestionInvalid) {
    }
  }

  lemma SkipsAreReadable(safe: string -> bool, input: Input)
    ensures NothingUnreadable(safe, input) <==>
      forall s :: s in ManifestSkips(safe, input, input.files) ==> !IsIncomplete(s.reason)
  {
    hide ReasonsOf, ManifestSkips;
    SkipMembers(safe, input, input.files);
    forall f | f in input.files ensures
      (Fate(safe, input, f).Some? && IsIncomplete(Fate(safe, input, f).value)) <==>
        !(safe(f.path) && (f.isText && ReasonsOf(input, f.path) != {} ==>
          f.size <= input.maxFileBytes && f.contentKey != "")) {
    }
  }

  // ----- coverage -----

  lemma {:induction false} IdsFindTheirFiles(files: seq<File>, f: File)
    requires DistinctIds(files) && f in files
    ensures NamedByItsId(files, f)
  {
    if f != files[|files| - 1] {
      var n := |files| - 1;
      assert f in files[..n] by {
        assert files == files[..n] + [files[n]];
      }
      LastIdIsNew(files, f);
      IdsFindTheirFiles(files[..n], f);
    }
  }

  lemma LastIdIsNew(files: seq<File>, f: File)
    requires DistinctIds(files) && f in files && f != files[|files| - 1]
    ensures f.id != files[|files| - 1].id
  {
  }

  lemma AskedOtherwiseHasReason(input: Input, path: string)
    requires path in Paths(input.files) && AskedOtherwise(input, path)
    ensures ReasonsOf(input, path) != {}
  {
    hide Counts, Suggested, ById, Reachable;
    var reason :=
      if path in input.required then PolicyRequired
      else if path in input.impact then IncrementalImpact
      else if path in Suggested(input) then PackageSuggested
      else if exists d :: d in input.diffs && Changes(d) && DiffPath(d) == path then Changed
      else DeterministicFinding;
    assert path in PathsFor(input, reason);
    EveryReason(reason);
    assert reason in ReasonsOf(input, path);
  }

  lemma ReachableHasReason(input: Input, id: string, path: string)
    requires StandsForReachable(input, id, path)
    ensures ReasonsOf(input, path) != {}
  {
    hide Counts, Suggested, ById, Reachable;
    var reason := if id in EntryIds(input.files) then Entrypoint else EntryDependency;
    assert path in PathsFor(input, reason);
    EveryReason(reason);
    assert reason in ReasonsOf(input, path);
  }

  lemma ReasonIsAsked(input: Input, path: string, reason: Reason)
    requires path in PathsFor(input, reason)
    ensures Asked(input, path)
  {
    hide Counts, Suggested, ById, Reachable;
    match reason
    case Entrypoint =>
      var id :| id in EntryIds(input.files) && id in ById(input.files) && ById(input.files)[id] == path;
      EntryIsReachable(input.edges, EntryIds(input.files), id);
      assert StandsForReachable(input, id, path);
    case EntryDependency =>
      var id :| id in Dependencies(input) && id in ById(input.files) && ById(input.files)[id] == path;
      assert StandsForReachable(input, id, path);
    case _ => assert AskedOtherwise(input, path);
  }

  /** The reasons collected loop by loop are the ones the review is asked for. */
  lemma ReasonsAreAsked(input: Input, path: string)
    requires path in Paths(input.files)
    ensures ReasonsOf(input, path) != {} <==> Asked(input, path)
  {
    hide PathsFor, AskedOtherwise, StandsForReachable, Paths;
    if ReasonsOf(input, path) != {} {
      var reason :| reason in ReasonsOf(input, path);
      ReasonIsAsked(input, path, reason);
    }
    if AskedOtherwise(input, path) {
      AskedOtherwiseHasReason(input, path);
    } else if id :| StandsForReachable(input, id, path) {
      ReachableHasReason(input, id, path);
    }
  }

  /** The plan reads the file: it is a candidate with its reasons and findings. */
  ghost predicate Reads(input: Input, plan: Plan, f: File) {
    CandidateFor(f, ReasonsOf(input, f.path), Hits(input, f.path)) in plan.candidates
  }

  /** A complete plan reads exactly those text files that the review is asked for. */
  lemma {:induction false} CompletePlanReadsExactly(safe: string -> bool, input: Input, plan: Plan, f: File)
    requires f in input.files && f.isText
    ensures IsPlan(safe, input, plan) && Complete(plan) ==>
      && (Reads(input, plan, f) <==> Asked(input, f.path))
      && ((exists c :: c in plan.candidates && c.path == f.path) <==> Asked(input, f.path))
  {
    hide Asked, ReasonsOf, Hits, IsPlan, Complete;
    if IsPlan(safe, input, plan) && Complete(plan) {
      assert f.path in Paths(input.files);
      ReasonsAreAsked(input, f.path);
      UnreasonedIsNoCandidate(safe, input, plan, f.path);
      assert CandidateFor(f, ReasonsOf(input, f.path), Hits(input, f.path)).path == f.path;
      if Asked(input, f.path) {
        ReasonedIsRead(safe, input, plan, f);
      }
    }
  }

  lemma ReasonedIsRead(safe: string -> bool, input: Input, plan: Plan, f: File)
    requires IsPlan(safe, input, plan) && Complete(plan)
    requires f in input.files && f.isText && ReasonsOf(input, f.path) != {}
    ensures Reads(input, plan, f)
  {
    hide ReasonsOf, Hits, CandidateFor, CandidatesOf, ManifestSkips, Missing, Suggested, Complete;
    CompleteExactly(safe, input, plan);
    CandidateMembers(safe, input, input.files);
    SameMembers(plan.candidates, CandidatesOf(safe, input, input.files));
  }

  lemma UnreasonedIsNoCandidate(safe: string -> bool, input: Input, plan: Plan, path: string)
    requires IsPlan(safe, input, plan)
    ensures ReasonsOf(input, path) == {} ==> forall c :: c in plan.candidates ==> c.path != path
  {
    hide ReasonsOf, CandidatesOf, Hits;
    CandidateMembers(safe, input, input.files);
    SameMembers(plan.candidates, CandidatesOf(safe, input, input.files));
  }

  /** When a complete plan reads a reachable text file: its identifier still stands for its path, or the path is
      asked for on another account. */
  lemma {:induction false} ReachableIsReadExactly(safe: string -> bool, input: Input, plan: Plan, f: File)
    requires f in input.files && f.isText && Reachable(input.edges, EntryIds(input.files), f.id)
    ensures IsPlan(safe, input, plan) && Complete(plan) ==>
      (Reads(input, plan, f) <==>
        || NamedByItsId(input.files, f) || AskedOtherwise(input, f.path)
        || exists id :: id != f.id && StandsForReachable(input, id, f.path))
  {
    hide IsPlan, Complete, Reads, AskedOtherwise, Reachable, ById;
    CompletePlanReadsExactly(safe, input, plan, f);
    assert NamedByItsId(input.files, f) <==> StandsForReachable(input, f.id, f.path);
  }

  lemma {:induction false} IdsStandForFiles(files: seq<File>, id: string)
    requires id in ById(files)
    ensures exists g :: g in files && g.id == id && g.path == ById(files)[id]
  {
    var n := |files| - 1;
    assert files[n] in files;
    if files[n].id != id {
      IdsStandForFiles(files[..n], id);
      var g :| g in files[..n] && g.id == id && g.path == ById(files[..n])[id];
      assert g in files;
    }
  }

  /** With distinct identifiers, as the database has them, a complete plan reads every reachable text file, and
      a text file at all exactly when a file of its path is reachable or the path is asked for otherwise. */
  lemma {:induction false} CompletePlanCovers(safe: string -> bool, input: Input, plan: Plan, f: File)
    requires f in input.files && f.isText && DistinctIds(input.files)
    ensures IsPlan(safe, input, plan) && Complete(plan) ==>
      (Reads(input, plan, f) <==>
        || AskedOtherwise(input, f.path)
        || exists g :: g in input.files && g.path == f.path && Reachable(input.edges, EntryIds(input.files), g.id))
  {
    hide IsPlan, Complete, Reads, AskedOtherwise, Reachable, ById, DistinctIds;
    CompletePlanReadsExactly(safe, input, plan, f);
    forall id | StandsForReachable(input, id, f.path)
      ensures exists g :: g in input.files && g.path == f.path && Reachable(input.edges, EntryIds(input.files), g.id)
    {
      IdsStandForFiles(input.files, id);
    }
    forall g | g in input.files && g.path == f.path && Reachable(input.edges, EntryIds(input.files), g.id)
      ensures StandsForReachable(input, g.id, f.path)
    {
      IdsFindTheirFiles(input.files, g);
    }
  }

  /** The candidates come in the order of their reasons' priority, then worst finding first, then by path. */
  lemma {:induction false} CandidatesInOrder(safe: string -> bool, input: Input, plan: Plan, i: nat, j: nat)
    requires i < j < |plan.candidates|
    ensures
      var a, b := plan.candidates[i], plan.candidates[j];
      IsPlan(safe, input, plan) ==>
        a.priority < b.priority || (a.priority == b.priority
          && (a.severityRank > b.severityRank || (a.severityRank == b.severityRank && Le(a.path, b.path))))
  {
    hide Fate, ReasonsOf, Hits, CandidatesOf;
    if IsPlan(safe, input, plan) {
      CandidateMembers(safe, input, input.files);
      SameMembers(plan.candidates, CandidatesOf(safe, input, input.files));
      var a, b := plan.candidates[i], plan.candidates[j];
      assert a in plan.candidates && b in plan.candidates;
      assert a.priority <= 4 && b.priority <= 4 && a.severityRank <= 5 && b.severityRank <= 5;
      KeyOrder(a, b);
    }
  }

  lemma KeyOrder(a: Candidate, b: Candidate)
    requires a.priority <= 4 && b.priority <= 4 && a.severityRank <= 5 && b.severityRank <= 5
    requires Le(CandidateKey()(a), CandidateKey()(b))
    ensures a.priority < b.priority || (a.priority == b.priority
      && (a.severityRank > b.severityRank || (a.severityRank == b.severityRank && Le(a.path, b.path))))
  {
    var x, y := CandidateKey()(a), CandidateKey()(b);
    assert x[1..][1..] == a.path && y[1..][1..] == b.path;
    assert Le(x, y) == (x[0] < y[0] || (x[0] == y[0] && Le(x[1..], y[1..])));
    assert Le(x[1..], y[1..]) == (x[1] < y[1] || (x[1] == y[1] && Le(x[1..][1..], y[1..][1..])));
  }

  lemma {:induction false} TerminatedOrder(p: string, q: string, x: string, y: string)
    requires Le(Terminated(p) + x, Terminated(q) + y)
    ensures if p == q then Le(x, y) else Le(p, q)
  {
    var a, b := Terminated(p) + x, Terminated(q) + y;
    if p == "" && q == "" {
      assert a[1..] == x && b[1..] == y;
    } else if p != "" && q != "" {
      assert a[1..][1..] == Terminated(p[1..]) + x && b[1..][1..] == Terminated(q[1..]) + y;
      assert a[0] == b[0] && a[1] == p[0] && b[1] == q[0] && Le(a[1..], b[1..]);
      if p[0] == q[0] {
        TerminatedOrder(p[1..], q[1..], x, y);
        assert p == [p[0]] + p[1..] && q == [q[0]] + q[1..];
      }
    }
  }

  /** The skipped files come by path, and for one path by the name of the reason. */
  lemma SkippedInOrder(safe: string -> bool, input: Input, plan: Plan, i: nat, j: nat)
    requires IsPlan(safe, input, plan) && i < j < |plan.skipped|
    ensures
      var a, b := plan.skipped[i], plan.skipped[j];
      if a.path == b.path then Le(ReasonName(a.reason), ReasonName(b.reason)) else Le(a.path, b.path)
  {
    hide ReasonName, CandidatesOf, ManifestSkips, Missing;
    var a, b := plan.skipped[i], plan.skipped[j];
    assert Le(SkipKey()(a), SkipKey()(b));
    TerminatedOrder(a.path, b.path, ReasonName(a.reason), ReasonName(b.reason));
  }

  // ----- a repeated id, which the database never holds -----

  function Lone(id: string, path: string, entry: bool): File {
    File(id, path, "", "", true, entry, 0, "key", false)
  }

  /** Two files of one id, the first of them the entrypoint. */
  function RepeatedId(): Input {
    Input([Lone("x", "a", true), Lone("x", "b", false)], [], [], [],
      [Run("r", "", true, true, Some([]), true)], "", [], 1, [], false, false)
  }

  /** The plan calls itself complete, but the entrypoint is not read: its id stands for the later file's path. */
  lemma {:induction false} RepeatedIdIsMissed(plan: Plan)
    requires IsPlan((path: string) => true, RepeatedId(), plan)
    ensures Complete(plan) && Reachable(RepeatedId().edges, EntryIds(RepeatedId().files), "x")
    ensures forall c :: c in plan.candidates ==> c.path != "a"
  {
    hide ReasonsOf, CandidatesOf, Complete, IsPlan, Reachable;
    RepeatedIdIsComplete((path: string) => true, plan);
    UnreasonedIsNoCandidate((path: string) => true, RepeatedId(), plan, "a");
    assert RepeatedId().files[0].isEntrypoint && RepeatedId().files[0] in RepeatedId().files;
    EntryIsReachable(RepeatedId().edges, EntryIds(RepeatedId().files), "x");
    OnlyTheLaterPath();
  }

  lemma RepeatedIdIsComplete(safe: string -> bool, plan: Plan)
    requires IsPlan(safe, RepeatedId(), plan) && forall path :: safe(path)
    ensures Complete(plan)
  {
    CompleteExactly(safe, RepeatedId(), plan);
    LatestPackageDecides(RepeatedId().runs, "", 0);
    RepeatedIdIsReadable(safe);
    hide Complete, NothingMissing, NothingUnreadable, ReasonsOf, CandidatesOf, ManifestSkips, Missing;
  }

  lemma RepeatedIdIsReadable(safe: string -> bool)
    requires forall path :: safe(path)
    ensures NothingMissing(RepeatedId()) && NothingUnreadable(safe, RepeatedId())
    ensures LatestPackage(RepeatedId().runs, "") == (Some([]), true) ==> Suggested(RepeatedId()) == []
  {
    hide ReasonsOf;
    LatestPackageDecides(RepeatedId().runs, "", 0);
  }

  lemma OnlyTheLaterPath()
    ensures ReasonsOf(RepeatedId(), "a") == {}
  {
    hide Reachable, Counts;
    var input := RepeatedId();
    var files := input.files;
    LatestPackageDecides(input.runs, "", 0);
    assert files[..1][..0] == [];
    assert ById(files) == map["x" := "b"];
    assert PathsOf(files, EntryIds(files)) <= {"b"} && PathsOf(files, Dependencies(input)) <= {"b"};
    assert "a" != "b";
    forall r: Reason ensures "a" !in PathsFor(input, r) {
      match r
      case Entrypoint =>
      case PolicyRequired =>
      case DeterministicFinding =>
      case Changed =>
      case EntryDependency =>
      case IncrementalImpact =>
      case PackageSuggested =>
    }
  }
}
