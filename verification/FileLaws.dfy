/** Why a file is read, how urgently, and what becomes of it, said on the fields of the input. */
module FileLaws {
  import opened Wrappers
  import opened Ordering
  import opened Sequences
  import opened FileSelection
  import opened FileCoverage

  // ----- severities and findings -----

  /** The severities in their order. */
  lemma RankExactly(s: Severity)
    ensures Rank(s) == match s
      case NoSeverity => 0
      case Info => 1
      case Low => 2
      case Medium => 3
      case High => 4
      case Critical => 5
  {
  }

  predicate KnownPath(input: Input, path: string) {
    exists i :: 0 <= i < |input.files| && input.files[i].path == path
  }

  /** The finding belongs to a run under the artifact's policy version. */
  predicate OfCurrentRun(input: Input, h: Finding) {
    exists i :: 0 <= i < |input.runs| && input.runs[i].id == h.runId
      && input.runs[i].policyVersionId == input.policyVersionId
  }

  /** An open deterministic finding of a current run in a file of the manifest. */
  predicate CountedFinding(input: Input, h: Finding) {
    && h.deterministic && (h.status == "open" || |h.status| == 0) && OfCurrentRun(input, h)
    && |h.path| > 0 && KnownPath(input, h.path)
  }

  lemma KnownExactly(input: Input, path: string)
    ensures path in Paths(input.files) <==> KnownPath(input, path)
  {
    if KnownPath(input, path) {
      var i :| 0 <= i < |input.files| && input.files[i].path == path;
      assert input.files[i] in input.files;
    }
  }

  lemma CountsExactly(input: Input, h: Finding)
    ensures Counts(input, h) <==> CountedFinding(input, h)
  {
    hide Paths;
    KnownExactly(input, h.path);
    if OfCurrentRun(input, h) {
      var i :| 0 <= i < |input.runs| && input.runs[i].id == h.runId
        && input.runs[i].policyVersionId == input.policyVersionId;
      assert input.runs[i] in input.runs;
    }
  }

  lemma SeriousExactly(input: Input, h: Finding)
    ensures Serious(input, h) <==> CountedFinding(input, h) && h.severity in {Medium, High, Critical}
  {
    hide Counts;
    CountsExactly(input, h);
    RankExactly(h.severity);
  }

  /** A candidate's findings are the counted ones of its file, and its rank is that of the worst. */
  lemma {:induction false} WorstIsHighest(findings: seq<Finding>)
    ensures forall h :: h in findings ==> Rank(h.severity) <= Worst(findings)
    ensures findings != [] ==> exists h :: h in findings && Rank(h.severity) == Worst(findings)
    ensures findings == [] ==> Worst(findings) == 0
  {
    if findings != [] {
      var n := |findings| - 1;
      WorstIsHighest(findings[..n]);
      assert forall h :: h in findings <==> h in findings[..n] || h == findings[n] by {
        assert findings == findings[..n] + [findings[n]];
      }
      assert findings[n] in findings;
    }
  }

  lemma HitsExactly(input: Input, path: string)
    ensures forall h :: h in Hits(input, path) <==> h in input.findings && CountedFinding(input, h) && h.path == path
  {
    hide Counts;
    forall h ensures h in Hits(input, path) <==> h in input.findings && CountedFinding(input, h) && h.path == path {
      CountsExactly(input, h);
    }
  }

  // ----- reasons -----

  /** The identifier of an entrypoint. */
  predicate EntryId(input: Input, id: string) {
    exists i :: 0 <= i < |input.files| && input.files[i].isEntrypoint && input.files[i].id == id
  }

  lemma EntryExactly(input: Input, id: string)
    ensures id in EntryIds(input.files) <==> EntryId(input, id)
  {
    if EntryId(input, id) {
      var i :| 0 <= i < |input.files| && input.files[i].isEntrypoint && input.files[i].id == id;
      assert input.files[i] in input.files;
    }
  }

  predicate StandsFor(input: Input, id: string, path: string) {
    id in ById(input.files) && ById(input.files)[id] == path
  }

  /** The path a diff is about: the one it was resolved to, if any. */
  predicate ChangesPath(d: Diff, path: string) {
    d.changeType != "deleted" && path == if |d.resolvedPath| > 0 then d.resolvedPath else d.path
  }

  /** A counted finding of medium severity or worse in this file. */
  predicate SeriousHit(input: Input, h: Finding, path: string) {
    CountedFinding(input, h) && h.severity in {Medium, High, Critical} && h.path == path
  }

  /** Reachable from an entrypoint without being one. */
  ghost predicate Depended(input: Input, id: string) {
    Reachable(input.edges, EntryIds(input.files), id) && !EntryId(input, id)
  }

  /** Each reason is given to exactly the paths it is meant for. */
  lemma {:induction false} ReasonExactly(input: Input, path: string, reason: Reason)
    requires KnownPath(input, path)
    ensures reason in ReasonsOf(input, path) <==>
      match reason
      case Entrypoint => exists id :: StandsFor(input, id, path) && EntryId(input, id)
      case PolicyRequired => path in input.required
      case DeterministicFinding => exists h :: h in input.findings && SeriousHit(input, h, path)
      case Changed => exists d :: d in input.diffs && ChangesPath(d, path)
      case EntryDependency => exists id :: StandsFor(input, id, path) && Depended(input, id)
      case IncrementalImpact => path in input.impact
      case PackageSuggested => path in Suggested(input)
  {
    hide Reachable, Counts, ById, Suggested, Paths, SeriousHit, Depended, PathsFor;
    EveryReason(reason);
    KnownExactly(input, path);
    TaggedPaths(input, path, reason);
    forall id ensures id in EntryIds(input.files) <==> EntryId(input, id) {
      EntryExactly(input, id);
    }
  }

  lemma TaggedPaths(input: Input, path: string, reason: Reason)
    requires path in Paths(input.files)
    ensures path in PathsFor(input, reason) <==>
      match reason
      case Entrypoint => exists id :: StandsFor(input, id, path) && id in EntryIds(input.files)
      case PolicyRequired => path in input.required
      case DeterministicFinding => exists h :: h in input.findings && SeriousHit(input, h, path)
      case Changed => exists d :: d in input.diffs && ChangesPath(d, path)
      case EntryDependency => exists id :: StandsFor(input, id, path) && Depended(input, id)
      case IncrementalImpact => path in input.impact
      case PackageSuggested => path in Suggested(input)
  {
    hide Reachable, Serious, ById, Suggested, Paths, EntryIds, EntryId, CountedFinding;
    forall id ensures id in EntryIds(input.files) <==> EntryId(input, id) {
      EntryExactly(input, id);
    }
    forall h ensures Serious(input, h) <==> CountedFinding(input, h) && h.severity in {Medium, High, Critical} {
      SeriousExactly(input, h);
    }
    match reason
    case Entrypoint =>
    case PolicyRequired =>
    case DeterministicFinding =>
      if h :| h in input.findings && SeriousHit(input, h, path) {
        assert Serious(input, h);
      }
    case Changed =>
      if d :| d in input.diffs && ChangesPath(d, path) {
        assert Changes(d) && DiffPath(d) == path;
      }
    case EntryDependency =>
      if id :| StandsFor(input, id, path) && Depended(input, id) {
        assert id in Dependencies(input);
      }
      if path in PathsOf(input.files, Dependencies(input)) {
        var id :| id in Dependencies(input) && id in ById(input.files) && ById(input.files)[id] == path;
        assert StandsFor(input, id, path) && Depended(input, id);
      }
    case IncrementalImpact =>
    case PackageSuggested =>
  }

  /** How urgent a set of reasons is. */
  lemma PriorityExactly(reasons: set<Reason>)
    ensures Priority(reasons) == 0 <==> Entrypoint in reasons || PolicyRequired in reasons
    ensures Priority(reasons) == 1 <==> reasons !! {Entrypoint, PolicyRequired} && DeterministicFinding in reasons
    ensures Priority(reasons) == 2 <==>
      reasons !! {Entrypoint, PolicyRequired, DeterministicFinding}
      && !(reasons !! {Changed, EntryDependency, IncrementalImpact})
    ensures Priority(reasons) == 3 <==> reasons == {PackageSuggested}
    ensures Priority(reasons) == 4 <==> reasons == {}
  {
    forall r ensures r in reasons ==> r in AllReasons() {
      EveryReason(r);
    }
  }

  function Place(reason: Reason): nat {
    match reason
    case Entrypoint => 0
    case PolicyRequired => 1
    case DeterministicFinding => 2
    case Changed => 3
    case EntryDependency => 4
    case IncrementalImpact => 5
    case PackageSuggested => 6
  }

  predicate Ascending(list: seq<Reason>) {
    forall i, j :: 0 <= i < j < |list| ==> Place(list[i]) < Place(list[j])
  }

  lemma {:induction false} FilterAscends(list: seq<Reason>, keep: Reason -> bool)
    requires Ascending(list)
    ensures Ascending(Filter(list, keep))
  {
    if list != [] {
      FilterAscends(list[1..], keep);
      var rest := Filter(list[1..], keep);
      assert forall j :: 0 <= j < |rest| ==> rest[j] in list[1..];
    }
  }

  /** The reasons are listed once each, in their fixed order. */
  lemma ListedExactly(reasons: set<Reason>)
    ensures Ascending(InReasonOrder(reasons)) && forall r :: r in InReasonOrder(reasons) <==> r in reasons
  {
    hide Filter;
    OrderAscends();
    FilterAscends(REASON_ORDER, (r: Reason) => r in reasons);
  }

  lemma OrderAscends()
    ensures Ascending(REASON_ORDER) && forall r :: r in REASON_ORDER
  {
    assert |REASON_ORDER| == 7;
    forall i | 0 <= i < |REASON_ORDER| ensures Place(REASON_ORDER[i]) == i {
    }
    forall r ensures r in REASON_ORDER {
      assert REASON_ORDER[Place(r)] == r;
    }
  }

  // ----- what becomes of a file -----

  /** A file is skipped for the first of these that holds, and read if none does. */
  lemma {:induction false} FateExactly(safe: string -> bool, input: Input, f: File)
    ensures Fate(safe, input, f) ==
      if !safe(f.path) then Some(UnsafeManifestPath)
      else if !f.isText then Some(NonText)
      else if forall r :: r !in ReasonsOf(input, f.path) then Some(NotSelected)
      else if f.size > input.maxFileBytes then Some(FileTooLarge)
      else if |f.contentKey| == 0 then Some(FileContentUnavailable)
      else None
  {
    hide ReasonsOf;
    assert ReasonsOf(input, f.path) == {} <==> forall r :: r !in ReasonsOf(input, f.path);
  }

  /** A candidate carries its file's own fields, the priority of its reasons and its findings. */
  lemma {:induction false} CandidateExactly(f: File, reasons: set<Reason>, findings: seq<Finding>)
    ensures CandidateFor(f, reasons, findings) == Candidate(
      f.id, f.path, f.sha256, f.language, f.size, f.contentKey, Priority(reasons), Worst(findings),
      InReasonOrder(reasons), findings)
    ensures forall reason: SkipReason ::
      SkippedAs(f, reason).reason == reason
      && SkippedAs(f, reason).path <= f.path
      && |SkippedAs(f, reason).path| ==
        if reason == UnsafeManifestPath && |f.path| > 512 then 512 else |f.path|
  {
  }

  /** The graph is complete unless it is required and was not reported, or a Python file has no finished graph. */
  lemma GraphExactly(input: Input)
    ensures GraphComplete(input) <==>
      (input.graphRequired ==>
        input.graphReported
        && forall i :: 0 <= i < |input.files| && input.files[i].language == "python" ==> input.files[i].graphDone)
  {
    if input.graphRequired && input.graphReported
      && forall i :: 0 <= i < |input.files| && input.files[i].language == "python" ==> input.files[i].graphDone
    {
      forall f | f in input.files && f.language == "python" ensures f.graphDone {
        var i :| 0 <= i < |input.files| && input.files[i] == f;
      }
    }
  }

  /** A succeeded package review under the policy version, or under any if the artifact has none. */
  lemma ReviewExactly(run: Run, policyVersionId: string)
    ensures IsPackageReview(run, policyVersionId) <==>
      run.isPackageReview && run.succeeded && (|policyVersionId| == 0 || run.policyVersionId == policyVersionId)
  {
  }

  /** A plan is complete if its inputs are and nothing is skipped as missing, unsafe, too large or unavailable. */
  lemma CompleteMeans(plan: Plan)
    ensures Complete(plan) <==>
      plan.graphComplete && plan.packageComplete
      && forall s :: s in plan.skipped ==> s.reason == NonText || s.reason == NotSelected
  {
    forall reason: SkipReason ensures IsIncomplete(reason) <==> !(reason == NonText || reason == NotSelected) {
      match reason
      case PolicyRequiredMissing =>
      case PackageSuggestionInvalid =>
      case UnsafeManifestPath =>
      case NonText =>
      case NotSelected =>
      case FileTooLarge =>
      case FileContentUnavailable =>
    }
  }

  /** An edge counts if both ends are named. */
  lemma EdgeExactly(edges: seq<Edge>, a: string, b: string)
    ensures HasEdge(edges, a, b) <==>
      |a| > 0 && |b| > 0 && exists i :: 0 <= i < |edges| && edges[i].source == a && edges[i].target == b
  {
    if |a| > 0 && |b| > 0 && exists i :: 0 <= i < |edges| && edges[i].source == a && edges[i].target == b {
      var i :| 0 <= i < |edges| && edges[i].source == a && edges[i].target == b;
      assert edges[i] == Edge(a, b);
    }
  }

  // ----- the order of the skipped files -----

  /** The place of a reason in the order of the names. */
  function NamePlace(reason: SkipReason): nat {
    match reason
    case FileContentUnavailable => 0
    case FileTooLarge => 1
    case NonText => 2
    case NotSelected => 3
    case PackageSuggestionInvalid => 4
    case PolicyRequiredMissing => 5
    case UnsafeManifestPath => 6
  }

  lemma NextName(a: SkipReason, b: SkipReason)
    requires NamePlace(b) == NamePlace(a) + 1
    ensures Le(ReasonName(a), ReasonName(b)) && !Le(ReasonName(b), ReasonName(a))
  {
    var x, y, k := ReasonName(a), ReasonName(b), if a.FileContentUnavailable? then 5 else if a.NonText? then 2
      else if a.PackageSuggestionInvalid? then 1 else 0;
    assert SmallerAt(x, y, k);
    LeExactly(x, y);
    if Le(y, x) {
      LeAntisymmetric(x, y);
    }
  }

  lemma {:induction false} NamesAscend(a: SkipReason, b: SkipReason)
    requires NamePlace(a) < NamePlace(b)
    ensures Le(ReasonName(a), ReasonName(b)) && !Le(ReasonName(b), ReasonName(a))
    decreases NamePlace(b)
  {
    hide ReasonName;
    if NamePlace(a) + 1 == NamePlace(b) {
      NextName(a, b);
    } else {
      var c :| NamePlace(c) + 1 == NamePlace(b);
      NamesAscend(a, c);
      NextName(c, b);
      LeTransitive(ReasonName(a), ReasonName(c), ReasonName(b));
      if Le(ReasonName(b), ReasonName(a)) {
        LeTransitive(ReasonName(b), ReasonName(a), ReasonName(c));
      }
    }
  }

  /** The skipped files come by path, and for one path in the order of the reasons' names. */
  lemma {:induction false} SkippedByReason(safe: string -> bool, input: Input, plan: Plan, i: nat, j: nat)
    requires IsPlan(safe, input, plan) && i < j < |plan.skipped|
    ensures
      var a, b := plan.skipped[i], plan.skipped[j];
      if a.path == b.path then NamePlace(a.reason) <= NamePlace(b.reason) else Le(a.path, b.path)
  {
    hide IsPlan, ReasonName;
    var a, b := plan.skipped[i], plan.skipped[j];
    SkippedInOrder(safe, input, plan, i, j);
    if NamePlace(b.reason) < NamePlace(a.reason) {
      NamesAscend(b.reason, a.reason);
    }
  }
}
