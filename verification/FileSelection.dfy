/**
 * apps/api/app/artifacts/file_review.py: which files of an artifact the review reads, why, and
 * when the resulting plan calls itself complete.
 */
module FileSelection {
  import opened Wrappers
  import opened Ordering
  import opened Sequences

  datatype Reason =
    | Entrypoint | PolicyRequired | DeterministicFinding | Changed | EntryDependency | IncrementalImpact
    | PackageSuggested

  datatype Severity = NoSeverity | Info | Low | Medium | High | Critical

  /** `graphDone`: the file's graph_status is "complete" or "analyzed". */
  datatype File = File(
    id: string, path: string, sha256: string, language: string, isText: bool, isEntrypoint: bool, size: int,
    contentKey: string, graphDone: bool)

  /** Absent values are "". */
  datatype Diff = Diff(changeType: string, resolvedPath: string, path: string)

  datatype Edge = Edge(source: string, target: string)

  datatype Finding = Finding(runId: string, deterministic: bool, status: string, path: string, severity: Severity)

  /** `suggested` is None when the run's result does not validate. */
  datatype Run = Run(
    id: string, policyVersionId: string, isPackageReview: bool, succeeded: bool,
    suggested: Option<seq<string>>, inputComplete: bool)

  /** `impact` and `graphReported` come from the artifact's import-graph coverage. */
  datatype Input = Input(
    files: seq<File>, diffs: seq<Diff>, edges: seq<Edge>, findings: seq<Finding>, runs: seq<Run>,
    policyVersionId: string, required: seq<string>, maxFileBytes: int,
    impact: seq<string>, graphRequired: bool, graphReported: bool)

  datatype SkipReason =
    | PolicyRequiredMissing | PackageSuggestionInvalid | UnsafeManifestPath | NonText | NotSelected | FileTooLarge
    | FileContentUnavailable

  datatype Skipped = Skipped(path: string, reason: SkipReason)

  datatype Candidate = Candidate(
    fileId: string, path: string, sha256: string, language: string, size: int, contentKey: string,
    priority: nat, severityRank: nat, reasons: seq<Reason>, findings: seq<Finding>)

  datatype Plan = Plan(candidates: seq<Candidate>, skipped: seq<Skipped>, graphComplete: bool, packageComplete: bool)

  // ----- the dependency closure -----

  predicate HasEdge(edges: seq<Edge>, a: string, b: string) {
    a != "" && b != "" && Edge(a, b) in edges
  }

  ghost predicate Walk(edges: seq<Edge>, w: seq<string>) {
    w != [] && forall i :: 0 < i < |w| ==> HasEdge(edges, w[i - 1], w[i])
  }

  /** Some walk along the edges leads from an entry to `x`. */
  ghost predicate Reachable(edges: seq<Edge>, entries: set<string>, x: string) {
    exists w :: Walk(edges, w) && w[0] in entries && w[|w| - 1] == x
  }

  lemma EntryIsReachable(edges: seq<Edge>, entries: set<string>, x: string)
    requires x in entries
    ensures Reachable(edges, entries, x)
  {
    assert Walk(edges, [x]);
  }

  lemma OneMoreEdge(edges: seq<Edge>, entries: set<string>, x: string, y: string)
    requires Reachable(edges, entries, x) && HasEdge(edges, x, y)
    ensures Reachable(edges, entries, y)
  {
    var w :| Walk(edges, w) && w[0] in entries && w[|w| - 1] == x;
    assert Walk(edges, w + [y]);
  }

  ghost predicate Closed(edges: seq<Edge>, reached: set<string>) {
    forall x, y :: x in reached && HasEdge(edges, x, y) ==> y in reached
  }

  /** A set that holds the entries and is closed under the edges holds every reachable node. */
  lemma {:induction false} ClosedHoldsWalks(edges: seq<Edge>, reached: set<string>, w: seq<string>)
    requires Closed(edges, reached) && Walk(edges, w) && w[0] in reached
    ensures w[|w| - 1] in reached
  {
    if |w| > 1 {
      var n := |w| - 1;
      assert Walk(edges, w[..n]);
      ClosedHoldsWalks(edges, reached, w[..n]);
      assert HasEdge(edges, w[n - 1], w[n]);
    }
  }

  function Next(adjacency: map<string, set<string>>, x: string): set<string> {
    if x in adjacency then adjacency[x] else {}
  }

  method Adjacency(edges: seq<Edge>) returns (adjacency: map<string, set<string>>)
    ensures forall x, y :: y in Next(adjacency, x) <==> HasEdge(edges, x, y)
  {
    adjacency := map[];
    for i := 0 to |edges|
      invariant forall x, y :: y in Next(adjacency, x) <==> HasEdge(edges[..i], x, y)
    {
      var e := edges[i];
      ghost var before := adjacency;
      if e.source != "" && e.target != "" {
        adjacency := adjacency[e.source := Next(adjacency, e.source) + {e.target}];
      }
      forall x, y ensures y in Next(adjacency, x) <==> HasEdge(edges[..i + 1], x, y) {
        assert edges[..i + 1] == edges[..i] + [e];
        assert y in Next(before, x) <==> HasEdge(edges[..i], x, y);
      }
    }
    assert edges[..|edges|] == edges;
  }

  /** Everything reached so far is reachable, and what is no longer pending has been expanded. */
  ghost predicate Exploring(edges: seq<Edge>, entries: set<string>, reached: set<string>, pending: set<string>) {
    && entries <= reached && pending <= reached
    && (forall x :: x in reached ==> Reachable(edges, entries, x))
    && (forall x, y :: x in reached - pending && HasEdge(edges, x, y) ==> y in reached)
  }

  ghost function Nodes(edges: seq<Edge>, entries: set<string>): set<string> {
    entries + set e | e in edges :: e.target
  }

  /** _dependency_closure: the worklist ends with exactly the reachable nodes. */
  method DependencyClosure(entries: set<string>, edges: seq<Edge>) returns (reached: set<string>)
    ensures forall x :: x in reached <==> Reachable(edges, entries, x)
  {
    hide Exploring, Reachable, HasEdge, SetOf, Nodes, Next;
    var adjacency := Adjacency(edges);
    reached := entries;
    var pending := SortedSet(entries);
    ExplorationStarts(edges, entries, pending);
    while pending != []
      invariant Exploring(edges, entries, reached, SetOf(pending))
      invariant reached <= Nodes(edges, entries)
      decreases |Nodes(edges, entries) - reached|, |pending|
    {
      var source := pending[0];
      var targets := SortedSet(Next(adjacency, source));
      ghost var reached0, rest := reached, pending[1..];
      assert pending == [source] + rest;
      SetOfOne(source, rest);
      SetOfMembers(targets);
      var added;
      reached, added := Expand(reached, targets);
      pending := pending[1..] + added;
      SetOfAppend(rest, added);
      ExploreOn(edges, entries, reached0, source, SetOf(rest), SetOf(targets));
      SmallerRest(Nodes(edges, entries), reached0, reached);
      SetOfMembers(added);
      assert reached == reached0 ==> added == [] by {
        assert added != [] ==> added[0] in added;
      }
    }
    ExplorationEnds(edges, entries, reached);
  }

  lemma ExplorationStarts(edges: seq<Edge>, entries: set<string>, pending: seq<string>)
    requires forall x :: x in pending <==> x in entries
    ensures Exploring(edges, entries, entries, SetOf(pending)) && entries <= Nodes(edges, entries)
  {
    forall x | x in entries ensures Reachable(edges, entries, x) {
      EntryIsReachable(edges, entries, x);
    }
  }

  lemma ExplorationEnds(edges: seq<Edge>, entries: set<string>, reached: set<string>)
    requires Exploring(edges, entries, reached, SetOf([]))
    ensures forall x :: x in reached <==> Reachable(edges, entries, x)
  {
    forall x | Reachable(edges, entries, x) ensures x in reached {
      var w :| Walk(edges, w) && w[0] in entries && w[|w| - 1] == x;
      ClosedHoldsWalks(edges, reached, w);
    }
  }

  lemma SetOfOne(x: string, rest: seq<string>)
    ensures SetOf([x] + rest) == {x} + SetOf(rest)
  {
  }

  lemma SetOfMembers(s: seq<string>)
    ensures forall x :: x in SetOf(s) <==> x in s
  {
  }

  /** The inner loop: targets not reached yet are reached now and queued. */
  method Expand(reached: set<string>, targets: seq<string>) returns (wider: set<string>, added: seq<string>)
    ensures wider == reached + SetOf(targets)
    ensures SetOf(added) == SetOf(targets) - reached
  {
    wider, added := reached, [];
    for i := 0 to |targets|
      invariant wider == reached + SetOf(targets[..i])
      invariant SetOf(added) == SetOf(targets[..i]) - reached
    {
      assert targets[..i + 1] == targets[..i] + [targets[i]];
      SetOfAppend(targets[..i], [targets[i]]);
      SetOfAppend(added, [targets[i]]);
      if targets[i] !in wider {
        wider := wider + {targets[i]};
        added := added + [targets[i]];
      }
    }
    assert targets[..|targets|] == targets;
  }

  lemma ExploreOn(
    edges: seq<Edge>, entries: set<string>, reached: set<string>, source: string, rest: set<string>,
    targets: set<string>)
    requires Exploring(edges, entries, reached, {source} + rest) && reached <= Nodes(edges, entries)
    requires forall y :: y in targets <==> HasEdge(edges, source, y)
    ensures Exploring(edges, entries, reached + targets, rest + (targets - reached))
    ensures reached + targets <= Nodes(edges, entries)
  {
    hide Reachable;
    assert source in reached;
    forall y | y in targets ensures Reachable(edges, entries, y) && y in Nodes(edges, entries) {
      OneMoreEdge(edges, entries, source, y);
      assert Edge(source, y) in edges;
    }
  }

  lemma SmallerRest(nodes: set<string>, a: set<string>, b: set<string>)
    requires a <= b <= nodes
    ensures b == a || |nodes - b| < |nodes - a|
  {
    if b != a {
      assert b == a + (b - a);
      var x :| x in b - a;
      SubsetSize(nodes - b, nodes - a - {x});
    }
  }

  lemma SubsetSize<T>(a: set<T>, b: set<T>)
    requires a <= b
    ensures |a| <= |b|
  {
    assert |b| == |a| + |b - a| by {
      assert b == a + (b - a);
    }
  }

  /** sorted(set) */
  method SortedSet(s: set<string>) returns (r: seq<string>)
    ensures forall x :: x in r <==> x in s
    ensures StrictlySorted(r)
  {
    var listed: seq<string> := [];
    var rest := s;
    while rest != {}
      invariant rest <= s && NoDup(listed)
      invariant forall x :: x in listed <==> x in s - rest
      decreases rest
    {
      var x :| x in rest;
      rest := rest - {x};
      NoDupAppend(listed, x);
      listed := listed + [x];
    }
    r := Sort(listed, (x: string) => x);
    SameMembers(listed, r);
    NoDupPermutation(listed, r);
  }

  // ----- why a file is read -----

  function Rank(s: Severity): (r: nat)
    ensures r <= 5
  {
    match s
    case NoSeverity => 0
    case Info => 1
    case Low => 2
    case Medium => 3
    case High => 4
    case Critical => 5
  }

  function Paths(files: seq<File>): set<string> {
    set f | f in files :: f.path
  }

  /** A later file with the same id replaces an earlier one. */
  function ById(files: seq<File>): map<string, string> {
    if files == [] then map[]
    else ById(files[..|files| - 1])[files[|files| - 1].id := files[|files| - 1].path]
  }

  function EntryIds(files: seq<File>): set<string> {
    set f | f in files && f.isEntrypoint :: f.id
  }

  function CurrentRuns(input: Input): set<string> {
    set r | r in input.runs && r.policyVersionId == input.policyVersionId :: r.id
  }

  /** An open deterministic finding of a current-policy run, in a file of the manifest. */
  predicate Counts(input: Input, f: Finding) {
    && f.runId in CurrentRuns(input) && f.deterministic && (f.status == "" || f.status == "open")
    && f.path != "" && f.path in Paths(input.files)
  }

  predicate Serious(input: Input, f: Finding) {
    Counts(input, f) && Rank(f.severity) >= Rank(Medium)
  }

  function DiffPath(d: Diff): string {
    if d.resolvedPath != "" then d.resolvedPath else d.path
  }

  predicate Changes(d: Diff) {
    d.changeType != "deleted"
  }

  function HitsAt(input: Input, path: string): Finding -> bool {
    (f: Finding) => Counts(input, f) && f.path == path
  }

  function Hits(input: Input, path: string): seq<Finding> {
    Filter(input.findings, HitsAt(input, path))
  }

  function Worst(findings: seq<Finding>): (r: nat)
    ensures r <= 5
  {
    if findings == [] then 0
    else
      var last := Rank(findings[|findings| - 1].severity);
      var before := Worst(findings[..|findings| - 1]);
      if before > last then before else last
  }

  predicate IsPackageReview(run: Run, policyVersionId: string) {
    run.isPackageReview && run.succeeded && (policyVersionId == "" || run.policyVersionId == policyVersionId)
  }

  /** _latest_package_result: the last successful package review decides. */
  function LatestPackage(runs: seq<Run>, policyVersionId: string): (Option<seq<string>>, bool) {
    if runs == [] then (None, false)
    else
      var last := runs[|runs| - 1];
      if !IsPackageReview(last, policyVersionId) then LatestPackage(runs[..|runs| - 1], policyVersionId)
      else if last.suggested.None? then (None, false)
      else (last.suggested, last.inputComplete)
  }

  function Suggested(input: Input): seq<string> {
    match LatestPackage(input.runs, input.policyVersionId).0 case Some(paths) => paths case None => []
  }

  /** The paths that carry a reason. */
  ghost function PathsFor(input: Input, reason: Reason): set<string> {
    match reason
    case Entrypoint => PathsOf(input.files, EntryIds(input.files))
    case PolicyRequired => Known(input.files, input.required)
    case DeterministicFinding => set f | f in input.findings && Serious(input, f) :: f.path
    case Changed => set d | d in input.diffs && Changes(d) && DiffPath(d) in Paths(input.files) :: DiffPath(d)
    case EntryDependency => PathsOf(input.files, Dependencies(input))
    case IncrementalImpact => Known(input.files, input.impact)
    case PackageSuggested => Known(input.files, Suggested(input))
  }

  function PathsOf(files: seq<File>, ids: set<string>): set<string> {
    set id | id in ids && id in ById(files) :: ById(files)[id]
  }

  function Known(files: seq<File>, paths: seq<string>): set<string> {
    set p | p in paths && p in Paths(files)
  }

  ghost function Dependencies(input: Input): set<string> {
    set id | id in ById(input.files) && Reachable(input.edges, EntryIds(input.files), id)
      && id !in EntryIds(input.files)
  }

  ghost function ReasonsOf(input: Input, path: string): set<Reason> {
    set r: Reason | r in AllReasons() && path in PathsFor(input, r)
  }

  function AllReasons(): set<Reason> {
    {Entrypoint, PolicyRequired, DeterministicFinding, Changed, EntryDependency, IncrementalImpact, PackageSuggested}
  }

  /** _candidate_priority */
  function Priority(reasons: set<Reason>): (p: nat)
    ensures p <= 4
  {
    if Entrypoint in reasons || PolicyRequired in reasons then 0
    else if DeterministicFinding in reasons then 1
    else if Changed in reasons || EntryDependency in reasons || IncrementalImpact in reasons then 2
    else if PackageSuggested in reasons then 3
    else 4
  }

  const REASON_ORDER: seq<Reason> :=
    [Entrypoint, PolicyRequired, DeterministicFinding, Changed, EntryDependency, IncrementalImpact, PackageSuggested]

  /** sorted(reasons, key=_REASON_ORDER.__getitem__) */
  function InReasonOrder(reasons: set<Reason>): seq<Reason> {
    Filter(REASON_ORDER, (r: Reason) => r in reasons)
  }

  // ----- what becomes of a file -----

  function Disposition(safe: string -> bool, maxFileBytes: int, f: File, reasons: set<Reason>): Option<SkipReason> {
    if !safe(f.path) then Some(UnsafeManifestPath)
    else if !f.isText then Some(NonText)
    else if reasons == {} then Some(NotSelected)
    else if f.size > maxFileBytes then Some(FileTooLarge)
    else if f.contentKey == "" then Some(FileContentUnavailable)
    else None
  }

  function SkippedAs(f: File, reason: SkipReason): Skipped {
    Skipped(if reason.UnsafeManifestPath? && |f.path| > 512 then f.path[..512] else f.path, reason)
  }

  function CandidateFor(f: File, reasons: set<Reason>, findings: seq<Finding>): Candidate {
    Candidate(
      f.id, f.path, f.sha256, f.language, f.size, f.contentKey,
      Priority(reasons), Worst(findings), InReasonOrder(reasons), findings)
  }

  ghost function Fate(safe: string -> bool, input: Input, f: File): Option<SkipReason> {
    Disposition(safe, input.maxFileBytes, f, ReasonsOf(input, f.path))
  }

  /** The candidates the manifest holds, in manifest order. */
  ghost function CandidatesOf(safe: string -> bool, input: Input, files: seq<File>): seq<Candidate> {
    if files == [] then []
    else
      var f := files[|files| - 1];
      CandidatesOf(safe, input, files[..|files| - 1])
        + if Fate(safe, input, f).None? then [CandidateFor(f, ReasonsOf(input, f.path), Hits(input, f.path))] else []
  }

  ghost function ManifestSkips(safe: string -> bool, input: Input, files: seq<File>): seq<Skipped> {
    if files == [] then []
    else
      var f := files[|files| - 1];
      ManifestSkips(safe, input, files[..|files| - 1])
        + if Fate(safe, input, f).Some? then [SkippedAs(f, Fate(safe, input, f).value)] else []
  }

  function Missing(files: seq<File>, paths: seq<string>, reason: SkipReason): seq<Skipped> {
    if paths == [] then []
    else
      var p := paths[|paths| - 1];
      Missing(files, paths[..|paths| - 1], reason) + if p in Paths(files) then [] else [Skipped(p, reason)]
  }

  /** (priority, -severity_rank, path) as one string. */
  function CandidateKey(): Candidate -> string {
    (c: Candidate) =>
      [('0' as int + if c.priority <= 4 then c.priority else 4) as char,
       ('0' as int + 5 - if c.severityRank <= 5 then c.severityRank else 5) as char] + c.path
  }

  function ReasonName(reason: SkipReason): string {
    match reason
    case PolicyRequiredMissing => "policy_required_missing"
    case PackageSuggestionInvalid => "package_suggestion_invalid"
    case UnsafeManifestPath => "unsafe_manifest_path"
    case NonText => "non_text"
    case NotSelected => "not_selected"
    case FileTooLarge => "file_too_large"
    case FileContentUnavailable => "file_content_unavailable"
  }

  /** A text whose end sorts before everything that goes on. */
  function Terminated(s: string): string {
    if s == "" then "\0" else "\U{1}" + [s[0]] + Terminated(s[1..])
  }

  /** (path, reason) as one string. */
  function SkipKey(): Skipped -> string {
    (s: Skipped) => Terminated(s.path) + ReasonName(s.reason)
  }

  function GraphComplete(input: Input): bool {
    !input.graphRequired
      || (input.graphReported && forall f :: f in input.files && f.language == "python" ==> f.graphDone)
  }

  /** FileSelectionPlan.complete */
  predicate Complete(plan: Plan) {
    plan.graphComplete && plan.packageComplete && forall s :: s in plan.skipped ==> !IsIncomplete(s.reason)
  }

  predicate IsIncomplete(reason: SkipReason) {
    || reason.FileContentUnavailable? || reason.FileTooLarge? || reason.PolicyRequiredMissing?
    || reason.PackageSuggestionInvalid? || reason.UnsafeManifestPath?
  }

  /** The plan of an input; candidates and skipped files are sorted by their keys. */
  ghost predicate IsPlan(safe: string -> bool, input: Input, plan: Plan) {
    && multiset(plan.candidates) == multiset(CandidatesOf(safe, input, input.files))
    && SortedBy(plan.candidates, CandidateKey()) && SortedBy(plan.skipped, SkipKey())
    && multiset(plan.skipped) == multiset(
      Missing(input.files, input.required, PolicyRequiredMissing)
      + Missing(input.files, Suggested(input), PackageSuggestionInvalid)
      + ManifestSkips(safe, input, input.files))
    && plan.graphComplete == GraphComplete(input)
    && plan.packageComplete == LatestPackage(input.runs, input.policyVersionId).1
  }

  // ----- building the plan -----

  type Tags = map<string, set<Reason>>

  function TagsAt(tags: Tags, path: string): set<Reason> {
    if path in tags then tags[path] else {}
  }

  function Tag(tags: Tags, path: string, reason: Reason): Tags {
    tags[path := TagsAt(tags, path) + {reason}]
  }

  ghost predicate Tagged(before: Tags, after: Tags, paths: set<string>, reason: Reason) {
    forall p :: TagsAt(after, p) == TagsAt(before, p) + if p in paths then {reason} else {}
  }

  lemma TagNone(tags: Tags, reason: Reason)
    ensures Tagged(tags, tags, {}, reason)
  {
  }

  lemma TagOne(before: Tags, after: Tags, paths: set<string>, path: string, reason: Reason)
    requires Tagged(before, after, paths, reason)
    ensures Tagged(before, Tag(after, path, reason), paths + {path}, reason)
  {
  }

  /** `for path in paths: if path in by_path: reasons[path].add(reason)`, with what is skipped otherwise. */
  method TagKnown(tags: Tags, files: seq<File>, paths: seq<string>, reason: Reason, otherwise: SkipReason)
    returns (after: Tags, missing: seq<Skipped>)
    ensures Tagged(tags, after, Known(files, paths), reason)
    ensures missing == Missing(files, paths, otherwise)
  {
    hide Tagged, Tag, Paths;
    after, missing := tags, [];
    TagNone(tags, reason);
    assert Known(files, paths[..0]) == {};
    for i := 0 to |paths|
      invariant Tagged(tags, after, Known(files, paths[..i]), reason)
      invariant missing == Missing(files, paths[..i], otherwise)
    {
      assert paths[..i + 1][..i] == paths[..i];
      KnownOneMore(files, paths, i);
      if paths[i] in Paths(files) {
        TagOne(tags, after, Known(files, paths[..i]), paths[i], reason);
        after := Tag(after, paths[i], reason);
      } else {
        missing := missing + [Skipped(paths[i], otherwise)];
      }
    }
    assert paths[..|paths|] == paths;
  }

  lemma KnownOneMore(files: seq<File>, paths: seq<string>, n: nat)
    requires n < |paths|
    ensures paths[n] in Paths(files) ==> Known(files, paths[..n + 1]) == Known(files, paths[..n]) + {paths[n]}
    ensures paths[n] !in Paths(files) ==> Known(files, paths[..n + 1]) == Known(files, paths[..n])
  {
    hide Paths;
    assert paths[..n + 1] == paths[..n] + [paths[n]];
  }

  method TagIds(tags: Tags, files: seq<File>, ids: set<string>, reason: Reason) returns (after: Tags)
    ensures Tagged(tags, after, PathsOf(files, ids), reason)
  {
    hide Tagged, Tag, ById;
    after := tags;
    var rest := ids;
    TagNone(tags, reason);
    assert PathsOf(files, ids - rest) == {};
    while rest != {}
      invariant rest <= ids
      invariant Tagged(tags, after, PathsOf(files, ids - rest), reason)
      decreases rest
    {
      var id :| id in rest;
      assert ids - (rest - {id}) == (ids - rest) + {id};
      PathsOfOneMore(files, ids - rest, id);
      if id in ById(files) {
        TagOne(tags, after, PathsOf(files, ids - rest), ById(files)[id], reason);
        after := Tag(after, ById(files)[id], reason);
      }
      rest := rest - {id};
    }
    assert ids - {} == ids;
  }

  lemma PathsOfOneMore(files: seq<File>, ids: set<string>, id: string)
    ensures id in ById(files) ==> PathsOf(files, ids + {id}) == PathsOf(files, ids) + {ById(files)[id]}
    ensures id !in ById(files) ==> PathsOf(files, ids + {id}) == PathsOf(files, ids)
  {
    hide ById;
  }

  method TagFindings(tags: Tags, input: Input)
    returns (after: Tags, findings: map<string, seq<Finding>>, risk: map<string, nat>)
    ensures Tagged(tags, after, PathsFor(input, DeterministicFinding), DeterministicFinding)
    ensures Collected(input, |input.findings|, findings, risk)
  {
    hide Tagged, Tag, Counts, Collected, WithFinding, WithRisk;
    after, findings, risk := tags, map[], map[];
    TagNone(tags, DeterministicFinding);
    assert SeriousPaths(input, 0) == {};
    CollectNone(input);
    for i := 0 to |input.findings|
      invariant Tagged(tags, after, SeriousPaths(input, i), DeterministicFinding)
      invariant Collected(input, i, findings, risk)
    {
      var f := input.findings[i];
      CollectOne(input, i, findings, risk);
      SeriousOneMore(input, i);
      TagOne(tags, after, SeriousPaths(input, i), f.path, DeterministicFinding);
      if Counts(input, f) {
        findings := WithFinding(findings, f);
        risk := WithRisk(risk, f);
        if Rank(f.severity) >= Rank(Medium) {
          after := Tag(after, f.path, DeterministicFinding);
        }
      }
    }
    assert input.findings[..|input.findings|] == input.findings;
    assert SeriousPaths(input, |input.findings|) == PathsFor(input, DeterministicFinding);
  }

  function FindingsAt(findings: map<string, seq<Finding>>, path: string): seq<Finding> {
    if path in findings then findings[path] else []
  }

  function RiskAt(risk: map<string, nat>, path: string): nat {
    if path in risk then risk[path] else 0
  }

  /** The findings and the risk recorded for `p` come from the first `n` findings. */
  ghost predicate CollectedAt(input: Input, n: nat, findings: map<string, seq<Finding>>, risk: map<string, nat>,
    p: string)
    requires n <= |input.findings|
  {
    FindingsAt(findings, p) == Filter(input.findings[..n], HitsAt(input, p))
      && RiskAt(risk, p) == Worst(FindingsAt(findings, p))
  }

  ghost predicate Collected(input: Input, n: nat, findings: map<string, seq<Finding>>, risk: map<string, nat>)
    requires n <= |input.findings|
  {
    forall p :: CollectedAt(input, n, findings, risk, p)
  }

  lemma CollectNone(input: Input)
    ensures Collected(input, 0, map[], map[])
  {
  }

  function WithFinding(findings: map<string, seq<Finding>>, f: Finding): map<string, seq<Finding>> {
    findings[f.path := FindingsAt(findings, f.path) + [f]]
  }

  function WithRisk(risk: map<string, nat>, f: Finding): map<string, nat> {
    var rank := Rank(f.severity);
    risk[f.path := if RiskAt(risk, f.path) > rank then RiskAt(risk, f.path) else rank]
  }

  lemma CollectOne(input: Input, n: nat, findings: map<string, seq<Finding>>, risk: map<string, nat>)
    requires n < |input.findings| && Collected(input, n, findings, risk)
    ensures
      var f := input.findings[n];
      if Counts(input, f) then Collected(input, n + 1, WithFinding(findings, f), WithRisk(risk, f))
      else Collected(input, n + 1, findings, risk)
  {
    hide Counts, CollectedAt, WithFinding, WithRisk;
    var f := input.findings[n];
    var findings' := if Counts(input, f) then WithFinding(findings, f) else findings;
    var risk' := if Counts(input, f) then WithRisk(risk, f) else risk;
    var m := n + 1;
    forall p ensures CollectedAt(input, m, findings', risk', p) {
      CollectOneAt(input, n, findings, risk, p);
    }
  }

  lemma CollectOneAt(input: Input, n: nat, findings: map<string, seq<Finding>>, risk: map<string, nat>, p: string)
    requires n < |input.findings| && CollectedAt(input, n, findings, risk, p)
    ensures
      var f := input.findings[n];
      if Counts(input, f) then CollectedAt(input, n + 1, WithFinding(findings, f), WithRisk(risk, f), p)
      else CollectedAt(input, n + 1, findings, risk, p)
  {
    hide Counts, Filter, Rank, HitsAt;
    var f, hits := input.findings[n], FindingsAt(findings, p);
    HitOneMore(input, n, p);
    assert (hits + [f])[..|hits|] == hits;
  }

  lemma HitOneMore(input: Input, n: nat, p: string)
    requires n < |input.findings|
    ensures Filter(input.findings[..n + 1], HitsAt(input, p)) ==
      Filter(input.findings[..n], HitsAt(input, p))
      + (if Counts(input, input.findings[n]) && input.findings[n].path == p then [input.findings[n]] else [])
  {
    hide Counts;
    var f := input.findings[n];
    assert input.findings[..n + 1] == input.findings[..n] + [f];
    FilterAppend(input.findings[..n], [f], HitsAt(input, p));
    assert Filter([f], HitsAt(input, p)) == (if Counts(input, f) && f.path == p then [f] else [])
      + Filter([], HitsAt(input, p));
  }

  ghost function SeriousPaths(input: Input, n: nat): set<string>
    requires n <= |input.findings|
  {
    set f | f in input.findings[..n] && Serious(input, f) :: f.path
  }

  lemma SeriousOneMore(input: Input, n: nat)
    requires n < |input.findings|
    ensures Serious(input, input.findings[n]) ==>
      SeriousPaths(input, n + 1) == SeriousPaths(input, n) + {input.findings[n].path}
    ensures !Serious(input, input.findings[n]) ==> SeriousPaths(input, n + 1) == SeriousPaths(input, n)
  {
    hide Counts;
    assert input.findings[..n + 1] == input.findings[..n] + [input.findings[n]];
  }

  method TagChanged(tags: Tags, input: Input) returns (after: Tags)
    ensures Tagged(tags, after, PathsFor(input, Changed), Changed)
  {
    hide Tagged, Tag, Paths;
    after := tags;
    TagNone(tags, Changed);
    assert ChangedPaths(input, 0) == {};
    for i := 0 to |input.diffs|
      invariant Tagged(tags, after, ChangedPaths(input, i), Changed)
    {
      var d := input.diffs[i];
      ChangedOneMore(input, i);
      if Changes(d) && DiffPath(d) in Paths(input.files) {
        TagOne(tags, after, ChangedPaths(input, i), DiffPath(d), Changed);
        after := Tag(after, DiffPath(d), Changed);
      }
    }
    assert input.diffs[..|input.diffs|] == input.diffs;
    assert ChangedPaths(input, |input.diffs|) == PathsFor(input, Changed);
  }

  lemma ChangedOneMore(input: Input, n: nat)
    requires n < |input.diffs|
    ensures
      var d := input.diffs[n];
      if Changes(d) && DiffPath(d) in Paths(input.files) then
        ChangedPaths(input, n + 1) == ChangedPaths(input, n) + {DiffPath(d)}
      else ChangedPaths(input, n + 1) == ChangedPaths(input, n)
  {
    hide Paths;
    assert input.diffs[..n + 1] == input.diffs[..n] + [input.diffs[n]];
  }

  ghost function ChangedPaths(input: Input, n: nat): set<string>
    requires n <= |input.diffs|
  {
    set d | d in input.diffs[..n] && Changes(d) && DiffPath(d) in Paths(input.files) :: DiffPath(d)
  }

  /** The last succeeded package review under the policy decides; if it is invalid, or there is none, nothing is
      suggested and the package input is incomplete. */
  lemma {:induction false} LatestPackageDecides(runs: seq<Run>, policyVersionId: string, i: nat)
    requires i < |runs| && IsPackageReview(runs[i], policyVersionId)
    requires forall j :: i < j < |runs| ==> !IsPackageReview(runs[j], policyVersionId)
    ensures LatestPackage(runs, policyVersionId) ==
      if runs[i].suggested.Some? then (runs[i].suggested, runs[i].inputComplete) else (None, false)
  {
    if i < |runs| - 1 {
      assert !IsPackageReview(runs[|runs| - 1], policyVersionId);
      LatestPackageDecides(runs[..|runs| - 1], policyVersionId, i);
    }
  }

  lemma {:induction false} NoPackageReview(runs: seq<Run>, policyVersionId: string)
    requires forall j :: 0 <= j < |runs| ==> !IsPackageReview(runs[j], policyVersionId)
    ensures LatestPackage(runs, policyVersionId) == (None, false)
  {
    if runs != [] {
      assert !IsPackageReview(runs[|runs| - 1], policyVersionId);
      NoPackageReview(runs[..|runs| - 1], policyVersionId);
    }
  }

  method LatestPackageResult(runs: seq<Run>, policyVersionId: string)
    returns (suggested: Option<seq<string>>, complete: bool)
    ensures (suggested, complete) == LatestPackage(runs, policyVersionId)
  {
    var n := |runs|;
    assert runs[..n] == runs;
    while n > 0
      invariant 0 <= n <= |runs|
      invariant LatestPackage(runs, policyVersionId) == LatestPackage(runs[..n], policyVersionId)
    {
      n := n - 1;
      assert runs[..n + 1][..n] == runs[..n];
      if !runs[n].isPackageReview || !runs[n].succeeded
        || (policyVersionId != "" && runs[n].policyVersionId != policyVersionId)
      {
        continue;
      }
      if runs[n].suggested.None? {
        return None, false;
      }
      return runs[n].suggested, runs[n].inputComplete;
    }
    suggested, complete := None, false;
  }

  ghost function Mark(input: Input, path: string, reason: Reason): set<Reason> {
    if path in PathsFor(input, reason) then {reason} else {}
  }

  lemma EveryReason(r: Reason)
    ensures r in AllReasons()
  {
    match r
    case Entrypoint =>
    case PolicyRequired =>
    case DeterministicFinding =>
    case Changed =>
    case EntryDependency =>
    case IncrementalImpact =>
    case PackageSuggested =>
  }

  lemma ReasonsAreMarks(input: Input, p: string)
    ensures ReasonsOf(input, p) ==
      Mark(input, p, Entrypoint) + Mark(input, p, PolicyRequired) + Mark(input, p, DeterministicFinding)
      + Mark(input, p, Changed) + Mark(input, p, EntryDependency) + Mark(input, p, IncrementalImpact)
      + Mark(input, p, PackageSuggested)
  {
    hide PathsFor;
    forall r ensures r in Mark(input, p, r) <==> r in ReasonsOf(input, p) {
      EveryReason(r);
    }
  }

  lemma TagMarks(input: Input, before: Tags, after: Tags, reason: Reason, p: string)
    requires Tagged(before, after, PathsFor(input, reason), reason)
    ensures TagsAt(after, p) == TagsAt(before, p) + Mark(input, p, reason)
  {
    hide PathsFor;
  }

  /** Tagging reason by reason from nothing ends with the reasons of every path. */
  lemma TagsAreReasons(input: Input, t1: Tags, t2: Tags, t3: Tags, t4: Tags, t5: Tags, t6: Tags, t7: Tags)
    requires Tagged(map[], t1, PathsFor(input, Entrypoint), Entrypoint)
    requires Tagged(t1, t2, PathsFor(input, PolicyRequired), PolicyRequired)
    requires Tagged(t2, t3, PathsFor(input, DeterministicFinding), DeterministicFinding)
    requires Tagged(t3, t4, PathsFor(input, Changed), Changed)
    requires Tagged(t4, t5, PathsFor(input, EntryDependency), EntryDependency)
    requires Tagged(t5, t6, PathsFor(input, IncrementalImpact), IncrementalImpact)
    requires Tagged(t6, t7, PathsFor(input, PackageSuggested), PackageSuggested)
    ensures forall p :: TagsAt(t7, p) == ReasonsOf(input, p)
  {
    hide PathsFor, Tagged, Mark, ReasonsOf;
    forall p ensures TagsAt(t7, p) == ReasonsOf(input, p) {
      TagMarks(input, map[], t1, Entrypoint, p);
      TagMarks(input, t1, t2, PolicyRequired, p);
      TagMarks(input, t2, t3, DeterministicFinding, p);
      TagMarks(input, t3, t4, Changed, p);
      TagMarks(input, t4, t5, EntryDependency, p);
      TagMarks(input, t5, t6, IncrementalImpact, p);
      TagMarks(input, t6, t7, PackageSuggested, p);
      ReasonsAreMarks(input, p);
    }
  }

  lemma DependencyPaths(input: Input, closure: set<string>)
    requires forall x :: x in closure <==> Reachable(input.edges, EntryIds(input.files), x)
    ensures PathsOf(input.files, closure - EntryIds(input.files)) == PathsFor(input, EntryDependency)
  {
    hide ById, Reachable, EntryIds;
  }

  /** The loop over the manifest: every file becomes a candidate or is skipped. */
  method Sweep(safe: string -> bool, input: Input, tags: Tags, findings: map<string, seq<Finding>>,
    risk: map<string, nat>)
    returns (candidates: seq<Candidate>, skipped: seq<Skipped>)
    requires forall p :: TagsAt(tags, p) == ReasonsOf(input, p)
    requires Collected(input, |input.findings|, findings, risk)
    ensures candidates == CandidatesOf(safe, input, input.files)
    ensures skipped == ManifestSkips(safe, input, input.files)
  {
    hide ReasonsOf, Hits, Priority, Worst, InReasonOrder;
    candidates, skipped := [], [];
    for i := 0 to |input.files|
      invariant candidates == CandidatesOf(safe, input, input.files[..i])
      invariant skipped == ManifestSkips(safe, input, input.files[..i])
    {
      var f := input.files[i];
      assert input.files[..i + 1][..i] == input.files[..i];
      HitsCollected(input, findings, risk, f.path);
      var reasons := TagsAt(tags, f.path);
      var skip := Disposition(safe, input.maxFileBytes, f, reasons);
      if skip.Some? {
        skipped := skipped + [SkippedAs(f, skip.value)];
      } else {
        candidates := candidates
          + [Candidate(
            f.id, f.path, f.sha256, f.language, f.size, f.contentKey,
            Priority(reasons), RiskAt(risk, f.path), InReasonOrder(reasons), FindingsAt(findings, f.path))];
      }
    }
    assert input.files[..|input.files|] == input.files;
  }

  lemma HitsCollected(input: Input, findings: map<string, seq<Finding>>, risk: map<string, nat>, p: string)
    requires Collected(input, |input.findings|, findings, risk)
    ensures FindingsAt(findings, p) == Hits(input, p) && RiskAt(risk, p) == Worst(Hits(input, p))
  {
    assert CollectedAt(input, |input.findings|, findings, risk, p);
    assert input.findings[..|input.findings|] == input.findings;
  }

  /** FileCandidateSelector.build */
  method Build(safe: string -> bool, input: Input) returns (plan: Plan)
    ensures IsPlan(safe, input, plan)
  {
    hide Tagged, Collected, ReasonsOf, EntryIds, Paths, CandidatesOf, ManifestSkips, Missing, LatestPackage,
      PathsOf, Known,
      Reachable, Sort, SortedBy, GraphComplete, TagsAt;
    var entryIds := EntryIds(input.files);
    var t0: Tags := map[];
    var t1 := TagIds(t0, input.files, entryIds, Entrypoint);
    var t2, missing := TagKnown(t1, input.files, input.required, PolicyRequired, PolicyRequiredMissing);
    var t3, findings, risk := TagFindings(t2, input);
    var t4 := TagChanged(t3, input);
    var closure := DependencyClosure(entryIds, input.edges);
    var t5 := TagIds(t4, input.files, closure - entryIds, EntryDependency);
    DependencyPaths(input, closure);
    var t6, _ := TagKnown(t5, input.files, input.impact, IncrementalImpact, NotSelected);
    var suggested, packageComplete := LatestPackageResult(input.runs, input.policyVersionId);
    var paths := if suggested.Some? then suggested.value else [];
    var t7, invalid := TagKnown(t6, input.files, paths, PackageSuggested, PackageSuggestionInvalid);
    TagsAreReasons(input, t1, t2, t3, t4, t5, t6, t7);
    var candidates, skips := Sweep(safe, input, t7, findings, risk);
    var graphComplete := GraphComplete(input);
    plan := Plan(
      Sort(candidates, CandidateKey()), Sort(missing + invalid + skips, SkipKey()), graphComplete, packageComplete);
  }
}
