/** Lease safety, progress and bounds of the dispatch queue, over every interleaving of its operations. */
module DispatchRuns {
  import opened Wrappers
  import opened Dispatches

  datatype Step =
    | Opening(creation: Creation)
    | Claiming(runner: string, limit: int, leaseSeconds: int, now: int, chosen: set<string>)
    | Renewing(id: string, runner: string, leaseSeconds: int, now: int)
    | Completing(id: string, runner: string, status: Status, errorCode: string)
    | Expiring(limit: int, now: int, chosen: set<string>)
    | Cancelling(id: string, errorCode: string)
    | Collecting(id: string, collection: Collection)
    | AddingRun(runId: string, run: ReviewRun)
    | FailingRuns(artifactId: string, onlyRun: string)
    | EndingRun(runId: string, status: Status, result: string)

  datatype Kind = Claim | Renewal | End | Collect | Write

  /** What one step did: which dispatches it claimed, renewed, ended, collected, and which runs it wrote. */
  datatype Record = Record(
    claimed: set<string>, renewed: set<string>, ended: set<string>, collected: set<string>, wrote: set<string>,
    lease: Lease)

  function Marked(r: Record, kind: Kind): set<string> {
    match kind
    case Claim => r.claimed
    case Renewal => r.renewed
    case End => r.ended
    case Collect => r.collected
    case Write => r.wrote
  }

  datatype World = World(state: State, trace: seq<Record>)

  const NO_LEASE := Lease("", 0)

  function RecordOf(s: State, step: Step): Record {
    var none := Record({}, {}, {}, {}, {}, NO_LEASE);
    match step
    case Claiming(runner, _, seconds, now, chosen) => none.(claimed := chosen, lease := Lease(runner, now + seconds))
    case Renewing(id, runner, seconds, now) =>
      none.(renewed := if Holds(s, id, runner) then {id} else {}, lease := Lease(runner, now + seconds))
    case Completing(id, runner, _, _) => none.(ended := if Holds(s, id, runner) then {id} else {})
    case Expiring(_, _, chosen) => none.(ended := chosen)
    case Cancelling(id, _) => none.(ended := if Cancellable(s, id) then {id} else {})
    case Collecting(id, c) =>
      var reply := CollectReply(s, id, c);
      none.(collected := if reply.Ok? && reply.value.Some? then {id} else {},
            wrote := if WritesRun(s, id, c) then {s.dispatches[id].runId} else {})
    case _ => none
  }

  ghost function After(s: State, step: Step): State {
    match step
    case Opening(c) => CreateSpec(s, c)
    case Claiming(runner, _, seconds, now, chosen) => ClaimSpec(s, chosen, runner, now + seconds)
    case Renewing(id, runner, seconds, now) => RenewSpec(s, id, runner, now + seconds)
    case Completing(id, runner, status, code) => CompleteSpec(s, id, runner, status, code)
    case Expiring(_, _, chosen) => ExpireSpec(s, chosen)
    case Cancelling(id, code) => CancelSpec(s, id, code)
    case Collecting(id, c) => CollectSpec(s, id, c)
    case AddingRun(runId, run) => s.(runs := s.runs[runId := run])
    case FailingRuns(artifactId, onlyRun) => FailRuns(s, artifactId, onlyRun)
    case EndingRun(runId, status, result) =>
      if runId !in s.runs then s
      else s.(runs := s.runs[runId := s.runs[runId].(status := status, result := result)])
  }

  predicate FailsRun(run: ReviewRun, runId: string, artifactId: string, onlyRun: string) {
    run.artifactId == artifactId && run.isRuntime && (onlyRun == "" || runId == onlyRun) && !Terminal(run.status)
  }

  /** fail_open_review_runs for the runtime runs of an artifact, or for one of them. */
  function FailRuns(s: State, artifactId: string, onlyRun: string): State {
    s.(runs := map runId | runId in s.runs ::
      if FailsRun(s.runs[runId], runId, artifactId, onlyRun) then s.runs[runId].(status := Failed) else s.runs[runId])
  }

  ghost function Next(w: World, step: Step): World {
    World(After(w.state, step), w.trace + [RecordOf(w.state, step)])
  }

  /**
   * Claims and expiries take the oldest rows the limit allows; inserted dispatches and added runs
   * have unused identifiers; completions of dispatches, and of runs from outside, carry a terminal status.
   */
  ghost predicate Allowed(s: State, step: Step) {
    match step
    case Opening(c) => Inserts(s, c) ==> c.id !in s.dispatches
    case Claiming(_, limit, _, now, chosen) => Oldest(Candidates(s, now), QueueAge(s), limit, chosen)
    case Expiring(limit, now, chosen) => Oldest(Expired(s, now), LeaseAge(s), limit, chosen)
    case Completing(_, _, status, _) => Terminal(status)
    case AddingRun(runId, _) => runId !in s.runs
    case EndingRun(_, status, _) => Terminal(status)
    case _ => true
  }

  ghost function Run(steps: seq<Step>): World {
    if steps == [] then World(State(map[], map[]), [])
    else Next(Run(steps[..|steps| - 1]), steps[|steps| - 1])
  }

  ghost predicate AllowedRun(steps: seq<Step>) {
    steps == [] || var n := |steps| - 1; AllowedRun(steps[..n]) && Allowed(Run(steps[..n]).state, steps[n])
  }

  // ----- reading the trace -----

  function Tally(trace: seq<Record>, kind: Kind, id: string): nat {
    if trace == [] then 0
    else
      var n := |trace| - 1;
      Tally(trace[..n], kind, id) + if id in Marked(trace[n], kind) then 1 else 0
  }

  /** The lease last given to a dispatch, by a claim or a renewal. */
  function LastLease(trace: seq<Record>, id: string): Option<Lease> {
    if trace == [] then None
    else
      var r := trace[|trace| - 1];
      if id in r.claimed || id in r.renewed then Some(r.lease) else LastLease(trace[..|trace| - 1], id)
  }

  function LatestClaimer(trace: seq<Record>, id: string): Option<string> {
    if trace == [] then None
    else
      var r := trace[|trace| - 1];
      if id in r.claimed then Some(r.lease.owner) else LatestClaimer(trace[..|trace| - 1], id)
  }

  lemma TraceSnoc(trace: seq<Record>, r: Record, id: string)
    ensures forall kind ::
      Tally(trace + [r], kind, id) == Tally(trace, kind, id) + if id in Marked(r, kind) then 1 else 0
    ensures LastLease(trace + [r], id) ==
      if id in r.claimed || id in r.renewed then Some(r.lease) else LastLease(trace, id)
    ensures LatestClaimer(trace + [r], id) == if id in r.claimed then Some(r.lease.owner) else LatestClaimer(trace, id)
  {
    assert (trace + [r])[..|trace|] == trace;
  }

  // ----- the invariant -----

  function TerminalSteps(d: Dispatch): nat {
    if Terminal(d.status) && !Terminal(d.openedAs) then 1 else 0
  }

  /** How a dispatch relates to what the trace says happened to it. */
  ghost predicate Accounted(trace: seq<Record>, id: string, d: Dispatch) {
    var claims := Tally(trace, Claim, id);
    && d.attempts == d.openedAttempts + claims
    && (claims > 0 ==> d.attempts <= d.maxAttempts && !Terminal(d.openedAs))
    && Tally(trace, End, id) == TerminalSteps(d) && (Terminal(d.openedAs) ==> Terminal(d.status))
    && Tally(trace, Collect, id) == (if d.collected then 1 else 0) && (d.collected ==> Terminal(d.status))
    && (d.lease.Some? ==> d.status.Running? && LastLease(trace, id) == d.lease
                          && LatestClaimer(trace, id) == Some(d.lease.value.owner) && claims > 0)
    && (d.lease.None? && !Terminal(d.status) ==> claims == 0)
    && (d.status.Queued? ==> d.lease.None?)
    && (claims == 0 ==> LastLease(trace, id).None?)
  }

  ghost predicate Untouched(trace: seq<Record>, id: string) {
    Tally(trace, Claim, id) == Tally(trace, End, id) == Tally(trace, Collect, id) == 0 && LastLease(trace, id).None?
  }

  ghost predicate DispatchesAccounted(w: World) {
    && (forall id :: id in w.state.dispatches ==> Accounted(w.trace, id, w.state.dispatches[id]))
    && (forall id :: id !in w.state.dispatches ==> Untouched(w.trace, id))
  }

  ghost predicate RunsWrittenOnce(w: World) {
    forall runId ::
      Tally(w.trace, Write, runId) <= (if runId in w.state.runs && Terminal(w.state.runs[runId].status) then 1 else 0)
  }

  ghost predicate Safe(w: World) {
    OneLivePerRun(w.state) && DispatchesAccounted(w) && RunsWrittenOnce(w)
  }

  lemma StepKeepsOneLive(s: State, step: Step)
    requires OneLivePerRun(s) && Allowed(s, step)
    ensures OneLivePerRun(After(s, step))
  {
    hide QueueAge, LeaseAge, Before;
  }

  /** A step that does not mention a dispatch leaves its account as it was. */
  lemma UnmarkedStaysAccounted(trace: seq<Record>, r: Record, id: string, d: Dispatch)
    requires Accounted(trace, id, d) && id !in r.claimed + r.renewed + r.ended + r.collected
    ensures Accounted(trace + [r], id, d)
  {
    TraceSnoc(trace, r, id);
  }

  lemma ClaimedIsAccounted(trace: seq<Record>, r: Record, id: string, d: Dispatch, now: int)
    requires Accounted(trace, id, d) && Claimable(d, now)
    requires id in r.claimed && id !in r.renewed + r.ended + r.collected
    ensures Accounted(trace + [r], id, Claimed(d, r.lease.owner, r.lease.until))
  {
    TraceSnoc(trace, r, id);
  }

  lemma RenewedIsAccounted(trace: seq<Record>, r: Record, id: string, d: Dispatch)
    requires Accounted(trace, id, d) && d.lease.Some? && d.lease.value.owner == r.lease.owner
    requires id in r.renewed && id !in r.claimed + r.ended + r.collected
    ensures Accounted(trace + [r], id, d.(lease := Some(r.lease)))
  {
    TraceSnoc(trace, r, id);
  }

  lemma EndedIsAccounted(trace: seq<Record>, r: Record, id: string, d: Dispatch, status: Status, code: string)
    requires Accounted(trace, id, d) && !Terminal(d.status) && Terminal(status)
    requires id in r.ended && id !in r.claimed + r.renewed + r.collected
    ensures Accounted(trace + [r], id, Ended(d, status, code))
  {
    TraceSnoc(trace, r, id);
  }

  lemma CollectedIsAccounted(trace: seq<Record>, r: Record, id: string, d: Dispatch)
    requires Accounted(trace, id, d) && Terminal(d.status) && !d.collected
    requires id in r.collected && id !in r.claimed + r.renewed + r.ended
    ensures Accounted(trace + [r], id, d.(collected := true))
  {
    TraceSnoc(trace, r, id);
  }

  lemma NewIsAccounted(trace: seq<Record>, r: Record, id: string, c: Creation)
    requires Untouched(trace, id) && id !in r.claimed + r.renewed + r.ended + r.collected
    ensures Accounted(trace + [r], id, Opened(c))
  {
    TraceSnoc(trace, r, id);
  }

  /** How one row changes in a step with record r. */
  ghost predicate RowStep(r: Record, id: string, d: Dispatch, e: Dispatch) {
    if id in r.claimed then
      id !in r.renewed + r.ended + r.collected && (exists now :: Claimable(d, now))
        && e == Claimed(d, r.lease.owner, r.lease.until)
    else if id in r.renewed then
      id !in r.ended + r.collected && d.lease.Some? && d.lease.value.owner == r.lease.owner
        && e == d.(lease := Some(r.lease))
    else if id in r.ended then
      id !in r.collected && !Terminal(d.status) && Terminal(e.status) && e == Ended(d, e.status, e.errorCode)
    else if id in r.collected then Terminal(d.status) && !d.collected && e == d.(collected := true)
    else e == d
  }

  lemma RowsStep(s: State, step: Step, id: string)
    requires Allowed(s, step) && id in s.dispatches
    ensures id in After(s, step).dispatches
    ensures RowStep(RecordOf(s, step), id, s.dispatches[id], After(s, step).dispatches[id])
  {
    if step.Claiming? && id in step.chosen {
      assert Claimable(s.dispatches[id], step.now);
    }
  }

  lemma RowStepKeepsAccounted(trace: seq<Record>, r: Record, id: string, d: Dispatch, e: Dispatch)
    requires Accounted(trace, id, d) && RowStep(r, id, d, e)
    ensures Accounted(trace + [r], id, e)
  {
    if id in r.claimed {
      var now :| Claimable(d, now);
      ClaimedIsAccounted(trace, r, id, d, now);
    } else if id in r.renewed {
      RenewedIsAccounted(trace, r, id, d);
    } else if id in r.ended {
      EndedIsAccounted(trace, r, id, d, e.status, e.errorCode);
    } else if id in r.collected {
      CollectedIsAccounted(trace, r, id, d);
    } else {
      UnmarkedStaysAccounted(trace, r, id, d);
    }
  }

  /** A row the step adds is the one it inserts, and only known rows are marked. */
  lemma OtherIds(s: State, step: Step, id: string)
    requires Allowed(s, step) && id !in s.dispatches
    ensures var r := RecordOf(s, step); id !in r.claimed + r.renewed + r.ended + r.collected
    ensures id in After(s, step).dispatches ==>
      step.Opening? && After(s, step).dispatches[id] == Opened(step.creation)
  {
  }

  lemma OtherIdsKeepUntouched(trace: seq<Record>, r: Record, id: string)
    requires Untouched(trace, id) && id !in r.claimed + r.renewed + r.ended + r.collected
    ensures Untouched(trace + [r], id)
  {
    TraceSnoc(trace, r, id);
  }

  lemma StepKeepsAccounted(w: World, step: Step)
    requires DispatchesAccounted(w) && Allowed(w.state, step)
    ensures DispatchesAccounted(World(After(w.state, step), w.trace + [RecordOf(w.state, step)]))
  {
    var s, t, r := w.state, After(w.state, step), RecordOf(w.state, step);
    forall id | id in t.dispatches ensures Accounted(w.trace + [r], id, t.dispatches[id]) {
      if id in s.dispatches {
        RowsStep(s, step, id);
        RowStepKeepsAccounted(w.trace, r, id, s.dispatches[id], t.dispatches[id]);
      } else {
        OtherIds(s, step, id);
        NewIsAccounted(w.trace, r, id, step.creation);
      }
    }
    forall id | id !in t.dispatches ensures Untouched(w.trace + [r], id) {
      if id in s.dispatches {
        RowsStep(s, step, id);
      } else {
        OtherIds(s, step, id);
        OtherIdsKeepUntouched(w.trace, r, id);
      }
    }
  }

  /** A step writes a run only while it is open, ends it by that, and never reopens a run. */
  ghost predicate RunsStep(r: Record, s: State, t: State) {
    && (forall runId :: runId in r.wrote ==>
          runId in s.runs && !Terminal(s.runs[runId].status) && runId in t.runs && Terminal(t.runs[runId].status))
    && (forall runId :: runId in s.runs && Terminal(s.runs[runId].status) ==>
          runId in t.runs && Terminal(t.runs[runId].status))
  }

  lemma RunsFollow(s: State, step: Step)
    requires Allowed(s, step)
    ensures RunsStep(RecordOf(s, step), s, After(s, step))
  {
  }

  lemma RunsStepKeepsWrittenOnce(w: World, r: Record, t: State)
    requires RunsWrittenOnce(w) && RunsStep(r, w.state, t)
    ensures RunsWrittenOnce(World(t, w.trace + [r]))
  {
    forall runId
      ensures Tally(w.trace + [r], Write, runId) <= (if runId in t.runs && Terminal(t.runs[runId].status) then 1 else 0)
    {
      TraceSnoc(w.trace, r, runId);
    }
  }

  /** Every interleaving keeps every dispatch accounted for, one live dispatch per run, one result per run. */
  lemma {:induction false} RunIsSafe(steps: seq<Step>)
    requires AllowedRun(steps)
    ensures Safe(Run(steps))
  {
    if steps != [] {
      var n := |steps| - 1;
      RunIsSafe(steps[..n]);
      var w := Run(steps[..n]);
      StepKeepsOneLive(w.state, steps[n]);
      StepKeepsAccounted(w, steps[n]);
      RunsFollow(w.state, steps[n]);
      RunsStepKeepsWrittenOnce(w, RecordOf(w.state, steps[n]), After(w.state, steps[n]));
    }
  }

  // ----- lease safety -----

  /** A lease is renewed, and a dispatch completed, only by whoever claimed it last. */
  lemma {:induction false} OnlyTheLatestClaimerActs(steps: seq<Step>, id: string, runner: string)
    requires AllowedRun(steps) && Holds(Run(steps).state, id, runner)
    ensures LatestClaimer(Run(steps).trace, id) == Some(runner)
  {
    RunIsSafe(steps);
  }

  /** A dispatch is claimed again only after the lease it was last given has run out. */
  lemma ReclaimedOnlyAfterExpiry(steps: seq<Step>, claim: Step, id: string)
    requires AllowedRun(steps) && claim.Claiming? && Allowed(Run(steps).state, claim) && id in claim.chosen
    ensures match LastLease(Run(steps).trace, id)
      case Some(lease) => lease.until < claim.now
      case None => Tally(Run(steps).trace, Claim, id) == 0
  {
    RunIsSafe(steps);
  }

  lemma SafeIsOnce(w: World, id: string)
    requires Safe(w)
    ensures Tally(w.trace, End, id) <= 1 && Tally(w.trace, Collect, id) <= 1 && Tally(w.trace, Write, id) <= 1
    ensures Tally(w.trace, Collect, id) == 1 ==> id in w.state.dispatches && Terminal(w.state.dispatches[id].status)
  {
    if id in w.state.dispatches {
      assert Accounted(w.trace, id, w.state.dispatches[id]);
    } else {
      assert Untouched(w.trace, id);
    }
  }

  /**
   * Each dispatch ends at most once and is collected at most once, after it ended; each run's result
   * is written at most once, even across a cancelled dispatch and its replacement.
   */
  lemma EndedAndCollectedOnce(steps: seq<Step>, id: string)
    requires AllowedRun(steps)
    ensures var w := Run(steps);
      && Tally(w.trace, End, id) <= 1 && Tally(w.trace, Collect, id) <= 1 && Tally(w.trace, Write, id) <= 1
      && (Tally(w.trace, Collect, id) == 1 ==> id in w.state.dispatches && Terminal(w.state.dispatches[id].status))
  {
    RunIsSafe(steps);
    SafeIsOnce(Run(steps), id);
  }

  /** A run never has two dispatches that are not cancelled. */
  lemma {:induction false} NoTwoLiveDispatches(steps: seq<Step>, a: string, b: string)
    requires AllowedRun(steps)
    ensures var ds := Run(steps).state.dispatches;
      a in ds && b in ds && ds[a].runId == ds[b].runId && !ds[a].status.Cancelled? && !ds[b].status.Cancelled? ==>
        a == b
  {
    RunIsSafe(steps);
    var ds := Run(steps).state.dispatches;
    if a in ds && b in ds && ds[a].runId == ds[b].runId && !ds[a].status.Cancelled? && !ds[b].status.Cancelled? {
      assert Compete(ds[a], ds[b]);
    }
  }

  // ----- progress and bound -----

  /** Neither a claim nor an expiry can ever move it; only cancelling can. */
  predicate Stuck(d: Dispatch) {
    !Terminal(d.status) && d.attempts >= d.maxAttempts && d.lease.None?
  }

  predicate UnderLease(d: Dispatch, now: int) {
    d.status.Running? && d.lease.Some? && now <= d.lease.value.until
  }

  function AsNat(b: bool): nat {
    if b then 1 else 0
  }

  /**
   * At any time a dispatch that has not ended is in exactly one of these situations: claimable,
   * under a live lease, expirable, or stuck; and it is stuck exactly if it was created with its
   * attempts used up.
   */
  lemma {:induction false} ProgressOrStuck(steps: seq<Step>, id: string, now: int)
    requires AllowedRun(steps) && id in Run(steps).state.dispatches
    requires !Terminal(Run(steps).state.dispatches[id].status)
    ensures var d := Run(steps).state.dispatches[id];
      && AsNat(Claimable(d, now)) + AsNat(UnderLease(d, now)) + AsNat(Expirable(d, now)) + AsNat(Stuck(d)) == 1
      && (Stuck(d) <==> d.openedAttempts >= d.maxAttempts)
  {
    RunIsSafe(steps);
  }

  /** No dispatch sees more than its allowed attempts, one ending and one collection. */
  lemma {:induction false} StepBound(steps: seq<Step>, id: string)
    requires AllowedRun(steps) && id in Run(steps).state.dispatches
    ensures var w := Run(steps); var d := w.state.dispatches[id];
      0 <= d.openedAttempts < d.maxAttempts ==>
      Tally(w.trace, Claim, id) + Tally(w.trace, End, id) + Tally(w.trace, Collect, id) <= d.maxAttempts + 2
  {
    RunIsSafe(steps);
  }

  // ----- what a refused collection leaves behind -----

  ghost function From(s: State, more: seq<Step>): State {
    if more == [] then s else After(From(s, more[..|more| - 1]), more[|more| - 1])
  }

  ghost predicate AllowedFrom(s: State, more: seq<Step>) {
    more == [] || var n := |more| - 1; AllowedFrom(s, more[..n]) && Allowed(From(s, more[..n]), more[n])
  }

  /** The dispatch has ended and so has its run: nothing can write its result any more. */
  predicate Shut(s: State, id: string) {
    && id in s.dispatches && Terminal(s.dispatches[id].status)
    && s.dispatches[id].runId in s.runs && Terminal(s.runs[s.dispatches[id].runId].status)
  }

  lemma {:induction false} ShutForever(s: State, id: string, more: seq<Step>)
    requires Shut(s, id) && AllowedFrom(s, more)
    ensures Shut(From(s, more), id)
  {
    if more != [] {
      var n := |more| - 1;
      var t := From(s, more[..n]);
      ShutForever(s, id, more[..n]);
      RowsStep(t, more[n], id);
      RunsFollow(t, more[n]);
    }
  }

  /** The collection is accepted, and with it its result. */
  predicate AcceptsResult(s: State, id: string, c: Collection) {
    c.payload.Some? && CollectReply(s, id, c).Ok? && CollectReply(s, id, c).value.Some?
  }

  /**
   * A refused collection leaves everything as it was, except when its SBOM names another artifact or
   * run while the run could take the result. Then the result stays written, the dispatch stays
   * uncollected, and after any further steps no collection with a result is ever accepted.
   */
  lemma {:induction false} RefusedCollection(s: State, id: string, c: Collection, more: seq<Step>)
    requires CollectReply(s, id, c).Err? && AllowedFrom(CollectSpec(s, id, c), more)
    ensures CollectSpec(s, id, c).dispatches == s.dispatches
    ensures CollectSpec(s, id, c) != s <==> WritesRun(s, id, c)
    ensures WritesRun(s, id, c) ==>
      var t := From(CollectSpec(s, id, c), more);
      && SbomMismatch(s.dispatches[id], c) && Shut(t, id)
      && forall retry: Collection :: !AcceptsResult(t, id, retry)
  {
    if WritesRun(s, id, c) {
      var runId := s.dispatches[id].runId;
      assert CollectSpec(s, id, c).runs[runId].status == c.payload.value.status;
      ShutForever(CollectSpec(s, id, c), id, more);
    }
  }

  // ----- the one bad collection, from the empty repository -----

  lemma RunOneMore(steps: seq<Step>, step: Step)
    ensures Run(steps + [step]) == Next(Run(steps), step)
    ensures AllowedRun(steps + [step]) <==> AllowedRun(steps) && Allowed(Run(steps).state, step)
  {
    assert (steps + [step])[..|steps|] == steps;
  }

  const FIRST := Creation("d", "a", "r", "", Queued, 0, 3, false, 0)

  /** A run is started, its dispatch claimed and completed. */
  function CompletedSteps(): seq<Step> {
    [AddingRun("r", ReviewRun("a", true, Running, ""))] + [Opening(FIRST)] + [Claiming("w", 1, 60, 1, {"d"})]
    + [Completing("d", "w", Succeeded, "")]
  }

  lemma CompletedRun()
    ensures AllowedRun(CompletedSteps())
    ensures
      var s := Run(CompletedSteps()).state;
      && s.runs == map["r" := ReviewRun("a", true, Running, "")]
      && s.dispatches == map["d" := Ended(Claimed(Opened(FIRST), "w", 61), Succeeded, "")]
  {
    hide Oldest, Candidates;
    var run, open := ReviewRun("a", true, Running, ""), Opened(FIRST);
    RunOneMore([], AddingRun("r", run));
    assert [] + [AddingRun("r", run)] == [AddingRun("r", run)];
    RunOneMore([AddingRun("r", run)], Opening(FIRST));
    var steps := [AddingRun("r", run)] + [Opening(FIRST)];
    var s := Run(steps).state;
    assert s == State(map["d" := open], map["r" := run]);
    OnlyCandidate(s);
    RunOneMore(steps, Claiming("w", 1, 60, 1, {"d"}));
    RunOneMore(steps + [Claiming("w", 1, 60, 1, {"d"})], Completing("d", "w", Succeeded, ""));
  }

  lemma OnlyCandidate(s: State)
    requires s.dispatches == map["d" := Opened(FIRST)]
    ensures Oldest(Candidates(s, 1), QueueAge(s), 1, {"d"})
  {
    assert Candidates(s, 1) == {"d"};
  }

  /** A collection whose SBOM names another run is refused, and leaves the result in the run. */
  lemma {:induction false} RefusedButWritten() returns (steps: seq<Step>, c: Collection)
    ensures AllowedRun(steps)
    ensures
      var s := Run(steps).state;
      && CollectReply(s, "d", c) == Err(ResultInvalid) && "r" in s.runs && s.runs["r"].result == ""
      && CollectSpec(s, "d", c) == s.(runs := s.runs["r" := ReviewRun("a", true, Succeeded, "passed")])
  {
    steps := CompletedSteps();
    c := Collection(Some(RunPayload(Succeeded, "passed")), Some(Sbom("a", "other")));
    CompletedRun();
    assert |"other"| != |"r"|;
  }
}
