/**
 * What each operation of the dispatch queue does, said on the fields of dispatches and runs before and
 * after it, and what a written run holds over every run of the operations.
 */
module DispatchLaws {
  import opened Wrappers
  import opened Ordering
  import opened Dispatches
  import opened DispatchRuns

  predicate Over(status: Status) {
    status == Succeeded || status == Failed || status == TimedOut || status == Cancelled
  }

  // ----- creating -----

  /** Another dispatch of the run that is not cancelled. */
  predicate LiveOn(s: State, runId: string, id: string) {
    id in s.dispatches && s.dispatches[id].runId == runId && s.dispatches[id].status != Cancelled
  }

  predicate KnownRun(s: State, c: Creation) {
    c.runId in s.runs && s.runs[c.runId].artifactId == c.artifactId && s.runs[c.runId].isRuntime
  }

  /** A dispatch is inserted exactly for a runtime run of an artifact not yet approved, of its own, that has no
      live dispatch; a live one for the same request is returned instead. */
  lemma {:induction false} CreationExactly(s: State, c: Creation)
    requires OneLivePerRun(s)
    ensures c.artifactApproved ==> CreateReply(s, c) == Err(AlreadyApproved)
    ensures !c.artifactApproved && !KnownRun(s, c) ==> CreateReply(s, c) == Err(ResultInvalid)
    ensures !c.artifactApproved && KnownRun(s, c) ==> forall id :: LiveOn(s, c.runId, id) ==>
      CreateReply(s, c) ==
        if s.dispatches[id].artifactId == c.artifactId && s.dispatches[id].requestSha == c.requestSha
        then Ok(s.dispatches[id]) else Err(DispatchConflict)
    ensures
      if !c.artifactApproved && KnownRun(s, c) && !exists id :: LiveOn(s, c.runId, id) then
        && CreateSpec(s, c).runs == s.runs
        && CreateSpec(s, c).dispatches.Keys == s.dispatches.Keys + {c.id}
        && (forall id :: id in s.dispatches && id != c.id ==> CreateSpec(s, c).dispatches[id] == s.dispatches[id])
        && CreateReply(s, c) == Ok(CreateSpec(s, c).dispatches[c.id])
        && var d := CreateSpec(s, c).dispatches[c.id];
          && d.artifactId == c.artifactId && d.runId == c.runId && d.requestSha == c.requestSha
          && d.status == c.status && d.lease == None && d.attempts == c.attempts && d.queuedAt == c.now
          && d.maxAttempts == (if c.maxAttempts == 0 then 3 else c.maxAttempts) && !d.collected && d.errorCode == ""
          && d.openedAs == c.status && d.openedAttempts == c.attempts
      else CreateSpec(s, c) == s
  {
    forall id | LiveOn(s, c.runId, id) ensures LiveFor(s, c.runId) == Some(id) {
      var found := LiveFor(s, c.runId);
      assert Compete(s.dispatches[id], s.dispatches[found.value]);
    }
    if LiveFor(s, c.runId).Some? {
      assert LiveOn(s, c.runId, LiveFor(s, c.runId).value);
    }
  }

  // ----- claiming and expiring -----

  predicate MayClaim(s: State, id: string, now: int) {
    && id in s.dispatches && s.dispatches[id].attempts < s.dispatches[id].maxAttempts
    && (s.dispatches[id].status == Queued
        || (s.dispatches[id].status == Running
            && (s.dispatches[id].lease == None || s.dispatches[id].lease.value.until < now)))
  }

  predicate MayExpire(s: State, id: string, now: int) {
    && id in s.dispatches && s.dispatches[id].status == Running
    && s.dispatches[id].attempts >= s.dispatches[id].maxAttempts
    && s.dispatches[id].lease != None && s.dispatches[id].lease.value.until < now
  }

  /** How many of `n` items a slice up to `limit` holds, counting from the end for negative limits. */
  function Slice(limit: int, n: nat): int {
    if limit < 0 then (if n < -limit then 0 else n + limit) else if n < limit then n else limit
  }

  /** A claim takes the claimable dispatches that were queued first, as many as the limit says. */
  lemma ClaimTakesOldest(s: State, limit: int, now: int, chosen: set<string>)
    requires Oldest(Candidates(s, now), QueueAge(s), limit, chosen)
    ensures forall id :: id in chosen ==> MayClaim(s, id, now)
    ensures |chosen| == Slice(limit, |set id | id in s.dispatches && MayClaim(s, id, now)|)
    ensures forall a, b :: a in chosen && b !in chosen && MayClaim(s, b, now) ==>
      s.dispatches[a].queuedAt < s.dispatches[b].queuedAt
      || (s.dispatches[a].queuedAt == s.dispatches[b].queuedAt && Le(a, b))
  {
    assert Candidates(s, now) == set id | id in s.dispatches && MayClaim(s, id, now);
    forall a, b | a in chosen && b !in chosen && MayClaim(s, b, now)
      ensures s.dispatches[a].queuedAt < s.dispatches[b].queuedAt
        || (s.dispatches[a].queuedAt == s.dispatches[b].queuedAt && Le(a, b))
    {
      assert b in Candidates(s, now) - chosen && Before(QueueAge(s), a, b);
    }
  }

  lemma ExpiryTakesOldest(s: State, limit: int, now: int, chosen: set<string>)
    requires Oldest(Expired(s, now), LeaseAge(s), limit, chosen)
    ensures forall id :: id in chosen ==> MayExpire(s, id, now)
    ensures |chosen| == Slice(limit, |set id | id in s.dispatches && MayExpire(s, id, now)|)
    ensures forall a, b :: a in chosen && b !in chosen && MayExpire(s, b, now) ==>
      s.dispatches[a].lease.value.until < s.dispatches[b].lease.value.until
      || (s.dispatches[a].lease.value.until == s.dispatches[b].lease.value.until && Le(a, b))
  {
    assert Expired(s, now) == set id | id in s.dispatches && MayExpire(s, id, now);
    forall a, b | a in chosen && b !in chosen && MayExpire(s, b, now)
      ensures s.dispatches[a].lease.value.until < s.dispatches[b].lease.value.until
        || (s.dispatches[a].lease.value.until == s.dispatches[b].lease.value.until && Le(a, b))
    {
      assert b in Expired(s, now) - chosen && Before(LeaseAge(s), a, b);
    }
  }

  /** The order of a claimed list, read on the rows. */
  lemma ClaimsInOrder(s: State, ids: seq<string>, i: nat, j: nat)
    requires InOrder(ids, QueueAge(s)) && i < j < |ids| && ids[i] in s.dispatches && ids[j] in s.dispatches
    ensures s.dispatches[ids[i]].queuedAt < s.dispatches[ids[j]].queuedAt
      || (s.dispatches[ids[i]].queuedAt == s.dispatches[ids[j]].queuedAt && Le(ids[i], ids[j]))
  {
  }

  /** Claimed dispatches run under a lease of the runner with one more attempt used; no other field and no other
      row changes. */
  lemma ClaimExactly(s: State, chosen: set<string>, runner: string, until: int, id: string)
    requires id in s.dispatches
    ensures ClaimSpec(s, chosen, runner, until).runs == s.runs
    ensures ClaimSpec(s, chosen, runner, until).dispatches.Keys == s.dispatches.Keys
    ensures
      var d, e := s.dispatches[id], ClaimSpec(s, chosen, runner, until).dispatches[id];
      if id in chosen then
        && e.status == Running && e.attempts == d.attempts + 1 && e.lease == Some(Lease(runner, until))
        && e == d.(status := e.status, attempts := e.attempts, lease := e.lease)
      else e == d
  {
  }

  /** Expired dispatches are timed out and give up their lease. */
  lemma ExpiryExactly(s: State, chosen: set<string>, id: string)
    requires id in s.dispatches
    ensures ExpireSpec(s, chosen).runs == s.runs && ExpireSpec(s, chosen).dispatches.Keys == s.dispatches.Keys
    ensures
      var d, e := s.dispatches[id], ExpireSpec(s, chosen).dispatches[id];
      if id in chosen then
        && e.status == TimedOut && e.errorCode == "runtime_dispatch_timeout" && e.lease == None
        && e == d.(status := e.status, errorCode := e.errorCode, lease := e.lease)
      else e == d
  {
  }

  // ----- the leaseholder, cancelling -----

  predicate IsLeaseholder(s: State, id: string, runner: string) {
    && id in s.dispatches && s.dispatches[id].status == Running && s.dispatches[id].lease != None
    && s.dispatches[id].lease.value.owner == runner
  }

  /** Renewing and completing succeed exactly for the leaseholder of a running dispatch and touch nothing else. */
  lemma LeaseholderExactly(s: State, id: string, runner: string, until: int, status: Status, code: string)
    ensures Holds(s, id, runner) <==> IsLeaseholder(s, id, runner)
    ensures
      var t := RenewSpec(s, id, runner, until);
      if IsLeaseholder(s, id, runner) then
        t.runs == s.runs && t.dispatches == s.dispatches[id := s.dispatches[id].(lease := Some(Lease(runner, until)))]
      else t == s
    ensures
      var t := CompleteSpec(s, id, runner, status, code);
      if IsLeaseholder(s, id, runner) then
        t.runs == s.runs
        && t.dispatches == s.dispatches[id := s.dispatches[id].(status := status, errorCode := code, lease := None)]
      else t == s
  {
  }

  /** Cancelling succeeds exactly while the dispatch is queued or running. */
  lemma CancellationExactly(s: State, id: string, code: string)
    ensures Cancellable(s, id) <==>
      id in s.dispatches && (s.dispatches[id].status == Queued || s.dispatches[id].status == Running)
    ensures
      var t := CancelSpec(s, id, code);
      if id in s.dispatches && !Over(s.dispatches[id].status) then
        t.runs == s.runs
        && t.dispatches == s.dispatches[id := s.dispatches[id].(status := Cancelled, errorCode := code, lease := None)]
      else t == s
  {
  }

  // ----- collecting -----

  /** The dispatch is over and not collected, and the payload's result can go into its run. */
  predicate Writes(s: State, id: string, c: Collection) {
    && id in s.dispatches && Over(s.dispatches[id].status) && !s.dispatches[id].collected
    && c.payload != None && Over(c.payload.value.status)
    && s.dispatches[id].runId in s.runs && s.runs[s.dispatches[id].runId].isRuntime
    && (s.runs[s.dispatches[id].runId].status == Queued || s.runs[s.dispatches[id].runId].status == Running)
  }

  predicate OwnSbom(d: Dispatch, c: Collection) {
    c.sbom == None || (c.sbom.value.artifactId == d.artifactId && c.sbom.value.runId == d.runId)
  }

  /** A collection that writes leaves in the run the payload's own status and result and nothing else of it or of
      another run; an accepted one marks its own dispatch as collected and changes no other; and which
      collections are accepted, refused or answered with nothing. */
  lemma {:induction false} CollectionExactly(s: State, id: string, c: Collection)
    ensures
      var t := CollectSpec(s, id, c);
      if Writes(s, id, c) then
        var runId := s.dispatches[id].runId;
        && t.runs.Keys == s.runs.Keys
        && t.runs[runId].status == c.payload.value.status && t.runs[runId].result == c.payload.value.result
        && t.runs[runId].artifactId == s.runs[runId].artifactId && t.runs[runId].isRuntime == s.runs[runId].isRuntime
        && forall other :: other in s.runs && other != runId ==> t.runs[other] == s.runs[other]
      else t.runs == s.runs
    ensures
      var t, reply := CollectSpec(s, id, c), CollectReply(s, id, c);
      if id !in s.dispatches || !Over(s.dispatches[id].status) || s.dispatches[id].collected then
        reply == Ok(None) && t.dispatches == s.dispatches
      else if c.payload == None || (Writes(s, id, c) && OwnSbom(s.dispatches[id], c)) then
        reply == Ok(Some(t.dispatches[id])) && t.dispatches == s.dispatches[id := s.dispatches[id].(collected := true)]
      else reply == Err(ResultInvalid) && t.dispatches == s.dispatches
  {
  }

  lemma WritesExactly(s: State, id: string, c: Collection)
    ensures WritesRun(s, id, c) <==> Writes(s, id, c)
  {
  }

  // ----- what a written run holds -----

  /** The payload the run was last written with, unless it was added or ended from outside since. */
  ghost function WrittenWith(steps: seq<Step>, runId: string): Option<RunPayload> {
    if steps == [] then None
    else
      var s, last := Run(steps[..|steps| - 1]).state, steps[|steps| - 1];
      if last.Collecting? && Writes(s, last.id, last.collection) && s.dispatches[last.id].runId == runId then
        last.collection.payload
      else if (last.EndingRun? && last.runId == runId) || (last.AddingRun? && last.runId == runId) then None
      else WrittenWith(steps[..|steps| - 1], runId)
  }

  lemma StepLeavesOverRuns(s: State, step: Step, runId: string)
    requires Allowed(s, step) && runId in s.runs && Over(s.runs[runId].status)
    requires !(step.EndingRun? && step.runId == runId)
    ensures runId in After(s, step).runs && After(s, step).runs[runId] == s.runs[runId]
  {
    if step.Collecting? {
      CollectionExactly(s, step.id, step.collection);
    }
  }

  /** A run that a collection has written holds that collection's status and result until something from outside
      ends it again. */
  lemma {:induction false} WrittenRunHolds(steps: seq<Step>, runId: string)
    requires AllowedRun(steps) && WrittenWith(steps, runId).Some?
    ensures
      var s := Run(steps).state;
      && runId in s.runs && Over(s.runs[runId].status)
      && s.runs[runId].status == WrittenWith(steps, runId).value.status
      && s.runs[runId].result == WrittenWith(steps, runId).value.result
  {
    var n := |steps| - 1;
    var s, last := Run(steps[..n]).state, steps[n];
    if last.Collecting? && Writes(s, last.id, last.collection) && s.dispatches[last.id].runId == runId {
      CollectionExactly(s, last.id, last.collection);
    } else {
      WrittenRunHolds(steps[..n], runId);
      StepLeavesOverRuns(s, last, runId);
    }
  }
}
