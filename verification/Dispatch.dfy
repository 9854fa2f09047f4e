/**
 * apps/api/app/artifacts/advanced_repository.py: the in-memory queue of runtime dispatches, leased to
 * runners, retried, expired, cancelled and collected into their review run.
 */
module Dispatches {
  import opened Wrappers
  import opened Ordering
  import opened Sequences

  datatype Status = Queued | Running | Succeeded | Failed | TimedOut | Cancelled

  predicate Terminal(status: Status) {
    !status.Queued? && !status.Running?
  }

  /** lease_owner and lease_expires_at, which are always set and cleared together. */
  datatype Lease = Lease(owner: string, until: int)

  /** `openedAs` and `openedAttempts` remember the creation and are used only to state properties. */
  datatype Dispatch = Dispatch(
    artifactId: string, runId: string, requestSha: string, status: Status, lease: Option<Lease>,
    attempts: int, maxAttempts: int, queuedAt: int, collected: bool, errorCode: string,
    openedAs: Status, openedAttempts: int)

  datatype ReviewRun = ReviewRun(artifactId: string, isRuntime: bool, status: Status, result: string)

  datatype State = State(dispatches: map<string, Dispatch>, runs: map<string, ReviewRun>)

  datatype Error = AlreadyApproved | ResultInvalid | DispatchConflict

  datatype Creation = Creation(
    id: string, artifactId: string, runId: string, requestSha: string, status: Status, attempts: int,
    maxAttempts: int, artifactApproved: bool, now: int)

  datatype RunPayload = RunPayload(status: Status, result: string)

  /** The artifact and the run an SBOM names. */
  datatype Sbom = Sbom(artifactId: string, runId: string)

  /** A collection may carry a run result, and with it an SBOM. */
  datatype Collection = Collection(payload: Option<RunPayload>, sbom: Option<Sbom>)

  // ----- creating -----

  predicate ForRun(d: Dispatch, runId: string) {
    d.runId == runId && !d.status.Cancelled?
  }

  ghost function LiveFor(s: State, runId: string): (id: Option<string>)
    ensures id.Some? ==> id.value in s.dispatches && ForRun(s.dispatches[id.value], runId)
    ensures id.None? ==> forall i :: i in s.dispatches ==> !ForRun(s.dispatches[i], runId)
  {
    if exists i :: i in s.dispatches && ForRun(s.dispatches[i], runId) then
      var i :| i in s.dispatches && ForRun(s.dispatches[i], runId);
      Some(i)
    else None
  }

  function Opened(c: Creation): Dispatch {
    Dispatch(c.artifactId, c.runId, c.requestSha, c.status, None, c.attempts,
             if c.maxAttempts == 0 then 3 else c.maxAttempts, c.now, false, "", c.status, c.attempts)
  }

  predicate RunAccepts(s: State, c: Creation) {
    c.runId in s.runs && s.runs[c.runId].artifactId == c.artifactId && s.runs[c.runId].isRuntime
  }

  /** The dispatch that answers a creation, or the reason it is refused. */
  ghost function CreateReply(s: State, c: Creation): Result<Dispatch, Error> {
    if c.artifactApproved then Err(AlreadyApproved)
    else if !RunAccepts(s, c) then Err(ResultInvalid)
    else
      match LiveFor(s, c.runId)
      case None => Ok(Opened(c))
      case Some(id) =>
        var d := s.dispatches[id];
        if d.artifactId != c.artifactId || d.requestSha != c.requestSha then Err(DispatchConflict) else Ok(d)
  }

  ghost predicate Inserts(s: State, c: Creation) {
    !c.artifactApproved && RunAccepts(s, c) && LiveFor(s, c.runId).None?
  }

  ghost function CreateSpec(s: State, c: Creation): State {
    if Inserts(s, c) then s.(dispatches := s.dispatches[c.id := Opened(c)]) else s
  }

  // ----- claiming and expiring, oldest first -----

  predicate Lapsed(d: Dispatch, now: int) {
    d.status.Running? && (d.lease.None? || d.lease.value.until < now)
  }

  predicate Claimable(d: Dispatch, now: int) {
    d.attempts < d.maxAttempts && (d.status.Queued? || Lapsed(d, now))
  }

  predicate Expirable(d: Dispatch, now: int) {
    d.status.Running? && d.attempts >= d.maxAttempts && d.lease.Some? && d.lease.value.until < now
  }

  function Candidates(s: State, now: int): set<string> {
    set id | id in s.dispatches && Claimable(s.dispatches[id], now)
  }

  function Expired(s: State, now: int): set<string> {
    set id | id in s.dispatches && Expirable(s.dispatches[id], now)
  }

  /** list[:limit] */
  function SliceLength(limit: int, length: nat): (n: nat)
    ensures n <= length
  {
    if limit >= 0 then (if limit < length then limit else length)
    else if length + limit > 0 then length + limit else 0
  }

  predicate Before(age: string -> int, a: string, b: string) {
    age(a) < age(b) || (age(a) == age(b) && Le(a, b))
  }

  /** `chosen` is the first part of `from_`, of the length the limit allows, in the order of age and identifier. */
  ghost predicate Oldest(from_: set<string>, age: string -> int, limit: int, chosen: set<string>) {
    && chosen <= from_ && |chosen| == SliceLength(limit, |from_|)
    && forall a, b :: a in chosen && b in from_ - chosen ==> Before(age, a, b)
  }

  function QueueAge(s: State): string -> int {
    id => if id in s.dispatches then s.dispatches[id].queuedAt else 0
  }

  function LeaseAge(s: State): string -> int {
    id => if id in s.dispatches && s.dispatches[id].lease.Some? then s.dispatches[id].lease.value.until else 0
  }

  function Claimed(d: Dispatch, runner: string, until: int): Dispatch {
    d.(status := Running, attempts := d.attempts + 1, lease := Some(Lease(runner, until)))
  }

  function ClaimSpec(s: State, chosen: set<string>, runner: string, until: int): State {
    s.(dispatches := map id | id in s.dispatches ::
      if id in chosen then Claimed(s.dispatches[id], runner, until) else s.dispatches[id])
  }

  function Ended(d: Dispatch, status: Status, errorCode: string): Dispatch {
    d.(status := status, errorCode := errorCode, lease := None)
  }

  const TIMEOUT_CODE := "runtime_dispatch_timeout"

  function ExpireSpec(s: State, chosen: set<string>): State {
    s.(dispatches := map id | id in s.dispatches ::
      if id in chosen then Ended(s.dispatches[id], TimedOut, TIMEOUT_CODE) else s.dispatches[id])
  }

  // ----- the leaseholder, cancelling, collecting -----

  predicate Holds(s: State, id: string, runner: string) {
    && id in s.dispatches && s.dispatches[id].status.Running? && s.dispatches[id].lease.Some?
    && s.dispatches[id].lease.value.owner == runner
  }

  function RenewSpec(s: State, id: string, runner: string, until: int): State {
    if !Holds(s, id, runner) then s
    else s.(dispatches := s.dispatches[id := s.dispatches[id].(lease := Some(Lease(runner, until)))])
  }

  function CompleteSpec(s: State, id: string, runner: string, status: Status, errorCode: string): State {
    if !Holds(s, id, runner) then s
    else s.(dispatches := s.dispatches[id := Ended(s.dispatches[id], status, errorCode)])
  }

  predicate Cancellable(s: State, id: string) {
    id in s.dispatches && !Terminal(s.dispatches[id].status)
  }

  function CancelSpec(s: State, id: string, errorCode: string): State {
    if !Cancellable(s, id) then s
    else s.(dispatches := s.dispatches[id := Ended(s.dispatches[id], Cancelled, errorCode)])
  }

  predicate Collectable(s: State, id: string) {
    id in s.dispatches && !s.dispatches[id].collected && Terminal(s.dispatches[id].status)
  }

  /** The run can still take a result. */
  predicate RunOpen(s: State, runId: string) {
    runId in s.runs && s.runs[runId].isRuntime && !Terminal(s.runs[runId].status)
  }

  predicate WritesRun(s: State, id: string, c: Collection) {
    && Collectable(s, id) && c.payload.Some? && Terminal(c.payload.value.status)
    && RunOpen(s, s.dispatches[id].runId)
  }

  /** The SBOM that comes with the result names another artifact or run. */
  predicate SbomMismatch(d: Dispatch, c: Collection) {
    c.payload.Some? && c.sbom.Some? && c.sbom.value != Sbom(d.artifactId, d.runId)
  }

  function CollectReply(s: State, id: string, c: Collection): Result<Option<Dispatch>, Error> {
    if !Collectable(s, id) then Ok(None)
    else if c.payload.Some? && (!WritesRun(s, id, c) || SbomMismatch(s.dispatches[id], c)) then Err(ResultInvalid)
    else Ok(Some(s.dispatches[id].(collected := true)))
  }

  function CollectSpec(s: State, id: string, c: Collection): State {
    var runs := if WritesRun(s, id, c) then
                  var runId := s.dispatches[id].runId;
                  s.runs[runId := s.runs[runId].(status := c.payload.value.status, result := c.payload.value.result)]
                else s.runs;
    var reply := CollectReply(s, id, c);
    State(if reply.Ok? && reply.value.Some? then s.dispatches[id := reply.value.value] else s.dispatches, runs)
  }

  predicate Compete(a: Dispatch, b: Dispatch) {
    ForRun(a, a.runId) && ForRun(b, a.runId)
  }

  /** A run never has two dispatches that are not cancelled. */
  ghost predicate OneLivePerRun(s: State) {
    forall i, j :: i in s.dispatches && j in s.dispatches && Compete(s.dispatches[i], s.dispatches[j]) ==> i == j
  }

  // ----- sorting -----

  ghost predicate InOrder(ids: seq<string>, age: string -> int) {
    forall i, j :: 0 <= i < j < |ids| ==> Before(age, ids[i], ids[j])
  }

  lemma BeforeTransitive(age: string -> int, a: string, b: string, c: string)
    requires Before(age, a, b) && Before(age, b, c)
    ensures Before(age, a, c)
  {
    if age(a) == age(b) == age(c) {
      LeTransitive(a, b, c);
    }
  }

  /** The sorted list of a set of identifiers, as list.sort(key=...) leaves it. */
  method SortByAge(from_: set<string>, age: string -> int) returns (ids: seq<string>)
    ensures NoDup(ids) && InOrder(ids, age) && |ids| == |from_| && forall x :: x in ids <==> x in from_
  {
    ids := [];
    var rest := from_;
    while rest != {}
      invariant rest <= from_ && NoDup(ids) && InOrder(ids, age) && |ids| + |rest| == |from_|
      invariant forall x :: x in ids <==> x in from_ - rest
      decreases rest
    {
      var x :| x in rest;
      rest := rest - {x};
      var k := 0;
      while k < |ids| && Before(age, ids[k], x)
        invariant k <= |ids|
        invariant forall i :: 0 <= i < k ==> Before(age, ids[i], x)
      {
        k := k + 1;
      }
      if k < |ids| {
        LeTotal(ids[k], x);
      }
      InsertKeepsOrder(ids, k, x, age);
      ids := InsertAt(ids, k, x);
    }
  }

  lemma InsertKeepsOrder(ids: seq<string>, k: nat, x: string, age: string -> int)
    requires NoDup(ids) && InOrder(ids, age) && x !in ids && k <= |ids|
    requires (forall i :: 0 <= i < k ==> Before(age, ids[i], x)) && (k < |ids| ==> Before(age, x, ids[k]))
    ensures NoDup(InsertAt(ids, k, x)) && InOrder(InsertAt(ids, k, x), age)
  {
    var r := InsertAt(ids, k, x);
    forall j | k < j < |ids| ensures Before(age, x, ids[j]) {
      BeforeTransitive(age, x, ids[k], ids[j]);
    }
    forall i, j | 0 <= i < j < |r| ensures r[i] != r[j] && Before(age, r[i], r[j]) {
      if i != k && j != k {
        var a, b := if i < k then i else i - 1, if j < k then j else j - 1;
        assert r[i] == ids[a] && r[j] == ids[b];
      }
    }
  }

  function InsertAt(ids: seq<string>, k: nat, x: string): (r: seq<string>)
    requires k <= |ids|
    ensures |r| == |ids| + 1 && r[k] == x
    ensures forall i :: 0 <= i < k ==> r[i] == ids[i]
    ensures forall i :: k < i < |r| ==> r[i] == ids[i - 1]
    ensures forall y :: y in r <==> y in ids || y == x
  {
    assert ids == ids[..k] + ids[k..];
    ids[..k] + [x] + ids[k..]
  }

  lemma {:induction false} SetOfNoDup(ids: seq<string>)
    requires NoDup(ids)
    ensures |SetOf(ids)| == |ids|
  {
    if ids != [] {
      var n := |ids| - 1;
      SetOfNoDup(ids[..n]);
      assert SetOf(ids) == SetOf(ids[..n]) + {ids[n]};
    }
  }

  lemma NextUndone(ids: seq<string>, i: nat)
    requires NoDup(ids) && i < |ids|
    ensures ids[i] !in SetOf(ids[..i]) && SetOf(ids[..i + 1]) == SetOf(ids[..i]) + {ids[i]}
  {
    assert ids[..i + 1] == ids[..i] + [ids[i]];
  }

  lemma FirstPartIsOldest(from_: set<string>, age: string -> int, limit: int, ids: seq<string>)
    requires NoDup(ids) && InOrder(ids, age) && |ids| == |from_| && forall x :: x in ids <==> x in from_
    ensures Oldest(from_, age, limit, SetOf(ids[..SliceLength(limit, |ids|)]))
  {
    var n := SliceLength(limit, |ids|);
    SetOfNoDup(ids[..n]);
    assert forall k :: 0 <= k < n ==> ids[k] == ids[..n][k];
    forall a, b | a in ids[..n] && b in from_ && b !in ids[..n] ensures Before(age, a, b) {
      var i :| 0 <= i < n && ids[i] == a;
      var j :| 0 <= j < |ids| && ids[j] == b;
    }
  }

  lemma ClaimOneMore(s: State, chosen: set<string>, id: string, runner: string, until: int)
    requires id in s.dispatches && id !in chosen
    ensures var t := ClaimSpec(s, chosen, runner, until).dispatches;
      t[id] == s.dispatches[id]
        && ClaimSpec(s, chosen + {id}, runner, until).dispatches == t[id := Claimed(t[id], runner, until)]
  {
  }

  lemma ExpireOneMore(s: State, chosen: set<string>, id: string)
    requires id in s.dispatches && id !in chosen
    ensures var t := ExpireSpec(s, chosen).dispatches;
      t[id] == s.dispatches[id]
        && ExpireSpec(s, chosen + {id}).dispatches == t[id := Ended(t[id], TimedOut, TIMEOUT_CODE)]
  {
  }

  // ----- the repository -----

  class DispatchRepository {
    var dispatches: map<string, Dispatch>
    var runs: map<string, ReviewRun>

    ghost function Contents(): State
      reads this
    {
      State(dispatches, runs)
    }

    constructor (runs: map<string, ReviewRun>)
      ensures Contents() == State(map[], runs)
    {
      dispatches, this.runs := map[], runs;
    }

    method CreateRuntimeDispatch(c: Creation) returns (reply: Result<Dispatch, Error>)
      requires OneLivePerRun(Contents())
      modifies this`dispatches
      ensures reply == CreateReply(old(Contents()), c)
      ensures Contents() == CreateSpec(old(Contents()), c)
    {
      if c.artifactApproved {
        return Err(AlreadyApproved);
      }
      if c.runId !in runs || runs[c.runId].artifactId != c.artifactId || !runs[c.runId].isRuntime {
        return Err(ResultInvalid);
      }
      var rest := dispatches.Keys;
      while rest != {}
        invariant rest <= dispatches.Keys
        invariant forall id :: id in dispatches.Keys - rest ==> !ForRun(dispatches[id], c.runId)
        decreases rest
      {
        var id :| id in rest;
        rest := rest - {id};
        var d := dispatches[id];
        if d.runId == c.runId && !d.status.Cancelled? {
          assert LiveFor(Contents(), c.runId) == Some(id);
          if d.artifactId != c.artifactId || d.requestSha != c.requestSha {
            return Err(DispatchConflict);
          }
          return Ok(d);
        }
      }
      dispatches := dispatches[c.id := Opened(c)];
      reply := Ok(Opened(c));
    }

    method ClaimRuntimeDispatches(runner: string, limit: int, leaseSeconds: int, now: int)
      returns (claimed: seq<string>)
      modifies this`dispatches
      ensures NoDup(claimed) && InOrder(claimed, QueueAge(old(Contents())))
      ensures Oldest(Candidates(old(Contents()), now), QueueAge(old(Contents())), limit, SetOf(claimed))
      ensures Contents() == ClaimSpec(old(Contents()), SetOf(claimed), runner, now + leaseSeconds)
    {
      var age := QueueAge(State(dispatches, runs));
      var candidates := Candidates(State(dispatches, runs), now);
      var ids := SortByAge(candidates, age);
      FirstPartIsOldest(candidates, age, limit, ids);
      claimed := ids[..SliceLength(limit, |ids|)];
      assert forall i :: 0 <= i < |claimed| ==> claimed[i] == ids[i] && ids[i] in candidates;
      LeaseAll(claimed, runner, now + leaseSeconds);
    }

    method LeaseAll(ids: seq<string>, runner: string, until: int)
      requires NoDup(ids) && forall i :: 0 <= i < |ids| ==> ids[i] in dispatches
      modifies this`dispatches
      ensures Contents() == ClaimSpec(old(Contents()), SetOf(ids), runner, until)
    {
      ghost var before, done: set<string> := Contents(), {};
      for i := 0 to |ids|
        invariant done == SetOf(ids[..i])
        invariant dispatches == ClaimSpec(before, done, runner, until).dispatches
      {
        NextUndone(ids, i);
        ClaimOneMore(before, done, ids[i], runner, until);
        dispatches := dispatches[ids[i] := Claimed(dispatches[ids[i]], runner, until)];
        done := done + {ids[i]};
      }
      assert ids[..|ids|] == ids;
    }

    method RenewRuntimeDispatchLease(id: string, runner: string, leaseSeconds: int, now: int) returns (renewed: bool)
      modifies this`dispatches
      ensures renewed == Holds(old(Contents()), id, runner)
      ensures Contents() == RenewSpec(old(Contents()), id, runner, now + leaseSeconds)
    {
      if id !in dispatches || !dispatches[id].status.Running? || dispatches[id].lease.None?
         || dispatches[id].lease.value.owner != runner {
        return false;
      }
      dispatches := dispatches[id := dispatches[id].(lease := Some(Lease(runner, now + leaseSeconds)))];
      renewed := true;
    }

    method CompleteRuntimeDispatch(id: string, runner: string, status: Status, errorCode: string)
      returns (completed: Option<Dispatch>)
      requires Terminal(status)
      modifies this`dispatches
      ensures Contents() == CompleteSpec(old(Contents()), id, runner, status, errorCode)
      ensures completed ==
        if Holds(old(Contents()), id, runner) then Some(Ended(old(dispatches)[id], status, errorCode)) else None
    {
      if id !in dispatches || !dispatches[id].status.Running? || dispatches[id].lease.None?
         || dispatches[id].lease.value.owner != runner {
        return None;
      }
      dispatches := dispatches[id := dispatches[id].(status := status, errorCode := errorCode, lease := None)];
      completed := Some(dispatches[id]);
    }

    method ExpireRuntimeDispatches(limit: int, now: int) returns (expired: seq<string>)
      modifies this`dispatches
      ensures NoDup(expired) && InOrder(expired, LeaseAge(old(Contents())))
      ensures Oldest(Expired(old(Contents()), now), LeaseAge(old(Contents())), limit, SetOf(expired))
      ensures Contents() == ExpireSpec(old(Contents()), SetOf(expired))
    {
      var age := LeaseAge(State(dispatches, runs));
      var candidates := Expired(State(dispatches, runs), now);
      var ids := SortByAge(candidates, age);
      FirstPartIsOldest(candidates, age, limit, ids);
      expired := ids[..SliceLength(limit, |ids|)];
      assert forall i :: 0 <= i < |expired| ==> expired[i] == ids[i] && ids[i] in candidates;
      TimeOutAll(expired);
    }

    method TimeOutAll(ids: seq<string>)
      requires NoDup(ids) && forall i :: 0 <= i < |ids| ==> ids[i] in dispatches
      modifies this`dispatches
      ensures Contents() == ExpireSpec(old(Contents()), SetOf(ids))
    {
      ghost var before, done: set<string> := Contents(), {};
      for i := 0 to |ids|
        invariant done == SetOf(ids[..i])
        invariant dispatches == ExpireSpec(before, done).dispatches
      {
        NextUndone(ids, i);
        ExpireOneMore(before, done, ids[i]);
        dispatches := dispatches[ids[i] := Ended(dispatches[ids[i]], TimedOut, TIMEOUT_CODE)];
        done := done + {ids[i]};
      }
      assert ids[..|ids|] == ids;
    }

    method CancelRuntimeDispatch(id: string, errorCode: string) returns (cancelled: bool)
      modifies this`dispatches
      ensures cancelled == Cancellable(old(Contents()), id)
      ensures Contents() == CancelSpec(old(Contents()), id, errorCode)
    {
      if id !in dispatches || dispatches[id].status !in {Queued, Running} {
        return false;
      }
      dispatches := dispatches[id := Ended(dispatches[id], Cancelled, errorCode)];
      cancelled := true;
    }

    /** The run is updated before the SBOM is checked, so a mismatch is reported with the run already written. */
    method CollectRuntimeDispatch(id: string, c: Collection) returns (reply: Result<Option<Dispatch>, Error>)
      modifies this
      ensures reply == CollectReply(old(Contents()), id, c)
      ensures Contents() == CollectSpec(old(Contents()), id, c)
    {
      if id !in dispatches || dispatches[id].collected || dispatches[id].status in {Queued, Running} {
        return Ok(None);
      }
      if c.payload.Some? {
        var status := c.payload.value.status;
        if status in {Queued, Running} {
          return Err(ResultInvalid);
        }
        var runId := dispatches[id].runId;
        if runId !in runs || !runs[runId].isRuntime || runs[runId].status !in {Queued, Running} {
          return Err(ResultInvalid);
        }
        runs := runs[runId := runs[runId].(status := status, result := c.payload.value.result)];
        if c.sbom.Some? && (c.sbom.value.artifactId != dispatches[id].artifactId || c.sbom.value.runId != runId) {
          return Err(ResultInvalid);
        }
      }
      dispatches := dispatches[id := dispatches[id].(collected := true)];
      reply := Ok(Some(dispatches[id]));
    }
  }
}
