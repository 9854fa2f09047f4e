/**
 * apps/api/app/artifacts/advanced_repository.py: the review-policy lifecycle of the in-memory
 * repository, a table of policies kept beside an append-only event log and an outbox.
 */
module Policies {
  import opened Wrappers

  datatype Status = Draft | Active | Retired

  datatype Action = Create | Validate | Activate | Retire | Rollback

  datatype Summary = Summary(valid: bool, sha: string)

  /** A row; `created` remembers the status the row was created with and is used only to state properties. */
  datatype Policy = Policy(
    version: string, schemaVersion: string, sha: string, base: string, isDefault: bool,
    status: Status, validatedAt: Option<int>, summary: Summary, created: Status)

  datatype Payload = Payload(action: Action, key: string, baseVersion: string, reason: string)

  /** A log entry; its generated identifier is its position in the log. */
  datatype Event = Event(policyId: string, action: Action, key: string, baseVersion: string, reason: string)

  /** An outbox entry; policyId and eventIndex make up its dedupe key. */
  datatype Notice = Notice(
    policyId: string, eventIndex: nat, version: string, action: Action, status: Status, reason: string)

  datatype State = State(policies: map<string, Policy>, events: seq<Event>, outbox: seq<Notice>)

  datatype Error = IdempotencyKeyConflict | PolicyInvalid | VersionConflict | ActivationConflict

  type Reply = Result<Option<Policy>, Error>

  datatype Transition = Transition(
    policyId: string, action: Action, expectedSha: string, expectedActive: Option<string>,
    summary: Summary, event: Payload, now: int)

  datatype Creation = Creation(
    id: string, version: string, schemaVersion: string, sha: string, base: string, isDefault: bool,
    status: Status, validatedAt: Option<int>, summary: Summary)

  // ----- lookups -----

  predicate IsActiveDefault(p: Policy) {
    p.status.Active? && p.isDefault
  }

  ghost function ActiveId(policies: map<string, Policy>): (id: Option<string>)
    ensures id.Some? ==> id.value in policies && IsActiveDefault(policies[id.value])
    ensures id.None? ==> forall i :: i in policies ==> !IsActiveDefault(policies[i])
  {
    if exists i :: i in policies && IsActiveDefault(policies[i]) then
      var i :| i in policies && IsActiveDefault(policies[i]);
      Some(i)
    else None
  }

  ghost function VersionId(policies: map<string, Policy>, version: string): (id: Option<string>)
    ensures id.Some? ==> id.value in policies && policies[id.value].version == version
    ensures id.None? ==> forall i :: i in policies ==> policies[i].version != version
  {
    if exists i :: i in policies && policies[i].version == version then
      var i :| i in policies && policies[i].version == version;
      Some(i)
    else None
  }

  ghost predicate HasKey(events: seq<Event>, key: string) {
    exists i :: 0 <= i < |events| && events[i].key == key
  }

  /** The log position of a key, if it is there. */
  ghost function KeyIndex(events: seq<Event>, key: string): (i: nat)
    requires HasKey(events, key)
    ensures i < |events| && events[i].key == key
  {
    var i: nat :| i < |events| && events[i].key == key;
    i
  }

  ghost predicate Conflicts(events: seq<Event>, key: string, policyId: string, action: Action) {
    HasKey(events, key)
    && var e := events[KeyIndex(events, key)]; e.policyId != policyId || e.action != action
  }

  function Lookup(policies: map<string, Policy>, id: string): Option<Policy> {
    if id in policies then Some(policies[id]) else None
  }

  predicate ValidationCurrent(p: Policy) {
    p.validatedAt.Some? && p.summary.valid && p.summary.sha == p.sha
  }

  function RetireKey(key: string, activeId: string): string {
    key + ":retire:" + activeId
  }

  // ----- what a transition does -----

  function Logged(policyId: string, p: Payload): Event {
    Event(policyId, p.action, p.key, p.baseVersion, p.reason)
  }

  function AppendNew(events: seq<Event>, e: Event, present: bool): seq<Event> {
    if present then events else events + [e]
  }

  /** The active default that an activation or rollback of r.policyId would retire. */
  ghost function Superseded(s: State, r: Transition): Option<string> {
    var active := ActiveId(s.policies);
    if (r.action.Activate? || r.action.Rollback?) && active.Some? && active.value != r.policyId
    then active else None
  }

  ghost function Refusal(s: State, r: Transition): Option<Error>
    requires r.policyId in s.policies
  {
    var p := s.policies[r.policyId];
    if p.sha != r.expectedSha then Some(VersionConflict)
    else if r.action.Validate? then (if p.status.Active? then Some(PolicyInvalid) else None)
    else if r.action.Create? || !p.isDefault then Some(PolicyInvalid)
    else if ActiveId(s.policies) != r.expectedActive then Some(ActivationConflict)
    else if r.action.Retire? then (if p.status.Retired? then Some(PolicyInvalid) else None)
    else if p.status != (if r.action.Activate? then Draft else Retired) || !ValidationCurrent(p) then
      Some(PolicyInvalid)
    else
      var old_ := Superseded(s, r);
      if old_.Some? && Conflicts(s.events, RetireKey(r.event.key, old_.value), old_.value, Retire)
      then Some(IdempotencyKeyConflict) else None
  }

  function Transitioned(p: Policy, r: Transition): Policy {
    match r.action
    case Validate => p.(summary := r.summary, validatedAt := Some(r.now))
    case Retire => p.(status := Retired)
    case _ => p.(status := Active)
  }

  ghost function Effect(s: State, r: Transition): State
    requires r.policyId in s.policies
  {
    var old_ := Superseded(s, r);
    var policies := if old_.None? then s.policies
                    else s.policies[old_.value := s.policies[old_.value].(status := Retired)];
    var target := Transitioned(s.policies[r.policyId], r);
    var events := if old_.None? then s.events
                  else
                    var retired := s.policies[old_.value];
                    var key := RetireKey(r.event.key, old_.value);
                    AppendNew(s.events, Event(old_.value, Retire, key, retired.version, r.event.reason),
                      HasKey(s.events, key));
    State(policies[r.policyId := target], events + [Logged(r.policyId, r.event)],
          if r.action.Validate? then s.outbox
          else s.outbox + [Notice(r.policyId, |events|, target.version, r.action, target.status, r.event.reason)])
  }

  ghost predicate Commits(s: State, r: Transition) {
    && r.event.action == r.action && !HasKey(s.events, r.event.key)
    && r.policyId in s.policies && Refusal(s, r).None?
  }

  ghost function TransitionSpec(s: State, r: Transition): (State, Reply) {
    if r.event.action != r.action then (s, Err(PolicyInvalid))
    else if HasKey(s.events, r.event.key) then
      (s, if Conflicts(s.events, r.event.key, r.policyId, r.action) then Err(IdempotencyKeyConflict)
          else Ok(Lookup(s.policies, r.policyId)))
    else if r.policyId !in s.policies then (s, Ok(None))
    else if Refusal(s, r).Some? then (s, Err(Refusal(s, r).value))
    else (Effect(s, r), Ok(Some(Transitioned(s.policies[r.policyId], r))))
  }

  // ----- what a creation does, and a bare append -----

  ghost function AppendSpec(s: State, policyId: string, e: Payload): (State, Result<bool, Error>) {
    if policyId !in s.policies then (s, Err(PolicyInvalid))
    else if Conflicts(s.events, e.key, policyId, e.action) then (s, Err(IdempotencyKeyConflict))
    else (s.(events := AppendNew(s.events, Logged(policyId, e), HasKey(s.events, e.key))), Ok(true))
  }

  function Created(c: Creation): Policy {
    Policy(c.version, c.schemaVersion, c.sha, c.base, c.isDefault, c.status, c.validatedAt, c.summary, c.status)
  }

  ghost function CreateRefusal(s: State, c: Creation, e: Option<Payload>): Option<Error> {
    var existing := VersionId(s.policies, c.version);
    if e.Some? && HasKey(s.events, e.value.key)
       && (existing.None? || Conflicts(s.events, e.value.key, existing.value, e.value.action))
    then Some(IdempotencyKeyConflict)
    else if existing.Some? then
      var p := s.policies[existing.value];
      if p.sha != c.sha || p.schemaVersion != c.schemaVersion || p.base != c.base then Some(VersionConflict) else None
    else if c.base != "" && c.base !in s.policies then Some(PolicyInvalid)
    else if c.status.Active? && c.isDefault && ActiveId(s.policies).Some? then Some(ActivationConflict)
    else None
  }

  ghost function CreateSpec(s: State, c: Creation, e: Option<Payload>): (State, Reply) {
    if CreateRefusal(s, c, e).Some? then (s, Err(CreateRefusal(s, c, e).value))
    else
      var existing := VersionId(s.policies, c.version);
      var id := if existing.Some? then existing.value else c.id;
      var policies := if existing.Some? then s.policies else s.policies[c.id := Created(c)];
      var events := if e.None? then s.events
                    else AppendNew(s.events, Logged(id, e.value), HasKey(s.events, e.value.key));
      (State(policies, events, s.outbox), Ok(Some(policies[id])))
  }

  // ----- the repository -----

  ghost predicate OneActiveDefault(policies: map<string, Policy>) {
    forall i, j ::
      i in policies && j in policies && IsActiveDefault(policies[i]) && IsActiveDefault(policies[j]) ==> i == j
  }

  ghost predicate UniqueVersions(policies: map<string, Policy>) {
    forall i, j :: i in policies && j in policies && policies[i].version == policies[j].version ==> i == j
  }

  ghost predicate UniqueKeys(events: seq<Event>) {
    forall i, j :: 0 <= i < j < |events| ==> events[i].key != events[j].key
  }

  /** What every operation keeps, whatever its arguments. */
  ghost predicate WellFormed(s: State) {
    && OneActiveDefault(s.policies) && UniqueVersions(s.policies) && UniqueKeys(s.events)
    && (forall i :: 0 <= i < |s.events| ==> s.events[i].policyId in s.policies)
    && (forall n :: n in s.outbox ==> n.eventIndex < |s.events|)
  }

  class PolicyRepository {
    var policies: map<string, Policy>
    var events: seq<Event>
    var outbox: seq<Notice>

    ghost function Contents(): State
      reads this
    {
      State(policies, events, outbox)
    }

    constructor ()
      ensures Contents() == State(map[], [], [])
    {
      policies, events, outbox := map[], [], [];
    }

    method FindKey(key: string) returns (i: int)
      ensures i >= 0 ==> i < |events| && events[i].key == key
      ensures i < 0 <==> !HasKey(events, key)
    {
      for n := 0 to |events|
        invariant forall k :: 0 <= k < n ==> events[k].key != key
      {
        if events[n].key == key {
          return n;
        }
      }
      i := -1;
    }

    method FindActive() returns (id: Option<string>)
      requires WellFormed(Contents())
      ensures id == ActiveId(policies)
    {
      var rest := policies.Keys;
      while rest != {}
        invariant rest <= policies.Keys
        invariant forall i :: i in policies.Keys - rest ==> !IsActiveDefault(policies[i])
        decreases rest
      {
        var i :| i in rest;
        rest := rest - {i};
        if IsActiveDefault(policies[i]) {
          return Some(i);
        }
      }
      id := None;
    }

    method FindVersion(version: string) returns (id: Option<string>)
      requires WellFormed(Contents())
      ensures id == VersionId(policies, version)
    {
      var rest := policies.Keys;
      while rest != {}
        invariant rest <= policies.Keys
        invariant forall i :: i in policies.Keys - rest ==> policies[i].version != version
        decreases rest
      {
        var i :| i in rest;
        rest := rest - {i};
        if policies[i].version == version {
          return Some(i);
        }
      }
      id := None;
    }

    /** Appends unless the key is there already; returns the position of the entry with that key. */
    method AppendEventLocked(policyId: string, e: Payload) returns (r: Result<nat, Error>)
      requires UniqueKeys(events)
      modifies this`events
      ensures Conflicts(old(events), e.key, policyId, e.action)
        ==> r == Err(IdempotencyKeyConflict) && events == old(events)
      ensures !Conflicts(old(events), e.key, policyId, e.action)
        ==> events == AppendNew(old(events), Logged(policyId, e), HasKey(old(events), e.key))
            && r.Ok? && r.value < |events| && events[r.value].key == e.key
    {
      var i := FindKey(e.key);
      if i >= 0 {
        if events[i].policyId != policyId || events[i].action != e.action {
          return Err(IdempotencyKeyConflict);
        }
        return Ok(i);
      }
      events := events + [Logged(policyId, e)];
      r := Ok(|events| - 1);
    }

    method AppendReviewPolicyEvent(policyId: string, e: Payload) returns (r: Result<bool, Error>)
      requires WellFormed(Contents())
      modifies this`events
      ensures (Contents(), r) == AppendSpec(old(Contents()), policyId, e)
    {
      if policyId !in policies {
        return Err(PolicyInvalid);
      }
      var i := AppendEventLocked(policyId, e);
      r := if i.Ok? then Ok(true) else Err(i.error);
    }

    method CreateReviewPolicy(c: Creation, e: Option<Payload>) returns (reply: Reply)
      requires WellFormed(Contents())
      modifies this
      ensures (Contents(), reply) == CreateSpec(old(Contents()), c, e)
    {
      var repeated := -1;
      if e.Some? {
        repeated := FindKey(e.value.key);
      }
      var existing := FindVersion(c.version);
      if repeated >= 0 && (existing.None? || events[repeated].policyId != existing.value
                           || events[repeated].action != e.value.action) {
        return Err(IdempotencyKeyConflict);
      }
      var id := c.id;
      if existing.Some? {
        id := existing.value;
        var p := policies[id];
        if p.sha != c.sha || p.schemaVersion != c.schemaVersion || p.base != c.base {
          return Err(VersionConflict);
        }
      } else {
        if c.base != "" && c.base !in policies {
          return Err(PolicyInvalid);
        }
        var active := FindActive();
        if c.status.Active? && c.isDefault && active.Some? {
          return Err(ActivationConflict);
        }
        policies := policies[id := Created(c)];
      }
      if e.Some? {
        var _ := AppendEventLocked(id, e.value);
      }
      reply := Ok(Some(policies[id]));
    }

    /**
     * The source changes the superseded row, appends its retire event and only then changes the
     * target. No step after the first change can fail, so a refusal leaves everything as it was.
     */
    method TransitionReviewPolicy(r: Transition) returns (reply: Reply)
      requires WellFormed(Contents())
      modifies this
      ensures (Contents(), reply) == TransitionSpec(old(Contents()), r)
    {
      if r.event.action != r.action {
        return Err(PolicyInvalid);
      }
      var repeated := FindKey(r.event.key);
      if repeated >= 0 {
        if events[repeated].policyId != r.policyId || events[repeated].action != r.action {
          return Err(IdempotencyKeyConflict);
        }
        return Ok(Lookup(policies, r.policyId));
      }
      if r.policyId !in policies {
        return Ok(None);
      }
      if policies[r.policyId].sha != r.expectedSha {
        return Err(VersionConflict);
      }
      ghost var before := Contents();
      var error: Option<Error> := None;
      if r.action.Validate? {
        error := ValidateLocked(r);
      } else {
        error := TransitionStateLocked(r);
      }
      if error.Some? {
        return Err(error.value);
      }
      assert !Conflicts(events, r.event.key, r.policyId, r.action);
      var index := AppendEventLocked(r.policyId, r.event);
      if index.Err? {
        return Err(IdempotencyKeyConflict);
      }
      assert events == Effect(before, r).events && index.value == |events| - 1;
      AppendNotificationLocked(r, index.value);
      assert Contents() == Effect(before, r);
      reply := Ok(Some(policies[r.policyId]));
    }

    method ValidateLocked(r: Transition) returns (error: Option<Error>)
      requires WellFormed(Contents()) && !HasKey(events, r.event.key)
      requires r.policyId in policies && policies[r.policyId].sha == r.expectedSha && r.action.Validate?
      modifies this`policies
      ensures error == Refusal(old(Contents()), r)
      ensures error.Some? ==> Contents() == old(Contents())
      ensures error.None? ==> policies == Effect(old(Contents()), r).policies
      ensures error.None? ==> events + [Logged(r.policyId, r.event)] == Effect(old(Contents()), r).events
    {
      var p := policies[r.policyId];
      if p.status.Active? {
        return Some(PolicyInvalid);
      }
      policies := policies[r.policyId := p.(summary := r.summary, validatedAt := Some(r.now))];
      error := None;
    }

    method TransitionStateLocked(r: Transition) returns (error: Option<Error>)
      requires WellFormed(Contents()) && !HasKey(events, r.event.key)
      requires r.policyId in policies && policies[r.policyId].sha == r.expectedSha && !r.action.Validate?
      modifies this`policies, this`events
      ensures error == Refusal(old(Contents()), r)
      ensures error.Some? ==> Contents() == old(Contents())
      ensures error.None? ==> policies == Effect(old(Contents()), r).policies
      ensures error.None? ==> events + [Logged(r.policyId, r.event)] == Effect(old(Contents()), r).events
      ensures error.None? ==> !HasKey(events, r.event.key)
      ensures UniqueKeys(events)
      ensures forall n :: n in outbox ==> n.eventIndex < |events|
    {
      hide ValidationCurrent, UniqueVersions, OneActiveDefault;
      if r.action.Create? {
        return Some(PolicyInvalid);
      }
      var p := policies[r.policyId];
      if !p.isDefault {
        return Some(PolicyInvalid);
      }
      var active := FindActive();
      if active != r.expectedActive {
        return Some(ActivationConflict);
      }
      if r.action.Activate? || r.action.Rollback? {
        if p.status != (if r.action.Activate? then Draft else Retired) || !ValidationCurrent(p) {
          return Some(PolicyInvalid);
        }
        if active.Some? && active.value != r.policyId {
          var key := RetireKey(r.event.key, active.value);
          var repeated := FindKey(key);
          if repeated >= 0 && (events[repeated].policyId != active.value || !events[repeated].action.Retire?) {
            return Some(IdempotencyKeyConflict);
          }
          var retired := policies[active.value].(status := Retired);
          policies := policies[active.value := retired];
          var appended := AppendEventLocked(active.value, Payload(Retire, key, retired.version, r.event.reason));
          if appended.Err? {
            return Some(IdempotencyKeyConflict);
          }
        }
        policies := policies[r.policyId := p.(status := Active)];
        return None;
      }
      if p.status.Retired? {
        return Some(PolicyInvalid);
      }
      policies := policies[r.policyId := p.(status := Retired)];
      error := None;
    }

    method AppendNotificationLocked(r: Transition, eventIndex: nat)
      requires r.policyId in policies
      requires forall n :: n in outbox ==> n.eventIndex < eventIndex
      modifies this`outbox
      ensures outbox == if r.action.Validate? || r.action.Create? then old(outbox)
        else old(outbox) + [Notice(r.policyId, eventIndex, policies[r.policyId].version, r.action,
                                   policies[r.policyId].status, r.event.reason)]
    {
      if r.action.Validate? || r.action.Create? {
        return;
      }
      for i := 0 to |outbox|
      {
        if outbox[i].policyId == r.policyId && outbox[i].eventIndex == eventIndex {
          return;
        }
      }
      var p := policies[r.policyId];
      outbox := outbox + [Notice(r.policyId, eventIndex, p.version, r.action, p.status, r.event.reason)];
    }
  }
}
