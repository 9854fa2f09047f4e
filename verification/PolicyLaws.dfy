/** Which policy operations are accepted and what they do, said on the fields of policies, log and outbox. */
module PolicyLaws {
  import opened Wrappers
  import opened Policies
  import opened PolicyRuns

  // ----- reading the state -----

  predicate KeyAt(s: State, key: string, i: int) {
    0 <= i < |s.events| && s.events[i].key == key
  }

  predicate ActiveDefault(s: State, id: string) {
    id in s.policies && s.policies[id].status == Active && s.policies[id].isDefault
  }

  /** `id` names the active default policy, or no policy is one. */
  ghost predicate ActiveIs(s: State, id: Option<string>) {
    match id
    case Some(a) => ActiveDefault(s, a)
    case None => forall a :: !ActiveDefault(s, a)
  }

  lemma ActiveExactly(s: State, id: Option<string>)
    requires WellFormed(s)
    ensures ActiveId(s.policies) == id <==> ActiveIs(s, id)
  {
    var active := ActiveId(s.policies);
    forall a ensures ActiveDefault(s, a) <==> active == Some(a) {
      if ActiveDefault(s, a) {
        assert a in s.policies && IsActiveDefault(s.policies[a]);
        assert active.Some? && active.value in s.policies && IsActiveDefault(s.policies[active.value]);
      }
    }
    if id.None? && active.Some? {
      assert ActiveDefault(s, active.value);
    }
  }

  /** The log has an entry with this key that is about another policy or action. */
  ghost predicate KeyTaken(s: State, key: string, policyId: string, action: Action) {
    exists i :: KeyAt(s, key, i) && (s.events[i].policyId != policyId || s.events[i].action != action)
  }

  ghost predicate KeyUsed(s: State, key: string) {
    exists i :: KeyAt(s, key, i)
  }

  lemma KeysExactly(s: State, key: string, policyId: string, action: Action)
    requires WellFormed(s)
    ensures HasKey(s.events, key) <==> KeyUsed(s, key)
    ensures Conflicts(s.events, key, policyId, action) <==> KeyTaken(s, key, policyId, action)
  {
    if HasKey(s.events, key) {
      assert KeyAt(s, key, KeyIndex(s.events, key));
      forall i | KeyAt(s, key, i) ensures i == KeyIndex(s.events, key) {
      }
    }
  }

  // ----- transitions -----

  /** The policy carries a successful validation of its own hash. */
  predicate Validated(p: Policy) {
    p.validatedAt != None && p.summary.valid && p.summary.sha == p.sha
  }

  /** The active default that the transition puts another policy in the place of. */
  ghost predicate Supersedes(s: State, r: Transition, a: string) {
    (r.action == Activate || r.action == Rollback) && ActiveDefault(s, a) && a != r.policyId
  }

  lemma SupersedesExactly(s: State, r: Transition, a: string)
    requires WellFormed(s)
    ensures Supersedes(s, r, a) <==> Superseded(s, r) == Some(a)
  {
    ActiveExactly(s, Some(a));
  }

  /** The hash is the one named, and the policy is in the state the action starts from; other than validation it is
      a default policy, and the active default is the one named. */
  ghost predicate MayTake(s: State, r: Transition)
    requires r.policyId in s.policies
  {
    var p := s.policies[r.policyId];
    && p.sha == r.expectedSha
    && match r.action
       case Validate => p.status != Active
       case Activate => p.isDefault && ActiveIs(s, r.expectedActive) && p.status == Draft && Validated(p)
       case Rollback => p.isDefault && ActiveIs(s, r.expectedActive) && p.status == Retired && Validated(p)
       case Retire => p.isDefault && ActiveIs(s, r.expectedActive) && p.status != Retired
       case Create => false
  }

  /** The key under which the superseded policy's retirement is logged belongs to something else. */
  ghost predicate RetireKeyTaken(s: State, r: Transition) {
    exists a :: Supersedes(s, r, a) && KeyTaken(s, r.event.key + ":retire:" + a, a, Retire)
  }

  lemma RefusalExactly(s: State, r: Transition)
    requires WellFormed(s) && r.policyId in s.policies
    ensures Refusal(s, r).None? <==> MayTake(s, r) && !RetireKeyTaken(s, r)
    ensures Refusal(s, r) == Some(VersionConflict) <==> s.policies[r.policyId].sha != r.expectedSha
    ensures Refusal(s, r) == Some(ActivationConflict) <==>
      s.policies[r.policyId].sha == r.expectedSha && r.action in {Activate, Rollback, Retire}
      && s.policies[r.policyId].isDefault && !ActiveIs(s, r.expectedActive)
    ensures Refusal(s, r) == Some(IdempotencyKeyConflict) <==> MayTake(s, r) && RetireKeyTaken(s, r)
  {
    hide WellFormed, KeyTaken, ActiveIs, Conflicts, RetireKey;
    ActiveExactly(s, r.expectedActive);
    RetireKeyExactly(r.event.key);
    forall a ensures Supersedes(s, r, a) <==> Superseded(s, r) == Some(a) {
      SupersedesExactly(s, r, a);
    }
    if Superseded(s, r).Some? {
      var a := Superseded(s, r).value;
      KeysExactly(s, r.event.key + ":retire:" + a, a, Retire);
    }
  }

  lemma RetireKeyExactly(key: string)
    ensures forall a :: RetireKey(key, a) == key + ":retire:" + a
  {
  }

  /** The target after the transition: validation records summary and time, the others set the status. */
  predicate Moved(p: Policy, q: Policy, r: Transition) {
    && q == p.(status := q.status, summary := q.summary, validatedAt := q.validatedAt)
    && (if r.action == Validate then q.summary == r.summary && q.validatedAt == Some(r.now)
        else q.summary == p.summary && q.validatedAt == p.validatedAt)
    && q.status == (match r.action
       case Validate => p.status
       case Retire => Retired
       case _ => Active)
  }

  /** Status, log and outbox after a transition. */
  ghost predicate Taken(s: State, t: State, r: Transition)
    requires r.policyId in s.policies
  {
    && t.policies.Keys == s.policies.Keys
    && Moved(s.policies[r.policyId], t.policies[r.policyId], r)
    && (forall id :: id in s.policies && id != r.policyId ==>
      t.policies[id] == if Supersedes(s, r, id) then s.policies[id].(status := Retired) else s.policies[id])
    && |t.events| > 0
    && t.events[|t.events| - 1] == Event(r.policyId, r.action, r.event.key, r.event.baseVersion, r.event.reason)
    && (forall a :: Supersedes(s, r, a) ==>
      t.events[..|t.events| - 1] == s.events
        + if KeyUsed(s, r.event.key + ":retire:" + a) then []
          else [Event(a, Retire, r.event.key + ":retire:" + a, s.policies[a].version, r.event.reason)])
    && ((forall a :: !Supersedes(s, r, a)) ==> t.events[..|t.events| - 1] == s.events)
    && t.outbox == s.outbox
      + if r.action == Validate then []
        else [Notice(
          r.policyId, |t.events| - 1, t.policies[r.policyId].version, r.action, t.policies[r.policyId].status,
          r.event.reason)]
  }

  lemma EffectExactly(s: State, r: Transition)
    requires WellFormed(s) && Commits(s, r)
    ensures Taken(s, Effect(s, r), r)
  {
    hide WellFormed, Commits, KeyUsed, RetireKey, Refusal;
    CommitIsKnown(s, r);
    RetireKeyExactly(r.event.key);
    forall a ensures Supersedes(s, r, a) <==> Superseded(s, r) == Some(a) {
      SupersedesExactly(s, r, a);
    }
    forall key ensures HasKey(s.events, key) <==> KeyUsed(s, key) {
      KeysExactly(s, key, "", Create);
    }
  }

  lemma CommitIsKnown(s: State, r: Transition)
    requires Commits(s, r)
    ensures r.policyId in s.policies && r.event.action == r.action && !r.action.Create?
  {
  }

  /** A transition is taken exactly if event and action agree, the key is new, the policy is known and may take it.
      Everything else leaves policies, log and outbox as they were. */
  lemma {:induction false} TransitionExactly(s: State, r: Transition)
    requires WellFormed(s)
    ensures
      var (t, reply) := TransitionSpec(s, r);
      if r.event.action != r.action then t == s && reply == Err(PolicyInvalid)
      else if KeyTaken(s, r.event.key, r.policyId, r.action) then t == s && reply == Err(IdempotencyKeyConflict)
      else if r.policyId !in s.policies then t == s && reply == Ok(None)
      else if KeyUsed(s, r.event.key) then t == s && reply == Ok(Some(s.policies[r.policyId]))
      else if MayTake(s, r) && !RetireKeyTaken(s, r) then
        Taken(s, t, r) && reply == Ok(Some(t.policies[r.policyId]))
      else t == s && reply.Err?
  {
    hide WellFormed, Refusal, MayTake, RetireKeyTaken, Taken, Effect, KeyTaken, KeyUsed, Conflicts, HasKey;
    KeysExactly(s, r.event.key, r.policyId, r.action);
    TakenIsUsed(s, r.event.key, r.policyId, r.action);
    if r.policyId in s.policies {
      RefusalExactly(s, r);
      if r.event.action == r.action && !HasKey(s.events, r.event.key) && Refusal(s, r).None? {
        EffectExactly(s, r);
        EffectTarget(s, r);
      }
    }
  }

  lemma TakenIsUsed(s: State, key: string, policyId: string, action: Action)
    ensures KeyTaken(s, key, policyId, action) ==> KeyUsed(s, key)
  {
  }

  lemma EffectTarget(s: State, r: Transition)
    requires r.policyId in s.policies
    ensures r.policyId in Effect(s, r).policies
    ensures Effect(s, r).policies[r.policyId] == Transitioned(s.policies[r.policyId], r)
  {
  }

  // ----- creations and bare appends -----

  predicate SameVersion(s: State, version: string, id: string) {
    id in s.policies && s.policies[id].version == version
  }

  lemma VersionExactly(s: State, version: string, id: string)
    requires WellFormed(s)
    ensures SameVersion(s, version, id) <==> VersionId(s.policies, version) == Some(id)
  {
  }

  function EventOf(id: string, e: Payload): Event {
    Event(id, e.action, e.key, e.baseVersion, e.reason)
  }

  /** The log with the event of a payload, if there is one and its key is new. */
  ghost predicate LoggedFor(s: State, t: State, id: string, e: Option<Payload>) {
    t.events == s.events + if e.Some? && !KeyUsed(s, e.value.key) then [EventOf(id, e.value)] else []
  }

  /** A creation whose version is known is answered with that policy, if content, base and key agree. */
  lemma {:induction false} KnownCreationExactly(s: State, c: Creation, e: Option<Payload>, id: string)
    requires WellFormed(s) && SameVersion(s, c.version, id)
    ensures
      var (t, reply) := CreateSpec(s, c, e);
      var p := s.policies[id];
      if e.Some? && KeyTaken(s, e.value.key, id, e.value.action) then t == s && reply == Err(IdempotencyKeyConflict)
      else if p.sha == c.sha && p.schemaVersion == c.schemaVersion && p.base == c.base then
        && t.policies == s.policies && t.outbox == s.outbox && LoggedFor(s, t, id, e) && reply == Ok(Some(p))
      else t == s && reply == Err(VersionConflict)
  {
    hide WellFormed, KeyTaken, KeyUsed, Conflicts, HasKey, SameVersion;
    SameVersionIsKnown(s, c.version, id);
    VersionExactly(s, c.version, id);
    if e.Some? {
      KeysExactly(s, e.value.key, id, e.value.action);
      TakenIsUsed(s, e.value.key, id, e.value.action);
    }
  }

  lemma SameVersionIsKnown(s: State, version: string, id: string)
    requires SameVersion(s, version, id)
    ensures id in s.policies && s.policies[id].version == version
  {
  }

  /** A creation of a new version inserts one row under its identifier, unless its key is used, its base unknown, or
      it would be a second active default. */
  lemma {:induction false} NewCreationExactly(s: State, c: Creation, e: Option<Payload>)
    requires WellFormed(s) && forall id :: !SameVersion(s, c.version, id)
    ensures
      var (t, reply) := CreateSpec(s, c, e);
      if e.Some? && KeyUsed(s, e.value.key) then t == s && reply == Err(IdempotencyKeyConflict)
      else if c.base != "" && c.base !in s.policies then t == s && reply == Err(PolicyInvalid)
      else if c.status == Active && c.isDefault && exists a :: ActiveDefault(s, a) then
        t == s && reply == Err(ActivationConflict)
      else
        var row := Policy(
          c.version, c.schemaVersion, c.sha, c.base, c.isDefault, c.status, c.validatedAt, c.summary, c.status);
        && t.policies == s.policies[c.id := row] && t.outbox == s.outbox && LoggedFor(s, t, c.id, e)
        && reply == Ok(Some(row))
  {
    hide WellFormed, KeyUsed, Conflicts, HasKey;
    VersionExactlyNone(s, c.version);
    ActiveExactly(s, None);
    if e.Some? {
      KeysExactly(s, e.value.key, c.id, e.value.action);
    }
  }

  lemma VersionExactlyNone(s: State, version: string)
    requires forall id :: !SameVersion(s, version, id)
    ensures VersionId(s.policies, version) == None
  {
    var found := VersionId(s.policies, version);
    assert found.Some? ==> SameVersion(s, version, found.value);
  }

  /** A bare append adds one event to a known policy's log, once per key. */
  lemma {:induction false} AppendExactly(s: State, id: string, e: Payload)
    requires WellFormed(s)
    ensures
      var (t, reply) := AppendSpec(s, id, e);
      if id !in s.policies then t == s && reply == Err(PolicyInvalid)
      else if KeyTaken(s, e.key, id, e.action) then t == s && reply == Err(IdempotencyKeyConflict)
      else t.policies == s.policies && t.outbox == s.outbox && LoggedFor(s, t, id, Some(e)) && reply == Ok(true)
  {
    hide WellFormed, KeyTaken, KeyUsed, Conflicts, HasKey;
    KeysExactly(s, e.key, id, e.action);
  }

  // ----- what every run keeps, read on the rows -----

  /** After every run that does not diverge, at most one default policy is active, and every active policy that did
      not start active has a successful validation of its own hash. */
  lemma {:induction false} RunKeepsActive(steps: seq<Step>)
    requires FreshRun(EMPTY, steps) && NeverDiverges(EMPTY, steps)
    ensures
      var s := Run(EMPTY, steps);
      && (forall a, b :: ActiveDefault(s, a) && ActiveDefault(s, b) ==> a == b)
      && (forall id :: id in s.policies && s.policies[id].status == Active && s.policies[id].created != Active ==>
        Validated(s.policies[id]))
  {
    hide FreshRun, NeverDiverges, Run, TableIsLog;
    RunIsSound(steps);
    var s := Run(EMPTY, steps);
    forall a, b | ActiveDefault(s, a) && ActiveDefault(s, b) ensures a == b {
      assert IsActiveDefault(s.policies[a]) && IsActiveDefault(s.policies[b]);
    }
  }
}
