/** What every run of policy creations, transitions and bare appends keeps. */
module PolicyRuns {
  import opened Wrappers
  import opened ColonKeys
  import opened Policies

  datatype Step =
    | Creating(c: Creation, e: Option<Payload>)
    | Transitioning(r: Transition)
    | Appending(policyId: string, payload: Payload)

  ghost function Next(s: State, step: Step): State {
    match step
    case Creating(c, e) => CreateSpec(s, c, e).0
    case Transitioning(r) => TransitionSpec(s, r).0
    case Appending(policyId, payload) => AppendSpec(s, policyId, payload).0
  }

  ghost function Run(s: State, steps: seq<Step>): State {
    if steps == [] then s else Next(Run(s, steps[..|steps| - 1]), steps[|steps| - 1])
  }

  const EMPTY := State(map[], [], [])

  // ----- the log as the source of truth -----

  function Apply(action: Action, status: Status): Status {
    match action
    case Activate => Active
    case Rollback => Active
    case Retire => Retired
    case _ => status
  }

  /** The status the log gives policy `id`. */
  function Replay(created: Status, events: seq<Event>, id: string): Status {
    if events == [] then created
    else
      var n := |events| - 1;
      var before := Replay(created, events[..n], id);
      if events[n].policyId == id then Apply(events[n].action, before) else before
  }

  ghost predicate TableIsLog(s: State) {
    forall id :: id in s.policies ==> s.policies[id].status == Replay(s.policies[id].created, s.events, id)
  }

  ghost predicate ActiveWasValidated(s: State) {
    forall id :: id in s.policies && s.policies[id].status.Active? && !s.policies[id].created.Active?
      ==> ValidationCurrent(s.policies[id])
  }

  /** The repository draws an unused identifier for a policy it inserts. */
  ghost predicate FreshId(s: State, step: Step) {
    step.Creating? ==> step.c.id !in s.policies
  }

  /** The policy a creation files its event under, and the status it has then. */
  ghost function CreatedStatus(s: State, c: Creation): Status {
    var existing := VersionId(s.policies, c.version);
    if existing.Some? then s.policies[existing.value].status else c.status
  }

  /**
   * The steps after which the table is no longer what the log says: superseding an active policy
   * whose retire key is already in the log, or filing an event that would change the status from
   * outside a transition.
   */
  ghost predicate Diverges(s: State, step: Step) {
    match step
    case Transitioning(r) =>
      var old_ := Superseded(s, r);
      Commits(s, r) && old_.Some? && HasKey(s.events, RetireKey(r.event.key, old_.value))
    case Creating(c, e) =>
      e.Some? && CreateRefusal(s, c, e).None? && !HasKey(s.events, e.value.key)
      && Apply(e.value.action, CreatedStatus(s, c)) != CreatedStatus(s, c)
    case Appending(id, e) =>
      id in s.policies && !HasKey(s.events, e.key) && Apply(e.action, s.policies[id].status) != s.policies[id].status
  }

  // ----- one step -----

  lemma ReplaySnoc(created: Status, events: seq<Event>, e: Event, id: string)
    ensures Replay(created, events + [e], id) ==
      var before := Replay(created, events, id); if e.policyId == id then Apply(e.action, before) else before
  {
    assert (events + [e])[..|events|] == events;
  }

  lemma {:induction false} ReplayOfOthers(created: Status, events: seq<Event>, id: string)
    requires forall i :: 0 <= i < |events| ==> events[i].policyId != id
    ensures Replay(created, events, id) == created
  {
    if events != [] {
      ReplayOfOthers(created, events[..|events| - 1], id);
    }
  }

  lemma TransitionKeepsTable(s: State, r: Transition)
    requires WellFormed(s) && Commits(s, r)
    ensures OneActiveDefault(Effect(s, r).policies) && UniqueVersions(Effect(s, r).policies)
  {
  }

  lemma AppendKeepsKeys(events: seq<Event>, e: Event)
    requires UniqueKeys(events)
    ensures UniqueKeys(AppendNew(events, e, HasKey(events, e.key)))
  {
  }

  lemma TransitionKeepsLog(s: State, r: Transition)
    requires WellFormed(s) && Commits(s, r)
    ensures var t := Effect(s, r);
      UniqueKeys(t.events) && forall i :: 0 <= i < |t.events| ==> t.events[i].policyId in t.policies
  {
    var old_ := Superseded(s, r);
    if old_.Some? {
      var key := RetireKey(r.event.key, old_.value);
      assert |key| > |r.event.key|;
      AppendKeepsKeys(s.events, Event(old_.value, Retire, key, s.policies[old_.value].version, r.event.reason));
    }
  }

  lemma TransitionKeepsWellFormed(s: State, r: Transition)
    requires WellFormed(s)
    ensures WellFormed(TransitionSpec(s, r).0)
  {
    if Commits(s, r) {
      TransitionKeepsTable(s, r);
      TransitionKeepsLog(s, r);
    }
  }

  lemma CreateKeepsWellFormed(s: State, c: Creation, e: Option<Payload>)
    requires WellFormed(s) && FreshId(s, Creating(c, e))
    ensures WellFormed(CreateSpec(s, c, e).0)
  {
    var t := CreateSpec(s, c, e).0;
    assert OneActiveDefault(t.policies);
    assert UniqueVersions(t.policies);
    if e.Some? && CreateRefusal(s, c, e).None? {
      var existing := VersionId(s.policies, c.version);
      AppendKeepsKeys(s.events, Logged(if existing.Some? then existing.value else c.id, e.value));
    }
  }

  lemma StepKeepsWellFormed(s: State, step: Step)
    requires WellFormed(s) && FreshId(s, step)
    ensures WellFormed(Next(s, step))
  {
    match step
    case Transitioning(r) => TransitionKeepsWellFormed(s, r);
    case Creating(c, e) => CreateKeepsWellFormed(s, c, e);
    case Appending(id, e) => AppendKeepsKeys(s.events, Logged(id, e));
  }

  lemma TransitionTableIsLog(s: State, r: Transition)
    requires WellFormed(s) && TableIsLog(s) && Commits(s, r)
    ensures TableIsLog(Effect(s, r)) <==> !Diverges(s, Transitioning(r))
  {
    var t, main := Effect(s, r), Logged(r.policyId, r.event);
    var old_ := Superseded(s, r);
    if old_.None? {
      forall id | id in s.policies { ReplaySnoc(s.policies[id].created, s.events, main, id); }
    } else {
      var a := old_.value;
      var key := RetireKey(r.event.key, a);
      var retire := Event(a, Retire, key, s.policies[a].version, r.event.reason);
      var events := AppendNew(s.events, retire, HasKey(s.events, key));
      assert t.events == events + [main];
      forall id | id in s.policies
        ensures Replay(s.policies[id].created, t.events, id) ==
          if id == r.policyId then Active else if id == a && !HasKey(s.events, key) then Retired
          else s.policies[id].status
      {
        ReplaySnoc(s.policies[id].created, s.events, retire, id);
        ReplaySnoc(s.policies[id].created, events, main, id);
      }
      assert t.policies[a].status.Retired? && s.policies[a].status.Active?;
    }
  }

  lemma CreateTableIsLog(s: State, c: Creation, e: Option<Payload>)
    requires WellFormed(s) && TableIsLog(s) && FreshId(s, Creating(c, e)) && CreateRefusal(s, c, e).None?
    ensures TableIsLog(CreateSpec(s, c, e).0) <==> !Diverges(s, Creating(c, e))
  {
    var t := CreateSpec(s, c, e).0;
    var existing := VersionId(s.policies, c.version);
    var id := if existing.Some? then existing.value else c.id;
    ReplayOfOthers(c.status, s.events, c.id);
    if e.Some? && !HasKey(s.events, e.value.key) {
      assert t.events == s.events + [Logged(id, e.value)];
      forall i | i in t.policies
        ensures Replay(t.policies[i].created, t.events, i) ==
          if i == id then Apply(e.value.action, t.policies[i].status) else t.policies[i].status
      {
        ReplaySnoc(t.policies[i].created, s.events, Logged(id, e.value), i);
      }
      assert id in t.policies && t.policies[id].status == CreatedStatus(s, c);
    }
  }

  lemma AppendTableIsLog(s: State, id: string, e: Payload)
    requires WellFormed(s) && TableIsLog(s) && id in s.policies && !HasKey(s.events, e.key)
    ensures TableIsLog(AppendSpec(s, id, e).0) <==> !Diverges(s, Appending(id, e))
  {
    forall i | i in s.policies {
      ReplaySnoc(s.policies[i].created, s.events, Logged(id, e), i);
    }
    var t := AppendSpec(s, id, e).0;
    assert t.policies[id].status == s.policies[id].status;
  }

  /** A step keeps the table equal to its log exactly when it is not one of the diverging ones. */
  lemma StepKeepsTableIsLog(s: State, step: Step)
    requires WellFormed(s) && TableIsLog(s) && FreshId(s, step)
    ensures TableIsLog(Next(s, step)) <==> !Diverges(s, step)
  {
    match step
    case Transitioning(r) => if Commits(s, r) { TransitionTableIsLog(s, r); }
    case Creating(c, e) => if CreateRefusal(s, c, e).None? { CreateTableIsLog(s, c, e); }
    case Appending(id, e) => if id in s.policies && !HasKey(s.events, e.key) { AppendTableIsLog(s, id, e); }
  }

  lemma StepKeepsActiveWasValidated(s: State, step: Step)
    requires WellFormed(s) && ActiveWasValidated(s) && FreshId(s, step)
    ensures ActiveWasValidated(Next(s, step))
  {
  }

  // ----- every run -----

  ghost predicate Sound(s: State) {
    WellFormed(s) && TableIsLog(s) && ActiveWasValidated(s)
  }

  ghost predicate FreshRun(s: State, steps: seq<Step>) {
    steps == []
    || var n := |steps| - 1; FreshRun(s, steps[..n]) && FreshId(Run(s, steps[..n]), steps[n])
  }

  ghost predicate NeverDiverges(s: State, steps: seq<Step>) {
    steps == []
    || var n := |steps| - 1; NeverDiverges(s, steps[..n]) && !Diverges(Run(s, steps[..n]), steps[n])
  }

  /**
   * After every run: each status is what the log says, at most one default policy is active, and an
   * active policy that did not start active carries a validation of its own hash.
   */
  lemma {:induction false} RunIsSound(steps: seq<Step>)
    requires FreshRun(EMPTY, steps) && NeverDiverges(EMPTY, steps)
    ensures Sound(Run(EMPTY, steps))
  {
    if steps != [] {
      var n := |steps| - 1;
      RunIsSound(steps[..n]);
      var s := Run(EMPTY, steps[..n]);
      StepKeepsWellFormed(s, steps[n]);
      StepKeepsTableIsLog(s, steps[n]);
      StepKeepsActiveWasValidated(s, steps[n]);
    }
  }

  // ----- client keys that cannot make the table diverge -----

  /** The form of a retire key: some key, ":retire:", and an identifier without colons. */
  ghost predicate DerivedForm(key: string) {
    exists k: string, id: string :: ':' !in id && key == RetireKey(k, id)
  }

  ghost predicate PlainStep(step: Step) {
    match step
    case Transitioning(r) => !DerivedForm(r.event.key)
    case Creating(c, e) => ':' !in c.id && (e.Some? ==> !DerivedForm(e.value.key) && e.value.action.Create?)
    case Appending(_, e) => !DerivedForm(e.key) && Apply(e.action, Draft).Draft?
  }

  /** Every derived key in the log sits beside the key it was derived from. */
  ghost predicate DerivedBesideOrigin(s: State) {
    && (forall id :: id in s.policies ==> ':' !in id)
    && forall i, k: string, id: string ::
      (0 <= i < |s.events| && ':' !in id && s.events[i].key == RetireKey(k, id) ==> HasKey(s.events, k))
  }

  lemma RetireKeyInjective(k: string, id: string, k': string, id': string)
    requires ':' !in id && ':' !in id' && RetireKey(k, id) == RetireKey(k', id')
    ensures k == k' && id == id'
  {
    var a, a' := k + ":retire", k' + ":retire";
    assert RetireKey(k, id) == a + [':'] + id && RetireKey(k', id') == a' + [':'] + id';
    ColonKeyInjective(a, id, a', id');
    assert k == a[..|a| - 7] && k' == a'[..|a'| - 7];
  }

  lemma PlainAppendKeepsOrigins(events: seq<Event>, e: Event, k: string, id: string, i: nat)
    requires forall i, k: string, id: string ::
      (0 <= i < |events| && ':' !in id && events[i].key == RetireKey(k, id) ==> HasKey(events, k))
    requires !DerivedForm(e.key) && ':' !in id
    requires i < |events + [e]| && (events + [e])[i].key == RetireKey(k, id)
    ensures HasKey(events + [e], k)
  {
    assert i < |events| && events[i].key == RetireKey(k, id);
    assert (events + [e])[KeyIndex(events, k)].key == k;
  }

  lemma DerivedHasOrigin(s: State, k: string, id: string)
    requires DerivedBesideOrigin(s) && ':' !in id
    ensures HasKey(s.events, RetireKey(k, id)) ==> HasKey(s.events, k)
  {
    if HasKey(s.events, RetireKey(k, id)) {
      assert s.events[KeyIndex(s.events, RetireKey(k, id))].key == RetireKey(k, id);
    }
  }

  lemma PlainTransitionKeepsOrigins(s: State, r: Transition)
    requires WellFormed(s) && DerivedBesideOrigin(s) && PlainStep(Transitioning(r)) && Commits(s, r)
    ensures !Diverges(s, Transitioning(r)) && DerivedBesideOrigin(Effect(s, r))
  {
    var t, old_ := Effect(s, r), Superseded(s, r);
    if old_.Some? {
      DerivedHasOrigin(s, r.event.key, old_.value);
    }
    forall i, k: string, id: string | 0 <= i < |t.events| && ':' !in id && t.events[i].key == RetireKey(k, id)
      ensures HasKey(t.events, k)
    {
      if i < |s.events| {
        assert t.events[i] == s.events[i];
        assert t.events[KeyIndex(s.events, k)].key == k;
      } else {
        assert i < |t.events| - 1;
        RetireKeyInjective(k, id, r.event.key, old_.value);
        assert t.events[|t.events| - 1].key == k;
      }
    }
  }

  lemma PlainStepKeepsOrigins(s: State, step: Step)
    requires WellFormed(s) && DerivedBesideOrigin(s) && PlainStep(step)
    ensures !Diverges(s, step) && DerivedBesideOrigin(Next(s, step))
  {
    var t := Next(s, step);
    if step.Transitioning? {
      if Commits(s, step.r) { PlainTransitionKeepsOrigins(s, step.r); }
    } else if t.events != s.events {
      var e := t.events[|s.events|];
      assert t.events == s.events + [e] && !DerivedForm(e.key);
      forall i, k: string, id: string | 0 <= i < |t.events| && ':' !in id && t.events[i].key == RetireKey(k, id)
        ensures HasKey(t.events, k)
      {
        PlainAppendKeepsOrigins(s.events, e, k, id, i);
      }
    }
  }

  /** Clients that never send a derived key, and creations that only log "create", make every run sound. */
  lemma {:induction false} PlainRunIsSound(steps: seq<Step>)
    requires FreshRun(EMPTY, steps) && forall step :: step in steps ==> PlainStep(step)
    ensures NeverDiverges(EMPTY, steps) && Sound(Run(EMPTY, steps)) && DerivedBesideOrigin(Run(EMPTY, steps))
  {
    if steps != [] {
      var n := |steps| - 1;
      PlainRunIsSound(steps[..n]);
      PlainStepKeepsOrigins(Run(EMPTY, steps[..n]), steps[n]);
      RunIsSound(steps);
    }
  }

  // ----- a client key of the derived form -----

  lemma RunOneMore(s: State, steps: seq<Step>, step: Step)
    ensures Run(s, steps + [step]) == Next(Run(s, steps), step)
    ensures FreshRun(s, steps + [step]) <==> FreshRun(s, steps) && FreshId(Run(s, steps), step)
    ensures NeverDiverges(s, steps + [step]) <==> NeverDiverges(s, steps) && !Diverges(Run(s, steps), step)
  {
    assert (steps + [step])[..|steps|] == steps;
  }

  /** A validated default policy as it is created. */
  function Validated(version: string, sha: string, status: Status): Policy {
    Policy(version, "1", sha, "", true, status, Some(0), Summary(true, sha), status)
  }

  function CreateStep(id: string, p: Policy): Step {
    Creating(Creation(id, p.version, p.schemaVersion, p.sha, p.base, p.isDefault, p.status, p.validatedAt,
      p.summary), None)
  }

  function MoveStep(id: string, sha: string, action: Action, active: Option<string>, key: string): Step {
    Transitioning(Transition(id, action, sha, active, Summary(false, ""), Payload(action, key, "", ""), 1))
  }

  function MoveEvent(id: string, action: Action, key: string): Event {
    Event(id, action, key, "", "")
  }

  function MoveNotice(id: string, i: nat, version: string, action: Action, status: Status): Notice {
    Notice(id, i, version, action, status, "")
  }

  /** "p" is created active, retired under the key that superseding it with key "k" would derive, rolled back
      to, and "q" is created as a validated draft. */
  function SquattingSteps(): seq<Step> {
    [CreateStep("p", Validated("1", "h", Active))]
    + [MoveStep("p", "h", Retire, Some("p"), RetireKey("k", "p"))]
    + [MoveStep("p", "h", Rollback, None, "b")]
    + [CreateStep("q", Validated("2", "g", Draft))]
  }

  function Squatted(): State {
    var p := Validated("1", "h", Active);
    State(map["p" := p, "q" := Validated("2", "g", Draft)],
          [MoveEvent("p", Retire, RetireKey("k", "p")), MoveEvent("p", Rollback, "b")],
          [MoveNotice("p", 0, "1", Retire, Retired), MoveNotice("p", 1, "1", Rollback, Active)])
  }

  lemma CreateFirst()
    ensures
      var t := State(map["p" := Validated("1", "h", Active)], [], []);
      Next(EMPTY, CreateStep("p", Validated("1", "h", Active))) == t && WellFormed(t)
    ensures !Diverges(EMPTY, CreateStep("p", Validated("1", "h", Active)))
  {
  }

  lemma RetireFirst(p: Policy, key: string)
    requires p == Validated("1", "h", Active)
    ensures
      var s := State(map["p" := p], [], []);
      var step := MoveStep("p", "h", Retire, Some("p"), key);
      && !Diverges(s, step)
      && Next(s, step) == State(
        map["p" := p.(status := Retired)], [MoveEvent("p", Retire, key)], [MoveNotice("p", 0, "1", Retire, Retired)])
  {
    var s := State(map["p" := p], [], []);
    assert IsActiveDefault(s.policies["p"]) && ActiveId(s.policies) == Some("p");
  }

  lemma RollBackFirst(p: Policy, key: string)
    requires p == Validated("1", "h", Active) && key != "b"
    ensures
      var e, n := MoveEvent("p", Retire, key), MoveNotice("p", 0, "1", Retire, Retired);
      var s, step := State(map["p" := p.(status := Retired)], [e], [n]), MoveStep("p", "h", Rollback, None, "b");
      && !Diverges(s, step)
      && Next(s, step) == State(
        map["p" := p], [e, MoveEvent("p", Rollback, "b")], [n, MoveNotice("p", 1, "1", Rollback, Active)])
  {
    var s := State(
      map["p" := p.(status := Retired)], [MoveEvent("p", Retire, key)], [MoveNotice("p", 0, "1", Retire, Retired)]);
    assert ActiveId(s.policies) == None;
    assert !HasKey(s.events, "b");
  }

  lemma CreateSecond(s: State, p: Policy)
    requires s.policies == map["p" := p] && p == Validated("1", "h", Active)
    ensures !Diverges(s, CreateStep("q", Validated("2", "g", Draft)))
    ensures Next(s, CreateStep("q", Validated("2", "g", Draft))) ==
      s.(policies := map["p" := p, "q" := Validated("2", "g", Draft)])
  {
    assert VersionId(s.policies, "2") == None;
  }

  ghost predicate Reached(steps: seq<Step>, s: State) {
    FreshRun(EMPTY, steps) && NeverDiverges(EMPTY, steps) && Run(EMPTY, steps) == s
  }

  lemma ReachNext(steps: seq<Step>, s: State, step: Step)
    requires Reached(steps, s) && FreshId(s, step) && !Diverges(s, step)
    ensures Reached(steps + [step], Next(s, step))
  {
    RunOneMore(EMPTY, steps, step);
  }

  lemma SquattingRun()
    ensures Reached(SquattingSteps(), Squatted())
  {
    hide Reached, WellFormed, Diverges, Next, MoveStep, MoveEvent, MoveNotice, RetireKey;
    var p, key := Validated("1", "h", Active), RetireKey("k", "p");
    var x, y := CreateStep("p", p), MoveStep("p", "h", Retire, Some("p"), key);
    var z, q := MoveStep("p", "h", Rollback, None, "b"), CreateStep("q", Validated("2", "g", Draft));
    EmptyRun();
    CreateFirst();
    ReachNext([], EMPTY, x);
    assert [] + [x] == [x];
    RetireFirst(p, key);
    ReachMoved([x], Next(EMPTY, x), "p", "h", Retire, Some("p"), key);
    LongKey();
    RollBackFirst(p, key);
    ReachMoved([x] + [y], Next(Next(EMPTY, x), y), "p", "h", Rollback, None, "b");
    var s := Next(Next(Next(EMPTY, x), y), z);
    CreateSecond(s, p);
    ReachNext([x] + [y] + [z], s, q);
  }

  lemma LongKey()
    ensures RetireKey("k", "p") != "b"
  {
    assert |RetireKey("k", "p")| > 1;
  }

  lemma ReachMoved(
    steps: seq<Step>, s: State, id: string, sha: string, action: Action, active: Option<string>, key: string)
    requires Reached(steps, s) && !Diverges(s, MoveStep(id, sha, action, active, key))
    ensures
      var step := MoveStep(id, sha, action, active, key);
      Reached(steps + [step], Next(s, step))
  {
    ReachNext(steps, s, MoveStep(id, sha, action, active, key));
  }

  lemma EmptyRun()
    ensures Reached([], EMPTY)
  {
  }

  /** A run from the empty repository of which only the last step, an accepted activation, diverges: it retires
      "p", but the log goes on saying that "p" is active. */
  lemma {:induction false} DerivedKeyDiverges() returns (steps: seq<Step>, last: Transition)
    ensures FreshRun(EMPTY, steps + [Transitioning(last)])
    ensures NeverDiverges(EMPTY, steps) && Sound(Run(EMPTY, steps)) && Commits(Run(EMPTY, steps), last)
    ensures !TableIsLog(Run(EMPTY, steps + [Transitioning(last)]))
  {
    steps := SquattingSteps();
    last := Transition("q", Activate, "g", Some("p"), Summary(false, ""), Payload(Activate, "k", "", ""), 1);
    SquattingRun();
    RunIsSound(steps);
    RunOneMore(EMPTY, steps, Transitioning(last));
    ActivationDiverges(last);
    StepKeepsTableIsLog(Squatted(), Transitioning(last));
  }

  lemma ActivationDiverges(last: Transition)
    requires last == Transition("q", Activate, "g", Some("p"), Summary(false, ""), Payload(Activate, "k", "", ""), 1)
    requires Sound(Squatted())
    ensures Commits(Squatted(), last) && Diverges(Squatted(), Transitioning(last))
  {
    var s, key := Squatted(), RetireKey("k", "p");
    assert |key| > 1;
    assert s.events[0].key == key && s.events[1].key == "b" && |s.events| == 2;
    assert IsActiveDefault(s.policies["p"]) && ActiveId(s.policies) == Some("p");
    assert HasKey(s.events, key) && KeyIndex(s.events, key) == 0;
    assert !HasKey(s.events, "k");
  }

  // ----- idempotency -----

  ghost predicate Later(s: State, t: State) {
    s.events <= t.events && forall id :: id in s.policies ==> id in t.policies
  }

  lemma {:induction false} RunOnlyAppends(s: State, steps: seq<Step>)
    ensures Later(s, Run(s, steps))
  {
    if steps != [] {
      RunOnlyAppends(s, steps[..|steps| - 1]);
    }
  }

  lemma {:induction false} RunKeepsWellFormed(s: State, steps: seq<Step>)
    requires WellFormed(s) && FreshRun(s, steps)
    ensures WellFormed(Run(s, steps))
  {
    if steps != [] {
      var n := |steps| - 1;
      RunKeepsWellFormed(s, steps[..n]);
      StepKeepsWellFormed(Run(s, steps[..n]), steps[n]);
    }
  }

  /** Once a transition has committed, repeating it after any further steps changes nothing and succeeds. */
  lemma RepeatedTransitionChangesNothing(s: State, r: Transition, steps: seq<Step>)
    requires WellFormed(s) && Commits(s, r) && FreshRun(Effect(s, r), steps)
    ensures var u := Run(Effect(s, r), steps);
      r.policyId in u.policies && TransitionSpec(u, r) == (u, Ok(Some(u.policies[r.policyId])))
  {
    var t := Effect(s, r);
    TransitionKeepsWellFormed(s, r);
    RunKeepsWellFormed(t, steps);
    RunOnlyAppends(t, steps);
    var u := Run(t, steps);
    var i := |t.events| - 1;
    assert u.events[i] == t.events[i] == Logged(r.policyId, r.event);
    assert HasKey(u.events, r.event.key);
  }

  /**
   * A transition other than validation commits only if the active default is the one it named, and
   * an activation or rollback leaves its target as the only active default.
   */
  lemma CommitsOnlyAgainstNamedActive(s: State, r: Transition)
    requires WellFormed(s) && Commits(s, r) && !r.action.Validate?
    ensures ActiveId(s.policies) == r.expectedActive
    ensures r.action.Activate? || r.action.Rollback? ==>
      forall id :: id in Effect(s, r).policies ==> (IsActiveDefault(Effect(s, r).policies[id]) <==> id == r.policyId)
    ensures r.action.Retire? ==>
      ActiveId(Effect(s, r).policies) == if r.expectedActive == Some(r.policyId) then None else r.expectedActive
  {
    TransitionKeepsWellFormed(s, r);
    var t := Effect(s, r);
    forall id | id in t.policies && IsActiveDefault(t.policies[id]) && id != r.policyId
      ensures r.expectedActive == Some(id) && r.action.Retire?
    {
      assert IsActiveDefault(s.policies[id]);
    }
  }
}
