/** Comment threads over every run of creations, mutations, locks and artifact changes. */
module CommentRuns {
  import opened Wrappers
  import opened Comments

  datatype Step =
    | Creating(c: Creation)
    | Mutating(m: Mutation)
    | Locking(artifactId: string)
    | ArtifactChanging(artifactId: string, artifact: Artifact)

  ghost function Next(s: State, step: Step): State {
    match step
    case Creating(c) => CreateSpec(s, c).0
    case Mutating(m) => MutateSpec(s, m).0
    case Locking(artifactId) => LockSpec(s, artifactId)
    case ArtifactChanging(id, artifact) => s.(artifacts := s.artifacts[id := artifact])
  }

  ghost function Run(s: State, steps: seq<Step>): State {
    if steps == [] then s else Next(Run(s, steps[..|steps| - 1]), steps[|steps| - 1])
  }

  /** The repository draws an unused identifier for a thread it inserts. */
  ghost predicate FreshRun(s: State, steps: seq<Step>) {
    steps == []
    || var n := |steps| - 1; FreshRun(s, steps[..n]) && FreshStep(Run(s, steps[..n]), steps[n])
  }

  predicate FreshStep(s: State, step: Step) {
    step.Creating? ==> step.c.id !in s.threads
  }

  const EMPTY := State(map[], map[], [])

  // ----- the log as the source of truth -----

  /** What the log says about one thread. */
  datatype View = View(body: string, resolved: bool, resolvedBy: string, version: int)

  function Count(events: seq<Event>, id: string): nat {
    if events == [] then 0
    else Count(events[..|events| - 1], id) + if events[|events| - 1].threadId == id then 1 else 0
  }

  function Fold(events: seq<Event>, id: string): View {
    if events == [] then View("", false, "", 0)
    else
      var v, e := Fold(events[..|events| - 1], id), events[|events| - 1];
      if e.threadId != id then v
      else
        var w := v.(version := v.version + 1);
        match e.kind
        case Create => View(e.body, false, "", 1)
        case Edit => w.(body := e.body)
        case Resolve => w.(resolved := true, resolvedBy := e.actor)
        case Reopen => w.(resolved := false, resolvedBy := "")
        case _ => w
  }

  function RowView(t: Thread): View {
    View(t.body, t.resolved, t.resolvedBy, t.version)
  }

  predicate IsAdminRole(role: string) {
    role == "admin" || role == "core_admin"
  }

  /** Edits are by the thread's reviewer, resolving and reopening by admins, "addressed" by authors. */
  predicate Permitted(e: Event, t: Thread) {
    match e.kind
    case Edit => e.actor == t.reviewer && IsAdminRole(e.role)
    case Resolve => IsAdminRole(e.role)
    case Reopen => IsAdminRole(e.role)
    case AuthorAddressed => e.role == "author"
    case Reply => IsAdminRole(e.role) || e.role == "author"
    case Create => e.actor == t.reviewer && e.role == t.reviewerRole && IsAdminRole(e.role)
  }

  /** The versions of a thread's events run 0 to 1, 1 to 2, ..., starting with its creation. */
  ghost predicate Chained(events: seq<Event>) {
    forall i :: 0 <= i < |events| ==>
      && events[i].expected == Count(events[..i], events[i].threadId)
      && events[i].resulting == events[i].expected + 1
      && (events[i].kind.Create? <==> events[i].expected == 0)
  }

  ghost predicate RowsAreFolds(s: State) {
    forall id :: id in s.threads ==>
      s.threads[id].version == Count(s.events, id) && RowView(s.threads[id]) == Fold(s.events, id)
  }

  ghost predicate EventsPermitted(s: State) {
    forall i :: 0 <= i < |s.events| ==>
      s.events[i].threadId in s.threads && Permitted(s.events[i], s.threads[s.events[i].threadId])
  }

  ghost predicate Sound(s: State) {
    && Chained(s.events) && RowsAreFolds(s) && EventsPermitted(s) && KeysIdentify(s)
    && forall id :: id in s.threads ==> s.threads[id].version >= 1
  }

  // ----- one step -----

  lemma CountSnoc(events: seq<Event>, e: Event, id: string)
    ensures Count(events + [e], id) == Count(events, id) + if e.threadId == id then 1 else 0
    ensures e.threadId != id ==> Fold(events + [e], id) == Fold(events, id)
  {
    assert (events + [e])[..|events|] == events;
  }

  lemma FoldSnoc(events: seq<Event>, e: Event, t: Thread)
    requires RowView(t) == Fold(events, e.threadId)
    requires e.kind.Create? || e.resulting == t.version + 1
    ensures Fold(events + [e], e.threadId) ==
      if e.kind.Create? then View(e.body, false, "", 1) else RowView(Applied(t, e))
  {
    assert (events + [e])[..|events|] == events;
  }

  lemma {:induction false} NoEventsOfNewThread(events: seq<Event>, id: string)
    requires forall i :: 0 <= i < |events| ==> events[i].threadId != id
    ensures Count(events, id) == 0 && Fold(events, id) == View("", false, "", 0)
  {
    if events != [] {
      NoEventsOfNewThread(events[..|events| - 1], id);
    }
  }

  lemma ChainSnoc(events: seq<Event>, e: Event)
    requires Chained(events) && e.expected == Count(events, e.threadId) && e.resulting == e.expected + 1
    requires e.kind.Create? <==> e.expected == 0
    ensures Chained(events + [e])
  {
    var all := events + [e];
    assert all[..|events|] == events;
    forall i | 0 <= i < |events| ensures all[i] == events[i] && all[..i] == events[..i] {}
  }

  lemma {:induction false} CreatedOnce(events: seq<Event>, i: nat, id: string)
    requires i < |events| && events[i].threadId == id
    ensures Count(events, id) > 0
  {
    if i < |events| - 1 {
      CreatedOnce(events[..|events| - 1], i, id);
    }
  }

  /** What a new event must satisfy to leave the log and the rows in step. */
  ghost predicate Fits(s: State, t: State, e: Event) {
    && t.events == s.events + [e] && t.artifacts == s.artifacts
    && e.threadId in t.threads && t.threads == s.threads[e.threadId := t.threads[e.threadId]]
    && e.expected == Count(s.events, e.threadId) && e.resulting == e.expected + 1
    && (e.kind.Create? <==> e.expected == 0) && Permitted(e, t.threads[e.threadId])
    && RowView(t.threads[e.threadId]) == Fold(t.events, e.threadId) && t.threads[e.threadId].version == e.resulting
    && (e.threadId in s.threads ==>
          var (a, b) := (s.threads[e.threadId], t.threads[e.threadId]);
          a.reviewer == b.reviewer && a.reviewerRole == b.reviewerRole && a.key == b.key)
    && (e.threadId !in s.threads ==> !HasThreadKey(s, t.threads[e.threadId].key))
  }

  lemma FittingKeepsRows(s: State, t: State, e: Event)
    requires RowsAreFolds(s) && Fits(s, t, e)
    ensures RowsAreFolds(t)
  {
    forall id | id in t.threads
      ensures t.threads[id].version == Count(t.events, id) && RowView(t.threads[id]) == Fold(t.events, id)
    {
      CountSnoc(s.events, e, id);
    }
  }

  lemma FittingKeepsPermitted(s: State, t: State, e: Event)
    requires EventsPermitted(s) && Fits(s, t, e)
    ensures EventsPermitted(t)
  {
    forall i | 0 <= i < |t.events|
      ensures t.events[i].threadId in t.threads && Permitted(t.events[i], t.threads[t.events[i].threadId])
    {
      if i < |s.events| {
        assert t.events[i] == s.events[i];
      }
    }
  }

  lemma FittingKeepsKeys(s: State, t: State, e: Event)
    requires KeysIdentify(s) && Fits(s, t, e)
    ensures KeysIdentify(t)
  {
    forall i | 0 <= i < |s.events| && e.kind.Create? ensures s.events[i].threadId != e.threadId {
      if s.events[i].threadId == e.threadId {
        CreatedOnce(s.events, i, e.threadId);
      }
    }
  }

  lemma FittingEventKeepsSound(s: State, t: State, e: Event)
    requires Sound(s) && Fits(s, t, e)
    ensures Sound(t)
  {
    ChainSnoc(s.events, e);
    FittingKeepsRows(s, t, e);
    FittingKeepsPermitted(s, t, e);
    FittingKeepsKeys(s, t, e);
  }

  lemma MutateFits(s: State, m: Mutation)
    requires Sound(s) && MutateSpec(s, m).0 != s
    ensures Request(s, m).Ok? && Fits(s, MutateSpec(s, m).0, Request(s, m).value)
  {
    var e := Request(s, m).value;
    FoldSnoc(s.events, e, s.threads[e.threadId]);
  }

  lemma CreateFits(s: State, c: Creation)
    requires Sound(s) && c.id !in s.threads && CreateSpec(s, c).0 != s
    ensures Fits(s, CreateSpec(s, c).0, OpeningEvent(c))
  {
    NoEventsOfNewThread(s.events, c.id);
    assert (s.events + [OpeningEvent(c)])[..|s.events|] == s.events;
  }

  lemma LockTouchesLocksOnly(s: State, artifactId: string)
    ensures
      var t := LockSpec(s, artifactId);
      && t.events == s.events && t.threads.Keys == s.threads.Keys
      && forall id :: id in s.threads ==> t.threads[id] == s.threads[id].(locked := t.threads[id].locked)
  {
  }

  lemma LockKeepsSound(s: State, artifactId: string)
    requires Sound(s)
    ensures Sound(LockSpec(s, artifactId))
  {
    hide Fold, Count, Chained;
    var t := LockSpec(s, artifactId);
    LockTouchesLocksOnly(s, artifactId);
    assert EventsPermitted(t) by {
      assert forall id :: id in s.threads ==> t.threads[id].reviewer == s.threads[id].reviewer;
    }
    assert RowsAreFolds(t);
    assert KeysIdentify(t);
  }

  lemma StepKeepsSound(s: State, step: Step)
    requires Sound(s) && FreshStep(s, step)
    ensures Sound(Next(s, step))
  {
    var t := Next(s, step);
    match step
    case Creating(c) => if t != s { CreateFits(s, c); FittingEventKeepsSound(s, t, OpeningEvent(c)); }
    case Mutating(m) => if t != s { MutateFits(s, m); FittingEventKeepsSound(s, t, Request(s, m).value); }
    case Locking(artifactId) => LockKeepsSound(s, artifactId);
    case ArtifactChanging(_, _) =>
  }

  lemma {:induction false} RunKeepsSound(s: State, steps: seq<Step>)
    requires Sound(s) && FreshRun(s, steps)
    ensures Sound(Run(s, steps))
  {
    if steps != [] {
      var n := |steps| - 1;
      RunKeepsSound(s, steps[..n]);
      StepKeepsSound(Run(s, steps[..n]), steps[n]);
    }
  }

  /** Every reachable state is sound: rows are the folds of their chained, permitted events. */
  lemma {:induction false} RunIsSound(steps: seq<Step>)
    requires FreshRun(EMPTY, steps)
    ensures Sound(Run(EMPTY, steps))
  {
    RunKeepsSound(EMPTY, steps);
  }

  // ----- replays, races and locks -----

  /** Artifacts and threads stay, the log only grows, reviewers stay, versions never fall, locks stay. */
  ghost predicate Later(s: State, t: State) {
    && s.artifacts.Keys <= t.artifacts.Keys && s.events <= t.events
    && forall id :: id in s.threads ==> id in t.threads && Follows(s.threads[id], t.threads[id])
  }

  predicate Follows(a: Thread, b: Thread) {
    && a.artifactId == b.artifactId && a.anchor == b.anchor && a.reviewer == b.reviewer
    && a.reviewerRole == b.reviewerRole && a.key == b.key && a.version <= b.version
    && (a.locked ==> b.locked && RowView(a) == RowView(b))
  }

  lemma {:induction false} RunGoesOn(s: State, steps: seq<Step>)
    requires FreshRun(s, steps)
    ensures Later(s, Run(s, steps))
  {
    if steps != [] {
      var n := |steps| - 1;
      RunGoesOn(s, steps[..n]);
      StepGoesOn(Run(s, steps[..n]), steps[n]);
      LaterStill(s, Run(s, steps[..n]), Run(s, steps));
    }
  }

  lemma LaterStill(a: State, b: State, c: State)
    requires Later(a, b) && Later(b, c)
    ensures Later(a, c)
  {
  }

  lemma StepGoesOn(s: State, step: Step)
    requires FreshStep(s, step)
    ensures Later(s, Next(s, step))
  {
    match step
    case Creating(c) =>
    case Mutating(m) => MutateGoesOn(s, m);
    case Locking(_) =>
    case ArtifactChanging(_, _) =>
  }

  lemma MutateGoesOn(s: State, m: Mutation)
    ensures Later(s, MutateSpec(s, m).0)
  {
    if Request(s, m).Ok? {
      AppendGoesOn(s, Request(s, m).value);
    }
  }

  lemma AppendGoesOn(s: State, e: Event)
    requires e.resulting == e.expected + 1
    ensures Later(s, AppendSpec(s, e).0)
  {
  }

  ghost predicate Accepts(s: State, m: Mutation) {
    MutateSpec(s, m).0.events != s.events
  }

  lemma {:induction false} WithKeyPersists(events: seq<Event>, more: seq<Event>, key: string)
    requires HasKey(events, key) && events <= more
    ensures HasKey(more, key) && WithKey(more, key) == WithKey(events, key)
  {
    assert exists i :: 0 <= i < |events| && more[i].key == key;
    if events[0].key != key {
      var i :| 0 <= i < |events| && events[i].key == key;
      assert events[1..][i - 1].key == key;
      WithKeyPersists(events[1..], more[1..], key);
    }
  }

  lemma AcceptedKeyIsFound(events: seq<Event>, e: Event)
    requires !HasKey(events, e.key)
    ensures HasKey(events + [e], e.key) && WithKey(events + [e], e.key) == e
  {
    var all := events + [e];
    assert forall k :: 0 <= k < |events| ==> all[k] == events[k];
    FirstIs(all, |events|, e.key);
  }

  /** An event that was accepted is recognised in every later state. */
  lemma RepeatedEvent(s: State, e: Event, u: State)
    requires AppendSpec(s, e).0 != s && Later(AppendSpec(s, e).0, u)
    ensures e.threadId in u.threads && AppendSpec(u, e) == (u, Ok(Some(u.threads[e.threadId])))
  {
    AcceptedKeyIsFound(s.events, e);
    WithKeyPersists(s.events + [e], u.events, e.key);
  }

  lemma RequestKey(s: State, u: State, m: Mutation)
    requires Request(s, m).Ok? && Request(u, m).Ok?
    ensures Request(s, m).value.key == Request(u, m).value.key
  {
  }

  /**
   * Repeating an accepted mutation any time later changes nothing; and as long as the service still
   * asks for the same event, it answers with the thread, even one that has been locked since. The service
   * does so at least while the actor's role stands on what has not changed.
   */
  lemma RepeatedMutationChangesNothing(s: State, m: Mutation, steps: seq<Step>)
    requires Accepts(s, m) && FreshRun(MutateSpec(s, m).0, steps)
    ensures var u := Run(MutateSpec(s, m).0, steps);
      && MutateSpec(u, m).0 == u
      && (Request(u, m) == Request(s, m) ==> m.threadId in u.threads && MutateSpec(u, m).1 == Ok(u.threads[m.threadId]))
      && (RoleStands(s, u, m) ==> m.threadId in u.threads && MutateSpec(u, m).1 == Ok(u.threads[m.threadId]))
  {
    var t, e := MutateSpec(s, m).0, Request(s, m).value;
    var u := Run(t, steps);
    RunGoesOn(t, steps);
    RepeatedEvent(s, e, u);
    if Request(u, m).Ok? {
      RequestKey(s, u, m);
    }
    if RoleStands(s, u, m) {
      StandingRoleAsksTheSame(s, u, m);
    }
  }

  /** The role does not depend on the artifact, or the artifact's submitter and owner are as they were. */
  predicate RoleStands(s: State, u: State, m: Mutation) {
    || (m.actor.isAdmin && !m.kind.AuthorAddressed?)
    || (m.artifactId in s.artifacts && m.artifactId in u.artifacts
        && u.artifacts[m.artifactId].submittedBy == s.artifacts[m.artifactId].submittedBy
        && u.artifacts[m.artifactId].owner == s.artifacts[m.artifactId].owner)
  }

  lemma StandingRoleAsksTheSame(s: State, u: State, m: Mutation)
    requires Accepts(s, m) && Later(MutateSpec(s, m).0, u) && RoleStands(s, u, m)
    ensures Request(u, m) == Request(s, m)
  {
    hide KindName;
  }

  lemma AcceptedRaisesVersion(s: State, m: Mutation)
    requires Accepts(s, m)
    ensures var t := MutateSpec(s, m).0; m.threadId in t.threads && t.threads[m.threadId].version > m.expected
  {
  }

  lemma StaleIsRefused(u: State, m: Mutation)
    requires m.threadId in u.threads && u.threads[m.threadId].version > m.expected
    ensures !Accepts(u, m)
  {
  }

  /** Of two requests with the same expected version of a thread, at most one is ever accepted. */
  lemma OneOfTwoIsAccepted(s: State, a: Mutation, steps: seq<Step>, b: Mutation)
    requires Accepts(s, a) && FreshRun(MutateSpec(s, a).0, steps)
    requires a.threadId == b.threadId && a.expected == b.expected
    ensures !Accepts(Run(MutateSpec(s, a).0, steps), b)
  {
    RunGoesOn(MutateSpec(s, a).0, steps);
    AcceptedRaisesVersion(s, a);
    StaleIsRefused(Run(MutateSpec(s, a).0, steps), b);
  }

  /** Once a thread is locked, no step changes what it says. */
  lemma {:induction false} LockedThreadIsFrozen(s: State, id: string, steps: seq<Step>)
    requires id in s.threads && s.threads[id].locked && FreshRun(s, steps)
    ensures
      var t := Run(s, steps);
      id in t.threads && t.threads[id].locked && RowView(t.threads[id]) == RowView(s.threads[id])
  {
    RunGoesOn(s, steps);
  }

  /**
   * Repeating an accepted creation changes nothing either, but it is answered with the thread only
   * while the body is the original one: the source compares against the current body.
   */
  lemma {:induction false} RepeatedCreation(s: State, c: Creation, steps: seq<Step>)
    requires Sound(s) && c.id !in s.threads && CreateSpec(s, c).0 != s && FreshRun(CreateSpec(s, c).0, steps)
    ensures var u := Run(CreateSpec(s, c).0, steps);
      && c.id in u.threads && CreateSpec(u, c).0 == u
      && CreateSpec(u, c).1 ==
        if u.threads[c.id].body == c.body then Ok(u.threads[c.id]) else Err(IdempotencyKeyConflict)
  {
    hide Sound, FreshRun, Run, Later;
    var t := CreateSpec(s, c).0;
    var u := Run(t, steps);
    StepKeepsSound(s, Creating(c));
    RunKeepsSound(t, steps);
    RunGoesOn(t, steps);
    RecognisedCreation(t, u, c, |s.events|);
  }

  lemma RecognisedCreation(t: State, u: State, c: Creation, i: nat)
    requires Later(t, u) && KeysIdentify(u) && c.actor.isAdmin && c.fileKnown && c.artifactId in u.artifacts
    requires i < |t.events| && t.events[i] == OpeningEvent(c) && c.id in t.threads && t.threads[c.id] == Opened(c)
    ensures c.id in u.threads && CreateSpec(u, c).0 == u
    ensures CreateSpec(u, c).1 ==
      if u.threads[c.id].body == c.body then Ok(u.threads[c.id]) else Err(IdempotencyKeyConflict)
  {
    var key := CommentKey("thread", c.clientKey);
    assert u.threads[c.id].key == key;
    assert HasThreadKey(u, key) && ThreadWithKey(u, key) == c.id;
    assert u.events[i] == OpeningEvent(c) && IsCreateOf(u.events[i], c.id);
  }

  // ----- a creation repeated after an edit -----

  lemma RunOneMore(s: State, steps: seq<Step>, step: Step)
    ensures Run(s, steps + [step]) == Next(Run(s, steps), step)
    ensures FreshRun(s, steps + [step]) <==> FreshRun(s, steps) && FreshStep(Run(s, steps), step)
  {
    assert (steps + [step])[..|steps|] == steps;
  }

  /** An admin opens a thread with body "old". */
  function FirstCreation(): Creation {
    Creation("t", "a", true, Anchor("", "main.py", "", "head", 1, 1, ""), "old", Actor("u", true, false), "", "k")
  }

  /** The same admin edits the body to "new". */
  function FirstEdit(): Mutation {
    Mutation("a", "t", Actor("u", true, false), Edit, 1, "new", "k")
  }

  lemma CreateThenEdit(s: State)
    requires s == State(map["a" := Artifact(false, "", "")], map[], [])
    ensures CreateSpec(s, FirstCreation()).0 != s && FirstCreation().id !in s.threads
    ensures
      var t := MutateSpec(CreateSpec(s, FirstCreation()).0, FirstEdit()).0;
      t.artifacts == s.artifacts && "t" in t.threads && t.threads["t"].body == "new"
  {
    var c, m := FirstCreation(), FirstEdit();
    var t := CreateSpec(s, c).0;
    assert !HasThreadKey(s, CommentKey("thread", "k"));
    assert t == State(s.artifacts, map["t" := Opened(c)], [OpeningEvent(c)]);
    EventKeysDiffer();
    assert t.events[0].key == CommentKey("event:create", "k");
    assert !HasKey(t.events, CommentKey("event:edit", "k"));
    assert Request(t, m).Ok? && Request(t, m).value.body == "new";
  }

  lemma EventKeysDiffer()
    ensures CommentKey("event:create", "k") != CommentKey("event:edit", "k")
  {
    assert CommentKey("event:create", "k")[14] == 'c' && CommentKey("event:edit", "k")[14] == 'e';
  }

  /** From the empty repository: create, edit, and the same creation again is a conflict. */
  lemma EditedCreationConflicts() returns (steps: seq<Step>, c: Creation)
    ensures FreshRun(EMPTY, steps) && Creating(c) in steps
    ensures CreateSpec(Run(EMPTY, steps), c).1 == Err(IdempotencyKeyConflict)
  {
    c := FirstCreation();
    var artifact, open, edit := ArtifactChanging("a", Artifact(false, "", "")), Creating(c), Mutating(FirstEdit());
    steps := [artifact] + [open] + [edit];
    var s := State(map["a" := Artifact(false, "", "")], map[], []);
    RunOneMore(EMPTY, [], artifact);
    assert [] + [artifact] == [artifact];
    assert Run(EMPTY, [artifact]) == s;
    CreateThenEdit(s);
    RunOneMore(EMPTY, [artifact], open);
    RunOneMore(EMPTY, [artifact] + [open], edit);
    RunKeepsSound(EMPTY, [artifact]);
    var t := CreateSpec(s, c).0;
    RunOneMore(t, [], edit);
    assert [] + [edit] == [edit];
    RepeatedCreation(s, c, [edit]);
    assert "new" != "old";
  }
}
