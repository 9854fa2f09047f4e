/**
 * Review comment threads: apps/api/app/artifacts/comments.py decides who may append what, and the
 * in-memory repository in advanced_repository.py keeps thread rows beside an event log.
 */
module Comments {
  import opened Wrappers

  datatype Artifact = Artifact(terminal: bool, submittedBy: string, owner: string)

  /** `id` is "" for an account without an identifier. */
  datatype Actor = Actor(id: string, isAdmin: bool, isCoreAdmin: bool)

  datatype Kind = Create | Edit | Reply | Resolve | Reopen | AuthorAddressed

  /** Where a thread is attached. */
  datatype Anchor = Anchor(
    fileId: string, filePath: string, fileSha: string, side: string, lineStart: int, lineEnd: int, source: string)

  datatype Thread = Thread(
    artifactId: string, anchor: Anchor, body: string, reviewer: string, reviewerRole: string,
    resolved: bool, resolvedBy: string, locked: bool, version: int, key: string)

  datatype Event = Event(
    threadId: string, kind: Kind, body: string, actor: string, role: string,
    expected: int, resulting: int, metadata: string, key: string)

  datatype State = State(artifacts: map<string, Artifact>, threads: map<string, Thread>, events: seq<Event>)

  datatype Error =
    | LineInvalid | IdempotencyKeyConflict | ThreadLocked | VersionConflict
    | Forbidden | BodyInvalid | NotFound | ArtifactNotFound

  /** A creation as the service sends it; `id` is the identifier the repository draws. */
  datatype Creation = Creation(
    id: string, artifactId: string, fileKnown: bool, anchor: Anchor, body: string, actor: Actor,
    metadata: string, clientKey: string)

  datatype Mutation = Mutation(
    artifactId: string, threadId: string, actor: Actor, kind: Kind, expected: int, body: string, clientKey: string)

  // ----- roles, bodies and keys -----

  function KindName(kind: Kind): string {
    match kind
    case Create => "create"
    case Edit => "edit"
    case Reply => "reply"
    case Resolve => "resolve"
    case Reopen => "reopen"
    case AuthorAddressed => "author_addressed"
  }

  function CommentKey(scope: string, clientKey: string): string {
    "comment:" + scope + ":" + clientKey
  }

  function AdminRole(actor: Actor): string {
    if actor.isCoreAdmin then "core_admin" else "admin"
  }

  predicate IsAuthor(actor: Actor, artifact: Artifact) {
    actor.id != "" && (actor.id == artifact.submittedBy || actor.id == artifact.owner)
  }

  /** The role an event is recorded with, if the actor may append it. */
  function Authorize(artifact: Artifact, reviewer: string, actor: Actor, kind: Kind): Option<string> {
    match kind
    case Edit => if actor.isAdmin && reviewer == actor.id then Some(AdminRole(actor)) else None
    case Resolve => if actor.isAdmin then Some(AdminRole(actor)) else None
    case Reopen => if actor.isAdmin then Some(AdminRole(actor)) else None
    case Reply =>
      if actor.isAdmin then Some(AdminRole(actor))
      else if IsAuthor(actor, artifact) then Some("author") else None
    case AuthorAddressed => if IsAuthor(actor, artifact) then Some("author") else None
    case Create => None
  }

  function EventBody(kind: Kind, body: string): Option<string> {
    match kind
    case Edit => if body == "" then None else Some(body)
    case Reply => if body == "" then None else Some(body)
    case AuthorAddressed => Some(body)
    case _ => Some("")
  }

  // ----- appending to a thread -----

  predicate HasKey(events: seq<Event>, key: string) {
    exists i :: 0 <= i < |events| && events[i].key == key
  }

  /** The first log entry with this key. */
  function WithKey(events: seq<Event>, key: string): (e: Event)
    requires HasKey(events, key)
    ensures e in events && e.key == key
  {
    if events[0].key == key then events[0] else WithKey(events[1..], key)
  }

  predicate SameRequest(e: Event, other: Event) {
    && e.threadId == other.threadId && e.kind == other.kind && e.body == other.body && e.actor == other.actor
    && e.role == other.role && e.expected == other.expected && e.metadata == other.metadata
  }

  predicate Open(s: State, t: Thread) {
    t.artifactId in s.artifacts && !s.artifacts[t.artifactId].terminal && !t.locked
  }

  function Applied(t: Thread, e: Event): Thread {
    var u := t.(version := e.resulting);
    match e.kind
    case Edit => u.(body := e.body)
    case Resolve => u.(resolved := true, resolvedBy := e.actor)
    case Reopen => u.(resolved := false, resolvedBy := "")
    case _ => u
  }

  function AppendSpec(s: State, e: Event): (State, Result<Option<Thread>, Error>) {
    if e.kind.Create? then (s, Err(VersionConflict))
    else if HasKey(s.events, e.key) then
      (s, if !SameRequest(WithKey(s.events, e.key), e) then Err(IdempotencyKeyConflict)
          else Ok(if e.threadId in s.threads then Some(s.threads[e.threadId]) else None))
    else if e.threadId !in s.threads then (s, Ok(None))
    else
      var t := s.threads[e.threadId];
      if !Open(s, t) then (s, Err(ThreadLocked))
      else if t.version != e.expected then (s, Err(VersionConflict))
      else
        (s.(threads := s.threads[e.threadId := Applied(t, e)], events := s.events + [e]),
         Ok(Some(Applied(t, e))))
  }

  /** The event a mutation asks for, or why the service refuses it. */
  function Request(s: State, m: Mutation): Result<Event, Error> {
    if m.artifactId !in s.artifacts then Err(ArtifactNotFound)
    else if m.threadId !in s.threads || s.threads[m.threadId].artifactId != m.artifactId then Err(NotFound)
    else
      var role := Authorize(s.artifacts[m.artifactId], s.threads[m.threadId].reviewer, m.actor, m.kind);
      if role.None? then Err(Forbidden)
      else if EventBody(m.kind, m.body).None? then Err(BodyInvalid)
      else Ok(Event(m.threadId, m.kind, EventBody(m.kind, m.body).value, m.actor.id, role.value, m.expected,
                    m.expected + 1, "", CommentKey("event:" + KindName(m.kind), m.clientKey)))
  }

  function MutateSpec(s: State, m: Mutation): (State, Result<Thread, Error>) {
    match Request(s, m)
    case Err(e) => (s, Err(e))
    case Ok(e) =>
      var (t, r) := AppendSpec(s, e);
      (t, match r case Err(x) => Err(x) case Ok(None) => Err(NotFound) case Ok(Some(thread)) => Ok(thread))
  }

  // ----- creating a thread -----

  predicate HasThreadKey(s: State, key: string) {
    exists id :: id in s.threads && s.threads[id].key == key
  }

  ghost function ThreadWithKey(s: State, key: string): (id: string)
    requires HasThreadKey(s, key)
    ensures id in s.threads && s.threads[id].key == key
  {
    var id :| id in s.threads && s.threads[id].key == key;
    id
  }

  predicate IsCreateOf(e: Event, id: string) {
    e.threadId == id && e.kind.Create?
  }

  /** The source compares with the thread as it is now, so an edited body no longer matches. */
  ghost predicate SameCreation(s: State, id: string, c: Creation)
    requires id in s.threads
  {
    var t := s.threads[id];
    && t.artifactId == c.artifactId && t.anchor == c.anchor && t.body == c.body
    && t.reviewer == c.actor.id && t.reviewerRole == AdminRole(c.actor)
    && exists i :: 0 <= i < |s.events| && IsCreateOf(s.events[i], id) && s.events[i].metadata == c.metadata
  }

  function Opened(c: Creation): Thread {
    Thread(c.artifactId, c.anchor, c.body, c.actor.id, AdminRole(c.actor), false, "", false, 1,
           CommentKey("thread", c.clientKey))
  }

  function OpeningEvent(c: Creation): Event {
    Event(c.id, Create, c.body, c.actor.id, AdminRole(c.actor), 0, 1, c.metadata,
          CommentKey("event:create", c.clientKey))
  }

  ghost function CreateSpec(s: State, c: Creation): (State, Result<Thread, Error>) {
    var key := CommentKey("thread", c.clientKey);
    if !c.actor.isAdmin then (s, Err(Forbidden))
    else if c.artifactId !in s.artifacts || !c.fileKnown then (s, Err(LineInvalid))
    else if HasThreadKey(s, key) then
      var id := ThreadWithKey(s, key);
      (s, if SameCreation(s, id, c) then Ok(s.threads[id]) else Err(IdempotencyKeyConflict))
    else if s.artifacts[c.artifactId].terminal then (s, Err(ThreadLocked))
    else
      (s.(threads := s.threads[c.id := Opened(c)], events := s.events + [OpeningEvent(c)]), Ok(Opened(c)))
  }

  function Locked(t: Thread, artifactId: string): Thread {
    if t.artifactId == artifactId then t.(locked := true) else t
  }

  function LockSpec(s: State, artifactId: string): State {
    s.(threads := map id | id in s.threads :: Locked(s.threads[id], artifactId))
  }

  function Unlocked(s: State, artifactId: string): set<string> {
    set id | id in s.threads && s.threads[id].artifactId == artifactId && !s.threads[id].locked
  }

  /** One thread per client key, and one creation per thread. */
  ghost predicate KeysIdentify(s: State) {
    && (forall i, j :: i in s.threads && j in s.threads && s.threads[i].key == s.threads[j].key ==> i == j)
    && (forall i, j :: 0 <= i < j < |s.events| && s.events[i].kind.Create? && s.events[j].kind.Create?
          ==> s.events[i].threadId != s.events[j].threadId)
  }

  class CommentRepository {
    var artifacts: map<string, Artifact>
    var threads: map<string, Thread>
    var events: seq<Event>

    ghost function Contents(): State
      reads this
    {
      State(artifacts, threads, events)
    }

    constructor (artifacts: map<string, Artifact>)
      ensures Contents() == State(artifacts, map[], [])
    {
      this.artifacts, threads, events := artifacts, map[], [];
    }

    method CreateReviewComment(c: Creation) returns (result: Result<Thread, Error>)
      requires KeysIdentify(Contents())
      modifies this
      ensures (Contents(), result) == CreateSpec(old(Contents()), c)
    {
      if !c.actor.isAdmin {
        return Err(Forbidden);
      }
      if c.artifactId !in artifacts || !c.fileKnown {
        return Err(LineInvalid);
      }
      var key := CommentKey("thread", c.clientKey);
      var rest := threads.Keys;
      while rest != {}
        invariant rest <= threads.Keys
        invariant forall id :: id in threads.Keys - rest ==> threads[id].key != key
        decreases rest
      {
        var id :| id in rest;
        rest := rest - {id};
        if threads[id].key == key {
          var created := FindCreation(id);
          var t := threads[id];
          if created.None? || created.value.metadata != c.metadata || t.artifactId != c.artifactId
             || t.anchor != c.anchor || t.body != c.body || t.reviewer != c.actor.id
             || t.reviewerRole != AdminRole(c.actor) {
            return Err(IdempotencyKeyConflict);
          }
          return Ok(t);
        }
      }
      if artifacts[c.artifactId].terminal {
        return Err(ThreadLocked);
      }
      threads := threads[c.id := Opened(c)];
      events := events + [OpeningEvent(c)];
      result := Ok(Opened(c));
    }

    method FindCreation(id: string) returns (e: Option<Event>)
      ensures e.Some? ==> e.value in events && IsCreateOf(e.value, id)
      ensures e.None? ==> forall i :: 0 <= i < |events| ==> !IsCreateOf(events[i], id)
    {
      for i := 0 to |events|
        invariant forall k :: 0 <= k < i ==> !IsCreateOf(events[k], id)
      {
        if IsCreateOf(events[i], id) {
          return Some(events[i]);
        }
      }
      e := None;
    }

    method AppendReviewCommentEvent(e: Event) returns (result: Result<Option<Thread>, Error>)
      requires e.resulting == e.expected + 1
      modifies this
      ensures (Contents(), result) == AppendSpec(old(Contents()), e)
    {
      if e.kind.Create? {
        return Err(VersionConflict);
      }
      for i := 0 to |events|
        invariant forall k :: 0 <= k < i ==> events[k].key != e.key
      {
        if events[i].key == e.key {
          FirstIs(events, i, e.key);
          if !SameRequest(events[i], e) {
            return Err(IdempotencyKeyConflict);
          }
          return Ok(if e.threadId in threads then Some(threads[e.threadId]) else None);
        }
      }
      if e.threadId !in threads {
        return Ok(None);
      }
      var thread := threads[e.threadId];
      if thread.artifactId !in artifacts || artifacts[thread.artifactId].terminal || thread.locked {
        return Err(ThreadLocked);
      }
      if thread.version != e.expected {
        return Err(VersionConflict);
      }
      if e.kind.Edit? {
        thread := thread.(body := e.body);
      } else if e.kind.Resolve? {
        thread := thread.(resolved := true, resolvedBy := e.actor);
      } else if e.kind.Reopen? {
        thread := thread.(resolved := false, resolvedBy := "");
      }
      thread := thread.(version := e.expected + 1);
      threads := threads[e.threadId := thread];
      events := events + [e];
      result := Ok(Some(thread));
    }

    method Mutate(m: Mutation) returns (result: Result<Thread, Error>)
      modifies this
      ensures (Contents(), result) == MutateSpec(old(Contents()), m)
    {
      if m.artifactId !in artifacts {
        return Err(ArtifactNotFound);
      }
      if m.threadId !in threads || threads[m.threadId].artifactId != m.artifactId {
        return Err(NotFound);
      }
      var role := Authorize(artifacts[m.artifactId], threads[m.threadId].reviewer, m.actor, m.kind);
      if role.None? {
        return Err(Forbidden);
      }
      var body := EventBody(m.kind, m.body);
      if body.None? {
        return Err(BodyInvalid);
      }
      var saved := AppendReviewCommentEvent(
        Event(m.threadId, m.kind, body.value, m.actor.id, role.value, m.expected, m.expected + 1, "",
              CommentKey("event:" + KindName(m.kind), m.clientKey)));
      if saved.Err? {
        return Err(saved.error);
      }
      if saved.value.None? {
        return Err(NotFound);
      }
      result := Ok(saved.value.value);
    }

    method LockReviewComments(artifactId: string) returns (changed: nat)
      modifies this`threads
      ensures Contents() == LockSpec(old(Contents()), artifactId)
      ensures changed == |Unlocked(old(Contents()), artifactId)|
    {
      hide Locked, LockedPart, Unlocked, LockSpec;
      changed := 0;
      ghost var before := Contents();
      var done: set<string> := {};
      LockNoneOrAll(before, artifactId);
      while done != threads.Keys
        invariant done <= threads.Keys == before.threads.Keys
        invariant threads == LockedPart(before.threads, artifactId, done)
        invariant changed == |Unlocked(before, artifactId) * done|
        decreases before.threads.Keys - done
      {
        SomeLeft(threads.Keys, done);
        var id :| id in threads.Keys - done;
        LockOneMore(before, artifactId, done, id);
        UnlockedOneMore(Unlocked(before, artifactId), done, id);
        done := done + {id};
        if threads[id].artifactId == artifactId && !threads[id].locked {
          threads := threads[id := threads[id].(locked := true)];
          changed := changed + 1;
        }
      }
    }
  }

  lemma SomeLeft(all: set<string>, done: set<string>)
    requires done <= all && done != all
    ensures exists id :: id in all - done
  {
    assert all == done + (all - done);
  }

  function LockedPart(threads: map<string, Thread>, artifactId: string, done: set<string>): map<string, Thread> {
    map id | id in threads :: if id in done then Locked(threads[id], artifactId) else threads[id]
  }

  lemma LockNoneOrAll(s: State, artifactId: string)
    ensures LockedPart(s.threads, artifactId, {}) == s.threads
    ensures s.(threads := LockedPart(s.threads, artifactId, s.threads.Keys)) == LockSpec(s, artifactId)
    ensures Unlocked(s, artifactId) * {} == {} && Unlocked(s, artifactId) * s.threads.Keys == Unlocked(s, artifactId)
  {
  }

  lemma LockOneMore(s: State, artifactId: string, done: set<string>, id: string)
    requires id in s.threads && id !in done
    ensures
      var part := LockedPart(s.threads, artifactId, done);
      && part.Keys == s.threads.Keys
      && (id in Unlocked(s, artifactId) <==> part[id].artifactId == artifactId && !part[id].locked)
      && LockedPart(s.threads, artifactId, done + {id}) ==
        if id in Unlocked(s, artifactId) then part[id := part[id].(locked := true)] else part
  {
  }

  lemma UnlockedOneMore(unlocked: set<string>, done: set<string>, id: string)
    requires id !in done
    ensures |unlocked * (done + {id})| == |unlocked * done| + if id in unlocked then 1 else 0
  {
    assert unlocked * (done + {id}) == unlocked * done + if id in unlocked then {id} else {};
  }

  lemma {:induction false} FirstIs(events: seq<Event>, i: nat, key: string)
    requires i < |events| && events[i].key == key && forall k :: 0 <= k < i ==> events[k].key != key
    ensures HasKey(events, key) && WithKey(events, key) == events[i]
  {
    if i > 0 {
      assert forall k :: 0 <= k < i - 1 ==> events[1..][k] == events[k + 1];
      FirstIs(events[1..], i - 1, key);
    }
  }
}
