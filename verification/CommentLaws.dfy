/** Who may append what to a thread, and what each operation does, said on the fields of threads and events. */
module CommentLaws {
  import opened Wrappers
  import opened Comments
  import opened CommentRuns

  // ----- roles, bodies, keys -----

  /** The artifact was submitted by the actor, or the actor owns its plugin. */
  predicate Authors(actor: Actor, artifact: Artifact) {
    |actor.id| > 0 && (artifact.submittedBy == actor.id || artifact.owner == actor.id)
  }

  function AdminName(actor: Actor): string {
    if actor.isCoreAdmin then "core_admin" else "admin"
  }

  /** Editing is for the admin who wrote the thread, resolving and reopening for admins, replying for admins and
      authors, marking as addressed for authors, and nothing else for anyone. */
  lemma RoleExactly(artifact: Artifact, reviewer: string, actor: Actor, kind: Kind)
    ensures Authorize(artifact, reviewer, actor, kind) ==
      match kind
      case Edit => if actor.isAdmin && actor.id == reviewer then Some(AdminName(actor)) else None
      case Resolve => if actor.isAdmin then Some(AdminName(actor)) else None
      case Reopen => if actor.isAdmin then Some(AdminName(actor)) else None
      case Reply =>
        if actor.isAdmin then Some(AdminName(actor)) else if Authors(actor, artifact) then Some("author") else None
      case AuthorAddressed => if Authors(actor, artifact) then Some("author") else None
      case Create => None
  {
  }

  lemma BodyExactly(kind: Kind, body: string)
    ensures EventBody(kind, body) ==
      if kind == Edit || kind == Reply then (if |body| > 0 then Some(body) else None)
      else if kind == AuthorAddressed then Some(body) else Some("")
  {
  }

  function NameOf(kind: Kind): string {
    match kind
    case Create => "create"
    case Edit => "edit"
    case Reply => "reply"
    case Resolve => "resolve"
    case Reopen => "reopen"
    case AuthorAddressed => "author_addressed"
  }

  /** The keys a client's key is turned into, for an event of each kind and for the thread. */
  function EventKey(kind: Kind, clientKey: string): string {
    "comment:" + ("event:" + NameOf(kind)) + ":" + clientKey
  }

  function ThreadKey(clientKey: string): string {
    "comment:" + "thread" + ":" + clientKey
  }

  lemma NameExactly(kind: Kind)
    ensures KindName(kind) == NameOf(kind)
  {
  }

  lemma KeyExactly(kind: Kind, clientKey: string)
    ensures CommentKey("event:" + KindName(kind), clientKey) == EventKey(kind, clientKey)
    ensures CommentKey("thread", clientKey) == ThreadKey(clientKey)
  {
    hide KindName, NameOf;
    NameExactly(kind);
  }

  // ----- appending -----

  predicate KeyAt(s: State, key: string, i: int) {
    0 <= i < |s.events| && s.events[i].key == key
  }

  /** The first log entry with this key is at `i`. */
  predicate FirstAt(s: State, key: string, i: int) {
    KeyAt(s, key, i) && forall j :: 0 <= j < i ==> s.events[j].key != key
  }

  lemma {:induction false} FirstKeyExactly(events: seq<Event>, key: string, i: nat)
    requires i < |events| && events[i].key == key && forall j :: 0 <= j < i ==> events[j].key != key
    ensures HasKey(events, key) && WithKey(events, key) == events[i]
  {
    if i > 0 {
      assert events[1..][i - 1] == events[i];
      assert forall j :: 0 <= j < i - 1 ==> events[1..][j] == events[j + 1];
      FirstKeyExactly(events[1..], key, i - 1);
    }
  }

  predicate SameAsked(e: Event, f: Event) {
    && e.threadId == f.threadId && e.kind == f.kind && e.body == f.body && e.actor == f.actor && e.role == f.role
    && e.expected == f.expected && e.metadata == f.metadata
  }

  /** The thread of a running review that is not locked. */
  predicate Writable(s: State, id: string) {
    && id in s.threads && s.threads[id].artifactId in s.artifacts && !s.artifacts[s.threads[id].artifactId].terminal
    && !s.threads[id].locked
  }

  /** What an event makes of its thread. */
  predicate Became(t: Thread, u: Thread, e: Event) {
    && u == t.(body := u.body, resolved := u.resolved, resolvedBy := u.resolvedBy, version := u.version)
    && u.version == e.resulting
    && u.body == (if e.kind == Edit then e.body else t.body)
    && u.resolved == (if e.kind == Resolve then true else if e.kind == Reopen then false else t.resolved)
    && u.resolvedBy == (if e.kind == Resolve then e.actor else if e.kind == Reopen then "" else t.resolvedBy)
  }

  /** An event with a used key is answered by comparison with the first entry of that key, and changes nothing. */
  lemma {:induction false} ReplayExactly(s: State, e: Event, i: nat)
    requires FirstAt(s, e.key, i) && e.kind != Create
    ensures AppendSpec(s, e).0 == s
    ensures AppendSpec(s, e).1 ==
      if !SameAsked(s.events[i], e) then Err(IdempotencyKeyConflict)
      else if e.threadId in s.threads then Ok(Some(s.threads[e.threadId])) else Ok(None)
  {
    FirstKeyExactly(s.events, e.key, i);
  }

  /** An event with a new key is appended exactly to a writable thread of the expected version; it changes that
      thread's fields as its kind says, and no other thread. */
  lemma {:induction false} AppendExactly(s: State, e: Event)
    requires e.kind != Create && forall i :: !KeyAt(s, e.key, i)
    ensures
      var (t, reply) := AppendSpec(s, e);
      if Writable(s, e.threadId) && s.threads[e.threadId].version == e.expected then
        && t.artifacts == s.artifacts && t.events == s.events + [e] && e.threadId in t.threads
        && Became(s.threads[e.threadId], t.threads[e.threadId], e)
        && t.threads == s.threads[e.threadId := t.threads[e.threadId]] && reply == Ok(Some(t.threads[e.threadId]))
      else
        && t == s
        && reply == if e.threadId !in s.threads then Ok(None)
                    else if Writable(s, e.threadId) then Err(VersionConflict) else Err(ThreadLocked)
  {
    forall i | 0 <= i < |s.events| ensures s.events[i].key != e.key {
      assert !KeyAt(s, e.key, i);
    }
  }

  lemma CreationIsNeverAppended(s: State, e: Event)
    ensures e.kind == Create ==> AppendSpec(s, e) == (s, Err(VersionConflict))
  {
  }

  // ----- what the service sends -----

  /** The service sends one event, with the actor's role and the next version, exactly for a known thread of the
      artifact, an authorized actor and an acceptable body. */
  lemma {:induction false} RequestExactly(s: State, m: Mutation)
    ensures
      match Request(s, m)
      case Err(ArtifactNotFound) => m.artifactId !in s.artifacts
      case Err(NotFound) => m.artifactId in s.artifacts
        && (m.threadId !in s.threads || s.threads[m.threadId].artifactId != m.artifactId)
      case Err(Forbidden) => m.artifactId in s.artifacts && m.threadId in s.threads
        && Authorize(s.artifacts[m.artifactId], s.threads[m.threadId].reviewer, m.actor, m.kind).None?
      case Err(BodyInvalid) => EventBody(m.kind, m.body).None?
      case Err(_) => false
      case Ok(e) =>
        && m.artifactId in s.artifacts && m.threadId in s.threads && s.threads[m.threadId].artifactId == m.artifactId
        && e.threadId == m.threadId && e.kind == m.kind && Some(e.body) == EventBody(m.kind, m.body)
        && e.actor == m.actor.id && e.expected == m.expected && e.resulting == m.expected + 1 && e.metadata == ""
        && Some(e.role) == Authorize(s.artifacts[m.artifactId], s.threads[m.threadId].reviewer, m.actor, m.kind)
        && e.key == EventKey(m.kind, m.clientKey)
    ensures
      var (t, reply) := MutateSpec(s, m);
      match Request(s, m)
      case Err(error) => t == s && reply == Err(error)
      case Ok(e) =>
        && t == AppendSpec(s, e).0
        && reply == match AppendSpec(s, e).1
                    case Err(error) => Err(error)
                    case Ok(None) => Err(NotFound)
                    case Ok(Some(thread)) => Ok(thread)
  {
    hide Authorize, EventBody, AppendSpec, EventKey, CommentKey, KindName;
    KeyExactly(m.kind, m.clientKey);
  }

  // ----- creating and locking -----

  predicate ThreadKeyed(s: State, key: string, id: string) {
    id in s.threads && s.threads[id].key == key
  }

  /** A thread is opened exactly by an admin, on a known file of an artifact under review, under a new key. */
  lemma {:induction false} OpeningExactly(s: State, c: Creation)
    requires forall id :: !ThreadKeyed(s, ThreadKey(c.clientKey), id)
    ensures
      var (t, reply) := CreateSpec(s, c);
      var thread := Thread(
        c.artifactId, c.anchor, c.body, c.actor.id, AdminName(c.actor), false, "", false, 1,
        ThreadKey(c.clientKey));
      var event := Event(
        c.id, Create, c.body, c.actor.id, AdminName(c.actor), 0, 1, c.metadata, EventKey(Create, c.clientKey));
      if !c.actor.isAdmin then t == s && reply == Err(Forbidden)
      else if c.artifactId !in s.artifacts || !c.fileKnown then t == s && reply == Err(LineInvalid)
      else if s.artifacts[c.artifactId].terminal then t == s && reply == Err(ThreadLocked)
      else t == State(s.artifacts, s.threads[c.id := thread], s.events + [event]) && reply == Ok(thread)
  {
    hide CommentKey, EventKey, ThreadKey;
    KeyExactly(Create, c.clientKey);
    CreateName();
    forall id | id in s.threads ensures s.threads[id].key != CommentKey("thread", c.clientKey) {
      assert !ThreadKeyed(s, ThreadKey(c.clientKey), id);
    }
  }

  lemma CreateName()
    ensures "event:" + KindName(Create) == "event:create"
  {
  }

  /** The event at `i` opened the thread, with this metadata. */
  predicate OpenedWith(s: State, id: string, metadata: string, i: int) {
    0 <= i < |s.events| && s.events[i].threadId == id && s.events[i].kind == Create && s.events[i].metadata == metadata
  }

  /** A creation under a used key changes nothing and is recognised exactly if the thread as it is now, and the
      metadata of its first event, are what the creation would make. */
  lemma {:induction false} RecognitionExactly(s: State, c: Creation, id: string)
    requires KeysIdentify(s) && ThreadKeyed(s, ThreadKey(c.clientKey), id)
    requires c.actor.isAdmin && c.artifactId in s.artifacts && c.fileKnown
    ensures CreateSpec(s, c).0 == s
    ensures
      var t := s.threads[id];
      var same := t.artifactId == c.artifactId && t.anchor == c.anchor && t.body == c.body && t.reviewer == c.actor.id
        && t.reviewerRole == AdminName(c.actor)
        && exists i :: OpenedWith(s, id, c.metadata, i);
      CreateSpec(s, c).1 == if same then Ok(t) else Err(IdempotencyKeyConflict)
  {
    hide CommentKey, EventKey, ThreadKey;
    KeyExactly(Create, c.clientKey);
    assert HasThreadKey(s, CommentKey("thread", c.clientKey));
    assert ThreadWithKey(s, CommentKey("thread", c.clientKey)) == id;
    SameCreationExactly(s, id, c);
  }

  lemma SameCreationExactly(s: State, id: string, c: Creation)
    requires id in s.threads
    ensures
      var t := s.threads[id];
      SameCreation(s, id, c) <==>
        && t.artifactId == c.artifactId && t.anchor == c.anchor && t.body == c.body && t.reviewer == c.actor.id
        && t.reviewerRole == AdminName(c.actor)
        && exists i :: OpenedWith(s, id, c.metadata, i)
  {
    if i :| OpenedWith(s, id, c.metadata, i) {
      assert IsCreateOf(s.events[i], id);
    }
    if SameCreation(s, id, c) {
      var i :| 0 <= i < |s.events| && IsCreateOf(s.events[i], id) && s.events[i].metadata == c.metadata;
      assert OpenedWith(s, id, c.metadata, i);
    }
  }

  /** Locking locks the artifact's threads and changes nothing else of any thread. */
  lemma LockExactly(s: State, artifactId: string, id: string)
    requires id in s.threads
    ensures
      var t := LockSpec(s, artifactId);
      && t.artifacts == s.artifacts && t.events == s.events && t.threads.Keys == s.threads.Keys
      && t.threads[id] == s.threads[id].(locked := s.threads[id].locked || s.threads[id].artifactId == artifactId)
  {
  }

  lemma UnlockedExactly(s: State, artifactId: string)
    ensures Unlocked(s, artifactId) ==
      set id | id in s.threads && s.threads[id].artifactId == artifactId && s.threads[id].locked == false
  {
  }

  // ----- what every run keeps, read on rows and events -----

  /** The number of events of a thread among the first `n`. */
  ghost function Earlier(s: State, id: string, n: nat): set<int> {
    set i | 0 <= i < n && i < |s.events| && s.events[i].threadId == id
  }

  lemma {:induction false} CountIsEarlier(s: State, id: string, n: nat)
    requires n <= |s.events|
    ensures Count(s.events[..n], id) == |Earlier(s, id, n)|
  {
    if n > 0 {
      CountIsEarlier(s, id, n - 1);
      assert s.events[..n][..n - 1] == s.events[..n - 1];
      assert Earlier(s, id, n) == Earlier(s, id, n - 1) + if s.events[n - 1].threadId == id then {n - 1} else {};
    }
  }

  /** In every reachable state a thread's version is the number of its events, the events' versions follow one
      another, and every edit is by the thread's reviewer and every resolve or reopen by an admin. */
  lemma {:induction false} RunKeepsThreads(steps: seq<Step>)
    requires FreshRun(EMPTY, steps)
    ensures
      var s := Run(EMPTY, steps);
      && (forall id :: id in s.threads ==> s.threads[id].version == |Earlier(s, id, |s.events|)| >= 1)
      && forall i :: 0 <= i < |s.events| ==>
        var e := s.events[i];
        && e.threadId in s.threads && e.expected == |Earlier(s, e.threadId, i)| && e.resulting == e.expected + 1
        && (e.kind == Create <==> e.expected == 0)
        && (e.kind == Edit ==> e.actor == s.threads[e.threadId].reviewer)
        && (e.kind in {Edit, Resolve, Reopen} ==> e.role == "admin" || e.role == "core_admin")
  {
    hide FreshRun, Run, Fold, KeysIdentify;
    RunIsSound(steps);
    var s := Run(EMPTY, steps);
    forall id | id in s.threads ensures s.threads[id].version == |Earlier(s, id, |s.events|)| >= 1 {
      CountIsEarlier(s, id, |s.events|);
      assert s.events[..|s.events|] == s.events;
    }
    forall i | 0 <= i < |s.events| ensures s.events[i].expected == |Earlier(s, s.events[i].threadId, i)| {
      CountIsEarlier(s, s.events[i].threadId, i);
    }
  }
}
