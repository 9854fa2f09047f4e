/**
 * apps/api/app/store.py: the in-memory market store. Plugins carry counters of their likes and
 * comments, and no two plugins may share an identity.
 */
module Market {
  import opened Wrappers
  import opened Decimals
  import opened Sequences

  datatype Plugin = Plugin(name: string, repo: string, owner: string, login: string, likes: int, commentsCount: int)

  datatype Comment = Comment(pluginId: string, userId: string, parentId: Option<string>, deleted: bool, likes: int)

  datatype Like = Like(target: string, user: string)

  datatype State = State(
    plugins: map<string, Plugin>, comments: map<string, Comment>,
    pluginLikes: seq<Like>, commentLikes: seq<Like>, users: set<string>, next: nat)

  datatype User = User(id: string, login: string)

  datatype Payload = Payload(id: Option<string>, name: string, repo: string)

  datatype Patch = Patch(name: Option<string>, repo: Option<string>, owner: Option<string>, login: Option<string>)

  datatype Outcome = Done | Missing | PermissionDenied | IdentityConflict

  /** str.lower */
  type Lower = string -> string

  // ----- like rows -----

  function Count(rows: seq<Like>, target: string): nat {
    if rows == [] then 0
    else Count(rows[..|rows| - 1], target) + if rows[|rows| - 1].target == target then 1 else 0
  }

  function Unlike(target: string, user: string): Like -> bool {
    (l: Like) => l != Like(target, user)
  }

  /** Rows of `from_` become rows of `to`, unless `to` has that target already. */
  function MergeLikes(rows: seq<Like>, from_: string, to: string, existing: set<string>): seq<Like> {
    if rows == [] then []
    else if rows[0].user != from_ then [rows[0]] + MergeLikes(rows[1..], from_, to, existing)
    else if rows[0].target in existing then MergeLikes(rows[1..], from_, to, existing)
    else [Like(rows[0].target, to)] + MergeLikes(rows[1..], from_, to, existing + {rows[0].target})
  }

  function LikedBy(rows: seq<Like>, user: string): set<string> {
    set l | l in rows && l.user == user :: l.target
  }

  // ----- comments and counters -----

  function Undeleted(comments: map<string, Comment>, pluginId: string): set<string> {
    set c | c in comments && comments[c].pluginId == pluginId && !comments[c].deleted
  }

  function Recounted(p: Plugin, comments: map<string, Comment>, id: string): Plugin {
    p.(commentsCount := |Undeleted(comments, id)|)
  }

  function RecountOne(s: State, id: string): State {
    if id !in s.plugins then s
    else s.(plugins := s.plugins[id := Recounted(s.plugins[id], s.comments, id)])
  }

  function RecountAll(s: State): State {
    s.(plugins := map id | id in s.plugins :: Recounted(s.plugins[id], s.comments, id))
  }

  function PluginLikesCounted(plugins: map<string, Plugin>, rows: seq<Like>): map<string, Plugin> {
    map id | id in plugins :: plugins[id].(likes := Count(rows, id))
  }

  function CommentLikesCounted(comments: map<string, Comment>, rows: seq<Like>): map<string, Comment> {
    map c | c in comments :: comments[c].(likes := Count(rows, c))
  }

  function RefreshLikes(s: State): State {
    s.(plugins := PluginLikesCounted(s.plugins, s.pluginLikes),
      comments := CommentLikesCounted(s.comments, s.commentLikes))
  }

  /** _next_id("comment") */
  function CommentId(n: nat): string {
    "comment_" + Decimal(n)
  }

  function AddCommentSpec(s: State, pluginId: string, userId: string, parentId: Option<string>): State {
    RecountOne(
      s.(comments := s.comments[CommentId(s.next) := Comment(pluginId, userId, parentId, false, 0)],
         next := s.next + 1),
      pluginId)
  }

  predicate DeletedWith(c: Comment, id: string, parent: string) {
    id == parent || c.parentId == Some(parent)
  }

  /** The comment and its direct replies marked as deleted. */
  function Struck(comments: map<string, Comment>, id: string): map<string, Comment> {
    map c | c in comments :: if DeletedWith(comments[c], c, id) then comments[c].(deleted := true) else comments[c]
  }

  function DeleteCommentSpec(s: State, id: string): State {
    if id !in s.comments then s
    else RecountOne(s.(comments := Struck(s.comments, id)), s.comments[id].pluginId)
  }

  function LikePluginSpec(s: State, id: string, user: string): State {
    if id !in s.plugins || Like(id, user) in s.pluginLikes then s
    else s.(pluginLikes := s.pluginLikes + [Like(id, user)],
            plugins := s.plugins[id := s.plugins[id].(likes := s.plugins[id].likes + 1)])
  }

  function Less(likes: int): int {
    if likes - 1 > 0 then likes - 1 else 0
  }

  function UnlikePluginSpec(s: State, id: string, user: string): State {
    if id !in s.plugins || Like(id, user) !in s.pluginLikes then s
    else s.(pluginLikes := Filter(s.pluginLikes, Unlike(id, user)),
            plugins := s.plugins[id := s.plugins[id].(likes := Less(s.plugins[id].likes))])
  }

  predicate Likable(s: State, id: string) {
    id in s.comments && !s.comments[id].deleted
  }

  function LikeCommentSpec(s: State, id: string, user: string): State {
    if !Likable(s, id) || Like(id, user) in s.commentLikes then s
    else s.(commentLikes := s.commentLikes + [Like(id, user)],
            comments := s.comments[id := s.comments[id].(likes := s.comments[id].likes + 1)])
  }

  function UnlikeCommentSpec(s: State, id: string, user: string): State {
    if !Likable(s, id) || Like(id, user) !in s.commentLikes then s
    else s.(commentLikes := Filter(s.commentLikes, Unlike(id, user)),
            comments := s.comments[id := s.comments[id].(likes := Less(s.comments[id].likes))])
  }

  // ----- identity -----

  function RStripSlash(s: string): string {
    if s != "" && s[|s| - 1] == '/' then RStripSlash(s[..|s| - 1]) else s
  }

  function RepoKey(lower: Lower, repo: string): string {
    lower(RStripSlash(repo))
  }

  /** The same repository, or the same name under a shared owner or a shared login. */
  predicate Clash(lower: Lower, p: Plugin, q: Plugin) {
    || (lower(p.name) == lower(q.name)
        && (p.owner == q.owner || (lower(p.login) != "" && lower(p.login) == lower(q.login))))
    || RepoKey(lower, p.repo) == RepoKey(lower, q.repo)
  }

  predicate IdentityFree(lower: Lower, plugins: map<string, Plugin>, id: string, candidate: Plugin) {
    forall other :: other in plugins && other != id ==> !Clash(lower, plugins[other], candidate)
  }

  predicate MayMoveOwner(lower: Lower, plugins: map<string, Plugin>, from_: string, to: string) {
    forall id :: id in plugins && plugins[id].owner == from_ ==>
      IdentityFree(lower, plugins, id, plugins[id].(owner := to))
  }

  function MoveOwner(plugins: map<string, Plugin>, from_: string, to: string): map<string, Plugin> {
    map id | id in plugins :: if plugins[id].owner == from_ then plugins[id].(owner := to) else plugins[id]
  }

  /** The payload names an identifier; an empty one counts as none. */
  predicate Given(p: Payload) {
    p.id.Some? && p.id.value != ""
  }

  /** The plugin a payload is about: the one it names, else the user's own one of that name. */
  ghost function Existing(lower: Lower, s: State, u: User, p: Payload): (id: Option<string>)
    ensures id.Some? ==> id.value in s.plugins
  {
    if Given(p) then (if p.id.value in s.plugins then p.id else None)
    else if exists i :: Owns(lower, s, u, p, i) then
      var i :| Owns(lower, s, u, p, i);
      Some(i)
    else None
  }

  predicate Owns(lower: Lower, s: State, u: User, p: Payload, id: string) {
    id in s.plugins && s.plugins[id].owner == u.id && lower(s.plugins[id].name) == lower(p.name)
  }

  function TargetId(s: State, existing: Option<string>, p: Payload, freshId: string): string {
    if existing.Some? then existing.value
    else
      var id := if Given(p) then p.id.value else p.name;
      if id in s.plugins then freshId else id
  }

  function Candidate(s: State, existing: Option<string>, u: User, p: Payload): Plugin {
    if existing.Some? && existing.value in s.plugins then
      s.plugins[existing.value].(name := p.name, repo := p.repo, owner := u.id)
    else Plugin(p.name, p.repo, u.id, u.login, 0, 0)
  }

  ghost function RegistrationOutcome(lower: Lower, s: State, u: User, p: Payload, freshId: string): Outcome {
    var existing := Existing(lower, s, u, p);
    if existing.Some? && s.plugins[existing.value].owner != u.id then PermissionDenied
    else if existing.Some? && RepoKey(lower, s.plugins[existing.value].repo) != RepoKey(lower, p.repo) then
      IdentityConflict
    else if !IdentityFree(lower, s.plugins, TargetId(s, existing, p, freshId), Candidate(s, existing, u, p)) then
      IdentityConflict
    else Done
  }

  ghost function SubmitSpec(lower: Lower, s: State, u: User, p: Payload, freshId: string): State {
    var existing := Existing(lower, s, u, p);
    if !RegistrationOutcome(lower, s, u, p, freshId).Done? then s
    else s.(plugins := s.plugins[TargetId(s, existing, p, freshId) := Candidate(s, existing, u, p)], next := s.next + 1)
  }

  ghost function RegisterSpec(lower: Lower, s: State, u: User, p: Payload, freshId: string): State {
    if Existing(lower, s, u, p).Some? then s
    else SubmitSpec(lower, s, u, p, freshId).(next := s.next)
  }

  function Patched(p: Plugin, patch: Patch): Plugin {
    p.(name := if patch.name.Some? then patch.name.value else p.name,
       repo := if patch.repo.Some? then patch.repo.value else p.repo,
       owner := if patch.owner.Some? then patch.owner.value else p.owner,
       login := if patch.login.Some? then patch.login.value else p.login)
  }

  function UpdateSpec(lower: Lower, s: State, id: string, patch: Patch): State {
    if id !in s.plugins || !IdentityFree(lower, s.plugins, id, Patched(s.plugins[id], patch)) then s
    else s.(plugins := s.plugins[id := Patched(s.plugins[id], patch)])
  }

  // ----- deleting and merging users -----

  function MoveOutcome(lower: Lower, s: State, known: bool, from_: string, to: string): Outcome {
    if !known then Missing
    else if !MayMoveOwner(lower, s.plugins, from_, to) then IdentityConflict
    else Done
  }

  function CommentsBy(s: State, user: string): set<string> {
    set c | c in s.comments && s.comments[c].userId == user
  }

  function WithoutUser(s: State, user: string, replacement: string): State {
    var removed := CommentsBy(s, user);
    State(
      MoveOwner(s.plugins, user, replacement), CommentsWithout(s.comments, removed),
      Filter(s.pluginLikes, (l: Like) => l.user != user),
      Filter(s.commentLikes, (l: Like) => l.user != user && l.target !in removed), s.users - {user}, s.next)
  }

  function CommentsWithout(comments: map<string, Comment>, removed: set<string>): map<string, Comment> {
    map c | c in comments && c !in removed ::
      if comments[c].parentId.Some? && comments[c].parentId.value in removed then comments[c].(parentId := None)
      else comments[c]
  }

  function DeleteUserSpec(lower: Lower, s: State, user: string, replacement: string): State {
    if !MoveOutcome(lower, s, user in s.users, user, replacement).Done? then s
    else RecountAll(RefreshLikes(WithoutUser(s, user, replacement)))
  }

  function WithMergedUsers(s: State, from_: string, to: string): State {
    State(
      MoveOwner(s.plugins, from_, to),
      map c | c in s.comments :: if s.comments[c].userId == from_ then s.comments[c].(userId := to) else s.comments[c],
      MergeLikes(s.pluginLikes, from_, to, LikedBy(s.pluginLikes, to)),
      MergeLikes(s.commentLikes, from_, to, LikedBy(s.commentLikes, to)), s.users - {from_}, s.next)
  }

  function MergeUserSpec(lower: Lower, s: State, from_: string, to: string): State {
    if !MoveOutcome(lower, s, from_ in s.users && to in s.users, from_, to).Done? then s
    else RefreshLikes(WithMergedUsers(s, from_, to))
  }

  // ----- the store -----

  /** No two plugins share an identity. */
  ghost predicate IdentitiesDiffer(lower: Lower, plugins: map<string, Plugin>) {
    forall i, j :: i in plugins && j in plugins && i != j ==> !Clash(lower, plugins[i], plugins[j])
  }

  class InMemoryMarketStore {
    const lower: Lower
    var plugins: map<string, Plugin>
    var comments: map<string, Comment>
    var pluginLikes: seq<Like>
    var commentLikes: seq<Like>
    var users: set<string>
    var next: nat

    ghost function Contents(): State
      reads this
    {
      State(plugins, comments, pluginLikes, commentLikes, users, next)
    }

    constructor (lower: Lower, users: set<string>)
      ensures this.lower == lower && Contents() == State(map[], map[], [], [], users, 1)
    {
      this.lower := lower;
      plugins, comments, pluginLikes, commentLikes, this.users, next := map[], map[], [], [], users, 1;
    }

    /** _check_plugin_identity */
    method CheckIdentity(id: string, candidate: Plugin) returns (free: bool)
      ensures free == IdentityFree(lower, plugins, id, candidate)
    {
      var rest := plugins.Keys;
      while rest != {}
        invariant rest <= plugins.Keys
        invariant forall other :: other in plugins.Keys - rest && other != id ==>
          !Clash(lower, plugins[other], candidate)
        decreases rest
      {
        var other :| other in rest;
        rest := rest - {other};
        if other == id {
          continue;
        }
        var sameName := lower(plugins[other].name) == lower(candidate.name);
        var sameOwner := plugins[other].owner == candidate.owner;
        var login := lower(candidate.login);
        var sameLogin := login != "" && lower(plugins[other].login) == login;
        if sameName && (sameOwner || sameLogin) {
          return false;
        }
        if lower(RStripSlash(plugins[other].repo)) == lower(RStripSlash(candidate.repo)) {
          return false;
        }
      }
      free := true;
    }

    method CheckOwnerMove(from_: string, to: string) returns (free: bool)
      ensures free == MayMoveOwner(lower, plugins, from_, to)
    {
      var rest := plugins.Keys;
      while rest != {}
        invariant rest <= plugins.Keys
        invariant forall id :: id in plugins.Keys - rest && plugins[id].owner == from_ ==>
          IdentityFree(lower, plugins, id, plugins[id].(owner := to))
        decreases rest
      {
        var id :| id in rest;
        rest := rest - {id};
        if plugins[id].owner == from_ {
          var ok := CheckIdentity(id, plugins[id].(owner := to));
          if !ok {
            return false;
          }
        }
      }
      free := true;
    }

    /** _plugin_registration_identity */
    method RegistrationIdentity(u: User, p: Payload, freshId: string)
      returns (outcome: Outcome, id: string, existing: Option<string>)
      requires IdentitiesDiffer(lower, plugins)
      ensures existing == Existing(lower, Contents(), u, p)
      ensures outcome == RegistrationOutcome(lower, Contents(), u, p, freshId)
      ensures id == TargetId(Contents(), existing, p, freshId)
    {
      existing := None;
      if Given(p) {
        if p.id.value in plugins {
          existing := p.id;
        }
      } else {
        existing := FindOwned(u, p);
      }
      id := TargetId(State(plugins, comments, pluginLikes, commentLikes, users, next), existing, p, freshId);
      if existing.Some? && plugins[existing.value].owner != u.id {
        return PermissionDenied, id, existing;
      }
      if existing.Some? && RepoKey(lower, plugins[existing.value].repo) != RepoKey(lower, p.repo) {
        return IdentityConflict, id, existing;
      }
      var login := if existing.Some? then plugins[existing.value].login else u.login;
      var candidate := Plugin(p.name, p.repo, u.id, login, 0, 0);
      var ok := CheckIdentity(id, candidate);
      assert forall q: Plugin :: Clash(lower, q, candidate) == Clash(lower, q, Candidate(Contents(), existing, u, p));
      outcome := if ok then Done else IdentityConflict;
    }

    method FindOwned(u: User, p: Payload) returns (id: Option<string>)
      requires IdentitiesDiffer(lower, plugins) && !Given(p)
      ensures id == Existing(lower, Contents(), u, p)
    {
      var rest := plugins.Keys;
      while rest != {}
        invariant rest <= plugins.Keys
        invariant forall i :: i in plugins.Keys - rest ==> !Owns(lower, Contents(), u, p, i)
        decreases rest
      {
        var i :| i in rest;
        rest := rest - {i};
        if plugins[i].owner == u.id && lower(plugins[i].name) == lower(p.name) {
          OwnedIsUnique(lower, Contents(), u, p, i);
          return Some(i);
        }
      }
      id := None;
    }

    method SubmitPlugin(u: User, p: Payload, freshId: string) returns (outcome: Outcome)
      requires IdentitiesDiffer(lower, plugins)
      modifies this`plugins, this`next
      ensures outcome == RegistrationOutcome(lower, old(Contents()), u, p, freshId)
      ensures Contents() == SubmitSpec(lower, old(Contents()), u, p, freshId)
    {
      var id, existing;
      outcome, id, existing := RegistrationIdentity(u, p, freshId);
      if !outcome.Done? {
        return;
      }
      var plugin := Plugin(p.name, p.repo, u.id, u.login, 0, 0);
      if existing.Some? {
        var old_ := plugins[existing.value];
        plugin := Plugin(p.name, p.repo, u.id, old_.login, old_.likes, old_.commentsCount);
      }
      next := next + 1;
      plugins := plugins[id := plugin];
    }

    method RegisterPlugin(u: User, p: Payload, freshId: string) returns (outcome: Outcome)
      requires IdentitiesDiffer(lower, plugins)
      modifies this`plugins
      ensures outcome == RegistrationOutcome(lower, old(Contents()), u, p, freshId)
      ensures Contents() == RegisterSpec(lower, old(Contents()), u, p, freshId)
    {
      var id, existing;
      outcome, id, existing := RegistrationIdentity(u, p, freshId);
      if !outcome.Done? || existing.Some? {
        return;
      }
      plugins := plugins[id := Plugin(p.name, p.repo, u.id, u.login, 0, 0)];
    }

    method UpdatePluginMetadata(id: string, patch: Patch) returns (outcome: Outcome)
      modifies this`plugins
      ensures Contents() == UpdateSpec(lower, old(Contents()), id, patch)
      ensures outcome == if id !in old(plugins) then Missing
        else if IdentityFree(lower, old(plugins), id, Patched(old(plugins)[id], patch)) then Done else IdentityConflict
    {
      if id !in plugins {
        return Missing;
      }
      var ok := CheckIdentity(id, Patched(plugins[id], patch));
      if !ok {
        return IdentityConflict;
      }
      plugins := plugins[id := Patched(plugins[id], patch)];
      outcome := Done;
    }

    method AddComment(pluginId: string, userId: string, parentId: Option<string>) returns (id: string)
      modifies this
      ensures Contents() == AddCommentSpec(old(Contents()), pluginId, userId, parentId)
      ensures id == CommentId(old(next))
    {
      id := CommentId(next);
      next := next + 1;
      comments := comments[id := Comment(pluginId, userId, parentId, false, 0)];
      if pluginId in plugins {
        var n := CountComments(pluginId);
        plugins := plugins[pluginId := plugins[pluginId].(commentsCount := n)];
      }
    }

    /** len(self.list_comments(plugin_id)) */
    method CountComments(pluginId: string) returns (n: nat)
      ensures n == |Undeleted(comments, pluginId)|
    {
      n := 0;
      ghost var counted: set<string> := {};
      var rest := comments.Keys;
      while rest != {}
        invariant rest <= comments.Keys && n == |counted|
        invariant counted == Undeleted(comments, pluginId) - rest
        decreases rest
      {
        var c :| c in rest;
        rest := rest - {c};
        if comments[c].pluginId != pluginId || comments[c].deleted {
          continue;
        }
        n := n + 1;
        counted := counted + {c};
      }
    }

    method DeleteComment(id: string) returns (found: bool)
      modifies this
      ensures Contents() == DeleteCommentSpec(old(Contents()), id)
      ensures found == (id in old(comments))
    {
      if id !in comments {
        return false;
      }
      ghost var before := comments;
      comments := comments[id := comments[id].(deleted := true)];
      var rest := comments.Keys;
      while rest != {}
        modifies this`comments
        invariant rest <= comments.Keys == before.Keys
        invariant forall c :: c in comments ==>
          comments[c] ==
            (if c == id || (c !in rest && before[c].parentId == Some(id)) then before[c].(deleted := true)
             else before[c])
        decreases rest
      {
        var c :| c in rest;
        rest := rest - {c};
        if comments[c].parentId == Some(id) && !comments[c].deleted {
          comments := comments[c := comments[c].(deleted := true)];
        }
      }
      var pluginId := comments[id].pluginId;
      assert comments == Struck(before, id);
      if pluginId in plugins {
        var n := CountComments(pluginId);
        plugins := plugins[pluginId := plugins[pluginId].(commentsCount := n)];
      }
      found := true;
    }

    method LikePlugin(id: string, user: string)
      modifies this
      ensures Contents() == LikePluginSpec(old(Contents()), id, user)
    {
      if id !in plugins {
        return;
      }
      if Like(id, user) !in pluginLikes {
        pluginLikes := pluginLikes + [Like(id, user)];
        plugins := plugins[id := plugins[id].(likes := plugins[id].likes + 1)];
      }
    }

    method UnlikePlugin(id: string, user: string)
      modifies this
      ensures Contents() == UnlikePluginSpec(old(Contents()), id, user)
    {
      if id !in plugins {
        return;
      }
      var before := |pluginLikes|;
      FilterLength(pluginLikes, Like(id, user));
      pluginLikes := FilterRows(pluginLikes, Unlike(id, user));
      if |pluginLikes| != before {
        plugins := plugins[id := plugins[id].(likes := Less(plugins[id].likes))];
      }
    }

    method LikeComment(id: string, user: string)
      modifies this
      ensures Contents() == LikeCommentSpec(old(Contents()), id, user)
    {
      if id !in comments || comments[id].deleted {
        return;
      }
      if Like(id, user) !in commentLikes {
        commentLikes := commentLikes + [Like(id, user)];
        comments := comments[id := comments[id].(likes := comments[id].likes + 1)];
      }
    }

    method UnlikeComment(id: string, user: string)
      modifies this
      ensures Contents() == UnlikeCommentSpec(old(Contents()), id, user)
    {
      if id !in comments || comments[id].deleted {
        return;
      }
      var before := |commentLikes|;
      FilterLength(commentLikes, Like(id, user));
      commentLikes := FilterRows(commentLikes, Unlike(id, user));
      if |commentLikes| != before {
        comments := comments[id := comments[id].(likes := Less(comments[id].likes))];
      }
    }

    /** _refresh_like_counts */
    method RefreshLikeCounts()
      modifies this`plugins, this`comments
      ensures Contents() == RefreshLikes(old(Contents()))
    {
      RefreshPluginLikes();
      RefreshCommentLikes();
    }

    method RefreshPluginLikes()
      modifies this`plugins
      ensures plugins == PluginLikesCounted(old(plugins), pluginLikes)
    {
      var counts := CountRows(pluginLikes);
      ghost var before := plugins;
      var rest := plugins.Keys;
      while rest != {}
        invariant rest <= plugins.Keys == before.Keys
        invariant forall id :: id in rest ==> plugins[id] == before[id]
        invariant forall id :: id in plugins && id !in rest ==>
          plugins[id] == before[id].(likes := Count(pluginLikes, id))
        decreases rest
      {
        var id :| id in rest;
        rest := rest - {id};
        plugins := plugins[id := plugins[id].(likes := if id in counts then counts[id] else 0)];
      }
    }

    method RefreshCommentLikes()
      modifies this`comments
      ensures comments == CommentLikesCounted(old(comments), commentLikes)
    {
      var counts := CountRows(commentLikes);
      ghost var before := comments;
      var rest := comments.Keys;
      while rest != {}
        invariant rest <= comments.Keys == before.Keys
        invariant forall c :: c in rest ==> comments[c] == before[c]
        invariant forall c :: c in comments && c !in rest ==> comments[c] == before[c].(likes := Count(commentLikes, c))
        decreases rest
      {
        var c :| c in rest;
        rest := rest - {c};
        comments := comments[c := comments[c].(likes := if c in counts then counts[c] else 0)];
      }
    }

    method RecountComments()
      modifies this`plugins
      ensures Contents() == RecountAll(old(Contents()))
    {
      ghost var before := plugins;
      var rest := plugins.Keys;
      while rest != {}
        invariant rest <= plugins.Keys == before.Keys
        invariant forall id :: id in plugins ==>
          plugins[id] == (if id in rest then before[id] else Recounted(before[id], comments, id))
        decreases rest
      {
        var id :| id in rest;
        rest := rest - {id};
        var n := CountComments(id);
        plugins := plugins[id := plugins[id].(commentsCount := n)];
      }
      assert plugins == RecountAll(old(Contents())).plugins;
    }

    method DeleteUser(user: string, replacement: string) returns (outcome: Outcome)
      modifies this
      ensures outcome == MoveOutcome(lower, old(Contents()), user in old(users), user, replacement)
      ensures Contents() == DeleteUserSpec(lower, old(Contents()), user, replacement)
    {
      if user !in users {
        return Missing;
      }
      var ok := CheckOwnerMove(user, replacement);
      if !ok {
        return IdentityConflict;
      }
      plugins := MoveOwner(plugins, user, replacement);
      var removed := set c | c in comments && comments[c].userId == user;
      assert removed == CommentsBy(old(Contents()), user);
      comments := CommentsWithout(comments, removed);
      pluginLikes := FilterRows(pluginLikes, (l: Like) => l.user != user);
      commentLikes := FilterRows(commentLikes, (l: Like) => l.user != user && l.target !in removed);
      users := users - {user};
      RefreshLikeCounts();
      RecountComments();
      outcome := Done;
    }

    method MergeUserIntoUser(from_: string, to: string) returns (outcome: Outcome)
      modifies this
      ensures outcome == MoveOutcome(lower, old(Contents()), from_ in old(users) && to in old(users), from_, to)
      ensures Contents() == MergeUserSpec(lower, old(Contents()), from_, to)
    {
      if from_ !in users || to !in users {
        return Missing;
      }
      var ok := CheckOwnerMove(from_, to);
      if !ok {
        return IdentityConflict;
      }
      plugins := MoveOwner(plugins, from_, to);
      comments := map c | c in comments ::
        if comments[c].userId == from_ then comments[c].(userId := to) else comments[c];
      pluginLikes := MergeRows(pluginLikes, from_, to);
      commentLikes := MergeRows(commentLikes, from_, to);
      users := users - {from_};
      RefreshLikeCounts();
      outcome := Done;
    }
  }

  lemma OwnedIsUnique(lower: Lower, s: State, u: User, p: Payload, i: string)
    requires IdentitiesDiffer(lower, s.plugins) && !Given(p) && Owns(lower, s, u, p, i)
    ensures Existing(lower, s, u, p) == Some(i)
  {
    forall j | Owns(lower, s, u, p, j) ensures i == j {
      assert Clash(lower, s.plugins[i], s.plugins[j]);
    }
  }

  method FilterRows(rows: seq<Like>, keep: Like -> bool) returns (kept: seq<Like>)
    ensures kept == Filter(rows, keep)
  {
    kept := [];
    for i := 0 to |rows|
      invariant kept == Filter(rows[..i], keep)
    {
      assert rows[..i + 1] == rows[..i] + [rows[i]];
      FilterAppend(rows[..i], [rows[i]], keep);
      FilterOne(rows[i], keep);
      if keep(rows[i]) {
        kept := kept + [rows[i]];
      }
    }
    assert rows[..|rows|] == rows;
  }

  lemma {:induction false} FilterLength(rows: seq<Like>, like: Like)
    ensures
      var kept := Filter(rows, Unlike(like.target, like.user));
      && |kept| <= |rows| && (|kept| == |rows| <==> like !in rows) && (like !in rows ==> kept == rows)
  {
    if rows != [] {
      FilterLength(rows[1..], like);
      assert rows == [rows[0]] + rows[1..];
    }
  }

  method CountRows(rows: seq<Like>) returns (counts: map<string, int>)
    ensures forall t :: Count(rows, t) == if t in counts then counts[t] else 0
  {
    counts := map[];
    for i := 0 to |rows|
      invariant forall t :: Count(rows[..i], t) == if t in counts then counts[t] else 0
    {
      assert rows[..i + 1][..i] == rows[..i];
      var t := rows[i].target;
      counts := counts[t := (if t in counts then counts[t] else 0) + 1];
    }
    assert rows[..|rows|] == rows;
  }

  /** _merge_likes */
  method MergeRows(rows: seq<Like>, from_: string, to: string) returns (merged: seq<Like>)
    ensures merged == MergeLikes(rows, from_, to, LikedBy(rows, to))
  {
    var existing := LikedBy(rows, to);
    ghost var goal := MergeLikes(rows, from_, to, existing);
    merged := [];
    assert rows[0..] == rows;
    for i := 0 to |rows|
      invariant goal == merged + MergeLikes(rows[i..], from_, to, existing)
    {
      assert rows[i..][1..] == rows[i + 1..];
      ghost var before := merged;
      if rows[i].user != from_ {
        merged := merged + [rows[i]];
        AppendMoves(before, rows[i], MergeLikes(rows[i + 1..], from_, to, existing));
      } else if rows[i].target !in existing {
        merged := merged + [Like(rows[i].target, to)];
        existing := existing + {rows[i].target};
        AppendMoves(before, Like(rows[i].target, to), MergeLikes(rows[i + 1..], from_, to, existing));
      }
    }
  }

  lemma AppendMoves<T>(a: seq<T>, x: T, b: seq<T>)
    ensures a + ([x] + b) == (a + [x]) + b
  {
  }
}
