/**
 * What each operation of the market store does, said on the fields of the store before and after it
 * and on nothing else.
 */
module MarketLaws {
  import opened Wrappers
  import opened Ordering
  import opened Sequences
  import opened Decimals
  import opened Market
  import opened MarketRuns

  // ----- identities and counters, read on the rows -----

  /** Only slashes at the end are stripped, and all of them. */
  lemma {:induction false} StripsTrailingSlashes(s: string)
    ensures
      var kept := RStripSlash(s);
      && kept <= s && (forall i :: |kept| <= i < |s| ==> s[i] == '/') && (kept == "" || kept[|kept| - 1] != '/')
  {
    if s != "" && s[|s| - 1] == '/' {
      StripsTrailingSlashes(s[..|s| - 1]);
    }
  }

  /** Two plugins have the same repository, or the same name under one owner or one non-empty login. */
  ghost predicate SameIdentity(lower: Lower, p: Plugin, q: Plugin) {
    || lower(RStripSlash(p.repo)) == lower(RStripSlash(q.repo))
    || (lower(p.name) == lower(q.name)
        && (p.owner == q.owner || (lower(p.login) == lower(q.login) && lower(q.login) != "")))
  }

  /** Every counter is the number of the rows it stands for, and no two plugins share an identity. */
  ghost predicate Exact(lower: Lower, s: State) {
    && (forall id :: id in s.plugins ==>
      && s.plugins[id].likes == |set l | l in s.pluginLikes && l.target == id :: l.user|
      && s.plugins[id].commentsCount ==
        |set c | c in s.comments && s.comments[c].pluginId == id && !s.comments[c].deleted|)
    && (forall c :: c in s.comments ==>
      s.comments[c].likes == |set l | l in s.commentLikes && l.target == c :: l.user|)
    && (forall i, j :: i in s.plugins && j in s.plugins && i != j ==> !SameIdentity(lower, s.plugins[i], s.plugins[j]))
  }

  lemma SoundIsExact(lower: Lower, s: State)
    requires Sound(lower, s)
    ensures Exact(lower, s)
  {
    hide RStripSlash;
    forall id | id in s.plugins
      ensures s.plugins[id].likes == |set l | l in s.pluginLikes && l.target == id :: l.user|
      ensures s.plugins[id].commentsCount ==
        |set c | c in s.comments && s.comments[c].pluginId == id && !s.comments[c].deleted|
    {
      assert Likers(s.pluginLikes, id) == set l | l in s.pluginLikes && l.target == id :: l.user;
      assert Undeleted(s.comments, id) ==
        set c | c in s.comments && s.comments[c].pluginId == id && !s.comments[c].deleted;
    }
    forall c | c in s.comments ensures s.comments[c].likes == |set l | l in s.commentLikes && l.target == c :: l.user| {
      assert Likers(s.commentLikes, c) == set l | l in s.commentLikes && l.target == c :: l.user;
    }
    forall i, j | i in s.plugins && j in s.plugins && i != j ensures !SameIdentity(lower, s.plugins[i], s.plugins[j]) {
      assert !Clash(lower, s.plugins[i], s.plugins[j]);
    }
  }

  /** So it is after every run from the empty store. */
  lemma {:induction false} RunIsExact(lower: Lower, users: set<string>, steps: seq<Step>)
    requires Runs(lower, EmptyStore(users), steps)
    ensures Exact(lower, Run(lower, EmptyStore(users), steps))
  {
    hide Exact, Runs, Run;
    RunIsSound(lower, users, steps);
    SoundIsExact(lower, Run(lower, EmptyStore(users), steps));
  }

  // ----- owners -----

  /** Owners `from_` become `to`; everything else about the plugins' identity stays. */
  ghost predicate OwnersMoved(s: State, t: State, from_: string, to: string) {
    && t.plugins.Keys == s.plugins.Keys
    && forall id :: id in s.plugins ==>
      && t.plugins[id].owner == (if s.plugins[id].owner == from_ then to else s.plugins[id].owner)
      && t.plugins[id].name == s.plugins[id].name && t.plugins[id].repo == s.plugins[id].repo
      && t.plugins[id].login == s.plugins[id].login
  }

  /** The plugins as they would be with their owners moved share no identity. */
  ghost predicate MayMove(lower: Lower, s: State, from_: string, to: string) {
    forall i, j :: i in s.plugins && j in s.plugins && i != j ==>
      !SameIdentity(lower,
        s.plugins[i].(owner := if s.plugins[i].owner == from_ then to else s.plugins[i].owner),
        s.plugins[j].(owner := if s.plugins[j].owner == from_ then to else s.plugins[j].owner))
  }

  lemma MayMoveExactly(lower: Lower, s: State, from_: string, to: string)
    requires IdentitiesDiffer(lower, s.plugins)
    ensures MayMoveOwner(lower, s.plugins, from_, to) <==> MayMove(lower, s, from_, to)
  {
    hide RStripSlash, MayMoveOwner;
    OwnerMoveRefusedExactly(lower, s.plugins, from_, to);
    var after := MoveOwner(s.plugins, from_, to);
    forall i, j | i in s.plugins && j in s.plugins
      ensures Clash(lower, after[i], after[j]) <==>
        SameIdentity(lower,
          s.plugins[i].(owner := if s.plugins[i].owner == from_ then to else s.plugins[i].owner),
          s.plugins[j].(owner := if s.plugins[j].owner == from_ then to else s.plugins[j].owner))
    {
    }
  }

  // ----- deleting a user -----

  ghost predicate CommentsOfOthersStay(s: State, t: State, user: string) {
    && t.comments.Keys == (set c | c in s.comments && s.comments[c].userId != user)
    && forall c :: c in t.comments ==>
      && t.comments[c].pluginId == s.comments[c].pluginId && t.comments[c].userId == s.comments[c].userId
      && t.comments[c].deleted == s.comments[c].deleted
      && t.comments[c].parentId == (if ReplyTo(s, c, user) then None else s.comments[c].parentId)
  }

  /** The comment replies to one of the user's. */
  ghost predicate ReplyTo(s: State, c: string, user: string)
    requires c in s.comments
  {
    exists parent :: parent in s.comments && s.comments[c].parentId == Some(parent) && s.comments[parent].userId == user
  }

  ghost predicate LikesOfOthersStay(s: State, t: State, user: string) {
    && (forall l :: l in t.pluginLikes <==> l in s.pluginLikes && l.user != user)
    && (forall l :: l in t.commentLikes <==>
      l in s.commentLikes && l.user != user && !(l.target in s.comments && s.comments[l.target].userId == user))
  }

  lemma CommentsAfterDeletion(s: State, user: string, replacement: string)
    ensures CommentsOfOthersStay(s, WithoutUser(s, user, replacement), user)
  {
    var t := WithoutUser(s, user, replacement);
    forall c | c in t.comments
      ensures t.comments[c].parentId == (if ReplyTo(s, c, user) then None else s.comments[c].parentId)
    {
    }
  }

  lemma LikesAfterDeletion(s: State, user: string, replacement: string)
    ensures LikesOfOthersStay(s, WithoutUser(s, user, replacement), user)
  {
  }

  /** Nothing but counters differs. */
  ghost predicate OnlyCounters(s: State, t: State) {
    && t.plugins.Keys == s.plugins.Keys && t.comments.Keys == s.comments.Keys
    && (forall id :: id in s.plugins ==>
      t.plugins[id] == s.plugins[id].(likes := t.plugins[id].likes, commentsCount := t.plugins[id].commentsCount))
    && (forall c :: c in s.comments ==> t.comments[c] == s.comments[c].(likes := t.comments[c].likes))
    && t.pluginLikes == s.pluginLikes && t.commentLikes == s.commentLikes && t.users == s.users && t.next == s.next
  }

  lemma RefreshTouchesCounters(s: State)
    ensures OnlyCounters(s, RefreshLikes(s)) && OnlyCounters(s, RecountAll(RefreshLikes(s)))
  {
  }

  /** Deleting a user happens exactly if the user is known and the moved plugins share no identity. Then the
      user's comments and likes are gone, replies to them are replies no more, the plugins have the
      replacement as owner, and nothing of anybody else has changed. Otherwise nothing has. */
  lemma {:induction false} DeletionExactly(lower: Lower, s: State, user: string, replacement: string)
    requires IdentitiesDiffer(lower, s.plugins)
    ensures
      var t := DeleteUserSpec(lower, s, user, replacement);
      if user in s.users && MayMove(lower, s, user, replacement) then
        && t.users == s.users - {user} && OwnersMoved(s, t, user, replacement)
        && CommentsOfOthersStay(s, t, user) && LikesOfOthersStay(s, t, user)
      else t == s
    ensures MoveOutcome(lower, s, user in s.users, user, replacement) ==
      if user !in s.users then Missing else if MayMove(lower, s, user, replacement) then Done else IdentityConflict
  {
    hide MayMoveOwner, MayMove, ReplyTo;
    MayMoveExactly(lower, s, user, replacement);
    var cut := WithoutUser(s, user, replacement);
    if user in s.users && MayMove(lower, s, user, replacement) {
      CommentsAfterDeletion(s, user, replacement);
      LikesAfterDeletion(s, user, replacement);
      RefreshTouchesCounters(cut);
      CarriedOver(s, cut, RecountAll(RefreshLikes(cut)), user, replacement);
    }
  }

  lemma CarriedOver(s: State, cut: State, t: State, user: string, replacement: string)
    requires cut == WithoutUser(s, user, replacement) && OnlyCounters(cut, t)
    requires CommentsOfOthersStay(s, cut, user) && LikesOfOthersStay(s, cut, user)
    ensures t.users == s.users - {user} && OwnersMoved(s, t, user, replacement)
    ensures CommentsOfOthersStay(s, t, user) && LikesOfOthersStay(s, t, user)
  {
    hide ReplyTo, CommentsWithout, Filter;
  }

  // ----- merging a user into another -----

  /** Comments keep everything but their author, who changes only from `from_` to `to`. */
  ghost predicate AuthorsMoved(s: State, t: State, from_: string, to: string) {
    && t.comments.Keys == s.comments.Keys
    && forall c :: c in s.comments ==>
      && t.comments[c].userId == (if s.comments[c].userId == from_ then to else s.comments[c].userId)
      && t.comments[c].pluginId == s.comments[c].pluginId && t.comments[c].parentId == s.comments[c].parentId
      && t.comments[c].deleted == s.comments[c].deleted
  }

  /** The likes of `from_` become likes of `to`, and no other like changes. */
  ghost predicate LikesMoved(rows: seq<Like>, after: seq<Like>, from_: string, to: string) {
    forall l :: l in after <==>
      || (l in rows && l.user != from_)
      || (from_ != to && l.user == to && Like(l.target, from_) in rows)
  }

  lemma MergeMovesLikes(rows: seq<Like>, from_: string, to: string)
    requires NoDup(rows)
    ensures LikesMoved(rows, MergeLikes(rows, from_, to, LikedBy(rows, to)), from_, to)
  {
    hide MergeLikes, NoDup;
    MergeMembers(rows, from_, to, LikedBy(rows, to));
    forall l: Like ensures l.user == to ==> (l.target in LikedBy(rows, to) <==> l in rows) {
      LikedByMember(rows, l.target, to);
    }
  }

  /** Merging happens exactly if both users are known and the moved plugins share no identity. Then authors,
      owners and likes move from the one to the other and nowhere else. Otherwise nothing changes. */
  lemma {:induction false} MergeExactly(lower: Lower, s: State, from_: string, to: string)
    requires IdentitiesDiffer(lower, s.plugins) && NoDup(s.pluginLikes) && NoDup(s.commentLikes)
    ensures
      var t := MergeUserSpec(lower, s, from_, to);
      if from_ in s.users && to in s.users && MayMove(lower, s, from_, to) then
        && t.users == s.users - {from_} && OwnersMoved(s, t, from_, to) && AuthorsMoved(s, t, from_, to)
        && LikesMoved(s.pluginLikes, t.pluginLikes, from_, to) && LikesMoved(s.commentLikes, t.commentLikes, from_, to)
      else t == s
    ensures MoveOutcome(lower, s, from_ in s.users && to in s.users, from_, to) ==
      if from_ !in s.users || to !in s.users then Missing
      else if MayMove(lower, s, from_, to) then Done else IdentityConflict
  {
    hide MayMoveOwner, MayMove, LikesMoved, MergeLikes, NoDup, LikedBy, WithMergedUsers, RefreshLikes, OwnersMoved,
      AuthorsMoved, OnlyCounters;
    MayMoveExactly(lower, s, from_, to);
    if from_ in s.users && to in s.users && MayMove(lower, s, from_, to) {
      var moved := WithMergedUsers(s, from_, to);
      MergeMovesLikes(s.pluginLikes, from_, to);
      MergeMovesLikes(s.commentLikes, from_, to);
      RefreshTouchesCounters(moved);
      MergeCarriedOver(s, moved, RefreshLikes(moved), from_, to);
    }
  }

  lemma MergeCarriedOver(s: State, moved: State, t: State, from_: string, to: string)
    requires moved == WithMergedUsers(s, from_, to) && OnlyCounters(moved, t)
    ensures t.users == s.users - {from_} && OwnersMoved(s, t, from_, to) && AuthorsMoved(s, t, from_, to)
    ensures t.pluginLikes == MergeLikes(s.pluginLikes, from_, to, LikedBy(s.pluginLikes, to))
    ensures t.commentLikes == MergeLikes(s.commentLikes, from_, to, LikedBy(s.commentLikes, to))
  {
    hide MergeLikes, LikedBy;
  }

  // ----- comments and likes -----

  /** Nothing but the comment count of one plugin differs between the plugins. */
  ghost predicate OnlyCountOf(s: State, t: State, pluginId: string) {
    && t.plugins.Keys == s.plugins.Keys
    && forall id :: id in s.plugins ==>
      t.plugins[id] ==
        if id == pluginId then s.plugins[id].(commentsCount := t.plugins[id].commentsCount) else s.plugins[id]
  }

  /** A new comment gets an unused identifier and its own fields; no other row changes. */
  lemma AdditionExactly(s: State, pluginId: string, userId: string, parentId: Option<string>)
    requires Issued(s)
    ensures
      var t, c := AddCommentSpec(s, pluginId, userId, parentId), CommentId(s.next);
      && c !in s.comments && t.comments == s.comments[c := Comment(pluginId, userId, parentId, false, 0)]
      && t.next == s.next + 1 && OnlyCountOf(s, t, pluginId)
      && t.pluginLikes == s.pluginLikes && t.commentLikes == s.commentLikes && t.users == s.users
  {
    NextIdIsFresh(s);
  }

  /** Deleting a comment marks it and its direct replies, and nothing else. */
  lemma StrikeExactly(s: State, c: string)
    ensures
      var t := DeleteCommentSpec(s, c);
      if c !in s.comments then t == s
      else
        && t.comments.Keys == s.comments.Keys && OnlyCountOf(s, t, s.comments[c].pluginId)
        && (forall k :: k in s.comments ==>
          t.comments[k] == s.comments[k].(
            deleted := s.comments[k].deleted || k == c || s.comments[k].parentId == Some(c)))
        && t.pluginLikes == s.pluginLikes && t.commentLikes == s.commentLikes && t.users == s.users && t.next == s.next
  {
  }

  /** Liking adds one row and raises one counter by one, unless the plugin is unknown or the row is there. */
  lemma LikePluginExactly(s: State, id: string, user: string)
    ensures
      var t := LikePluginSpec(s, id, user);
      if id in s.plugins && Like(id, user) !in s.pluginLikes then
        && t.pluginLikes == s.pluginLikes + [Like(id, user)]
        && t.plugins == s.plugins[id := s.plugins[id].(likes := s.plugins[id].likes + 1)]
        && t == s.(pluginLikes := t.pluginLikes, plugins := t.plugins)
      else t == s
  {
  }

  lemma LikeCommentExactly(s: State, id: string, user: string)
    ensures
      var t := LikeCommentSpec(s, id, user);
      if id in s.comments && !s.comments[id].deleted && Like(id, user) !in s.commentLikes then
        && t.commentLikes == s.commentLikes + [Like(id, user)]
        && t.comments == s.comments[id := s.comments[id].(likes := s.comments[id].likes + 1)]
        && t == s.(commentLikes := t.commentLikes, comments := t.comments)
      else t == s
  {
  }

  /** Taking a like back removes exactly that row and lowers one counter by one. */
  lemma UnlikePluginExactly(s: State, id: string, user: string)
    requires RowsSound(s) && LikesAgree(s)
    ensures
      var t := UnlikePluginSpec(s, id, user);
      if id in s.plugins && Like(id, user) in s.pluginLikes then
        && (forall l :: l in t.pluginLikes <==> l in s.pluginLikes && l != Like(id, user))
        && t.plugins == s.plugins[id := s.plugins[id].(likes := s.plugins[id].likes - 1)]
        && t == s.(pluginLikes := t.pluginLikes, plugins := t.plugins)
      else t == s
  {
    hide RowsSound, LikesAgree;
    UnlikeStepKeepsRows(s, id, user);
  }

  lemma UnlikeCommentExactly(s: State, id: string, user: string)
    requires RowsSound(s) && LikesAgree(s)
    ensures
      var t := UnlikeCommentSpec(s, id, user);
      if id in s.comments && !s.comments[id].deleted && Like(id, user) in s.commentLikes then
        && (forall l :: l in t.commentLikes <==> l in s.commentLikes && l != Like(id, user))
        && t.comments == s.comments[id := s.comments[id].(likes := s.comments[id].likes - 1)]
        && t == s.(commentLikes := t.commentLikes, comments := t.comments)
      else t == s
  {
    hide RowsSound, LikesAgree;
    UnlikeStepKeepsRows(s, id, user);
  }

  // ----- plugins -----

  /** The plugin a payload names by a non-empty identifier, or else the user's plugin of that name. */
  ghost predicate IsAbout(lower: Lower, s: State, u: User, p: Payload, id: string) {
    && id in s.plugins
    && if p.id.Some? && p.id.value != "" then p.id.value == id
       else s.plugins[id].owner == u.id && lower(s.plugins[id].name) == lower(p.name)
  }

  lemma ExistingIsAbout(lower: Lower, s: State, u: User, p: Payload)
    requires IdentitiesDiffer(lower, s.plugins)
    ensures forall id :: IsAbout(lower, s, u, p, id) <==> Existing(lower, s, u, p) == Some(id)
  {
    forall id ensures IsAbout(lower, s, u, p, id) <==> Existing(lower, s, u, p) == Some(id) {
      if IsAbout(lower, s, u, p, id) && !Given(p) {
        OwnedIsUnique(lower, s, u, p, id);
      }
    }
  }

  /** Nobody else's plugin shares an identity with the row stored under `id`. */
  ghost predicate Unshared(lower: Lower, s: State, id: string, row: Plugin) {
    forall other :: other in s.plugins && other != id ==> !SameIdentity(lower, s.plugins[other], row)
  }

  lemma UnsharedExactly(lower: Lower, s: State, id: string, row: Plugin)
    ensures IdentityFree(lower, s.plugins, id, row) <==> Unshared(lower, s, id, row)
  {
    hide RStripSlash;
    assert forall other :: other in s.plugins ==>
      (Clash(lower, s.plugins[other], row) <==> SameIdentity(lower, s.plugins[other], row));
  }

  /** Submitting for a known plugin: the owner may, for the same repository and an unshared identity; then
      name, repository and nothing else change. */
  lemma {:induction false} ResubmissionExactly(lower: Lower, s: State, u: User, p: Payload, freshId: string, id: string)
    requires IdentitiesDiffer(lower, s.plugins) && IsAbout(lower, s, u, p, id)
    ensures
      var old_ := s.plugins[id];
      var row := old_.(name := p.name, repo := p.repo);
      var accepted := old_.owner == u.id && lower(RStripSlash(old_.repo)) == lower(RStripSlash(p.repo))
        && Unshared(lower, s, id, row);
      && SubmitSpec(lower, s, u, p, freshId) ==
        (if accepted then s.(plugins := s.plugins[id := row], next := s.next + 1) else s)
      && RegisterSpec(lower, s, u, p, freshId) == s
      && RegistrationOutcome(lower, s, u, p, freshId) ==
        if old_.owner != u.id then PermissionDenied else if accepted then Done else IdentityConflict
  {
    hide RStripSlash, IsAbout;
    ExistingIsAbout(lower, s, u, p);
    assert Existing(lower, s, u, p) == Some(id);
    UnsharedExactly(lower, s, id, Candidate(s, Some(id), u, p));
  }

  /** Where a new plugin goes: under the payload's identifier or name, or under the generated one if that is
      taken. */
  ghost predicate GoesUnder(s: State, p: Payload, freshId: string, id: string) {
    var wanted := if p.id.Some? && p.id.value != "" then p.id.value else p.name;
    id == if wanted in s.plugins then freshId else wanted
  }

  /** Submitting or registering a new plugin: it is stored with empty counters unless its identity is shared. */
  lemma {:induction false} NewPluginExactly(lower: Lower, s: State, u: User, p: Payload, freshId: string, id: string)
    requires IdentitiesDiffer(lower, s.plugins) && GoesUnder(s, p, freshId, id)
    requires forall other :: !IsAbout(lower, s, u, p, other)
    ensures
      var row := Plugin(p.name, p.repo, u.id, u.login, 0, 0);
      && SubmitSpec(lower, s, u, p, freshId) ==
        (if Unshared(lower, s, id, row) then s.(plugins := s.plugins[id := row], next := s.next + 1) else s)
      && RegisterSpec(lower, s, u, p, freshId) ==
        (if Unshared(lower, s, id, row) then s.(plugins := s.plugins[id := row]) else s)
      && RegistrationOutcome(lower, s, u, p, freshId) == if Unshared(lower, s, id, row) then Done else IdentityConflict
  {
    hide RStripSlash, IsAbout;
    ExistingIsAbout(lower, s, u, p);
    assert Existing(lower, s, u, p) == None;
    UnsharedExactly(lower, s, id, Plugin(p.name, p.repo, u.id, u.login, 0, 0));
  }

  function Or(patch: Option<string>, value: string): string {
    match patch case Some(v) => v case None => value
  }

  /** A patch changes the fields it names, if the patched plugin shares no identity. */
  lemma PatchExactly(lower: Lower, s: State, id: string, patch: Patch)
    requires id in s.plugins
    ensures
      var old_ := s.plugins[id];
      var row := Plugin(
        Or(patch.name, old_.name), Or(patch.repo, old_.repo), Or(patch.owner, old_.owner), Or(patch.login, old_.login),
        old_.likes, old_.commentsCount);
      UpdateSpec(lower, s, id, patch) ==
        if Unshared(lower, s, id, row) then s.(plugins := s.plugins[id := row]) else s
  {
    UnsharedExactly(lower, s, id, Patched(s.plugins[id], patch));
  }
}
