/**
 * What the market store keeps over every run: the counters agree with the rows they count, like
 * rows stay distinct and aimed at something that exists, and no two plugins share an identity.
 */
module MarketRuns {
  import opened Wrappers
  import opened Decimals
  import opened Ordering
  import opened Sequences
  import opened Market

  // ----- like rows -----

  function Likers(rows: seq<Like>, target: string): set<string> {
    set l | l in rows && l.target == target :: l.user
  }

  /** Counting rows counts people, as long as nobody has two rows for one target. */
  lemma {:induction false} CountIsLikers(rows: seq<Like>, target: string)
    requires NoDup(rows)
    ensures Count(rows, target) == |Likers(rows, target)|
  {
    if rows != [] {
      var last := rows[|rows| - 1];
      var init := rows[..|rows| - 1];
      CountIsLikers(init, target);
      assert rows == init + [last] && last !in init;
      AddedLiker(init, last);
    }
  }

  lemma {:induction false} FilterKeepsDistinct(rows: seq<Like>, keep: Like -> bool)
    requires NoDup(rows)
    ensures NoDup(Filter(rows, keep))
  {
    if rows != [] {
      FilterKeepsDistinct(rows[1..], keep);
      assert rows[0] !in rows[1..];
      NoDupPrepend(rows[0], Filter(rows[1..], keep));
    }
  }

  ghost predicate Merged(rows: seq<Like>, from_: string, to: string, existing: set<string>, l: Like) {
    || (l in rows && l.user != from_)
    || (l.user == to && Like(l.target, from_) in rows && l.target !in existing)
  }

  /** What the one pass of _merge_likes leaves, row for row. */
  lemma {:induction false} MergeMembers(rows: seq<Like>, from_: string, to: string, existing: set<string>)
    requires NoDup(rows) && LikedBy(rows, to) <= existing
    ensures forall l :: l in MergeLikes(rows, from_, to, existing) <==> Merged(rows, from_, to, existing, l)
    ensures NoDup(MergeLikes(rows, from_, to, existing))
  {
    if rows != [] {
      var r, rest := rows[0], rows[1..];
      assert rows == [r] + rest;
      assert r !in rest && NoDup(rest) && LikedBy(rest, to) <= LikedBy(rows, to);
      if r.user != from_ {
        MergeMembers(rest, from_, to, existing);
        assert r.user == to ==> r.target in LikedBy(rows, to);
        NoDupPrepend(r, MergeLikes(rest, from_, to, existing));
      } else if r.target in existing {
        MergeMembers(rest, from_, to, existing);
      } else {
        MergeMembers(rest, from_, to, existing + {r.target});
        var moved := Like(r.target, to);
        assert from_ == to ==> r.target in LikedBy(rows, to);
        assert !Merged(rest, from_, to, existing + {r.target}, moved) by {
          assert moved in rest ==> moved.target in LikedBy(rows, to);
        }
        NoDupPrepend(moved, MergeLikes(rest, from_, to, existing + {r.target}));
        forall l ensures (l == moved || Merged(rest, from_, to, existing + {r.target}, l)) <==>
          Merged(rows, from_, to, existing, l) {
          assert l.target == r.target ==> Like(l.target, from_) == r;
        }
      }
    }
  }

  lemma NoDupPrepend<T>(x: T, s: seq<T>)
    requires NoDup(s) && x !in s
    ensures NoDup([x] + s)
  {
  }

  // ----- ids are never reissued -----

  ghost predicate Issued(s: State) {
    forall c :: c in s.comments ==> exists n: nat :: n < s.next && c == CommentId(n)
  }

  lemma NextIdIsFresh(s: State)
    requires Issued(s)
    ensures CommentId(s.next) !in s.comments
  {
    forall n: nat | n < s.next ensures CommentId(n) != CommentId(s.next) {
      var p := "comment_";
      assert CommentId(n)[|p|..] == Decimal(n) && CommentId(s.next)[|p|..] == Decimal(s.next);
      if Decimal(n) == Decimal(s.next) {
        DecimalInjective(n, s.next);
      }
    }
  }

  // ----- what is kept -----

  ghost predicate RowsSound(s: State) {
    && NoDup(s.pluginLikes) && NoDup(s.commentLikes)
    && (forall l :: l in s.pluginLikes ==> l.target in s.plugins)
    && (forall l :: l in s.commentLikes ==> l.target in s.comments)
  }

  ghost predicate LikesAgree(s: State) {
    && (forall id :: id in s.plugins ==> s.plugins[id].likes == |Likers(s.pluginLikes, id)|)
    && (forall c :: c in s.comments ==> s.comments[c].likes == |Likers(s.commentLikes, c)|)
  }

  ghost predicate CommentsAgree(s: State) {
    forall id :: id in s.plugins ==> s.plugins[id].commentsCount == |Undeleted(s.comments, id)|
  }

  /** Every comment is about a known plugin, and every reply is in its parent's plugin. */
  ghost predicate Threaded(s: State) {
    forall c :: c in s.comments ==>
      && s.comments[c].pluginId in s.plugins
      && (s.comments[c].parentId.Some? ==> InPluginOf(s, s.comments[c].parentId.value, s.comments[c].pluginId))
  }

  predicate InPluginOf(s: State, parent: string, pluginId: string) {
    parent in s.comments && s.comments[parent].pluginId == pluginId
  }

  datatype Step =
    | AddComment(pluginId: string, userId: string, parentId: Option<string>)
    | DeleteComment(commentId: string)
    | LikePlugin(target: string, user: string)
    | UnlikePlugin(target: string, user: string)
    | LikeComment(target: string, user: string)
    | UnlikeComment(target: string, user: string)
    | Submit(u: User, p: Payload, freshId: string)
    | Register(u: User, p: Payload, freshId: string)
    | Update(id: string, patch: Patch)
    | DeleteUser(gone: string, replacement: string)
    | MergeUsers(from_: string, to: string)

  ghost function Apply(lower: Lower, s: State, step: Step): State {
    match step
    case AddComment(p, u, parent) => AddCommentSpec(s, p, u, parent)
    case DeleteComment(c) => DeleteCommentSpec(s, c)
    case LikePlugin(id, u) => LikePluginSpec(s, id, u)
    case UnlikePlugin(id, u) => UnlikePluginSpec(s, id, u)
    case LikeComment(id, u) => LikeCommentSpec(s, id, u)
    case UnlikeComment(id, u) => UnlikeCommentSpec(s, id, u)
    case Submit(u, p, freshId) => SubmitSpec(lower, s, u, p, freshId)
    case Register(u, p, freshId) => RegisterSpec(lower, s, u, p, freshId)
    case Update(id, patch) => UpdateSpec(lower, s, id, patch)
    case DeleteUser(user, replacement) => DeleteUserSpec(lower, s, user, replacement)
    case MergeUsers(from_, to) => MergeUserSpec(lower, s, from_, to)
  }

  /** new_id yields an id no plugin has. */
  predicate FreshName(s: State, step: Step) {
    match step
    case Submit(_, _, freshId) => freshId !in s.plugins
    case Register(_, _, freshId) => freshId !in s.plugins
    case _ => true
  }

  // ----- like rows and their counters, step by step -----

  lemma LikeStepKeepsRows(s: State, id: string, u: string)
    requires RowsSound(s) && LikesAgree(s)
    ensures RowsSound(LikePluginSpec(s, id, u)) && LikesAgree(LikePluginSpec(s, id, u))
    ensures RowsSound(LikeCommentSpec(s, id, u)) && LikesAgree(LikeCommentSpec(s, id, u))
  {
    AddedLiker(s.pluginLikes, Like(id, u));
    AddedLiker(s.commentLikes, Like(id, u));
  }

  lemma AddedLiker(rows: seq<Like>, like: Like)
    requires NoDup(rows)
    ensures like !in rows ==> NoDup(rows + [like])
    ensures forall l :: l in rows + [like] <==> l in rows || l == like
    ensures like !in rows ==> |Likers(rows + [like], like.target)| == |Likers(rows, like.target)| + 1
    ensures forall t :: t != like.target ==> Likers(rows + [like], t) == Likers(rows, t)
  {
    if like !in rows {
      NoDupAppend(rows, like);
      assert Likers(rows + [like], like.target) == Likers(rows, like.target) + {like.user};
      assert forall l :: l in rows && l.target == like.target ==> l.user != like.user;
    }
  }

  /** Taking a like back never meets the clamp at zero: the counter goes down by exactly one. */
  lemma UnlikeStepKeepsRows(s: State, id: string, u: string)
    requires RowsSound(s) && LikesAgree(s)
    ensures RowsSound(UnlikePluginSpec(s, id, u)) && LikesAgree(UnlikePluginSpec(s, id, u))
    ensures RowsSound(UnlikeCommentSpec(s, id, u)) && LikesAgree(UnlikeCommentSpec(s, id, u))
    ensures id in s.plugins && Like(id, u) in s.pluginLikes ==>
      UnlikePluginSpec(s, id, u).plugins[id].likes == s.plugins[id].likes - 1 >= 0
    ensures Likable(s, id) && Like(id, u) in s.commentLikes ==>
      UnlikeCommentSpec(s, id, u).comments[id].likes == s.comments[id].likes - 1 >= 0
  {
    hide Filter, Likers, NoDup;
    RemovedLiker(s.pluginLikes, id, u);
    RemovedLiker(s.commentLikes, id, u);
  }

  lemma RemovedLiker(rows: seq<Like>, id: string, u: string)
    requires NoDup(rows)
    ensures NoDup(Filter(rows, Unlike(id, u)))
    ensures forall l :: l in Filter(rows, Unlike(id, u)) <==> l in rows && l != Like(id, u)
    ensures Like(id, u) in rows ==> |Likers(Filter(rows, Unlike(id, u)), id)| == |Likers(rows, id)| - 1
    ensures forall t :: t != id ==> Likers(Filter(rows, Unlike(id, u)), t) == Likers(rows, t)
  {
    var kept := Filter(rows, Unlike(id, u));
    FilterKeepsDistinct(rows, Unlike(id, u));
    if Like(id, u) in rows {
      assert u in Likers(rows, id);
      assert Likers(kept, id) == Likers(rows, id) - {u};
    }
  }

  lemma RefreshAgrees(s: State)
    requires NoDup(s.pluginLikes) && NoDup(s.commentLikes)
    ensures LikesAgree(RefreshLikes(s))
  {
    forall t ensures Count(s.pluginLikes, t) == |Likers(s.pluginLikes, t)|
      && Count(s.commentLikes, t) == |Likers(s.commentLikes, t)| {
      CountIsLikers(s.pluginLikes, t);
      CountIsLikers(s.commentLikes, t);
    }
  }

  // ----- comment counters, step by step -----

  lemma SameVisibleComments(a: map<string, Comment>, b: map<string, Comment>)
    requires a.Keys == b.Keys
    requires forall c :: c in a ==> a[c].pluginId == b[c].pluginId && a[c].deleted == b[c].deleted
    ensures forall id :: Undeleted(a, id) == Undeleted(b, id)
  {
  }

  lemma {:induction false} SameSizeSubset<T>(a: set<T>, b: set<T>)
    requires a <= b && |a| == |b|
    ensures a == b
  {
    if a != {} {
      var x :| x in a;
      SameSizeSubset(a - {x}, b - {x});
    }
  }

  lemma AddCommentKeepsCounters(s: State, pluginId: string, userId: string, parent: Option<string>)
    requires Counted(s)
    ensures Counted(AddCommentSpec(s, pluginId, userId, parent))
  {
    var t := AddCommentSpec(s, pluginId, userId, parent);
    NextIdIsFresh(s);
    var c := CommentId(s.next);
    assert Likers(s.commentLikes, c) == {};
    forall id | id != pluginId ensures Undeleted(t.comments, id) == Undeleted(s.comments, id) {
    }
    forall k | k in t.comments ensures exists n: nat :: n < t.next && k == CommentId(n) {
      if k == c {
        assert s.next < t.next;
      }
    }
  }

  /** A live reply to `c` that sits under another plugin of the store. */
  predicate StrandedReply(s: State, c: string, r: string)
    requires c in s.comments
  {
    && r in s.comments && s.comments[r].parentId == Some(c) && !s.comments[r].deleted
    && s.comments[r].pluginId != s.comments[c].pluginId && s.comments[r].pluginId in s.plugins
  }

  lemma DeleteCommentKeepsRows(s: State, c: string)
    requires Counted(s)
    ensures RowsSound(DeleteCommentSpec(s, c)) && Issued(DeleteCommentSpec(s, c)) && LikesAgree(DeleteCommentSpec(s, c))
  {
  }

  lemma DeleteCommentMiscounts(s: State, c: string)
    requires Counted(s) && c in s.comments
    ensures CommentsAgree(DeleteCommentSpec(s, c)) <==> !exists r :: StrandedReply(s, c, r)
  {
    hide RowsSound, Issued, LikesAgree;
    var t := DeleteCommentSpec(s, c);
    var home := s.comments[c].pluginId;
    forall id | id in s.plugins && id != home
      ensures t.plugins[id] == s.plugins[id]
      ensures |Undeleted(t.comments, id)| == |Undeleted(s.comments, id)| <==>
        !exists r :: StrandedReply(s, c, r) && s.comments[r].pluginId == id
    {
      var before, after := Undeleted(s.comments, id), Undeleted(t.comments, id);
      assert after <= before;
      assert forall r :: r in before - after ==> StrandedReply(s, c, r);
      assert (!exists r :: StrandedReply(s, c, r) && s.comments[r].pluginId == id) ==> before == after;
      if |after| == |before| {
        SameSizeSubset(after, before);
        assert forall r :: StrandedReply(s, c, r) && s.comments[r].pluginId == id ==> r in before;
      }
    }
    if r :| StrandedReply(s, c, r) {
      var id := s.comments[r].pluginId;
      assert t.plugins[id].commentsCount != |Undeleted(t.comments, id)|;
    }
  }

  lemma PutPluginCounts(s: State, id: string, p: Plugin, next: nat)
    requires Counted(s) && next >= s.next
    requires id in s.plugins ==> p.likes == s.plugins[id].likes && p.commentsCount == s.plugins[id].commentsCount
    requires id !in s.plugins ==> p.likes == 0 && p.commentsCount == 0
    ensures
      var t := s.(plugins := s.plugins[id := p], next := next);
      && RowsSound(t) && Issued(t) && LikesAgree(t)
      && (CommentsAgree(t) <==> id in s.plugins || Undeleted(s.comments, id) == {})
  {
    var t := s.(plugins := s.plugins[id := p], next := next);
    if id !in s.plugins {
      assert Likers(s.pluginLikes, id) == {};
    }
    assert t.plugins[id] == p;
    forall c | c in t.comments ensures exists n: nat :: n < t.next && c == CommentId(n) {
      var n: nat :| n < s.next && c == CommentId(n);
      assert n < t.next;
    }
  }

  /** Nothing but likes differs between the two states. */
  ghost predicate OnlyLikesDiffer(s: State, t: State) {
    && t.next == s.next && t.plugins.Keys == s.plugins.Keys && t.comments.Keys == s.comments.Keys
    && (forall id :: id in s.plugins ==> t.plugins[id] == s.plugins[id].(likes := t.plugins[id].likes))
    && (forall c :: c in s.comments ==> t.comments[c] == s.comments[c].(likes := t.comments[c].likes))
  }

  lemma LikesAsideCommentsAgree(s: State, t: State)
    requires CommentsAgree(s) && Issued(s) && OnlyLikesDiffer(s, t)
    ensures CommentsAgree(t) && Issued(t)
  {
    SameVisibleComments(s.comments, t.comments);
  }

  lemma OnlyPluginLikesDiffer(s: State, t: State, id: string, n: int)
    requires id in s.plugins && t.plugins == s.plugins[id := s.plugins[id].(likes := n)]
    requires t.comments == s.comments && t.next == s.next
    ensures OnlyLikesDiffer(s, t)
  {
  }

  lemma OnlyCommentLikesDiffer(s: State, t: State, c: string, n: int)
    requires c in s.comments && t.comments == s.comments[c := s.comments[c].(likes := n)]
    requires t.plugins == s.plugins && t.next == s.next
    ensures OnlyLikesDiffer(s, t)
  {
  }

  lemma LikeStepKeepsComments(s: State, id: string, u: string)
    requires CommentsAgree(s) && Issued(s)
    ensures CommentsAgree(LikePluginSpec(s, id, u)) && Issued(LikePluginSpec(s, id, u))
    ensures CommentsAgree(LikeCommentSpec(s, id, u)) && Issued(LikeCommentSpec(s, id, u))
  {
    if id in s.plugins && Like(id, u) !in s.pluginLikes {
      OnlyPluginLikesDiffer(s, LikePluginSpec(s, id, u), id, s.plugins[id].likes + 1);
      LikesAsideCommentsAgree(s, LikePluginSpec(s, id, u));
    }
    if Likable(s, id) && Like(id, u) !in s.commentLikes {
      OnlyCommentLikesDiffer(s, LikeCommentSpec(s, id, u), id, s.comments[id].likes + 1);
      LikesAsideCommentsAgree(s, LikeCommentSpec(s, id, u));
    }
  }

  lemma UnlikeStepKeepsComments(s: State, id: string, u: string)
    requires CommentsAgree(s) && Issued(s)
    ensures CommentsAgree(UnlikePluginSpec(s, id, u)) && Issued(UnlikePluginSpec(s, id, u))
    ensures CommentsAgree(UnlikeCommentSpec(s, id, u)) && Issued(UnlikeCommentSpec(s, id, u))
  {
    if id in s.plugins && Like(id, u) in s.pluginLikes {
      OnlyPluginLikesDiffer(s, UnlikePluginSpec(s, id, u), id, Less(s.plugins[id].likes));
      LikesAsideCommentsAgree(s, UnlikePluginSpec(s, id, u));
    }
    if Likable(s, id) && Like(id, u) in s.commentLikes {
      OnlyCommentLikesDiffer(s, UnlikeCommentSpec(s, id, u), id, Less(s.comments[id].likes));
      LikesAsideCommentsAgree(s, UnlikeCommentSpec(s, id, u));
    }
  }

  lemma DeleteUserKeepsCounters(lower: Lower, s: State, user: string, replacement: string)
    requires Counted(s)
    ensures Counted(DeleteUserSpec(lower, s, user, replacement))
  {
    if MoveOutcome(lower, s, user in s.users, user, replacement).Done? {
      var removed := CommentsBy(s, user);
      FilterKeepsDistinct(s.pluginLikes, (l: Like) => l.user != user);
      FilterKeepsDistinct(s.commentLikes, (l: Like) => l.user != user && l.target !in removed);
      var moved := WithoutUser(s, user, replacement);
      RefreshAgrees(moved);
      var t := RefreshLikes(moved);
      SameVisibleComments(moved.comments, t.comments);
      SameVisibleComments(t.comments, RecountAll(t).comments);
    }
  }

  lemma MergeKeepsCounters(lower: Lower, s: State, from_: string, to: string)
    requires Counted(s)
    ensures Counted(MergeUserSpec(lower, s, from_, to))
  {
    if MoveOutcome(lower, s, from_ in s.users && to in s.users, from_, to).Done? {
      MergeMembers(s.pluginLikes, from_, to, LikedBy(s.pluginLikes, to));
      MergeMembers(s.commentLikes, from_, to, LikedBy(s.commentLikes, to));
      var moved := WithMergedUsers(s, from_, to);
      RefreshAgrees(moved);
      SameVisibleComments(s.comments, RefreshLikes(moved).comments);
    }
  }

  ghost predicate Counted(s: State) {
    RowsSound(s) && Issued(s) && LikesAgree(s) && CommentsAgree(s)
  }

  /** The steps after which some comment counter is off. */
  ghost predicate Miscounts(lower: Lower, s: State, step: Step) {
    match step
    case DeleteComment(c) => c in s.comments && exists r :: StrandedReply(s, c, r)
    case Submit(u, p, freshId) => NamesOrphans(lower, s, u, p, freshId)
    case Register(u, p, freshId) => NamesOrphans(lower, s, u, p, freshId)
    case _ => false
  }

  /** The payload is about no known plugin, clashes with none, and its id is one live comments already carry. */
  ghost predicate NamesOrphans(lower: Lower, s: State, u: User, p: Payload, freshId: string) {
    var id := TargetId(s, None, p, freshId);
    && Existing(lower, s, u, p).None? && IdentityFree(lower, s.plugins, id, Candidate(s, None, u, p))
    && Undeleted(s.comments, id) != {}
  }

  lemma RegistrationCounts(lower: Lower, s: State, u: User, p: Payload, freshId: string)
    requires Counted(s) && freshId !in s.plugins
    ensures
      var t := SubmitSpec(lower, s, u, p, freshId);
      && RowsSound(t) && Issued(t) && LikesAgree(t) && (CommentsAgree(t) <==> !NamesOrphans(lower, s, u, p, freshId))
    ensures
      var t := RegisterSpec(lower, s, u, p, freshId);
      && RowsSound(t) && Issued(t) && LikesAgree(t) && (CommentsAgree(t) <==> !NamesOrphans(lower, s, u, p, freshId))
  {
    var existing := Existing(lower, s, u, p);
    var id := TargetId(s, existing, p, freshId);
    if RegistrationOutcome(lower, s, u, p, freshId).Done? {
      PutPluginCounts(s, id, Candidate(s, existing, u, p), s.next + 1);
      PutPluginCounts(s, id, Candidate(s, existing, u, p), s.next);
    }
  }

  /** Every step keeps every counter exact, but for the two families of Miscounts, which never do. */
  lemma {:induction false} StepKeepsCounters(lower: Lower, s: State, step: Step)
    requires Counted(s) && FreshName(s, step)
    ensures
      var t := Apply(lower, s, step);
      RowsSound(t) && Issued(t) && LikesAgree(t) && (CommentsAgree(t) <==> !Miscounts(lower, s, step))
  {
    match step
    case AddComment(p, u, parent) => AddCommentKeepsCounters(s, p, u, parent);
    case DeleteComment(c) =>
      DeleteCommentKeepsRows(s, c);
      if c in s.comments {
        DeleteCommentMiscounts(s, c);
      }
    case LikePlugin(id, u) =>
      LikeStepKeepsRows(s, id, u);
      LikeStepKeepsComments(s, id, u);
    case UnlikePlugin(id, u) =>
      UnlikeStepKeepsRows(s, id, u);
      UnlikeStepKeepsComments(s, id, u);
    case LikeComment(id, u) =>
      LikeStepKeepsRows(s, id, u);
      LikeStepKeepsComments(s, id, u);
    case UnlikeComment(id, u) =>
      UnlikeStepKeepsRows(s, id, u);
      UnlikeStepKeepsComments(s, id, u);
    case Submit(u, p, freshId) => RegistrationCounts(lower, s, u, p, freshId);
    case Register(u, p, freshId) => RegistrationCounts(lower, s, u, p, freshId);
    case Update(id, patch) =>
      if id in s.plugins {
        PutPluginCounts(s, id, Patched(s.plugins[id], patch), s.next);
      }
    case DeleteUser(user, replacement) => DeleteUserKeepsCounters(lower, s, user, replacement);
    case MergeUsers(from_, to) => MergeKeepsCounters(lower, s, from_, to);
  }

  // ----- merging two users -----

  /** The merged user likes what either liked, unless a user with likes is merged into itself. */
  lemma MergeUnitesLikes(rows: seq<Like>, from_: string, to: string)
    requires NoDup(rows)
    ensures
      var merged := MergeLikes(rows, from_, to, LikedBy(rows, to));
      && (LikedBy(merged, to) == LikedBy(rows, from_) + LikedBy(rows, to) <==>
        from_ != to || LikedBy(rows, from_) == {})
      && LikedBy(merged, from_) == {}
      && forall user :: user != from_ && user != to ==> LikedBy(merged, user) == LikedBy(rows, user)
  {
    var merged := MergeLikes(rows, from_, to, LikedBy(rows, to));
    MergeMembers(rows, from_, to, LikedBy(rows, to));
    LikedByMembers(rows);
    LikedByMembers(merged);
    if from_ == to {
      assert LikedBy(merged, to) == {};
    } else {
      assert forall t :: t in LikedBy(merged, to) <==> t in LikedBy(rows, from_) + LikedBy(rows, to);
    }
    forall user | user != from_ && user != to ensures LikedBy(merged, user) == LikedBy(rows, user) {
      assert forall t :: t in LikedBy(merged, user) <==> t in LikedBy(rows, user);
    }
  }

  lemma LikedByMembers(rows: seq<Like>)
    ensures forall t, u :: t in LikedBy(rows, u) <==> Like(t, u) in rows
  {
  }

  lemma MergedLiker(rows: seq<Like>, from_: string, to: string, id: string, u: string)
    requires NoDup(rows) && from_ != to
    ensures u in Likers(MergeLikes(rows, from_, to, LikedBy(rows, to)), id) <==>
      (u in Likers(rows, id) && u != from_) || (u == to && from_ in Likers(rows, id))
  {
    hide MergeLikes, Likers, LikedBy, NoDup;
    var existing := LikedBy(rows, to);
    MergeMembers(rows, from_, to, existing);
    LikedByMember(rows, id, to);
    LikersMember(rows, id, u);
    LikersMember(rows, id, from_);
    LikersMember(MergeLikes(rows, from_, to, existing), id, u);
    assert Like(id, u) in MergeLikes(rows, from_, to, existing) <==> Merged(rows, from_, to, existing, Like(id, u));
  }

  lemma MovedCount(before: set<string>, after: set<string>, from_: string, to: string)
    requires from_ != to
    requires forall u :: u in after <==> (u in before && u != from_) || (u == to && from_ in before)
    ensures |after| == |before| - if from_ in before && to in before then 1 else 0
  {
    if from_ in before {
      var rest := before - {from_};
      assert |rest| == |before| - 1;
      if to in before {
        assert after == rest;
      } else {
        assert after == rest + {to} && to !in rest;
      }
    } else {
      assert after == before;
    }
  }

  lemma MergeLikers(rows: seq<Like>, from_: string, to: string, id: string)
    requires NoDup(rows) && from_ != to
    ensures |Likers(MergeLikes(rows, from_, to, LikedBy(rows, to)), id)|
      == |Likers(rows, id)| - if Like(id, from_) in rows && Like(id, to) in rows then 1 else 0
  {
    hide MergeLikes, Likers, LikedBy, NoDup;
    var before, after := Likers(rows, id), Likers(MergeLikes(rows, from_, to, LikedBy(rows, to)), id);
    forall u ensures u in after <==> (u in before && u != from_) || (u == to && from_ in before) {
      MergedLiker(rows, from_, to, id, u);
    }
    MovedCount(before, after, from_, to);
    LikersMember(rows, id, from_);
    LikersMember(rows, id, to);
  }

  lemma LikedByMember(rows: seq<Like>, t: string, u: string)
    ensures t in LikedBy(rows, u) <==> Like(t, u) in rows
  {
  }

  lemma LikersMember(rows: seq<Like>, t: string, u: string)
    ensures u in Likers(rows, t) <==> Like(t, u) in rows
  {
  }

  /** Each counter goes down by one exactly where both users had liked, and nowhere else. */
  lemma {:induction false} MergeCounts(lower: Lower, s: State, from_: string, to: string, id: string)
    requires Counted(s) && from_ != to && id in s.plugins
    requires MoveOutcome(lower, s, from_ in s.users && to in s.users, from_, to).Done?
    ensures id in MergeUserSpec(lower, s, from_, to).plugins
    ensures MergeUserSpec(lower, s, from_, to).plugins[id].likes
      == s.plugins[id].likes - if Like(id, from_) in s.pluginLikes && Like(id, to) in s.pluginLikes then 1 else 0
  {
    MergeLikers(s.pluginLikes, from_, to, id);
    MergeMembers(s.pluginLikes, from_, to, LikedBy(s.pluginLikes, to));
    CountIsLikers(MergeLikes(s.pluginLikes, from_, to, LikedBy(s.pluginLikes, to)), id);
  }

  // ----- identities -----

  lemma PutKeepsIdentities(lower: Lower, plugins: map<string, Plugin>, id: string, p: Plugin)
    requires IdentitiesDiffer(lower, plugins)
    ensures IdentitiesDiffer(lower, plugins[id := p]) <==> IdentityFree(lower, plugins, id, p)
  {
    var after := plugins[id := p];
    if IdentitiesDiffer(lower, after) {
      forall other | other in plugins && other != id ensures !Clash(lower, plugins[other], p) {
        assert after[other] == plugins[other] && after[id] == p;
      }
    }
  }

  /** An owner move checked plugin by plugin against the old owners is safe exactly when the moved store is. */
  lemma OwnerMoveRefusedExactly(lower: Lower, plugins: map<string, Plugin>, from_: string, to: string)
    requires IdentitiesDiffer(lower, plugins)
    ensures MayMoveOwner(lower, plugins, from_, to) <==> IdentitiesDiffer(lower, MoveOwner(plugins, from_, to))
  {
    hide RepoKey;
    var after := MoveOwner(plugins, from_, to);
    forall i, j | i in plugins && j in plugins && i != j
      ensures plugins[i].owner == from_ ==>
        (Clash(lower, plugins[j], plugins[i].(owner := to)) <==> Clash(lower, after[j], after[i]))
      ensures plugins[i].owner != from_ && plugins[j].owner != from_ ==> !Clash(lower, after[i], after[j])
    {
      assert !Clash(lower, plugins[i], plugins[j]) && !Clash(lower, plugins[j], plugins[i]);
    }
  }

  /** An update is refused exactly when the updated store would hold a clash. */
  lemma {:induction false} UpdateRefusedExactly(lower: Lower, s: State, id: string, patch: Patch)
    requires IdentitiesDiffer(lower, s.plugins) && id in s.plugins
    ensures
      var wanted := s.plugins[id := Patched(s.plugins[id], patch)];
      UpdateSpec(lower, s, id, patch).plugins == if IdentitiesDiffer(lower, wanted) then wanted else s.plugins
  {
    PutKeepsIdentities(lower, s.plugins, id, Patched(s.plugins[id], patch));
  }

  /** A submission of one's own plugin, or of a new one, is refused exactly when it would create a clash
      or point the plugin at another repository. */
  lemma SubmitRefusedExactly(lower: Lower, s: State, u: User, p: Payload, freshId: string)
    requires IdentitiesDiffer(lower, s.plugins)
    ensures
      var existing := Existing(lower, s, u, p);
      var wanted := s.plugins[TargetId(s, existing, p, freshId) := Candidate(s, existing, u, p)];
      RegistrationOutcome(lower, s, u, p, freshId) ==
        if existing.Some? && s.plugins[existing.value].owner != u.id then PermissionDenied
        else if existing.Some? && RepoKey(lower, s.plugins[existing.value].repo) != RepoKey(lower, p.repo) then
          IdentityConflict
        else if IdentitiesDiffer(lower, wanted) then Done else IdentityConflict
  {
    var existing := Existing(lower, s, u, p);
    PutKeepsIdentities(lower, s.plugins, TargetId(s, existing, p, freshId), Candidate(s, existing, u, p));
  }

  ghost predicate SameIdentities(a: map<string, Plugin>, b: map<string, Plugin>) {
    a.Keys == b.Keys && forall id :: id in a ==>
      a[id] == b[id].(likes := a[id].likes, commentsCount := a[id].commentsCount)
  }

  lemma SameIdentitiesDiffer(lower: Lower, a: map<string, Plugin>, b: map<string, Plugin>)
    requires SameIdentities(a, b)
    ensures IdentitiesDiffer(lower, a) <==> IdentitiesDiffer(lower, b)
  {
    hide RepoKey;
    assert forall i, j :: i in a && j in a ==> Clash(lower, a[i], a[j]) == Clash(lower, b[i], b[j]);
  }

  lemma RecountedIdentities(s: State, id: string)
    ensures SameIdentities(s.plugins, RecountOne(s, id).plugins)
    ensures SameIdentities(s.plugins, RecountAll(s).plugins)
  {
  }

  lemma LikesChangeNoIdentity(s: State, id: string, u: string)
    ensures SameIdentities(s.plugins, LikePluginSpec(s, id, u).plugins)
    ensures SameIdentities(s.plugins, UnlikePluginSpec(s, id, u).plugins)
  {
  }

  lemma RefreshedIdentities(s: State)
    ensures SameIdentities(s.plugins, RefreshLikes(s).plugins)
    ensures SameIdentities(s.plugins, RecountAll(RefreshLikes(s)).plugins)
  {
  }

  /** The steps that change no plugin's name, repository or owner. */
  lemma OtherStepsKeepIdentities(lower: Lower, s: State, step: Step)
    requires !step.Submit? && !step.Register? && !step.Update? && !step.DeleteUser? && !step.MergeUsers?
    ensures SameIdentities(s.plugins, Apply(lower, s, step).plugins)
  {
    match step
    case AddComment(p, u, parent) =>
      RecountedIdentities(
        s.(comments := s.comments[CommentId(s.next) := Comment(p, u, parent, false, 0)], next := s.next + 1), p);
    case DeleteComment(c) =>
      if c in s.comments {
        RecountedIdentities(s.(comments := Struck(s.comments, c)), s.comments[c].pluginId);
      }
    case LikePlugin(id, u) => LikesChangeNoIdentity(s, id, u);
    case UnlikePlugin(id, u) => LikesChangeNoIdentity(s, id, u);
    case _ =>
  }

  lemma RegistrationKeepsIdentities(lower: Lower, s: State, u: User, p: Payload, freshId: string)
    requires IdentitiesDiffer(lower, s.plugins)
    ensures IdentitiesDiffer(lower, SubmitSpec(lower, s, u, p, freshId).plugins)
    ensures IdentitiesDiffer(lower, RegisterSpec(lower, s, u, p, freshId).plugins)
  {
    SubmitRefusedExactly(lower, s, u, p, freshId);
  }

  lemma DeleteUserKeepsIdentities(lower: Lower, s: State, user: string, replacement: string)
    requires IdentitiesDiffer(lower, s.plugins)
    ensures IdentitiesDiffer(lower, DeleteUserSpec(lower, s, user, replacement).plugins)
  {
    var cut := WithoutUser(s, user, replacement);
    OwnerMoveRefusedExactly(lower, s.plugins, user, replacement);
    RefreshedIdentities(cut);
    SameIdentitiesDiffer(lower, MoveOwner(s.plugins, user, replacement), RecountAll(RefreshLikes(cut)).plugins);
  }

  lemma MergeKeepsIdentities(lower: Lower, s: State, from_: string, to: string)
    requires IdentitiesDiffer(lower, s.plugins)
    ensures IdentitiesDiffer(lower, MergeUserSpec(lower, s, from_, to).plugins)
  {
    var moved := WithMergedUsers(s, from_, to);
    OwnerMoveRefusedExactly(lower, s.plugins, from_, to);
    RefreshedIdentities(moved);
    SameIdentitiesDiffer(lower, MoveOwner(s.plugins, from_, to), RefreshLikes(moved).plugins);
  }

  /** No step of any kind makes two plugins share an identity. */
  lemma {:induction false} StepKeepsIdentities(lower: Lower, s: State, step: Step)
    requires IdentitiesDiffer(lower, s.plugins)
    ensures IdentitiesDiffer(lower, Apply(lower, s, step).plugins)
  {
    match step
    case Submit(u, p, freshId) => RegistrationKeepsIdentities(lower, s, u, p, freshId);
    case Register(u, p, freshId) => RegistrationKeepsIdentities(lower, s, u, p, freshId);
    case Update(id, patch) =>
      if id in s.plugins {
        UpdateRefusedExactly(lower, s, id, patch);
      }
    case DeleteUser(user, replacement) => DeleteUserKeepsIdentities(lower, s, user, replacement);
    case MergeUsers(from_, to) => MergeKeepsIdentities(lower, s, from_, to);
    case _ =>
      OtherStepsKeepIdentities(lower, s, step);
      SameIdentitiesDiffer(lower, s.plugins, Apply(lower, s, step).plugins);
  }

  // ----- whole runs -----

  /** What the route in main.py checks before a comment is added, and the freshness of generated ids. */
  predicate Allowed(s: State, step: Step) {
    && FreshName(s, step)
    && (step.AddComment? ==>
      && step.pluginId in s.plugins
      && (step.parentId.Some? ==> InPluginOf(s, step.parentId.value, step.pluginId)))
  }

  ghost predicate Runs(lower: Lower, s: State, steps: seq<Step>)
    decreases |steps|
  {
    steps == [] || (Allowed(s, steps[0]) && Runs(lower, Apply(lower, s, steps[0]), steps[1..]))
  }

  ghost function Run(lower: Lower, s: State, steps: seq<Step>): State
    decreases |steps|
  {
    if steps == [] then s else Run(lower, Apply(lower, s, steps[0]), steps[1..])
  }

  /** No comment disappears or changes its place, and no plugin disappears. */
  ghost predicate ThreadsUntouched(s: State, t: State) {
    && s.plugins.Keys <= t.plugins.Keys && t.comments.Keys == s.comments.Keys
    && forall c :: c in s.comments ==>
      t.comments[c].pluginId == s.comments[c].pluginId && t.comments[c].parentId == s.comments[c].parentId
  }

  lemma UntouchedThreads(s: State, t: State)
    requires Threaded(s) && ThreadsUntouched(s, t)
    ensures Threaded(t)
  {
  }

  lemma OtherStepsKeepThreads(lower: Lower, s: State, step: Step)
    requires !step.AddComment? && !step.DeleteUser?
    ensures ThreadsUntouched(s, Apply(lower, s, step))
  {
  }

  lemma CutKeepsThreads(s: State, user: string, replacement: string)
    requires Threaded(s)
    ensures Threaded(WithoutUser(s, user, replacement))
  {
  }

  lemma DeleteUserKeepsThreads(lower: Lower, s: State, user: string, replacement: string)
    requires Threaded(s)
    ensures Threaded(DeleteUserSpec(lower, s, user, replacement))
  {
    hide Threaded, WithoutUser;
    var cut := WithoutUser(s, user, replacement);
    CutKeepsThreads(s, user, replacement);
    UntouchedThreads(cut, RecountAll(RefreshLikes(cut)));
  }

  lemma StepKeepsThreads(lower: Lower, s: State, step: Step)
    requires Threaded(s) && Issued(s) && Allowed(s, step)
    ensures Threaded(Apply(lower, s, step))
  {
    match step
    case AddComment(p, u, parent) => NextIdIsFresh(s);
    case DeleteUser(user, replacement) => DeleteUserKeepsThreads(lower, s, user, replacement);
    case _ =>
      OtherStepsKeepThreads(lower, s, step);
      UntouchedThreads(s, Apply(lower, s, step));
  }

  ghost predicate Sound(lower: Lower, s: State) {
    Counted(s) && Threaded(s) && IdentitiesDiffer(lower, s.plugins)
  }

  lemma {:induction false} RunKeepsSound(lower: Lower, s: State, steps: seq<Step>)
    requires Sound(lower, s) && Runs(lower, s, steps)
    ensures Sound(lower, Run(lower, s, steps))
    decreases |steps|
  {
    if steps != [] {
      StepKeepsCounters(lower, s, steps[0]);
      StepKeepsThreads(lower, s, steps[0]);
      StepKeepsIdentities(lower, s, steps[0]);
      ThreadedNeverMiscounts(lower, s, steps[0]);
      RunKeepsSound(lower, Apply(lower, s, steps[0]), steps[1..]);
    }
  }

  lemma ThreadedNeverMiscounts(lower: Lower, s: State, step: Step)
    requires Threaded(s) && FreshName(s, step)
    ensures !Miscounts(lower, s, step)
  {
  }

  function EmptyStore(users: set<string>): State {
    State(map[], map[], [], [], users, 1)
  }

  lemma EmptyStoreIsSound(lower: Lower, users: set<string>)
    ensures Sound(lower, EmptyStore(users))
  {
  }

  /** Counters, rows, threads and identities hold after every run of the operations, in any order, from the
      empty store. */
  lemma {:induction false} RunIsSound(lower: Lower, users: set<string>, steps: seq<Step>)
    requires Runs(lower, EmptyStore(users), steps)
    ensures Sound(lower, Run(lower, EmptyStore(users), steps))
  {
    EmptyStoreIsSound(lower, users);
    RunKeepsSound(lower, EmptyStore(users), steps);
  }

  // ----- the steps that the route's checks keep out, from the empty store -----

  lemma {:induction false} RunOneMore(lower: Lower, s: State, steps: seq<Step>, step: Step)
    ensures Run(lower, s, steps + [step]) == Apply(lower, Run(lower, s, steps), step)
    decreases |steps|
  {
    if steps == [] {
      assert [step][1..] == [];
    } else {
      assert (steps + [step])[1..] == steps[1..] + [step];
      RunOneMore(lower, Apply(lower, s, steps[0]), steps[1..], step);
    }
  }

  function Unchanged(): Lower {
    (s: string) => s
  }

  function Named(name: string): Payload {
    Payload(Some(name), name, name)
  }

  lemma SubmitNew(s: State, name: string)
    requires name !in s.plugins && name != "" && name[|name| - 1] != '/'
    requires forall id :: id in s.plugins ==>
      s.plugins[id].name == s.plugins[id].repo == id && id != "" && id[|id| - 1] != '/'
    ensures
      SubmitSpec(Unchanged(), s, User("u", ""), Named(name), name) ==
        s.(plugins := s.plugins[name := Plugin(name, name, "u", "", 0, 0)], next := s.next + 1)
  {
  }

  function SubmitStep(name: string): Step {
    Submit(User("u", ""), Named(name), name)
  }

  /** The steps lead from the empty store to a store with exact counters. */
  ghost predicate Reached(users: set<string>, steps: seq<Step>, t: State) {
    Run(Unchanged(), EmptyStore(users), steps) == t && Counted(t)
  }

  lemma ReachNext(users: set<string>, steps: seq<Step>, t: State, step: Step)
    requires Reached(users, steps, t) && FreshName(t, step) && !Miscounts(Unchanged(), t, step)
    ensures Reached(users, steps + [step], Apply(Unchanged(), t, step))
  {
    RunOneMore(Unchanged(), EmptyStore(users), steps, step);
    StepKeepsCounters(Unchanged(), t, step);
  }

  lemma ReachFirst(users: set<string>, step: Step)
    requires FreshName(EmptyStore(users), step) && !Miscounts(Unchanged(), EmptyStore(users), step)
    ensures Reached(users, [step], Apply(Unchanged(), EmptyStore(users), step))
  {
    EmptyStoreIsSound(Unchanged(), users);
    ReachNext(users, [], EmptyStore(users), step);
    assert [] + [step] == [step];
  }

  function Submitted(name: string): Plugin {
    Plugin(name, name, "u", "", 0, 0)
  }

  lemma OnePlugin(users: set<string>)
    ensures Reached(users, [SubmitStep("p")], State(map["p" := Submitted("p")], map[], [], [], users, 2))
  {
    SubmitNew(EmptyStore(users), "p");
    ReachFirst(users, SubmitStep("p"));
  }

  lemma TwoPlugins()
    ensures Reached({}, [SubmitStep("p")] + [SubmitStep("q")],
      State(map["p" := Submitted("p"), "q" := Submitted("q")], map[], [], [], {}, 3))
  {
    hide Reached;
    var s := State(map["p" := Submitted("p")], map[], [], [], {}, 2);
    OnePlugin({});
    SubmitNew(s, "q");
    ReachNext({}, [SubmitStep("p")], s, SubmitStep("q"));
  }

  /** Deleting a comment on plugin "p" that has a reply under plugin "q" leaves the count of "q" one too high. */
  lemma StrandedReplyMiscounts() returns (steps: seq<Step>, last: Step)
    ensures
      var t := Run(Unchanged(), EmptyStore({}), steps);
      Counted(t) && !CommentsAgree(Apply(Unchanged(), t, last))
    ensures last.DeleteComment?
  {
    hide Counted, AddCommentSpec, DeleteCommentSpec;
    var c := CommentId(3);
    var first, reply := AddComment("p", "u", None), AddComment("q", "u", Some(c));
    var s := State(map["p" := Submitted("p"), "q" := Submitted("q")], map[], [], [], {}, 3);
    var one, two := AddCommentSpec(s, "p", "u", None),
      AddCommentSpec(AddCommentSpec(s, "p", "u", None), "q", "u", Some(c));
    TwoPlugins();
    steps := [SubmitStep("p")] + [SubmitStep("q")];
    ReachNext({}, steps, s, first);
    ReachNext({}, steps + [first], one, reply);
    steps := steps + [first] + [reply];
    last := DeleteComment(c);
    StrandedAfter(s);
    DeleteCommentMiscounts(two, c);
  }

  lemma StrandedAfter(s: State)
    requires s == State(map["p" := Submitted("p"), "q" := Submitted("q")], map[], [], [], {}, 3)
    ensures
      var t := AddCommentSpec(AddCommentSpec(s, "p", "u", None), "q", "u", Some(CommentId(3)));
      CommentId(3) in t.comments && StrandedReply(t, CommentId(3), CommentId(4))
  {
    var one := AddCommentSpec(s, "p", "u", None);
    assert one.comments == map[CommentId(3) := Comment("p", "u", None, false, 0)] && one.next == 4;
    assert Issued(one);
    NextIdIsFresh(one);
    assert "p" != "q";
  }

  /** A comment on a plugin that does not exist yet is not counted once the plugin is submitted. */
  lemma OrphanMiscounts() returns (steps: seq<Step>, last: Step)
    ensures
      var t := Run(Unchanged(), EmptyStore({}), steps);
      Counted(t) && !CommentsAgree(Apply(Unchanged(), t, last))
    ensures last.Submit?
  {
    var first := AddComment("p", "u", None);
    steps, last := [first], SubmitStep("p");
    ReachFirst({}, first);
    var t := AddCommentSpec(EmptyStore({}), "p", "u", None);
    assert CommentId(1) in Undeleted(t.comments, "p");
    StepKeepsCounters(Unchanged(), t, last);
  }

  /** A user who likes a plugin and is merged into itself likes nothing afterwards. */
  lemma SelfMergeLosesLikes() returns (steps: seq<Step>, last: Step)
    ensures last == MergeUsers("u", "u")
    ensures
      var t := Run(Unchanged(), EmptyStore({"u"}), steps);
      && LikedBy(t.pluginLikes, "u") == {"p"}
      && LikedBy(Apply(Unchanged(), t, last).pluginLikes, "u") == {}
  {
    hide Counted;
    var like := LikePlugin("p", "u");
    steps, last := [SubmitStep("p")] + [like], MergeUsers("u", "u");
    var s := State(map["p" := Submitted("p")], map[], [], [], {"u"}, 2);
    OnePlugin({"u"});
    ReachNext({"u"}, [SubmitStep("p")], s, like);
    SelfMergeAfter(LikePluginSpec(s, "p", "u"));
  }

  lemma SelfMergeAfter(t: State)
    requires t.pluginLikes == [Like("p", "u")] && t.plugins.Keys == {"p"} && "u" in t.users
    ensures LikedBy(t.pluginLikes, "u") == {"p"}
    ensures LikedBy(MergeUserSpec(Unchanged(), t, "u", "u").pluginLikes, "u") == {}
  {
    LikedByMembers(t.pluginLikes);
    MergeMembers(t.pluginLikes, "u", "u", LikedBy(t.pluginLikes, "u"));
    LikedByMembers(MergeLikes(t.pluginLikes, "u", "u", LikedBy(t.pluginLikes, "u")));
    assert MayMoveOwner(Unchanged(), t.plugins, "u", "u");
  }
}
