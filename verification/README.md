# Review and market back end: a verified model

This project models the stateful core of the plugin market's API (`apps/api/app`) in Dafny and proves
what it keeps over every run. The in-memory classes of the source give the steps. A class of the
source that updates its fields is a `class` here, with methods that change the same collections in
the same order; each method is proved equal to a specification function on values, and the
properties are lemmas about those functions, over all inputs and all sequences of steps.

| file | part of the source | what it is about |
|---|---|---|
| `Policies.dfy`, `PolicyLaws.dfy`, `PolicyRuns.dfy` | `artifacts/advanced_repository.py` | review policies: a table beside an append-only event log and an outbox |
| `Dispatch.dfy`, `DispatchLaws.dfy`, `DispatchRuns.dfy` | `artifacts/advanced_repository.py` | a queue of runtime dispatches with leases, retries and one collection |
| `Comments.dfy`, `CommentLaws.dfy`, `CommentRuns.dfy` | `artifacts/comments.py`, `artifacts/advanced_repository.py` | review threads with optimistic versions and replayed requests |
| `Cdn.dfy`, `CdnLaws.dfy`, `CdnRuns.dfy` | `cdn.py` | CDN consent generations, leases and the publication gate |
| `Market.dfy`, `MarketLaws.dfy`, `MarketRuns.dfy` | `store.py` | like and comment counters and plugin identities, across merging and deleting users |
| `Archive.dfy`, `ArchiveAcceptance.dfy`, `ArchiveLaws.dfy`, `ArchiveWrapping.dfy`, `Paths.dfy`, `Utf8.dfy` | `artifacts/archive.py` | the archive check and the tree digest |
| `FileSelection.dfy`, `FileLaws.dfy`, `FileCoverage.dfy` | `artifacts/file_review.py` | the dependency closure and the choice of files to review |
| `Paging.dfy`, `PagingLaws.dfy` | `artifacts/content.py` | pages of a text file within a byte limit |
| `EnvFile.dfy`, `SettingsLaws.dfy` | `env_file.py` | reading and rewriting a settings file |
| `Migrations.dfy`, `MigrationLaws.dfy` | `schema_migrations.py` | SQL migrations under crashes |
| `RateLimit.dfy`, `RateLaws.dfy` | `main.py` | the fixed-window request limit |
| `Wrappers.dfy`, `Ordering.dfy`, `Sequences.dfy`, `Decimals.dfy`, `ColonKeys.dfy` | | results, Python's string order and sorting, lists up to order, decimal numbers, colon-separated keys |

The files named `...Laws` and `ArchiveAcceptance.dfy` (except `ArchiveLaws.dfy`, which is about whole archives) say when
each operation is accepted and what exactly it changes, on the fields of the entities and without the specification
functions of the model; the files named `...Runs` prove what the operations keep over whole runs.

`dafny verify dfyconfig.toml` checks everything.

## Where the code does less than it promises

Seven promises do not hold of the code on all inputs. For each there is the exact condition under
which it holds, an input on which it fails, and what today's callers make of such inputs.

- A policy's status is the replay of its log, except after superseding an active policy whose retire
  key (`<key>:retire:<id>`) a client has already used, or after filing a status-changing event from
  outside a transition (`PolicyRuns.StepKeepsTableIsLog`). `PolicyRuns.DerivedKeyDiverges` is a run
  from the empty repository whose last activation diverges. Clients that send no key of that form
  never get there (`PolicyRuns.PlainRunIsSound`), but the service does not stop them: the pattern for
  request identifiers (`policy_service.py:17`) allows colons.
- A collection that is refused changes nothing, except when its SBOM names another artifact or run
  while the run can take the result: the in-memory class writes the run first, so the result stays
  written, the dispatch stays uncollected by this call, and after any further steps no collection with
  a result is ever accepted (`DispatchRuns.RefusedCollection`; `DispatchRuns.RefusedButWritten` is a
  run that ends so). The only caller builds the SBOM from the dispatch itself
  (`runtime_dispatch.py:215-217`) and never sends such a collection.
- A repeated thread creation is recognised only while the body is the original one, because the code
  compares with the thread as it is now (`CommentRuns.RepeatedCreation`). Creating, editing and
  creating again ends in a conflict (`CommentRuns.EditedCreationConflicts`); no caller prevents it.
- Comment counters are exact after every step, except after deleting a comment that has a live reply
  under another plugin, or after creating a plugin under an identifier that live comments already
  carry (`MarketRuns.StepKeepsCounters`; `MarketRuns.StrandedReplyMiscounts` and
  `MarketRuns.OrphanMiscounts` are runs from the empty store). The checks of the route in `main.py`
  exclude both (`MarketRuns.RunIsSound`).
- After merging one user into another the target likes what either liked, unless a user with likes is
  merged into itself, which drops them (`MarketRuns.MergeUnitesLikes`,
  `MarketRuns.SelfMergeLosesLikes`). The only caller checks that the two users differ (`main.py:4878`).
- Wrapping an accepted root-level archive in a directory keeps it accepted, unless an entry's name
  comes to `.`: it then becomes a file with the directory's name, the wrapper is no longer recognised
  and the metadata is not found (`ArchiveWrapping.WrapperIsInvisible`). `ArchiveWrapping.DottedArchive`
  is such an archive, refused under every directory; uploads are not checked for such names before.
- Following the pages of a file delivers it exactly when every line fits into a response of its own;
  otherwise reading stops with an error, whatever page sizes are asked for (`Paging.PagingExact`,
  `Paging.LongLineIsNeverRead` for every limit). Nothing limits the length of a line before.

That a complete plan reads every reachable text file does hold, because file identifiers are the primary
key of their table (`FileCoverage.CompletePlanCovers`). For manifests with a repeated identifier, which
the database never holds, `FileCoverage.ReachableIsReadExactly` says when a reachable file is read and
`FileCoverage.RepeatedIdIsMissed` gives one where it is not.

## Model

| member | source | states |
|---|---|---|
| Policies.PolicyRepository.CreateReviewPolicy | apps/api/app/artifacts/advanced_repository.py:2353-2423 | Creation is refused, answered with the policy of that version, or inserts one row and at most one event; a second active default is never inserted. |
| Policies.PolicyRepository.AppendReviewPolicyEvent | apps/api/app/artifacts/advanced_repository.py:2640-2648 | A bare append adds one event per key; the same key for another policy or action is a conflict. |
| Policies.PolicyRepository.TransitionReviewPolicy | apps/api/app/artifacts/advanced_repository.py:2655-2791 | All or nothing: a refused transition leaves policies, events and outbox as they were, although the superseded row is changed before the target. |
| PolicyRuns.StepKeepsTableIsLog | apps/api/app/artifacts/advanced_repository.py:2716-2846 | A step keeps every status equal to the replay of the log if and only if it is not one of the diverging steps. |
| PolicyRuns.RunIsSound | apps/api/app/artifacts/advanced_repository.py:2655-2846 | After every run: statuses replay the log, at most one default policy is active, every active one that did not start active has a validation of its own hash, keys and versions are unique. |
| PolicyRuns.PlainRunIsSound | apps/api/app/artifacts/advanced_repository.py:2793-2846 | Clients that never send a key of the derived form, and creations that only log a creation, never make a run diverge. |
| PolicyRuns.RetireKeyInjective | apps/api/app/artifacts/advanced_repository.py:2793-2810 | A derived retire key determines the key and the policy it was made from. |
| PolicyRuns.DerivedKeyDiverges | apps/api/app/artifacts/advanced_repository.py:2793-2830 | A run from the empty repository of which every step but the last keeps table and log equal, and whose last step, an accepted activation, leaves the log calling a retired policy active. |
| PolicyRuns.RepeatedTransitionChangesNothing | apps/api/app/artifacts/advanced_repository.py:2668-2714 | Repeating an accepted transition after any further steps changes nothing and is answered with the policy. |
| PolicyRuns.CommitsOnlyAgainstNamedActive | apps/api/app/artifacts/advanced_repository.py:2716-2791 | Other than validation, a transition commits only if the active default is the one it named; afterwards the target of an activation or rollback is the only active default. |
| PolicyLaws.TransitionExactly | apps/api/app/artifacts/advanced_repository.py:2655-2846 | A transition is taken exactly if event and action agree, its key and the derived retire key are free, and the policy is known, of the expected hash, in a status the action allows and, except for validation, a default policy facing the named active default; then status, validation data, superseded policy, events and notice are as described, and otherwise nothing changes. |
| PolicyLaws.KnownCreationExactly | apps/api/app/artifacts/advanced_repository.py:2359-2386 | A creation of a known version is answered with that policy exactly if content hash, schema version and base agree and its key is not another event's. |
| PolicyLaws.NewCreationExactly | apps/api/app/artifacts/advanced_repository.py:2359-2423 | A creation of a new version inserts exactly one row with the fields it names, unless its key is used, its base unknown, or it would be a second active default. |
| PolicyLaws.RunKeepsActive | apps/api/app/artifacts/advanced_repository.py:2353-2846 | After every run that does not diverge at most one default policy is active, and every policy that became active has a successful validation of its own hash. |
| Dispatches.DispatchRepository.CreateRuntimeDispatch | apps/api/app/artifacts/advanced_repository.py:3238-3279 | One live dispatch per run: a matching one is returned, a differing one is a conflict. |
| Dispatches.DispatchRepository.ClaimRuntimeDispatches | apps/api/app/artifacts/advanced_repository.py:3285-3313 | Claims the oldest claimable dispatches, in order, as many as the limit allows, and changes no others. |
| Dispatches.DispatchRepository.RenewRuntimeDispatchLease | apps/api/app/artifacts/advanced_repository.py:3315-3332 | Renews exactly for the holder of the lease. |
| Dispatches.DispatchRepository.CompleteRuntimeDispatch | apps/api/app/artifacts/advanced_repository.py:3334-3364 | Completes exactly for the holder of the lease, and gives the lease up. |
| Dispatches.DispatchRepository.ExpireRuntimeDispatches | apps/api/app/artifacts/advanced_repository.py:3366-3390 | Times out the dispatches without attempts left whose lease ran out, longest overdue first. |
| Dispatches.DispatchRepository.CancelRuntimeDispatch | apps/api/app/artifacts/advanced_repository.py:3392-3414 | Cancels exactly what has not ended. |
| Dispatches.DispatchRepository.CollectRuntimeDispatch | apps/api/app/artifacts/advanced_repository.py:3416-3483 | Collects an ended dispatch once, writing its result into a run that is still open, and compares the artifact and run the SBOM names; what a refusal leaves behind is stated too. |
| Dispatches.FirstPartIsOldest | apps/api/app/artifacts/advanced_repository.py:3303-3304 | The first part of the sorted candidates is a set no older candidate is left out of. |
| DispatchRuns.RunIsSafe | apps/api/app/artifacts/advanced_repository.py:3238-3483 | Over every interleaving, each dispatch's attempts, lease, ending and collection are what its history says, runs have one live dispatch and are written at most once. |
| DispatchRuns.OnlyTheLatestClaimerActs | apps/api/app/artifacts/advanced_repository.py:3315-3364 | Whoever may renew or complete a dispatch is the runner that claimed it last. |
| DispatchRuns.ReclaimedOnlyAfterExpiry | apps/api/app/artifacts/advanced_repository.py:3293-3305 | A dispatch is claimed again only after the lease last given on it ran out. |
| DispatchRuns.EndedAndCollectedOnce | apps/api/app/artifacts/advanced_repository.py:3334-3483 | Each dispatch ends once and is then collected once; collections write each run's result at most once, even across a cancelled dispatch and its replacement. |
| DispatchRuns.NoTwoLiveDispatches | apps/api/app/artifacts/advanced_repository.py:3246-3253 | A run never has two dispatches that are not cancelled. |
| DispatchRuns.ProgressOrStuck | apps/api/app/artifacts/advanced_repository.py:3285-3390 | At any time an unfinished dispatch is claimable, under a live lease, expirable, or stuck, exactly one of the four; stuck exactly if created with no attempts left. |
| DispatchRuns.StepBound | apps/api/app/artifacts/advanced_repository.py:3285-3483 | For a dispatch created with fewer attempts used than max_attempts and none negative, no run holds more than max_attempts + 2 claims, endings and collections of it. |
| DispatchRuns.RefusedCollection | apps/api/app/artifacts/advanced_repository.py:3442-3480 | A refused collection changes something exactly when it could write the run; then the SBOM names another artifact or run, and after any further steps dispatch and run are still ended and no collection with a result is accepted. |
| DispatchRuns.RefusedButWritten | apps/api/app/artifacts/advanced_repository.py:3442-3480 | A run from the empty repository after which a refused collection leaves its result written. |
| DispatchLaws.CreationExactly | apps/api/app/artifacts/advanced_repository.py:3238-3279 | A dispatch is inserted exactly for a known runtime run of an artifact not yet approved that has no live dispatch, with the request's fields; a live one is returned for the same artifact and request hash and is a conflict for another. |
| DispatchLaws.ClaimTakesOldest | apps/api/app/artifacts/advanced_repository.py:3285-3313 | What a claim chooses may be claimed, is as many as the limit takes, and nothing claimable that is left out was queued earlier. |
| DispatchLaws.ClaimExactly | apps/api/app/artifacts/advanced_repository.py:3305-3313 | A claimed dispatch runs under the runner's lease with one more attempt; no other field and no other row changes. |
| DispatchLaws.LeaseholderExactly | apps/api/app/artifacts/advanced_repository.py:3315-3364 | Renewing and completing take effect exactly for the runner named in the lease of a running dispatch, and change just lease, status and error code of that row. |
| DispatchLaws.CollectionExactly | apps/api/app/artifacts/advanced_repository.py:3416-3483 | A collection that writes leaves in the dispatch's run the payload's status and result, every other field of it and every other run as they were; an accepted one marks just its own dispatch; and which collections are accepted, refused or answered with nothing. |
| DispatchLaws.WrittenRunHolds | apps/api/app/artifacts/advanced_repository.py:3416-3483 | Over every interleaving, a run a collection has written holds that collection's status and result until something from outside ends it again. |
| Comments.CommentRepository.CreateReviewComment | apps/api/app/artifacts/advanced_repository.py:3485-3556 | Opens one thread per client key with its creation event, recognises a repetition, refuses terminal artifacts. |
| Comments.CommentRepository.AppendReviewCommentEvent | apps/api/app/artifacts/advanced_repository.py:3558-3612 | Appends one event against the expected version and updates the row, or changes nothing. |
| Comments.CommentRepository.Mutate | apps/api/app/artifacts/comments.py:146-207 | Sends the event the actor's role allows, or refuses. |
| Comments.CommentRepository.LockReviewComments | apps/api/app/artifacts/advanced_repository.py:3680-3688 | Locks exactly the artifact's threads and counts those that were open. |
| CommentRuns.RunIsSound | apps/api/app/artifacts/advanced_repository.py:3485-3612 | In every reachable state a row is the fold of its events, its version is their number, versions run 0, 1, 2, ..., and every edit is by the reviewer, every resolve and reopen by an admin. |
| CommentRuns.RepeatedMutationChangesNothing | apps/api/app/artifacts/advanced_repository.py:3566-3573 | Repeating an accepted request later changes nothing. It is answered with the thread, even a locked one, if the actor is an admin and does not mark it addressed, or the artifact's submitter and owner are as they were. |
| CommentRuns.StandingRoleAsksTheSame | apps/api/app/artifacts/comments.py:308-335 | Under that condition the service asks for the same event as the first time. |
| CommentRuns.OneOfTwoIsAccepted | apps/api/app/artifacts/advanced_repository.py:3583-3612 | Of two requests with the same expected version at most one is ever accepted. |
| CommentRuns.LockedThreadIsFrozen | apps/api/app/artifacts/advanced_repository.py:3576-3582 | No step changes what a locked thread says, and it stays locked. |
| CommentRuns.RepeatedCreation | apps/api/app/artifacts/advanced_repository.py:3485-3509 | A repeated creation changes nothing; it is recognised if and only if the body is still the original. |
| CommentRuns.EditedCreationConflicts | apps/api/app/artifacts/advanced_repository.py:3497-3509 | From the empty repository: create, edit, and the same creation again is a key conflict. |
| CommentLaws.RoleExactly | apps/api/app/artifacts/comments.py:308-335 | Who may do what to a thread, and in which role. |
| CommentLaws.RequestExactly | apps/api/app/artifacts/comments.py:146-207 | The service sends its one event exactly for a thread of the artifact, an authorized actor and an acceptable body; each refusal says why. |
| CommentLaws.AppendExactly | apps/api/app/artifacts/advanced_repository.py:3574-3612 | An event under a new key is appended exactly to a thread that is not locked, of an artifact under review, at the expected version; then the row changes as the kind says, and nothing else does. |
| CommentLaws.ReplayExactly | apps/api/app/artifacts/advanced_repository.py:3566-3573 | An event under a used key changes nothing and is recognised exactly if it asks for what the first event of that key asked. |
| CommentLaws.OpeningExactly | apps/api/app/artifacts/advanced_repository.py:3485-3556 | A thread is opened under a new key exactly by an admin on a known file of an artifact under review, with its own fields and its creation event. |
| CommentLaws.RecognitionExactly | apps/api/app/artifacts/advanced_repository.py:3494-3509 | A creation under a used key changes nothing and is recognised exactly if the thread as it is now, and the metadata it was opened with, are those of the creation. |
| CommentLaws.RunKeepsThreads | apps/api/app/artifacts/advanced_repository.py:3485-3612 | In every reachable state a thread's version is the number of its events, the events' versions follow one another, and edits are the reviewer's, resolves and reopens an admin's. |
| Cdn.CdnSubscriptions.Configure | apps/api/app/cdn.py:96-165 | Sets consent if the proof names the plugin's repository in normal form, raises the generation exactly when consent or scope changes, and takes the row away from its leaseholder. |
| Cdn.CdnSubscriptions.QueueVersion | apps/api/app/cdn.py:210-252 | Queues the current version for a row whose consent is current, and takes away its lease. |
| Cdn.CdnSubscriptions.ClaimRows | apps/api/app/cdn.py:254-293 | Leases claimable rows only, and fewer than the limit only if there are no more; each claim is a copy of its row. |
| Cdn.CdnSubscriptions.FinishClaim | apps/api/app/cdn.py:295-328 | Takes effect only while the row still holds the claim's lease. |
| CdnRuns.RunIsFenced | apps/api/app/cdn.py:96-328 | Over every interleaving, a leased row holds what its claim copied, and the artifact of a submitted row is the one a finish brought for a claim with the row's current version, consent and authorization. |
| CdnRuns.FinishIsFenced | apps/api/app/cdn.py:295-328 | An effective finish finds generation, authorization and version unchanged and consent on; any other changes nothing. |
| CdnRuns.SupersededForever | apps/api/app/cdn.py:295-328 | A claim once finished or overtaken never takes effect again. |
| CdnRuns.FinishTakesEffectOnce | apps/api/app/cdn.py:295-328 | After a claim's finish, no later finish of that claim takes effect. |
| CdnRuns.StepCountsChange | apps/api/app/cdn.py:173-208 | A step raises the generation by one where consent differs before and after it, or is on in both under authorizations of different scope, and nowhere else. |
| CdnRuns.GenerationCountsChanges | apps/api/app/cdn.py:173-208 | Over a run the generation grows by the number of steps that changed consent or its scope. |
| CdnRuns.GateIsFreeOfAba | apps/api/app/cdn.py:35-48 | A captured payload passes the gate later if and only if consent is on then and no step in between flipped it or changed its scope. |
| CdnLaws.RefusedExactly | apps/api/app/cdn.py:166-190 | A request is refused exactly if its plugin is unknown, its actor has no identifier or is neither owner nor core admin, or it switches consent on while muted or without a proof whose repository normalises to the plugin's; each error says which. |
| CdnLaws.ConfigureExactly | apps/api/app/cdn.py:96-208 | An accepted request changes nothing if consent, scope, version and a review under way stand; else consent, generation and every field of the row are as described, and no other plugin or row changes. |
| CdnLaws.OnlyTheEntitledChangeConsent | apps/api/app/cdn.py:96-172 | If a step other than an edit changes a plugin's consent or generation, it is a configuration of that plugin by its owner or a core admin with an identifier, and switching on needs an unmuted actor and a matching proof. |
| CdnLaws.QueueExactly | apps/api/app/cdn.py:210-252 | A version is queued exactly for a plugin with current consent whose row is idle or asks for another version, and the row then is as described. |
| CdnLaws.ChoiceExactly | apps/api/app/cdn.py:254-293 | A claim takes rows that wait, are due, under no live lease and of the plugin's consent and generation: only these, at most the limit, all of them if fewer. |
| CdnLaws.FinishExactly | apps/api/app/cdn.py:295-328 | A finish takes effect exactly while the row runs under the claim's lease, and then writes the outcome into the row and nothing else. |
| Market.InMemoryMarketStore.CheckIdentity | apps/api/app/store.py:367-378 | Finds out whether any other plugin has the same repository, or the same name under a shared owner or login. |
| Market.InMemoryMarketStore.RegistrationIdentity | apps/api/app/store.py:340-365 | Which plugin a payload is about, under which identifier it is stored, and why it is refused. |
| Market.InMemoryMarketStore.SubmitPlugin | apps/api/app/store.py:383-446 | Creates or updates the user's plugin, keeping its counters, or changes nothing. |
| Market.InMemoryMarketStore.RegisterPlugin | apps/api/app/store.py:448-480 | Creates a plugin unless the user has it already. |
| Market.InMemoryMarketStore.UpdatePluginMetadata | apps/api/app/store.py:556-572 | Applies a patch, or changes nothing when it would clash. |
| Market.InMemoryMarketStore.AddComment | apps/api/app/store.py:581-603 | Adds a comment under a new identifier and recounts its plugin. |
| Market.InMemoryMarketStore.DeleteComment | apps/api/app/store.py:653-668 | Marks a comment and its direct replies deleted and recounts the comment's plugin. |
| Market.InMemoryMarketStore.DeleteUser | apps/api/app/store.py:704-757 | Moves the plugins, removes the user's comments and likes, detaches replies and recounts, or changes nothing. |
| Market.InMemoryMarketStore.MergeUserIntoUser | apps/api/app/store.py:773-811 | Moves plugins, comments and likes to the target and recounts likes, or changes nothing. |
| MarketRuns.CountIsLikers | apps/api/app/store.py:1064-1077 | With distinct rows, the count of rows is the number of people who like the target. |
| MarketRuns.UnlikeStepKeepsRows | apps/api/app/store.py:615-651 | The clamp at zero never bites: taking a like back lowers an exact counter by one. |
| MarketRuns.MergeMembers | apps/api/app/store.py:1045-1062 | Which rows the one-pass merge leaves, and that they stay distinct. |
| MarketRuns.MergeUnitesLikes | apps/api/app/store.py:1045-1062 | The target's likes are the union of both users' if and only if the users differ or there was nothing to lose; all other users keep theirs. |
| MarketRuns.SelfMergeLosesLikes | apps/api/app/store.py:773-811 | From the empty store: a user with one like merged into itself likes nothing. |
| MarketRuns.MergeCounts | apps/api/app/store.py:773-811 | A plugin's counter drops by one exactly where both users had liked it. |
| MarketRuns.DeleteCommentMiscounts | apps/api/app/store.py:653-668 | Deleting a comment leaves every plugin's comment counter exact if and only if no live reply sits under another plugin. |
| MarketRuns.StepKeepsCounters | apps/api/app/store.py:581-811 | Every step keeps like rows distinct and aimed at existing targets and like counters exact; comment counters stay exact if and only if the step is not in one of two families. |
| MarketRuns.StrandedReplyMiscounts | apps/api/app/store.py:653-668 | From the empty store: a reply under another plugin, and deleting its parent leaves a counter wrong. |
| MarketRuns.OrphanMiscounts | apps/api/app/store.py:581-603 | From the empty store: a comment on a plugin that does not exist, and submitting the plugin leaves its counter wrong. |
| MarketRuns.OwnerMoveRefusedExactly | apps/api/app/store.py:708-714 | Checking each moved plugin against the old owners is equivalent to the moved store having no clash. |
| MarketRuns.UpdateRefusedExactly | apps/api/app/store.py:556-572 | A patch is applied if and only if the patched store has no clash. |
| MarketRuns.SubmitRefusedExactly | apps/api/app/store.py:340-378 | A submission is refused exactly for another owner, another repository, or a clash in the resulting store. |
| MarketRuns.StepKeepsIdentities | apps/api/app/store.py:340-811 | No step of any kind makes two plugins share an identity. |
| MarketRuns.RunIsSound | apps/api/app/main.py:1499-1522 | Under the route's checks, counters, rows, threads and identities hold after every run from the empty store. |
| MarketLaws.DeletionExactly | apps/api/app/store.py:704-757 | In a store without clashes, a deletion happens exactly if the user is known and no moved plugin clashes. Then the comments left are those of others, replies to the user's are replies no more, the likes left are those of others on remaining targets, the user's plugins have the replacement as owner, and nothing else of anybody changes. |
| MarketLaws.MergeExactly | apps/api/app/store.py:773-811 | In a store without clashes or repeated like rows, a merge happens exactly if both users are known and no moved plugin clashes. Then owners, authors and likes move from the one user to the other and nowhere else. |
| MarketLaws.AdditionExactly | apps/api/app/store.py:581-603 | A comment is added under an unused identifier with its own fields; only its plugin's counter changes beside. |
| MarketLaws.StrikeExactly | apps/api/app/store.py:653-668 | Deleting a comment marks it and its direct replies as deleted, and nothing else. |
| MarketLaws.UnlikePluginExactly | apps/api/app/store.py:615-628 | Where rows and counters are exact, taking a like back removes exactly that row and lowers exactly that counter by one. |
| MarketLaws.ResubmissionExactly | apps/api/app/store.py:340-446 | Submitting for a known plugin is accepted exactly for its owner, the same repository up to case and trailing slashes, and an unshared identity; then name and repository change. Registering again changes nothing. |
| MarketLaws.NewPluginExactly | apps/api/app/store.py:340-480 | A new plugin is stored under its identifier with its owner and empty counters exactly if no other plugin shares its identity. |
| MarketLaws.RunIsExact | apps/api/app/main.py:1499-1522 | Said on the fields: after every run every counter is the number of likers or of live comments, like rows are distinct and aimed at what exists, and plugins share no identity. |
| Archive.Inspect | apps/api/app/artifacts/archive.py:115-217 | The loop's result is the error of the first faulty entry, or the conclusion about all of them. |
| Archive.TreeDigest | apps/api/app/artifacts/archive.py:366-373 | Hashes exactly the lines of the sorted members. |
| Paths.NormalizedParts | apps/api/app/artifacts/archive.py:252-261 | A normalised path is its own parts joined, none of them empty, "." or "..", or "." alone. |
| Paths.PartsOfPosix | apps/api/app/artifacts/archive.py:252-272 | Joining clean parts and splitting again gives them back. |
| Utf8.EncodeInjective | apps/api/app/artifacts/archive.py:366-373 | Different texts have different UTF-8 encodings. |
| Utf8.CodeExactly | apps/api/app/artifacts/archive.py:369-369 | A character's bytes are those of section 3 of RFC 3629. |
| ArchiveLaws.LoopAcceptsCleanRows | apps/api/app/artifacts/archive.py:131-196 | The one-pass loop with its running total and seen-sets accepts exactly what is clean as a whole: no faulty entry, distinct paths, distinct folded paths, total size within the limit. |
| ArchiveLaws.OrderDoesNotMatter | apps/api/app/artifacts/archive.py:115-217 | Reordering the entries of any archive changes neither its acceptance nor, when it is accepted, its result. |
| ArchiveLaws.AcceptedIsCanonical | apps/api/app/artifacts/archive.py:210-217 | An accepted archive's members are strictly sorted and writable, are its stripped paths with content hashes, and are what the tree hash is fed. |
| ArchiveLaws.TextDecodes | apps/api/app/artifacts/archive.py:366-373 | The path, NUL, 64-digit hash, newline encoding of a list can be read back. |
| ArchiveLaws.DigestIsCanonical | apps/api/app/artifacts/archive.py:366-373 | Two accepted archives feed the same bytes to the tree hash if and only if they hold the same set of (path, content hash) pairs. |
| ArchiveWrapping.WrapperKeepsVerdict | apps/api/app/artifacts/archive.py:252-279 | A root-level archive with valid names, none coming to ".", gets the same verdict under a top directory, error codes included, up to source names. |
| ArchiveWrapping.DotDefeatsWrapper | apps/api/app/artifacts/archive.py:252-279 | With an entry that comes to ".", the wrapped archive is refused. |
| ArchiveWrapping.WrapperIsInvisible | apps/api/app/artifacts/archive.py:115-279 | An accepted root-level archive stays accepted under a top directory if and only if no entry comes to ".", with the same metadata, digest and members up to source names. |
| ArchiveWrapping.DottedArchive | apps/api/app/artifacts/archive.py:252-279 | In every environment that leaves ASCII alone, for every metadata it accepts: an accepted root-level archive that is refused under every valid top directory. |
| ArchiveAcceptance.NormalizeExactly | apps/api/app/artifacts/archive.py:252-261 | A name is accepted exactly if it is not empty, has no NUL or backslash, and in normal form is relative, without ".." and without a drive letter; its path is its segments other than "." joined. |
| ArchiveAcceptance.AcceptedExactly | apps/api/app/artifacts/archive.py:115-217 | An archive is accepted exactly if its entry count, names, distinct and folded paths, total size, one metadata file with accepted content and main.py are in order and every file is plain, within the limits, without native suffix, readable at its size, no LFS pointer and well placed. |
| ArchiveAcceptance.ResultExactly | apps/api/app/artifacts/archive.py:131-217 | The result has one member per file, with the file's own path, name, hash, size and line count, and the metadata of the one metadata file. |
| ArchiveAcceptance.RefusalIsTrue | apps/api/app/artifacts/archive.py:115-217 | Every error code names a fault the archive has. |
| FileSelection.DependencyClosure | apps/api/app/artifacts/file_review.py:701-719 | The worklist ends with exactly the files some walk along the edges reaches from the entries. |
| FileSelection.Build | apps/api/app/artifacts/file_review.py:271-402 | The plan holds the candidates and skips of the manifest and the missing paths, sorted, for the reasons each path has. |
| FileSelection.LatestPackageResult | apps/api/app/artifacts/file_review.py:665-689 | The last successful package review under the policy decides. |
| FileSelection.LatestPackageDecides | apps/api/app/artifacts/file_review.py:665-689 | The succeeded package review under the policy with none after it decides: its suggestions and completeness if it is valid, otherwise nothing and incomplete. |
| FileSelection.NoPackageReview | apps/api/app/artifacts/file_review.py:665-689 | Without such a review nothing is suggested and the package input is incomplete. |
| FileCoverage.EveryFileLandsOnce | apps/api/app/artifacts/file_review.py:355-390 | The manifest splits into the files that become the candidates and the files that become the manifest skips, each file once, whatever their identifiers. |
| FileCoverage.CandidateByItsId | apps/api/app/artifacts/file_review.py:355-390 | With distinct identifiers a file is a candidate under its own identifier exactly when nothing skips it. |
| FileCoverage.CompleteExactly | apps/api/app/artifacts/file_review.py:107-120 | A plan is complete if and only if the graph and package inputs are, no required or suggested file is missing, all paths are safe and every selected text file can be read. |
| FileCoverage.ReasonsAreAsked | apps/api/app/artifacts/file_review.py:298-348 | A path collects a reason if and only if it is asked for: an identifier that stands for it is reachable, or it is required, changed, hit by an open deterministic finding of medium severity or worse, in the incremental impact, or suggested. |
| FileCoverage.CompletePlanReadsExactly | apps/api/app/artifacts/file_review.py:107-120 | A complete plan reads a text file, and has a candidate of its path at all, if and only if its path is asked for. |
| FileCoverage.ReachableIsReadExactly | apps/api/app/artifacts/file_review.py:107-120 | A complete plan reads a reachable text file if and only if its identifier still stands for its path, another reachable one does, or the path is asked for otherwise. |
| FileCoverage.CompletePlanCovers | apps/api/app/artifacts/file_review.py:107-120 | With distinct identifiers, a complete plan reads a text file if and only if a file of its path is reachable, or the path is required, changed, hit by an open deterministic finding of medium severity or worse, in the impact, or suggested. |
| FileCoverage.RepeatedIdIsMissed | apps/api/app/artifacts/file_review.py:291-301 | A manifest with one identifier twice whose plans are complete and leave the entrypoint out. |
| FileCoverage.CandidatesInOrder | apps/api/app/artifacts/file_review.py:391-391 | Candidates come by priority, then worst finding, then path. |
| FileCoverage.SkippedInOrder | apps/api/app/artifacts/file_review.py:399-399 | Skipped files come by path, then by the name of the reason. |
| FileLaws.ReasonExactly | apps/api/app/artifacts/file_review.py:285-348 | Each of the seven reasons is given to exactly the paths it is meant for. |
| FileLaws.FateExactly | apps/api/app/artifacts/file_review.py:355-390 | A file is skipped for the first that holds of: unsafe path, no text, not selected, too large, no content; and read otherwise. |
| FileLaws.PriorityExactly | apps/api/app/artifacts/file_review.py:733-746 | How urgent a set of reasons is. |
| FileLaws.GraphExactly | apps/api/app/artifacts/file_review.py:749-762 | The graph input is incomplete exactly if it is required and was not reported or misses a Python file. |
| FileLaws.SkippedByReason | apps/api/app/artifacts/file_review.py:399-399 | Skipped files of one path come in the alphabetical order of their reasons. |
| Paging.ReadFile | apps/api/app/artifacts/content.py:106-170 | A page is refused for a bad range, and otherwise is the bounded response for its lines. |
| Paging.BoundedFileResponse | apps/api/app/artifacts/content.py:639-687 | Binary search finds the longest prefix of lines whose response fits. |
| Paging.LongestIsLongest | apps/api/app/artifacts/content.py:670-687 | The chosen count fits and no larger one does. |
| Paging.OneMoreLineIsLonger | apps/api/app/artifacts/content.py:653-671 | The JSON size strictly grows with the number of lines, although "truncated" and "end_line" change width. |
| Paging.PartFitsAlone | apps/api/app/artifacts/content.py:653-671 | Every line of a page that fits also fits into a response of its own. |
| Paging.PageDelivers | apps/api/app/artifacts/content.py:639-687 | A page fails exactly when its first line does not fit alone, and otherwise delivers a run of lines from there. |
| Paging.PagingExact | apps/api/app/artifacts/content.py:148-170 | With any page sizes, following the pages ends and delivers exactly the file's lines if and only if every line fits alone. |
| Paging.LongLineIsNeverRead | apps/api/app/artifacts/content.py:672-687 | For every limit, a file of one line whose JSON string is longer is an error with any page sizes. |
| PagingLaws.PageExactly | apps/api/app/artifacts/content.py:106-170 | A page in range holds consecutive lines from its start with their numbers, as many as the line limit, the file and the byte limit allow and not one more would fit; it is refused exactly if not even one line (for an empty file, not even the empty page) fits. |
| PagingLaws.JsonExample | apps/api/app/artifacts/content.py:652-671 | The text of a response of two lines. |
| EnvFile.ReadEnvFile | apps/api/app/env_file.py:7-19 | Reads the parsed settings, a later line for a key replacing an earlier one. |
| EnvFile.WriteEnvFile | apps/api/app/env_file.py:22-31 | Writes the old settings updated with the new ones, keys in order. |
| EnvFile.UnquoteQuote | apps/api/app/env_file.py:34-46 | The two-pass unescape inverts the two-pass escape for every mix of backslashes and quotes. |
| EnvFile.ParsedIsClean | apps/api/app/env_file.py:7-19 | Whatever a file holds, its settings are ones that can be written back. |
| EnvFile.RoundTrip | apps/api/app/env_file.py:7-46 | Reading a written file gives the old settings updated with the new ones if and only if the new keys are clean and the new values are single lines. |
| SettingsLaws.LinesExactly | apps/api/app/env_file.py:13-13 | A text is its first line, a separator and the lines of the rest, CR LF counting as one separator. |
| SettingsLaws.LineExactly | apps/api/app/env_file.py:14-18 | A line says nothing exactly if it is blank, a comment or without "="; otherwise key and value stand before and behind the first "=". |
| SettingsLaws.LastLineWins | apps/api/app/env_file.py:12-19 | The setting of a key is the one on its last line. |
| SettingsLaws.QuoteExactly | apps/api/app/env_file.py:34-40 | A value is quoted exactly if it has white space, "#" or a quote, with a backslash before each backslash and double quote. |
| SettingsLaws.WrittenExactly | apps/api/app/env_file.py:22-31 | The written text is one line "key=value" per setting, by keys, each ended by a newline. |
| Migrations.Database.ApplySchemaMigrations | apps/api/app/schema_migrations.py:42-87 | A run commits the missing migrations one by one until it is cut off, or nothing when it is refused. |
| Migrations.CommitsArePrefix | apps/api/app/schema_migrations.py:58-86 | What commits is a prefix of the missing migrations, and exactly the rest stays missing. |
| Migrations.ExactlyOnceInOrder | apps/api/app/schema_migrations.py:42-87 | Over any sequence of cut-off runs every missing migration commits once, in strictly increasing version order. |
| Migrations.CompletedRunIsFinal | apps/api/app/schema_migrations.py:42-87 | A completed run has recorded the whole catalogue, and the next run applies nothing. |
| Migrations.RefusedRunCommitsNothing | apps/api/app/schema_migrations.py:90-104 | A run is refused exactly for duplicate versions or a changed checksum, before anything commits. |
| Migrations.EveryVersionCommitsAtMostOnce | apps/api/app/schema_migrations.py:42-87 | Even with a different catalogue for every run, no version commits twice and no recorded checksum changes. |
| MigrationLaws.RunExactly | apps/api/app/schema_migrations.py:42-104 | A run is refused, naming it, exactly for a duplicate version or a changed checksum; otherwise it commits migrations of the catalogue not recorded before, in version order, records just these with their checksums, and either reports them, nothing being left, or was cut off. |
| RateLimit.RateLimiter.Enforce | apps/api/app/main.py:2836-2857 | Counts a request in its window and accepts it while the count is within the limit. |
| RateLimit.RateLimiter.MemoryCount | apps/api/app/main.py:2874-2893 | Evicts, resets and increments, and returns the new count. |
| RateLimit.KeyFixesWindow | apps/api/app/main.py:2845-2848 | Requests of different windows never share a counter, whatever colons scope and user hold. |
| RateLimit.CountersAreExact | apps/api/app/main.py:2874-2893 | Neither eviction nor reset drops a live counter: every counter is the number of limited requests under its key. |
| RateLimit.AcceptedIffUnderLimit | apps/api/app/main.py:2836-2857 | A request is accepted if and only if at most its limit of requests, itself included, used its key. |
| RateLimit.WindowBound | apps/api/app/main.py:2836-2893 | At most rpm requests of a user and scope are accepted in an aligned window. |
| RateLimit.IntervalBound | apps/api/app/main.py:2836-2893 | At most 2 * rpm are accepted in any 60 seconds. |
| RateLaws.KeyIsTogether | apps/api/app/main.py:2845-2848 | Requests whose scopes and users hold no colon share a counter exactly if scope, user and minute agree. |
| RateLaws.AcceptedExactly | apps/api/app/main.py:2836-2893 | In a run of such requests on a clock that never goes back, a limited request is accepted exactly if at most rpm limited requests of its own scope, user and minute, itself included, have been made so far. |
| RateLaws.HandleExactly | apps/api/app/main.py:2874-2893 | A request goes on with its live counter or begins one to the end of the minute; above a thousand counters the other ones whose window is over are dropped, and no other counter changes. |
| RateLaws.BoundsHold | apps/api/app/main.py:2836-2893 | Counted over requests: a user always limited by at most rpm gets at most rpm accepted in a minute of the clock and at most 2 * rpm in any sixty seconds. |

## Left out

- Postgres and Redis twins of the stores, SQL text, locks and connection handling: an in-memory operation is one atomic step.
- HTTP routes, OAuth, mail and LLM calls, settings forms, storage and all front ends.
- SHA-256, Unicode NFC and case folding, JSON string quoting, YAML, PEP 440 versions, repository addresses, lower-casing: parameters of the model. The digest theorem needs 64 hash characters and an NFC that makes no NUL; the wrapper theorem needs an NFC that leaves slashes alone, and its example one that leaves ASCII alone; the acceptance theorems need a lower-casing that does not make a native suffix of the empty text.
- Time stamps are integers, and clocks are parameters; `updated_at`, `started_at` and similar columns are not kept.
- Identifiers drawn at random are assumed unused; a comment's running number in the market store is modelled.
- PolicyRuns.RunIsSound: callers pass no event identifier, which the code would use twice when a transition supersedes a policy; the policy service passes none.
- Dispatches.DispatchRepository.CreateRuntimeDispatch: the identifier of an inserted dispatch is taken to be new, though the code would overwrite a row of the same identifier.
- Dispatches.DispatchRepository.CompleteRuntimeDispatch: the validation of the completion payload is left out except that its status is terminal; result keys and digests are not kept.
- Dispatches.DispatchRepository.CollectRuntimeDispatch: replacing the run's findings and storing the SBOM's other fields are left out.
- DispatchRuns.RunIsSafe: other parts of the program that end runs (`complete_review_run`, `fail_open_review_runs`) are steps of the run theorem, taken to end a run with a terminal status.
- Comments.CommentRepository.CreateReviewComment: length limits and normalisation of bodies and keys, hunk ranges and source threads are left out; the anchor is one value.
- Comments.CommentRepository.Mutate: the same length limits and normalisation are left out.
- Cdn.CdnSubscriptions.ClaimRows: which of several claimable rows come first is left open, so the insertion order of rows is not modelled; every order is covered.
- CdnRuns.GateIsFreeOfAba: submitting a legacy plugin that has no consent field yet is left out as a step.
- Market.InMemoryMarketStore.SubmitPlugin: only the fields of identity and the counters are kept; submissions, versions, categories and status are left out. The order of plugins and comments in their lists is not modelled.
- Market.InMemoryMarketStore.RegisterPlugin: only the fields of identity and the counters are kept.
- Market.InMemoryMarketStore.UpdatePluginMetadata: only patches of the fields of identity are kept.
- Market.InMemoryMarketStore.DeleteUser: sessions, notifications, announcements, API keys and moderation marks are left out.
- Market.InMemoryMarketStore.MergeUserIntoUser: submissions, notifications, announcements, API keys and moderation marks are left out.
- Archive.Inspect: opening the ZIP file, and a member's language and media type, which depend on its path and text flag only, are left out; the compression ratio is compared by multiplying instead of dividing floats.
- FileSelection.Build: an unknown severity, which raises in the code, cannot be written down.
- Paging.ReadFile: resolving the file, its size and hash checks and decoding happen before; the response's head is one text.
- RateLaws.AcceptedExactly: scopes and users with colons are left to `RateLaws.KeyExactly`, since such users can share a key; the scopes in the code have none.
- RateLimit.RateLimiter.Enforce: the Redis counter; the model is the in-memory fallback.
- Category trimming, LLM budgets, advisory matching, history and notification listings, token redaction: easy members.
