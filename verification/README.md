# Lectern: verified models of its stateful protocols

Lectern is a document-sharing service. This project models the parts of it where correctness depends on many steps
together, and proves what those parts promise over all inputs, all runs and all failure points. Every module stands for
one component; methods follow the code's own loops and updates and are proved against functions or predicates, and
lemmas state what those functions mean.

| module | component |
|---|---|
| `Restore`, `RowSort` | replacing a whole object store from a backup, with a rollback journal; ordering self-referential rows |
| `Tus` | the resumable upload server (tus 1.0.0, Core Protocol and Termination extension) |
| `Challenges` | one-time login codes, magic links and password-reset links as atomic Redis scripts |
| `Sessions`, `Revocation`, `Accounts` | refresh rotation with replay detection, logout, and the revocation of token families over whole runs |
| `Authority` | administrative mutations under one lock, and credential generations |
| `Directories`, `ZipNames` | printing and resolving directory paths; naming the members of a download |
| `ReleaseEnv`, `ReleasePolicy`, `ReleaseText`, `ReleaseStages`, `ReleaseManifest` | the release file's parser and canonical printer, and the chain of stages that certifies a release |
| `Search` | scanning, mixing and paging of search results |
| `Annotations`, `Paging` | annotation threads and their keyset pagination |
| `Sanitizer` | the bounded JSON sanitizer |
| `Text`, `Ordering` | strings: numerals, splitting, joining, whitespace, order and sorting |

## How failures and time are modelled

Redis, the database and the object store are maps owned by classes. In `Restore` and `Tus` every awaited external call
consults a fault schedule, an arbitrary function from call numbers to outcomes: it works, it fails before taking effect,
or it fails after taking effect (`Tus` also knows a definitive refusal). A claim proved for all schedules therefore holds
for every crash point. Operations that hold a lock or run as one Redis script or one transaction are single steps;
`Challenges`, `Sessions` and `Authority` then prove their claims over every sequence of such steps, with keys expiring
at any moment. Times are real numbers on one clock.

## What does not hold as one might expect

Each of these is proved exactly, with the condition under which the expected property holds.

- A refresh token can have two successors when a request is delayed between its clock reading and its SET NX: at most
  one successor in every run if and only if the commands reach Redis at least one second before `exp`
  (`Sessions.OneWinnerIffTimely`, with the run in `Sessions.LateCommandWinsTwice`). Without such a delay the check on the
  remaining time is enough (`Sessions.InstantRunKeepsGuard`).
- A revoked token is accepted again exactly when its account is still of its generation and the token times out after the
  marker ends; a refresh token times out when less than a whole second is left (`Revocation.RevokedTokenNeverAccepted`). Three families of runs come to that. A guest account that came through
  a login route carries tokens with the configured, longer lifetime, but its revocation lasts one day
  (`Revocation.GuestLoginOutlivesRevocation`, `Sessions.RevocationOutlivesRoute`). An account that the offline seed turned
  into a guest keeps its generation and its longer tokens, and is from then on revoked for one day
  (`Revocation.SeedToGuestOutlivesRevocation`). A later revocation of the same family overwrites the marker, even with an
  earlier end, when the account that logs out is a guest (`Revocation.OnlyTheShortestRevocationCounts`). Without these a
  family's own revocation always holds (`Revocation.OwnFamilyStaysOutIff`).
- Sanitizing is not idempotent: U+2ADC is cleaned to U+2ADD followed by U+0338, which a second pass strips, so a sanitized
  object can even be refused (`Sanitizer.SanitizedCanBeRefused`, `Sanitizer.SanitizedPassesAgain`).
- A creation that fails leaves its multipart upload open exactly when the answer that would have told its id was lost, or
  the abort had no effect (`Tus.Upload.Create`).
- A DELETE that is refused, because the upload is applied or an open contribution uses it, has already flagged the upload:
  later HEAD and PATCH requests answer with a conflict (`Tus.Upload.Delete`, `Tus.Upload.Head`, `Tus.Upload.Patch`).
- A DELETE of an upload whose row has lost the digest of its shared content never succeeds (`Tus.Upload.Delete`).
- The offline seed command changes a role without starting a new credential generation; every other role change starts
  one (`Authority.RoleChangeStartsGeneration`).
- An upload whose completion stopped between the tombstone and the removal from the session set keeps its entry there:
  later calls return early. Everything else converges (`Tus.Upload.LeaveTombstone`, `Tus.Upload.Finalize`).
- Rows are sorted with parents first if and only if the only reference cycles are self-loops (`RowSort.TopologicalSort`).
- A material's path resolves to the material if and only if no sibling directory has its slug; directories win
  (`Directories.MaterialPathResolves`).
- A written release manifest is certified if and only if its three input files have the digests of their canonical
  texts; the stages run in order always provide that (`ReleaseManifest.WrittenIsCertifiedIffInputsAreCanonical`,
  `ReleaseManifest.CertifyRelease`).

## Assumptions

- Redis scripts, transactions and lock holders run without interruption; the job queue drops a repeated job id; copying
  a missing object fails without touching the destination; a multipart completion takes effect once.
- Tokens, reset digests, journal prefixes and row ids are fresh. The API and Redis share one clock.
- SHA-256, e-mail digests, JWT signatures, bcrypt, Unicode normalization and label folding are uninterpreted functions.
  `Sanitizer.SanitizedCanBeRefused` takes two values of normalization form C from the Unicode standard. Where the release
  stages need it, SHA-256 yields 64 lower-case hexadecimal digits and a printed JSON document reads
  back as itself (`Tools.Lawful`).

## Model

| member | source | states |
|---|---|---|
| `RowSort.TopologicalSort` | api/app/services/backup.py:408-428 | terminates on every table, cyclic ones included; returns every key once with its own row, the rows themselves when keys are distinct; parents come first if and only if the only reference cycles are self-loops |
| `RowSort.Sorter.Visit` | api/app/services/backup.py:414-424 | one visit keeps the depth-first state sound (visited = emitted keys plus the chain of open visits), marks its key, only appends, and terminates on the unvisited keys |
| `RowSort.Sorter.VisitAll` | api/app/services/backup.py:426-427 | after the loop every given row has been visited and no visit is open |
| `RowSort.BackReferenceIsSelfLoop` | api/app/services/backup.py:421-423 | when a parent is skipped because its own visit is still open, the row refers to itself, unless there is a longer cycle |
| `RowSort.OrderForbidsCycles` | api/app/services/backup.py:408-409 | any order that puts parents first rules out every longer cycle, so the sort's condition is exact |
| `Restore.Replacement.Capture` | api/app/services/backup.py:701-712 | copies every managed object into the journal without touching one; succeeds iff no call failed; after a single failure at most the copy whose answer was lost is left in the journal, and the managed objects are always still the original ones |
| `Restore.Replacement.CleanupJournal` | api/app/services/backup.py:657-668 | tries every journal key in turn, also after failures; succeeds iff no deletion failed, then none of those keys is left; managed objects stay as they are |
| `Restore.Replacement.CleanupSnapshot` | api/app/services/backup.py:670-675 | never changes a managed object, so a cleanup after a rollback keeps the original state; when it first succeeds nothing is left under the journal prefix |
| `Restore.Replacement.CopyBack` | api/app/services/backup.py:681-687 | tries every journal entry, also after failures, and succeeds iff the journal was complete and no call failed; then every existing object has its original bytes again, and every copy whose call worked is in place whatever else failed |
| `Restore.Replacement.RemoveNew` | api/app/services/backup.py:688-693 | deletes what was attempted and did not exist before, lost-success uploads included, going on after failures and without spoiling an object that was copied back |
| `Restore.Replacement.RollbackStorage` | api/app/services/backup.py:677-699 | a pass without a failing call restores exactly the original keys and bytes; a later pass keeps them; a failing pass keeps the journal complete or the originals in place |
| `Restore.Replacement.UploadOne` | api/app/services/backup.py:726-770 | one upload: the key is recorded as attempted before the call, so an upload that took effect and then raised is covered by the rollback |
| `Restore.Replacement.UploadAll` | api/app/services/backup.py:726-770 | succeeds iff no call failed, and then every archived object is in place |
| `Restore.Replacement.DeleteStale` | api/app/services/backup.py:772-773 | deletes exactly the managed keys the archive lacks and leaves the archived objects in place |
| `Restore.Replacement.Replace` | api/app/services/backup.py:722-779 | all or nothing: if every call works the managed objects are exactly the archive's; a single failing call is always followed by a rollback pass that gives exactly the original ones, journal cleaned; without that at least one more call failed, and the pass can be repeated |
| `Restore.Replacement.ReplaceOrUndo` | api/app/services/backup.py:722-779 | the same with the second pass that the rolled-back transaction runs: whatever is not undone then cost at least three failing calls |
| `Restore.ListManaged` | api/app/services/backup.py:642-648 | lists the managed keys of the store, each once |
| `Restore.RunRestore` | api/app/cli.py:68-117 | the whole restore: committed means database and storage both hold the backup; with at most one failing call it is never left unfinished, and an unfinished one with its journal intact cost three: the forward call and both rollback passes; a failure before COMMIT leaves or restores both; after an unanswered COMMIT storage and journal are both kept; nothing outside the managed prefixes and the one journal prefix changes |
| `Restore.RollbackKeysAreUnmanaged` | api/app/services/backup.py:650 | journal keys lie outside every managed prefix |
| `Restore.JournalKeysDiffer` | api/app/services/backup.py:650-651 | the numbered journal keys of distinct objects are distinct |
| `Tus.RecordChunk` | api/app/routers/tus.py:613-647 | recording a chunk keeps part numbers 1..n, the offset equal to the recorded bytes, the minimum part size and the finalizing flag in step, and appends exactly the chunk's bytes |
| `Tus.PartCountBound` | api/app/routers/tus.py:619-624 | in every well-recorded state at most (length-1)/chunk_min + 1 parts are recorded |
| `Tus.Upload.UploadPart` | api/app/routers/tus.py:626-634 | whatever an unrecorded earlier attempt stored under the next part number, after success the multipart upload holds the recorded bytes followed by this chunk |
| `Tus.Upload.RecordPart` | api/app/routers/tus.py:636-647 | offset, part list and finalizing flag change together or not at all |
| `Tus.Upload.ApplyChunk` | api/app/routers/tus.py:613-660 | a successful PATCH records exactly its body after the earlier bytes, a failed one completely or not at all; progress is reported only below the full length, so the chunk that reaches it is answered by a completed upload with its job enqueued |
| `Tus.Upload.Patch` | api/app/routers/tus.py:491-662 | without faults a live upload applies exactly the admissible requests, and one that reaches the full length is completed and its job enqueued; an inadmissible one changes nothing; in any state and for any fault schedule the invariant is kept, a final answer comes only with the job enqueued, and nothing happens once the upload is cancelled |
| `Tus.Upload.Head` | api/app/routers/tus.py:449-488 | reports the recorded offset, and progress only below the full length; at full length it finishes an interrupted completion, and without further faults it always reaches the settled state; missing, foreign and flagged uploads are refused in this order |
| `Tus.Upload.Delete` | api/app/routers/tus.py:747-796 | the cancelled flag is recorded first; only releases follow; success means everything the upload held is gone; a refusal releases nothing but leaves the flag |
| `Tus.Upload.CancelLifecycle` | api/app/routers/upload/cancellation.py:118-295 | refused, without any effect of its own, exactly for an applied upload and one that an open contribution uses; otherwise row, marker, cache, shared reference, multipart, object and thumbnail are released, and without a failing call all of them are, unless the row has lost the digest of a shared content |
| `Tus.Upload.LoadState` | api/app/routers/tus.py:799-824 | one call; missing, foreign and cancelled uploads are refused, in this order, before anything else happens |
| `Tus.Upload.EnsureActive` | api/app/routers/tus.py:110-134 | passes exactly when hash, marker and row show no cancellation, and refuses when that cannot be read |
| `Tus.Upload.CompleteMultipart` | api/app/core/storage/multipart_completion.py:159-163 | the multipart call takes effect wholly or not at all, exactly as the schedule says, also when its answer is lost; an error is ambiguous exactly when it can hide a success |
| `Tus.Upload.CompleteVerified` | api/app/core/storage/multipart_completion.py:140-199 | verified means the stored object has the declared size; over a recorded manifest the object is untouched or the concatenation of the recorded parts, and only a definitive refusal is fatal |
| `Tus.Upload.CleanupFailed` | api/app/routers/tus.py:137-162 | a refused completion ends with the hash gone or unchanged, never with new parts or jobs |
| `Tus.Upload.VerifyManifest` | api/app/routers/tus.py:193-228 | going on means the object is certified to be the concatenation of all recorded chunks; a definitive refusal whose clean-up meets no failure leaves no hash, no session entry, no multipart upload and no object |
| `Tus.Upload.EnqueueAndMark` | api/app/routers/tus.py:230-273 | the one job id is enqueued only for a certified object of full length, whatever step stops; the hash is on its way to the same settled value |
| `Tus.Upload.LeaveTombstone` | api/app/routers/tus.py:254-264 | the tombstone settles the hash; a stop right after it leaves the session-set entry behind |
| `Tus.Upload.Finalize` | api/app/routers/tus.py:165-273 | repeating from any crash point converges to the same hash, object and job; success looks for a cancellation again after every slow step, and survives exactly a completion whose answer was lost; the session-set entry is removed only by the call that leaves the tombstone |
| `Tus.Upload.Create` | api/app/routers/tus.py:383-446 | creation succeeds exactly without a failing call; after a failure the multipart upload stays open exactly when its answer was lost or the abort had no effect, for any number of failures; with a working clean-up hash and session entry are gone |
| `Tus.TusCreate` | api/app/routers/tus.py:317-446 | a refused request creates nothing; an admitted one starts in the invariant, with nothing recorded and no job, or is undone |
| `Tus.Upload.ReleaseShare` | api/app/routers/upload/cancellation.py:202-231 | the shared content's reference of this upload is released at most once over any number of attempts, and is gone after success, which needs its digest |
| `Tus.Reconcile` | api/app/routers/tus.py:165-273 | over a run: after any requests other than DELETE with any faults on a complete live upload, and anything workers and contributions do to it, one HEAD without a failing call settles the starting hash with the job enqueued, unless completion was refused definitively |
| `Tus.Step` | api/app/routers/tus.py:449-824 | every request or outside event keeps the invariant, and after a recorded DELETE adds no part, completion or job; a HEAD without a failing call is answered with the offset or the completed upload; a complete upload keeps settling to the same hash |
| `Tus.Run` | api/app/routers/tus.py:449-824 | the same over every sequence of requests, cancellations, expiries and worker steps under every fault schedule, one answer per request |
| `Challenges.Redis.StoreLoginChallenge` | api/app/services/auth.py:52-63 | the script supersedes the previous link of the email and binds code, link and generation together |
| `Challenges.Redis.VerifyCode` | api/app/services/auth.py:65-80 | succeeds exactly on the stored code; then code, generation and the paired link are all gone; reports the bound generation, or 0 when its key is gone |
| `Challenges.Redis.VerifyLink` | api/app/services/auth.py:82-101 | succeeds exactly on the current link of its email; a stale link is only deleted |
| `Challenges.Redis.StorePasswordReset` | api/app/services/auth.py:103-114 | supersedes the account's previous reset link |
| `Challenges.Redis.ConsumePasswordReset` | api/app/services/auth.py:116-130 | succeeds exactly on the account's current link with both values present; everything else deletes the link's values |
| `Challenges.StepKeepsInv` | api/app/services/auth.py:381-492 | every atomic step keeps: codes and link references belong to the latest challenge, which is unspent |
| `Challenges.RunIsSingleUse` | api/app/services/auth.py:440-492 | over every interleaving and any expiry, each issued challenge is redeemed at most once in total, by code or link, and reports its generation or 0 |
| `Challenges.FromNothing` | api/app/services/auth.py:440-492 | the same for every run from an empty store with fresh tokens |
| `Challenges.RedeemsWhatWasPresented` | api/app/services/auth.py:440-492 | a redemption uses up the very challenge whose code or token was presented |
| `Challenges.SupersededLinkNeverRedeems` | api/app/services/auth.py:470-492 | a link that is not its email's latest never redeems, whatever email the script was given |
| `Challenges.SupersededLinkStaysDead` | api/app/services/auth.py:470-492 | and it stays so in every continuation |
| `Challenges.ReadyRedeems` | api/app/services/auth.py:440-492 | while its email's keys hold a challenge, both its code and its link redeem exactly that challenge and report exactly its generation |
| `Challenges.IssuedChallengeRedeems` | api/app/services/auth.py:381-492 | after issuing and any run that neither issues nor redeems for that email and expires none of its keys, code and link redeem the challenge with its own generation |
| `Challenges.ResetStepKeepsInv` | api/app/services/auth.py:311-367 | every step of the reset scripts keeps the account reference on the latest, unused link |
| `Challenges.ResetRunIsSingleUse` | api/app/services/auth.py:334-367 | over every run each reset link is used at most once |
| `Challenges.ResetReportsItsBinding` | api/app/services/auth.py:334-367 | a consumed reset link reports the email and generation it was issued for, and was the account's latest |
| `Challenges.IssuedResetCanBeUsed` | api/app/services/auth.py:311-367 | an issued reset link can be used, with its own email and generation, after any run that leaves its account's keys alone |
| `Sessions.RemainingBounds` | api/app/routers/auth.py:689-691 | the truncated time to live is positive exactly up to one second before exp, and its marker then ends less than one second before exp |
| `Sessions.InstantRunKeepsGuard` | api/app/routers/auth.py:689-702 | when clock reading and SET NX coincide, every run of refreshes and logouts exchanges a token at most once, also after its marker expired |
| `Sessions.TimelyRunKeepsGuard` | api/app/routers/auth.py:689-702 | with delayed commands the same holds while they arrive at least a second before exp |
| `Sessions.OneWinnerIffTimely` | api/app/services/auth.py:671-685 | exactly that deadline: at most one successor in all runs if and only if the commands arrive by exp - 1 |
| `Sessions.LateCommandWinsTwice` | api/app/services/auth.py:671-685 | the concrete run with two successors when a command may arrive later |
| `Sessions.RevocationOutlivesRoute` | api/app/routers/auth.py:144-150 | a revocation lasts as long as every token of the family, except for a guest account that came through a login route with a longer configured lifetime |
| `Sessions.RefreshTokenLastsLongest` | api/app/services/auth.py:641-663 | of the tokens minted together the refresh token outlasts the others by the difference of the configured lifetimes; a guest session's tokens all end after one day |
| `Sessions.MintedIsValidInItsPlace` | api/app/dependencies/auth.py:27-61 | a minted token validates exactly in the place of its kind, for a live account of its generation that is not pending |
| `Sessions.MarkedIsRefused` | api/app/dependencies/auth.py:37-44 | a blacklisted id or a revoked family refuses a token while the marker lasts, and without one the markers make no difference |
| `Revocation.RevokedTokenNeverAccepted` | api/app/routers/auth.py:144-150 | over every continuation in which the revocation stays the family's last: an access, browser or refresh token is never accepted again in its place, nor even recognized, if and only if its account is gone or has a new generation, or the token times out no later than the marker ends |
| `Revocation.OnlyTheShortestRevocationCounts` | api/app/services/auth.py:693-695 | over every continuation: the same with the shortest time any revocation lasts, because a later one overwrites the marker |
| `Revocation.OwnFamilyStaysOutIff` | api/app/routers/auth.py:697-702 | minting, any run, a revocation by the account itself, any run without the offline seed and with further such revocations: never recognized again, pending accounts and refresh tokens included, on every mint route if and only if it is not a long guest login |
| `Revocation.GuestLoginOutlivesRevocation` | api/app/routers/auth.py:144-150 | a guest account that came through a login route is accepted again one day after its revocation |
| `Revocation.SeedToGuestOutlivesRevocation` | api/app/cli.py:164-167 | so is an account that the offline seed turned into a guest, since its generation stays |
| `Revocation.RunKeepsSound` | api/app/services/auth.py:857-869 | over every run no minted token is ahead of its account's generation |
| `Revocation.BlacklistingOnlyRefuses` | api/app/dependencies/auth.py:37-39 | an access or browser token accepted with a blacklist is accepted without one |
| `Authority.RevivalStartsGeneration` | api/app/services/auth.py:1014-1018 | a deleted account becomes live again only with a new generation |
| `Sessions.SessionStore.RefreshToken` | api/app/routers/auth.py:654-737 | refused exactly when the token does not validate or has no whole second left, and then no marker changes; otherwise replayed exactly when the marker exists, which revokes the family; a rotation is one winning exchange, mints the three successors in the same family, and from then on neither the rotated token nor the presented browser-read cookie validates for any user |
| `Sessions.SessionStore.Logout` | api/app/routers/auth.py:754-790 | exactly the families named by the presented tokens are revoked, and every presented token with a second left is blacklisted |
| `Sessions.SessionStore.BlacklistToken` | api/app/routers/auth.py:111-130 | an unexpired token of the expected kind is blacklisted for its truncated remaining time, anything else changes nothing |
| `Authority.NextKeepsInv` | api/app/services/auth.py:892-983 | every transaction keeps: once bootstrapped a live administrator exists, ids are never reused, emails are unique |
| `Authority.AdminAlwaysExists` | api/app/services/auth.py:942-983 | over every interleaving of setup, single and bulk changes, deletions, seed and recovery a live administrator exists once bootstrapped |
| `Authority.OnlyCurrentAdminsCommit` | api/app/services/auth.py:892-939 | an administrative mutation changes anything only while its actor is a live administrator of the admitted generation |
| `Authority.CommittedIsAchieved` | api/app/services/auth.py:776-1026 | every transaction that goes through has brought about what it was asked for: the role, the approval, the removal, the recovered or new administrator, the new password |
| `Authority.OthersAreUntouched` | api/app/services/auth.py:892-983 | and every row it is not about, by id or by email, stays as it is |
| `Authority.OnlyResetsTouchPasswords` | api/app/services/auth.py:776-789 | no other transaction changes a password, and none an email |
| `Authority.RefusedOnlyForTheLastAdmin` | api/app/services/auth.py:942-983 | a current administrator's deletion of a live account, or change of its role to one that may be granted, is refused exactly when it would remove the last administrator, itself |
| `Authority.PendingCanBeDecided` | api/app/routers/admin.py:165-220 | a current administrator can approve or reject a live account exactly while it is pending |
| `Authority.NobodyBecomesPending` | api/app/routers/admin.py:111-143 | an account that is not pending becomes so only through the offline seed |
| `Authority.LoginFindsOrCreates` | api/app/services/auth.py:612-633 | a login finds the live account or creates one, and fails only while a deleted row has the email |
| `Authority.RemovalsGoThrough` | api/app/services/auth.py:942-983 | an account can delete itself unless it is the last administrator, and exactly deleted rows can be purged |
| `Authority.RecoveryCannotBeRefused` | api/app/services/auth.py:986-1026 | the offline recovery always goes through, and so does a reset bound to the live account's current generation |
| `Authority.BulkOfOneIsSingle` | api/app/routers/admin_operations.py:199-247 | a bulk action on one other account is the single request |
| `Authority.GenerationNeverFalls` | api/app/services/auth.py:776-789 | no transaction lowers the credential generation of a surviving account |
| `Authority.RoleChangeStartsGeneration` | api/app/routers/admin.py:139-141 | a change of role starts exactly one new generation, in every operation except the offline seed |
| `Authority.RecoveryStartsGeneration` | api/app/services/auth.py:986-1026 | a recovery or password reset that goes through starts a new generation |
| `Authority.RemovedForGood` | api/app/services/user.py:486-532 | a removed account never comes back under its id |
| `Authority.GenerationIsMonotone` | api/app/services/auth.py:776-789 | over every run the generation of a surviving account never falls |
| `Authority.OldCredentialsNeverAccepted` | api/app/services/auth.py:857-869 | after a new generation no token, login challenge or reset link of an earlier one is accepted again, in any continuation |
| `Authority.UserTable.LockAdminAuthority` | api/app/services/auth.py:892-939 | passes exactly for a live administrator of the admitted generation, and loads the live target |
| `Authority.UserTable.EnsureRemovalSafe` | api/app/services/auth.py:942-983 | passes exactly when another live administrator would remain or the row is no live administrator |
| `Authority.UserTable.AdminUpdateRole` | api/app/routers/admin.py:111-143 | the route is the transaction of the state machine, error cases included |
| `Authority.UserTable.AdminApprove` | api/app/routers/admin.py:165-194 | the same for approval |
| `Authority.UserTable.AdminReject` | api/app/routers/admin.py:198-220 | the same for rejection |
| `Authority.UserTable.SetupFirstAdmin` | api/app/routers/auth.py:629-650 | the same for the first setup |
| `Authority.UserTable.AdminDelete` | api/app/routers/admin.py:147-161 | the same for deletion |
| `Authority.UserTable.RecoverAdmin` | api/app/services/auth.py:986-1026 | the same for the offline recovery, deleted rows included |
| `Authority.UserTable.SeedUser` | api/app/cli.py:141-178 | the same for the offline seed |
| `Authority.UserTable.ConfirmPasswordReset` | api/app/services/auth.py:776-789 | the same for a password reset bound to a generation |
| `Authority.UserTable.BulkOne` | api/app/routers/admin_operations.py:214-245 | inside the loop the final-administrator conflict is unreachable, because the actor is another live administrator |
| `Authority.UserTable.BulkTurn` | api/app/routers/admin_operations.py:199-247 | one turn refuses, skips or applies exactly as the rows say |
| `Authority.UserTable.AdminBulkUsers` | api/app/routers/admin_operations.py:185-255 | updated and skipped together are the de-duplicated ids, updated are exactly those the action applies to in the starting state, and the final rows are the simultaneous change |
| `Authority.DedupedFacts` | api/app/routers/admin_operations.py:46-47 | de-duplication keeps each id once |
| `Authority.BulkOneMore` | api/app/routers/admin_operations.py:199-247 | applying the action to one more id changes that row alone, so the loop equals the simultaneous change |
| `Directories.BreadcrumbPaths` | api/app/services/directory.py:555-604 | from the rows of the recursive query the batched form gives every requested directory that exists the chain of the single form, and no others |
| `Directories.DirectoryPaths` | api/app/services/directory.py:160-200 | the batched paths are the single paths, for exactly the requested directories that exist |
| `Directories.ResolveBrowsePath` | api/app/services/directory.py:607-713 | the one-query walk equals the segment-by-segment lookup in the whole tree, errors included |
| `Directories.DirectoryPath` | api/app/services/directory.py:520-552 | the rows of the recursive query for one directory, the deepest first, are its chain from the root down; nothing for a missing directory |
| `Directories.LevelIsUp` | api/app/services/directory.py:166-190 | the n-th step of the recursive query gives exactly the directories n steps up |
| `Directories.OfStartIsChain` | api/app/services/directory.py:193-200 | among the rows of any request, those of one start are its chain, in order |
| `Directories.DirectoryPathResolves` | api/app/services/directory.py:520-552 | resolving a directory's printed path returns that directory |
| `Directories.MaterialPathResolves` | api/app/services/directory.py:641-668 | resolving a material's path returns it if and only if no sibling directory has its slug |
| `Directories.AnswerExplainsPath` | api/app/services/directory.py:607-668 | the converse: a listing answers only the directory's own chain of slugs, a material only its directory's chain and its slug where no directory has it, and a missing segment only where the walk has nothing to go on to |
| `Directories.SegmentsMeaning` | api/app/services/directory.py:610 | slashes separate and nothing else: doubled, leading and trailing ones make no difference |
| `Directories.LookupChain` | api/app/services/directory.py:644-653 | looking up a directory's chain leads to it, whatever follows |
| `Directories.GroupRows` | api/app/services/directory.py:587-604 | the dictionary holds each start's rows, in their order |
| `ZipNames.NameAll` | api/app/services/directory.py:906-930 | one entry per wanted member in order, each under the first free candidate of its own name; fails exactly when a wanted name is refused |
| `ZipNames.BuildZipEntries` | api/app/services/directory.py:813-932 | the limits and the validator decide; on success the names are pairwise distinct |
| `ZipNames.Namer.AddEntry` | api/app/services/directory.py:909-919 | terminates, takes the first free candidate, and what it emits still passes the validator |
| `ZipNames.CandidateIsValid` | api/app/services/directory.py:792-806 | every numbered candidate of a valid name is valid, although only the name as asked for is checked |
| `ZipNames.ValidIffItStaysInside` | api/app/services/directory.py:792-809 | the validator accepts exactly the names without NUL, backslash and drive prefix of which every component has a character other than dots and spaces |
| `ZipNames.MaterialLiesInItsFolder` | api/app/services/directory.py:920-923 | a material's member lies directly in its folder under its own file name |
| `ZipNames.AttachmentLiesBesideItsParent` | api/app/services/directory.py:925-930 | an attachment's member lies in a folder beside its parent file, named like it up to the last dot |
| `ZipNames.TotalSizeOfBoth` | api/app/services/directory.py:899 | the total counts every row's size once, wherever the row stands |
| `ZipNames.CandidatesDiffer` | api/app/services/directory.py:913-917 | candidates with different numbers differ, so the loop makes progress |
| `ZipNames.NamedEntriesAreDistinct` | api/app/services/directory.py:912-919 | first-free naming gives pairwise distinct names |
| `ReleaseEnv.ParseEnvFile` | scripts/release_manifest_lib.py:124-162 | the parser's loop, with the number and reason of the first bad line |
| `ReleaseEnv.ReadingGivesTheMeaning` | scripts/release_manifest_lib.py:124-162 | reading succeeds exactly when every significant line is an assignment and no variable is assigned twice, and then gives exactly the assigned values |
| `ReleaseEnv.OrderMakesNoDifference` | scripts/release_manifest_lib.py:124-162 | line order, comments and blank lines make no difference |
| `ReleaseEnv.FirstErrorIsReported` | scripts/release_manifest_lib.py:130-161 | a refused line is reported with the first of the nine checks it fails, and an assignment fails none |
| `ReleasePolicy.ParsedProfiles` | scripts/release_manifest_lib.py:243-257 | accepted profile lists are exactly the comma-separated arrangements of a sorted, duplicate-free list of known profiles, and parse to it |
| `ReleasePolicy.ProfileOrderMakesNoDifference` | scripts/release_manifest_lib.py:243-257 | the order of the listed profiles makes no difference, accepted or refused |
| `ReleasePolicy.CollectImages` | scripts/release_manifest_lib.py:290-301 | the loop separates the required variables into mismatches and images |
| `ReleasePolicy.ValidateReleaseValues` | scripts/release_manifest_lib.py:260-301 | the whole check, with its reason for refusing |
| `ReleasePolicy.ValidatedValues` | scripts/release_manifest_lib.py:260-301 | values are accepted as a release exactly when they are that sound release's own values, so the key set is determined by the profiles |
| `ReleaseText.PrintThenRead` | scripts/release_manifest_lib.py:304-312 | reading a printed text gives the printed values back |
| `ReleaseText.AssignmentMeaning` | scripts/release_manifest_lib.py:130-161 | a line assigns a value exactly when it is a supported name not assigned before, an equals sign and that value, without space or quotes around it, and empty only for the profiles |
| `ReleaseText.PrintedReleaseReads` | scripts/release_manifest_lib.py:304-312 | the canonical text of a sound release reads back as exactly its values |
| `ReleaseText.PrintedReleaseMeansItself` | scripts/release_manifest_lib.py:304-312 | printing, parsing and validating a release is the identity |
| `ReleaseText.SameTextIffSameRelease` | scripts/release_manifest_lib.py:304-312 | two releases have the same canonical text exactly when they are equal |
| `ReleaseText.LineOrderMakesNoDifference` | scripts/release_manifest_lib.py:124-162 | files with the same significant lines mean the same release, or are both refused |
| `ReleaseText.ListingOrderMakesNoDifference` | scripts/release_manifest_lib.py:243-257 | so do files that list their profiles in different orders |
| `ReleaseText.ReadRelease` | scripts/sanitize-production-images.py:25-28 | the common start of the scripts: parse, then validate |
| `ReleaseText.Sanitize` | scripts/sanitize-production-images.py:17-32 | succeeds exactly on accepted files; its output is canonical and means the same release |
| `Ordering.SortedIffSameItems` | scripts/release_manifest_lib.py:251 | sorting forgets the order of its input and nothing else |
| `ReleaseStages.ReferenceEndsInItsDigest` | scripts/release_manifest_lib.py:315-366 | the reference made from a checked value names its repository and yields its digest |
| `ReleaseStages.Platforms` | scripts/inspect-production-images.py:56-82 | the sorted list of the distinct normalized platforms |
| `ReleaseStages.PlatformParts` | scripts/inspect-production-images.py:56-82 | a platform's name has its parts: attestations of unknown platform have none, and arm64 in its variant v8 is plain arm64 |
| `ReleaseStages.DigestOfMeaning` | scripts/release_manifest_lib.py:359-366 | exactly the references that end in an @ and a digest name a digest |
| `ReleaseStages.InspectOne` | scripts/inspect-production-images.py:107-136 | succeeds exactly when the registry holds the digest, and for own images the commit tag with the same digest and both platforms; the record says what the registry holds |
| `ReleaseStages.Inspect` | scripts/inspect-production-images.py:96-148 | succeeds exactly when every image resolves, and its payload passes the inspection check |
| `ReleaseStages.RecordedFits` | scripts/release_manifest_lib.py:385-415 | a record of what the registry holds passes the inspection check |
| `ReleaseStages.InspectionsMeaning` | scripts/release_manifest_lib.py:369-415 | the inspection payloads accepted for a release hold one record for each of its images and nothing else, each naming the image's own digest, and for own images the commit tag and both platforms |
| `ReleaseStages.ServiceMeaning` | scripts/release_manifest_lib.py:325-356 | a service is expected exactly when its switch variable is present, on the image behind it |
| `ReleaseStages.FewerImagesFewerServices` | scripts/release_manifest_lib.py:325-356 | with fewer images exactly the services whose switch is gone disappear |
| `ReleaseStages.ServicesRunExactlyTheImages` | scripts/release_manifest_lib.py:321-356 | the expected services run all images of a release and no others |
| `ReleaseStages.ProfilesBringTheirServices` | scripts/release_manifest_lib.py:321-356 | a release has the image of a profile, and runs its services, exactly when it enables the profile |
| `ReleaseStages.CollectServices` | scripts/validate-production-compose.py:38-48 | the image-bearing services, or failure exactly on a malformed one |
| `ReleaseStages.CertifyServices` | scripts/validate-production-compose.py:28-85 | certifies a configuration exactly when its image-bearing services are the expected ones, bound to the release input |
| `ReleaseManifest.WriteManifest` | scripts/write-production-release-manifest.py:41-100 | writes exactly when all inputs pass, and what it assembles |
| `ReleaseManifest.NamedIsSound` | scripts/release_manifest_lib.py:456-484 | the identity checks of the manifest accept exactly the sound releases, by commit, profiles and images |
| `ReleaseManifest.WrittenIsCertifiedIffInputsAreCanonical` | scripts/release_manifest_lib.py:447-564 | a written manifest is certified by the same checkout if and only if its three input files have the digests of their canonical texts |
| `ReleaseManifest.CertifiedIffWrittenHere` | scripts/release_manifest_lib.py:447-564 | a manifest is certified by a checkout if and only if it is what the writing stage assembles in this very checkout, from the canonical texts of some sound release, its inspections and its services |
| `ReleaseManifest.CertifiedVouches` | scripts/release_manifest_lib.py:447-564 | a certified manifest names every image by its own digest, runs the tested infrastructure images, and carries the digests of the checkout's own Compose files |
| `ReleaseManifest.CertifyRelease` | scripts/write-production-release-manifest.py:41-100 | the stages run one after the other write a manifest exactly when every input passes, and it is always certified and names the release of the original file |
| `ReleaseManifest.PartIsSound` | scripts/materialize-production-deployment.py:43-58 | any selection of a release's profiles, with the images it calls for, is a sound release |
| `ReleaseManifest.Materialize` | scripts/materialize-production-deployment.py:32-75 | succeeds exactly for a certified manifest and certified profiles; the derived text parses and validates as exactly that part of the release |
| `Search.Scan` | api/app/services/search.py:201-261 | collects exactly the live hits among the first 1000 of each searched index, in ranking order |
| `Search.FoundIffLive` | api/app/services/search.py:76-83 | what a batch contributes are exactly its hits with a live id, with their labels and scores |
| `Search.PromotionMovesOne` | api/app/services/search.py:122-139 | promotion moves at most one hit to the front, keeps the order of the others, and puts an exact match first when there is one |
| `Search.Mix` | api/app/services/search.py:108-171 | the loop over two indices and a turn is the recursive taking of turns |
| `Search.TurnsKeepBothLists` | api/app/services/search.py:152-171 | mixing keeps each kind whole and in its own order |
| `Search.TurnsAreFair` | api/app/services/search.py:152-171 | every prefix of length n holds at least half of n of each kind, or all there is, and one more for the starting kind |
| `Search.ExactMatchComesFirst` | api/app/services/search.py:142-147 | when some hit is labelled as the query, such a hit comes first |
| `Search.BetterScoreComesFirst` | api/app/services/search.py:142-147 | when neither or each kind has an exact match, the kind with the better top score comes first, directories on a tie |
| `Search.PagesConcatenate` | api/app/services/search.py:337 | the first pages together are a prefix of the whole list |
| `Search.EnoughPagesShowAll` | api/app/services/search.py:337 | and enough of them are the whole list |
| `Search.ShownIsFairAndOrdered` | api/app/services/search.py:335-337 | what a user sees over any number of pages keeps each kind's order and fair share |
| `Search.PerformSearch` | api/app/services/search.py:264-337 | a page and the total are cut from the one complete ranking |
| `Annotations.Store.Create` | api/app/services/annotation.py:150-201 | the three refusals, and otherwise exactly one new row: a root names itself, a reply its target's thread; every thread id names a root of the same material |
| `Annotations.Store.Delete` | api/app/services/annotation.py:264-296 | allowed to the author or a moderator; a root takes exactly its thread with it and nothing else changes, a reply only itself |
| `Annotations.RootRemovalIsExact` | api/app/services/annotation.py:283-294 | bulk delete, detaching and deleting the root, with the database's cascades, removes exactly the thread |
| `Annotations.ReplyRemovalIsExact` | api/app/services/annotation.py:293-294 | deleting a reply removes that row and clears references to it |
| `Annotations.Store.List` | api/app/services/annotation.py:61-147 | the page, the next cursor, the total, and for each root its whole conversation, oldest first; only roots of the asked material and page are shown |
| `Annotations.FiltersNarrow` | api/app/services/annotation.py:77-97 | without filters every root of the material is listed, and the version and the page each narrow that on their own |
| `Annotations.GroupReplies` | api/app/services/annotation.py:140-146 | the dictionary holds each thread's replies, in their order |
| `Annotations.NewerRowsAreNotSeen` | api/app/services/annotation.py:100-110 | a new reply, or a new root listed before the cursor, does not change what is left to visit |
| `Paging.AskIsExact` | api/app/services/annotation.py:100-125 | every root after the cursor is on the page or after the next cursor, in descending order; there is a next cursor exactly when the page is full and more follow |
| `Paging.VisitDescends` | api/app/services/annotation.py:100-125 | following the cursors through a table that changes arbitrarily visits nothing twice, in descending order |
| `Paging.OnlyWhatIsThereIsVisited` | api/app/services/annotation.py:100-125 | and only what was there when its page was read |
| `Paging.WhatStaysIsVisited` | api/app/services/annotation.py:100-125 | a root that is there throughout is visited, whatever is created or deleted around it |
| `Paging.NewerInsertsMakeNoDifference` | api/app/services/annotation.py:100-125 | when only keys before the cursor change, the walk shows exactly the starting roots, once each and in order |
| `Paging.StableWalkEnds` | api/app/services/annotation.py:119-125 | a table that stays as it is is walked to the end |
| `Sanitizer.Budget.Sanitize` | api/app/core/sanitization.py:80-111 | succeeds if and only if depth, container sizes, keys after cleaning and the remaining budget allow; then the budget grew by exactly the values and keys, and the result is the cleaned value of the same shape |
| `Sanitizer.Budget.SanitizeItems` | api/app/core/sanitization.py:89-92 | the same for the items of a list |
| `Sanitizer.Budget.SanitizeMembers` | api/app/core/sanitization.py:94-109 | the same for the members of an object, with the collision check after cleaning |
| `Sanitizer.StripNullChars` | api/app/core/sanitization.py:114-116 | the public entry: exact condition and result from a fresh budget |
| `Sanitizer.NodesKept` | api/app/core/sanitization.py:80-111 | cleaning keeps the number of nodes, keys included |
| `Sanitizer.ShapeKept` | api/app/core/sanitization.py:80-111 | cleaning keeps depth and container sizes |
| `Sanitizer.SanitizedPassesAgain` | api/app/core/sanitization.py:119-121 | a sanitized value passes again if and only if cleaning its keys once more makes no two of one object equal, and comes back unchanged if and only if cleaning changes none of its texts and keys |
| `Sanitizer.SanitizedCanBeRefused` | api/app/core/sanitization.py:33-36 | the object with the keys U+2ADC and U+2ADD is accepted, and its sanitized form is refused |
| `Sanitizer.CleanedTextIsFixed` | api/app/core/sanitization.py:33-36 | cleaning a cleaned text changes nothing when normalizing brought no stripped character back |
| `Sanitizer.OrdinaryTextIsKept` | api/app/core/sanitization.py:9-29 | printable ASCII, line breaks and precomposed Latin letters are never stripped |

## Left out

- Restore: checks of archive sizes, counts and hashes, value and row serialization, and object content metadata; an accepted archive is a list of distinct managed keys with bytes.
- Restore: the unmanaged path that cleans the journal without a transaction, and the deferred columns of pull requests; multipart and single uploads are one step.
- Restore: a backup that overwrites the users table is not a step of `Authority`, whose claims are about the running installation.
- RowSort: Python's recursion limit, which a reference chain of about a thousand rows reaches.
- Tus.TusCreate: the checks of file name, type and type size are one boolean; quota and reservation are calls that may fail.
- Tus.Upload.CancelLifecycle: an upload whose row is missing, and a reference counter that was lost from the cache.
- Tus: MIME sniffing; checksum comparison is a boolean parameter, and the reload under the lock is the same step as the preflight load.
- Tus: a part list in the hash that is not valid JSON, which completion treats as a definitive failure; here the list is always the recorded one.
- Tus: expiry of the hash inside one request.
- Tus: quota members and storage reservations, except as calls that may fail.
- Challenges: rate limits, development bypass codes, and the legacy helpers that store code and link separately.
- Revocation: blacklisting of single tokens, which can only refuse more, and who presents which token at a logout; any live account may revoke any family.
- Sessions: cookies, claims that are malformed in other ways than the ones listed, and the account lookup (the live account is a parameter).
- Authority: `hard_delete_user` beyond its guard and the removal of the row; notifications, e-mail rules for new accounts, and the hashing of passwords.
- Directories: metadata, likes, breadcrumb names and listings; a rank stands for the tree being finite and acyclic.
- ZipNames: the queries and natural sort order of the rows, and streaming the archive.
- ReleaseManifest: `parse_release_toolchain` is a parameter (its result, or failure), and JSON documents are typed records, so a document with a missing or ill-typed member counts as unreadable; Python also equates 1, 1.0 and true, and inspection records may carry members the checks ignore.
- ReleaseText: file encodings and atomic replacement of files.
- Search: filters, likes, snippets and the decoration of a page; the indexes and the live ids do not change while one search runs.
- Annotations: editing bodies, notifications, cascades from deleted users or materials, and the textual encoding of the cursor.
- Sanitizer: keys that are not strings; the normalization form C is a parameter.
- HTTP routing, server-sent events, e-mail, OpenGraph, thumbnails and the user interface.
