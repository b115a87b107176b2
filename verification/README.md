# Kiungo server: verified models

Dafny models of the stateful parts of the Kiungo server, with proofs of what they promise over every run.
`dafny verify dfyconfig.toml` checks everything.

Each part has the same shape. Pure functions say what one request does to the tables (the specification);
lemmas prove invariants of these steps, properties of every run, and what the requests of a run alone say its
answers and tables must be; a class, or methods with the source's loops, changes the tables in place and is
proved to do exactly the specified step.

| part | files | source |
|---|---|---|
| project sync: commits, blobs, revisions, soft delete | `IfMatch`, `ProjectSync`, `ProjectSyncInvariant`, `ProjectSyncRuns`, `ProjectSyncSafety`, `ProjectSyncAnswers`, `ProjectSyncExamples`, `ProjectStore` | api/routes/projects_sync.py |
| desktop sign-in and the tokens it shares with the website | `SignIn`, `SignInInvariant`, `SignInSafety`, `SignInCodes`, `SignInLineage`, `SignInOutlives`, `SignInUsable`, `SignInApproval`, `SignInAnswers`, `SignInLapses`, `SignInPolls`, `SignInExamples`, `SignInServer` | auth/desktop_routes.py, auth/routes.py, database/service.py |
| job scheduler | `JobScheduler`, `JobSchedulerSafety`, `JobOutcomes`, `SchedulerObject` | api/services/job_scheduler.py |
| admin lockout | `AdminGate`, `AdminTries`, `AdminDoor` | api/services/admin_auth.py |
| usage heartbeats and the portal's sums | `Activity`, `ActivityRuns`, `ActivityHistory`, `ActivityPortal`, `ActivityTracker` | api/services/activity.py |
| releases and the version order | `PythonOrder`, `ReleaseVersion`, `SemVer`, `SemVerTexts`, `Releases`, `ReleaseRuns`, `ReleaseTies` | api/routes/releases.py |
| community statistics | `CommunityMonths`, `CommunityStats`, `CommunityGrowth` | api/services/community_stats.py |

`Prelude.dfy` has Option and Result, `Sums.dfy` sums over tables.

## Assumptions

- Every request handler is one atomic, serialisable transaction. The handlers read and then write without
  explicit locks, so this is asked of the database, not proved.
- A `Store` is one account: every query of the sync handlers filters by owner.
- Generated ids, codes, tokens and the time are parameters. New ids, codes and tokens are new to the tables,
  and so are their hashes. Nothing else is assumed of SHA-256 or S256: collisions are allowed.
- The clock may do anything, except where a lemma asks for `Monotone`: the lockout, and what the activity tables hold.
- Scheduled operations raise only `Exception`, and the executor takes a job or raises without taking it.
- Which characters outside ASCII the version pattern takes for digits, and which digit each is, is a parameter (`Fold`).
- Base64 decoding is a parameter: an upload carries its bytes, or none when the text is not base64.

## Where the code and its descriptions differ

The models follow the code.

- docs/desktop-sign-in.md:82-83 says website sessions and desktop revocations leave each other alone.
  One direction holds (`EndingDeviceSparesWebsite`). The other does not: a website sign-out ends the person's
  desktop tokens (`WebSignOutReachesTheDesktop`, a run); `WebSignOutSpares` says exactly when it does not.
- auth/desktop_routes.py:20-21 says a device's sessions end when it is removed or a spent token is replayed. All
  rows that name the device do die (`RevokedIsForGood`). But the website's rotation accepts a live desktop refresh
  token and gives website tokens for it, and those outlive the device (`RemovedDeviceLivesOn`, a run).
  `EndedSessionLivesOn` is the exact condition, over all runs: a token of the session is not revoked if and only if
  the website took over one of its tokens and the person has not signed out of the website since.
  `UsableAfterEnding` is the same for a token that can be used at a given time, with its expiry.
- docs/desktop-sign-in.md:84-85 says approving a code needs the website's session. Any live access token of the person
  does (auth/routes.py:241-253, database/service.py:226-232), also that of one of their computers
  (`AnySessionApproves`, exactly when). A computer let in so stays when the other is ended (`LetInByAComputer`, a run),
  like every other device (`EndingSparesOtherDevices`).
- api/services/community_stats.py:181 says the growth line starts from everything created before the window.
  It also holds what is dated after now, and a lab session's date is the one its client sends
  (auth/account_routes.py:267-291). `StartsAtTheRightHeight` is the exact condition and `FutureDateRaisesTheStart`
  an example.
- api/routes/projects_sync.py:12-14 says a commit is refused if the server has moved on, and nothing is overwritten
  unseen. Revisions start at 1 again after a purge, so a commit from revision 1 of the project purged is accepted over
  the one made since (`CommitOverwrittenUnseen`, a run). `UnseenOnlyAfterPurge` is the exact condition: a listing more
  than 30 days after a delete came between the read and the commit.
- api/routes/projects_sync.py:10 says a delete can be undone within 30 days. A restore itself checks no date:
  it works until a listing has purged the project (`RestorableUntilListed`; `RestoredTooLate` is a run).
- The release pattern takes numbers with leading zeros or digits of other scripts, empty identifiers and a line break
  at the end, which Semantic Versioning does not allow; `ValidTexts` says exactly which texts it should not have
  taken. Such a text can have the key of another (`OneAndZeroOne`, `OneInTwoScripts`, and exactly when, `SameKey`),
  and the first in the table is then offered (`FirstOfTwoIsOffered`).

## Model

| member | source | states |
|---|---|---|
| `IfMatch.DecimalRoundTrip` | api/routes/projects_sync.py:128-142 | the digits an ETag is written with read back as the same revision |
| `IfMatch.StripPadded` | api/routes/projects_sync.py:136 | stripping takes off exactly the blanks put around a value that neither starts nor ends with one |
| `IfMatch.MatchReadsETag` | api/routes/projects_sync.py:128-142 | the ETag of any revision, sent back bare, weak (`W/`) or padded, is read as that revision |
| `IfMatch.MatchOnlyETags` | api/routes/projects_sync.py:132-142 | a header is read as a revision only when it has an ETag's shape, and then as the number its digits say |
| `IfMatch.TagTextReads` | api/routes/projects_sync.py:139-142 | a quoted run of digits, weak or not, in any blanks, is read as their number, leading zeros and all |
| `IfMatch.MatchIs` | api/routes/projects_sync.py:132-142 | every header: exactly `*` in blanks means create, exactly a quoted revision in blanks is read as one, and any other or none is the 412 error |
| `ProjectSyncInvariant.CommittedFileStartsRun` | api/routes/projects_sync.py:286-297 | the in-place edit keeps a file's stamp while its content is unchanged and gives it the new revision otherwise, so the stamp is still the start of its newest unbroken run |
| `ProjectSyncInvariant.CommitKeepsHistory` | api/routes/projects_sync.py:304-306 | after appending and pruning, the kept revisions are the last 20 trees ever committed in this life of the project |
| `ProjectSyncInvariant.CommitKeepsTree` | api/routes/projects_sync.py:287-297 | dropping, adding and editing rows leaves exactly the committed tree |
| `ProjectSyncInvariant.CommitKeepsStamps` | api/routes/projects_sync.py:286-297 | every file of every project keeps a right stamp through a commit |
| `ProjectSyncInvariant.CommittedProjectSize` | api/routes/projects_sync.py:276-299 | the sizes the new file rows carry are the sizes the request was measured by |
| `ProjectSyncInvariant.CollectKeeps` | api/routes/projects_sync.py:159-167 | collecting leaves a blob stored if and only if a current file or kept revision names it, and breaks no other agreement between the tables |
| `ProjectSyncRuns.CommitKeeps` | api/routes/projects_sync.py:264-307 | an accepted commit keeps the four tables in agreement |
| `ProjectSyncRuns.UploadKeeps` | api/routes/projects_sync.py:219-244 | an upload, accepted or refused, keeps the four tables in agreement |
| `ProjectSyncRuns.DecodedSound` | api/routes/projects_sync.py:224-234 | what an accepted upload stores under a hash has that hash and fits the file limit |
| `ProjectSyncRuns.PurgeKeeps` | api/routes/projects_sync.py:149-167 | removing the projects deleted for over 30 days keeps the tables of the others in agreement |
| `ProjectSyncRuns.StepKeeps` | api/routes/projects_sync.py:149-338 | every request keeps the whole invariant, whatever it answers |
| `ProjectSyncRuns.RunKeeps` | api/routes/projects_sync.py:149-338 | so does every sequence of requests, from any state that has it |
| `ProjectSyncRuns.Reachable` | api/routes/projects_sync.py:149-338 | the invariant holds in every state reachable from empty tables |
| `ProjectSyncRuns.CurrentTreeIsNewestRevision` | api/routes/projects_sync.py:287-306 | in every reachable state a project at revision r keeps exactly revisions max(1, r-19) to r, and its current files are revision r's tree, path for path and hash for hash |
| `ProjectSyncRuns.StampIsStartOfRun` | api/routes/projects_sync.py:286-306 | in every reachable state a file's revision starts its newest unbroken run: every kept revision from it on has the file with this hash, the kept one before it has not |
| `ProjectSyncRuns.BlobsStored` | api/routes/projects_sync.py:149-167 | in every reachable state each named hash is stored with content of that hash, and right after a commit or purge nothing else is stored |
| `ProjectSyncRuns.SizesAddUp` | api/routes/projects_sync.py:235-299 | in every reachable state blob sizes, file sizes and project sizes agree; no project is over 20 MB, all together, deleted ones included, are within the quota, and blobs within quota plus 20 MB |
| `ProjectSyncSafety.RevisionStep` | api/routes/projects_sync.py:264-298 | a project's revision moves only by an accepted commit to it, by one |
| `ProjectSyncSafety.LifeEndsOnlyWhenDue` | api/routes/projects_sync.py:149-155 | a project's row goes if and only if a purge finds it deleted for more than 30 days |
| `ProjectSyncSafety.RevisionCountsCommits` | api/routes/projects_sync.py:286-298 | within one life, the revision rises by exactly the number of accepted commits in between |
| `ProjectSyncSafety.NoLostUpdate` | api/routes/projects_sync.py:264-269 | within one life, when a commit on the revision a client read is accepted, no other commit to that project was accepted since the read |
| `ProjectSyncSafety.LifeEndsByListing` | api/routes/projects_sync.py:149-155 | a row stays through from one moment of a run to another if and only if no listing in between finds it deleted for more than 30 days |
| `ProjectSyncSafety.UnseenOnlyAfterPurge` | api/routes/projects_sync.py:264-298 | in any run, when a commit on the revision a client read is accepted, another was accepted in between if and only if a listing in between purged the project |
| `ProjectSyncExamples.CommitOverwrittenUnseen` | api/routes/projects_sync.py:264-298 | a run from empty tables: a client reads revision 1, the project is deleted, purged and made again with a file, and the client's commit from revision 1 is accepted and the file gone |
| `ProjectSyncExamples.RestoredTooLate` | api/routes/projects_sync.py:329-338 | a run from empty tables: a project is committed, deleted, and restored one second past the 30 days |
| `ProjectSyncSafety.CommitsFormAChain` | api/routes/projects_sync.py:264-298 | the accepted commits of one life form one chain: the first starts from nothing, the n-th after it names revision n |
| `ProjectSyncAnswers.DeletedExactlyBy` | api/routes/projects_sync.py:313-338 | in any run a request marks a project deleted if and only if it is a delete of it that names no revision or the one its row has then, with that request's date; the mark goes only by a restore or an accepted commit, and its date never changes |
| `ProjectSyncAnswers.NoUnseenDelete` | api/routes/projects_sync.py:319-326 | within one life a delete on the revision a client read goes through if and only if no commit to the project was accepted since |
| `ProjectSyncAnswers.RefusedDelete` | api/routes/projects_sync.py:319-322 | a delete on any other revision changes no table and is answered with the project's row and current files; of no project, with not found |
| `ProjectSyncAnswers.RestorableUntil` | api/routes/projects_sync.py:323-326 | the date answered is 30 days after the first delete, and a repeated delete changes nothing |
| `ProjectSyncAnswers.AcceptedExactly` | api/routes/projects_sync.py:264-281 | within one life a commit on the revision a client read is accepted if and only if no other was accepted since, every file is stored and there is room; if another was, nothing changes and the answer shows the row, as many revisions on as were accepted, and the current files |
| `ProjectSyncAnswers.RightBase` | api/routes/projects_sync.py:271-281 | a commit from the right base is accepted exactly when every hash is stored and there is room; the missing hashes answered are exactly those not stored, and too large a project and too full an account are told apart |
| `ProjectSyncAnswers.RefusedCommit` | api/routes/projects_sync.py:266-269 | a commit from any other base, to create included, changes nothing and is answered with the project as it is, or not found |
| `ProjectSyncAnswers.FilesAreLastAccepted` | api/routes/projects_sync.py:287-297 | in any run the current files of a project are the tree of the last commit accepted, path for path and hash for hash |
| `ProjectSyncAnswers.RevisionIsItsCommit` | api/routes/projects_sync.py:304-306 | in any run each of the last 20 commits of a life is kept with its device and tree as sent, under the number it was given |
| `ProjectSyncAnswers.RowMoves` | api/routes/projects_sync.py:298-303 | name and board change only by an accepted commit that gives one; an accepted commit leaves the project not deleted; nothing else moves size or revision |
| `ProjectSyncAnswers.UploadAnswers` | api/routes/projects_sync.py:219-244 | in any run an upload that is taken has at most 50 files, each with its own content within the limit; it answers exactly which hashes sent were new and which were there, and stores under the new ones what came last; one not taken changes nothing, and the error told is that of the first bad file |
| `ProjectSyncAnswers.UploadFits` | api/routes/projects_sync.py:239-242 | good files are taken if and only if the stored and the new ones together fit in quota plus 20 MB |
| `ProjectSyncSafety.BlobNeverOverwritten` | api/routes/projects_sync.py:235-244 | no request changes the content stored under a hash |
| `ProjectSyncSafety.BystandersKeep` | api/routes/projects_sync.py:149-338 | any number of requests about other projects, and purges not past its 30 days, leave a project's row, files, history and blobs as they were |
| `ProjectSyncSafety.DeleteThenRestore` | api/routes/projects_sync.py:313-338 | delete, then any such requests, then restore gives back the same row, files, history and blobs, but for the date of the last change |
| `ProjectSyncSafety.RestorableUntilListed` | api/routes/projects_sync.py:149-155 | a deleted project left alone can be restored, however late, if and only if no listing has come more than 30 days after the delete |
| `ProjectStore.PathCount` | api/routes/projects_sync.py:91-96 | counting distinct paths finds a repeat if and only if there is one |
| `ProjectStore.TreeOfAt` | api/routes/projects_sync.py:288 | with no path repeated, the wanted tree has each listed path with its own hash |
| `ProjectStore.FirstErrorStays` | api/routes/projects_sync.py:225-234 | the loop over uploads stops at the first bad one, so later ones never change the answer |
| `ProjectStore.Store.constructor` | api/routes/projects_sync.py:1-18 | an account starts with four empty tables |
| `ProjectStore.Store.CollectBlobs` | api/routes/projects_sync.py:159-167 | the loop over revisions and stored hashes leaves exactly the blobs in use |
| `ProjectStore.Store.DropUnwanted` | api/routes/projects_sync.py:289-291 | the first loop deletes exactly this project's rows whose path is not wanted |
| `ProjectStore.Store.PutWanted` | api/routes/projects_sync.py:292-297 | the second loop leaves exactly the committed rows, whatever order it goes in |
| `ProjectStore.Store.AppendRevision` | api/routes/projects_sync.py:304-306 | one whole-tree revision more, and none left that is 20 or more behind |
| `ProjectStore.Store.Refusal` | api/routes/projects_sync.py:264-281 | the checks pass exactly when the commit is to be accepted, and otherwise give the first reply that applies |
| `ProjectStore.Store.SizeOf` | api/routes/projects_sync.py:276 | the loop adds up the wanted files' blob sizes |
| `ProjectStore.Store.Write` | api/routes/projects_sync.py:283-310 | the writes of an accepted commit take the tables to the specified next state |
| `ProjectStore.Store.CommitProject` | api/routes/projects_sync.py:260-310 | from header to reply a commit does the specified step and keeps the invariant; a refused one changes nothing |
| `ProjectStore.Store.UploadBlobs` | api/routes/projects_sync.py:219-244 | an upload does the specified step and keeps the invariant |
| `ProjectStore.Store.DecodeAll` | api/routes/projects_sync.py:224-234 | the loop over uploads decodes all of them or answers the first error |
| `ProjectStore.Store.DeleteProject` | api/routes/projects_sync.py:313-326 | a soft delete does the specified step; repeated, it keeps the first date |
| `ProjectStore.Store.RestoreProject` | api/routes/projects_sync.py:329-338 | a restore does the specified step |
| `ProjectStore.Store.RemoveDue` | api/routes/projects_sync.py:149-155 | the loop removes exactly the rows of projects that are due |
| `ProjectStore.Store.ListProjects` | api/routes/projects_sync.py:149-179 | listing purges first and answers what is left |
| `SignInInvariant.StepKeeps` | auth/desktop_routes.py:118-263 | every request of the desktop app and the website keeps the sign-in invariant: codes well formed and matched with devices, tokens owned, one live refresh token per device, none for a revoked one |
| `SignInInvariant.Reachable` | auth/desktop_routes.py:118-263 | the invariant holds in every state reachable from empty tables |
| `SignInSafety.DeviceTokens` | auth/desktop_routes.py:123-147 | in every reachable state a device has at most one unrevoked refresh token, and a revoked device no unrevoked refresh or access token |
| `SignInSafety.EndedStaysEnded` | auth/desktop_routes.py:231-251 | no request un-revokes a device or gives a revoked one a token |
| `SignInSafety.RevokedIsForGood` | auth/desktop_routes.py:141-147 | from the moment a device is revoked, for the rest of the run, it stays revoked, all its tokens are dead and it gets no more |
| `SignInSafety.SpentKeeps` | auth/desktop_routes.py:250 | a spent refresh token stays spent, with the same device, for the rest of the run |
| `SignInSafety.ReplayEndsDevice` | auth/desktop_routes.py:240-244 | replaying at the desktop refresh a token of a device spent at any earlier time answers that the session has ended, and ends the device for good |
| `SignInSafety.SignOutEndsDevice` | auth/desktop_routes.py:254-263 | so does signing out on the computer with any of its refresh tokens, or its owner removing the device |
| `SignInSafety.EndingDeviceSparesWebsite` | auth/desktop_routes.py:141-147 | ending a device leaves every website token as it was |
| `SignInSafety.WebSignOutSpares` | auth/routes.py:416-433 | a website sign-out spares a device's tokens if and only if the request names nobody, names somebody else than its owner, or the device has no live token |
| `SignInExamples.WebSignOutReachesTheDesktop` | auth/routes.py:416-433 | a run from empty tables, pairing one computer and then signing out of the website, after which the device is not revoked and all its tokens are dead; docs/desktop-sign-in.md says it is untouched |
| `SignInLineage.RunChanges` | auth/desktop_routes.py:123-147 | every request issues one pair of tokens, spending at most the token presented, or revokes one person's rows, or at most rows of devices; new rows carry the device of the exchange or of the token presented, or none from the website |
| `SignInLineage.TraceKeepsLines` | database/service.py:265-282 | a token's line of ancestors stays with one person, ends in the token, and is all of one device if the token is a device's |
| `SignInOutlives.OutsideWhenEscaped` | database/service.py:265-294 | in every reachable state tokens not revoked that descend from a device, in rows that no longer name it, exist if and only if the website's rotation accepted a token of the device and its owner has not signed out of the website since |
| `SignInOutlives.EndedSessionLivesOn` | auth/desktop_routes.py:20-21 | in every run, after a device is ended, a refresh token that descends from it is not revoked if and only if the website's rotation accepted one of its tokens and its owner has not signed out of the website since; and the same of an access token |
| `SignInUsable.OutsideUntil` | database/service.py:265-282 | in every reachable state the expiries of the tokens outside a device are those of the website rotations in its line not followed by a sign-out, and for the refresh token, of which there is one at most, the newest |
| `SignInUsable.UsableAfterEnding` | auth/desktop_routes.py:20-21 | in every run, after a device is ended, a refresh token that descends from it passes the server's check at a time if and only if the newest website rotation in its line is at most 30 days old and its owner has not signed out since; an access token if and only if any such rotation is at most 15 minutes old |
| `SignInApproval.SessionFrom` | database/service.py:265-282 | every access token comes from one request of the run, and its row names no device if and only if that was a website sign-in or rotation |
| `SignInApproval.AnySessionApproves` | auth/routes.py:213-253 | in every reachable state an approval goes through if and only if the code waits and is in time and the access token is live and the approver's: the website's, or that of a device of theirs that is not ended |
| `SignInApproval.EndingSparesOtherDevices` | auth/desktop_routes.py:141-147 | a request that ends one device leaves every other device and its tokens as they were |
| `SignInExamples.LetInByAComputer` | auth/desktop_routes.py:298-309 | a run from empty tables: one computer's access token approves a second computer's code, the first is removed, and the second keeps a live refresh token; docs/desktop-sign-in.md says approval needs the website's session |
| `SignInOutlives.TakenOverOnce` | auth/routes.py:225-235 | in a run the website's rotation accepts at most one token of a device |
| `SignInExamples.RemovedDeviceLivesOn` | auth/desktop_routes.py:20-21 | a run from empty tables: pairing, a website rotation of the device's token, and removal of the device by its owner, after which the device is revoked, and a refresh token and an access token that descend from it are not |
| `SignInAnswers.RefreshAnswers` | auth/desktop_routes.py:231-251 | in every reachable state the desktop refresh gives tokens if and only if it is sent a live refresh token of a device that has not expired; the device is then not ended, the pair is that person's and device's, live, and expires 30 days and 15 minutes after now, and the token sent is spent; a spent one ends the session, anything else changes nothing |
| `SignInAnswers.RotationAnswers` | auth/routes.py:225-236 | in every reachable state the website's rotation gives tokens if and only if it is sent a refresh token, of a device or not, that is live and has not expired; the new pair names no device, and the one sent is spent |
| `SignInAnswers.WebSignInAnswers` | auth/routes.py:185-199 | a website sign-in gives that person a live pair that names no device |
| `SignInAnswers.ExchangeAnswers` | auth/desktop_routes.py:202-228 | in every reachable state an exchange gives tokens if and only if its code is approved and in time and the verifier hashes to its challenge; they are the approver's, for a new device with the name the code was asked for |
| `SignInAnswers.CodeStatusMoves` | auth/desktop_routes.py:118-228 | in every run a request moves a code's status exactly as it must: approval and denial of a pending one, exchange or denial by the verifier of an approved one, expiry at the first look past its time, and nothing else |
| `SignInAnswers.CreateAnswers` | auth/desktop_routes.py:153-173 | a code begins pending, with the device and redirect it was asked for |
| `SignInAnswers.EndsExactly` | auth/desktop_routes.py:231-263 | in every reachable state a request ends a device if and only if it is its owner removing it, a sign-out with a token of it, or a refresh with a spent token of it |
| `SignInAnswers.RemovalAnswers` | auth/desktop_routes.py:331-339 | removing a device succeeds for its owner, and answers anybody else not found with nothing changed |
| `SignInLapses.LiveFrom` | auth/desktop_routes.py:123-128 | in every run a device's live refresh token is the one given to it last, and expires 30 days after that |
| `SignInLapses.RotatesInTime` | auth/desktop_routes.py:245-251 | in every run each rotation is of the token given to the device last before, within 30 days of it |
| `SignInLapses.LapsedForGood` | auth/desktop_routes.py:245-247 | a device whose newest tokens are more than 30 days back gets no more in the rest of the run |
| `SignInPolls.PollShows` | auth/desktop_routes.py:176-190 | in every run a poll answers the code's status as the requests before and its own time make it, and not found for no code |
| `SignInPolls.FirstPollCarries` | auth/desktop_routes.py:184-190 | after an approval, a poll carries the code approved if and only if it is in time and no earlier poll, exchange or late look has taken it |
| `SignInCodes.CodeMovesOn` | auth/desktop_routes.py:118-120 | one request moves a code only forward: challenge and expiry never change, approver and hash once set never change, an answered code never changes at all |
| `SignInCodes.CodeKeepsMoving` | auth/desktop_routes.py:153-228 | so between any two moments of a run |
| `SignInCodes.Provenance` | auth/desktop_routes.py:153-173 | every code row comes from the request that created it, and its approver and hash from one later, timely approval |
| `SignInCodes.TokensNeedApproval` | auth/desktop_routes.py:202-228 | tokens are first issued for a code only if it was created, then approved in time with this very code and a live access token of the approver, had not expired, and the verifier hashes to the challenge given at creation; the new device belongs to the approver |
| `SignInCodes.OneAttemptPerCode` | auth/desktop_routes.py:205-217 | once a known code has been presented, with the right verifier or a wrong one, every later exchange of it fails |
| `SignInCodes.DevicesMatchCodes` | auth/desktop_routes.py:221-226 | in every reachable state each device comes from exactly one code, exchanged, and approved by the device's own person |
| `SignInCodes.OnePollCarriesTheCode` | auth/desktop_routes.py:177-190 | in a run at most one poll carries a code's plain text, and what it carries hashes to the row's hash |
| `SignInServer.Server.constructor` | auth/desktop_routes.py:193-199 | no codes, devices or tokens at the start |
| `SignInServer.Server.CreateCode` | auth/desktop_routes.py:153-173 | the specified step: a pending code with its expiry |
| `SignInServer.Server.CodeStatus` | auth/desktop_routes.py:176-190 | the specified step: expires what is due, hands the plain code over once |
| `SignInServer.Server.ApproveCode` | auth/desktop_routes.py:269-309 | the specified step, refused without a live access token of the person, and unless pending and in time |
| `SignInServer.Server.DenyCode` | auth/desktop_routes.py:269-318 | the specified step, refused unless pending and in time |
| `SignInServer.Server.FindByHash` | auth/desktop_routes.py:206 | the scan finds the one row with this hash, or none |
| `SignInServer.Server.ExchangeCode` | auth/desktop_routes.py:202-228 | the specified step with the same order of checks, keeping the invariant |
| `SignInServer.Server.MarkRefresh` | auth/desktop_routes.py:145-147 | the loop revokes exactly the chosen refresh rows |
| `SignInServer.Server.MarkAccess` | auth/desktop_routes.py:145-147 | the loop revokes exactly the chosen access rows |
| `SignInServer.Server.EndDevice` | auth/desktop_routes.py:141-147 | the device is revoked, keeping its first date, with all its tokens |
| `SignInServer.Server.RefreshDesktop` | auth/desktop_routes.py:231-251 | the specified step: rotation, or the end of the device on replay |
| `SignInServer.Server.LogoutDesktop` | auth/desktop_routes.py:254-263 | the specified step |
| `SignInServer.Server.RevokeDevice` | auth/desktop_routes.py:331-339 | the specified step, for the owner only |
| `SignInServer.Server.SignInWeb` | auth/routes.py:185-199 | the specified step: a pair of website tokens |
| `SignInServer.Server.RotateRefresh` | auth/routes.py:225-236 | the specified step: any live refresh token, also a desktop one, is spent for website tokens |
| `SignInServer.Server.RevokeUserSessions` | database/service.py:285-292 | the loops revoke exactly this person's tokens |
| `SignInServer.Server.SignOutWeb` | auth/routes.py:416-433 | the specified step: the person is named by the access token, else by a live refresh token |
| `JobSchedulerSafety.StepKeeps` | api/services/job_scheduler.py:60-127 | every locked section, in whatever order threads run them, keeps permits, jobs and keys in agreement |
| `JobSchedulerSafety.Reachable` | api/services/job_scheduler.py:51-127 | the agreement holds under every interleaving |
| `JobSchedulerSafety.OneActiveJobPerKey` | api/services/job_scheduler.py:68-81 | under every interleaving at most one queued or running job has a dedupe key, and the key map points to it |
| `JobSchedulerSafety.CleanupSparesOthers` | api/services/job_scheduler.py:86-89 | a section of one job never drops or moves the key entry of another, however late it runs |
| `JobSchedulerSafety.SubmissionJoins` | api/services/job_scheduler.py:68-73 | a submission answers with an existing job if and only if one is queued or running under its key, and then with that one |
| `JobSchedulerSafety.PermitsBound` | api/services/job_scheduler.py:75-76 | free permits and jobs holding one always add up to max_workers + max_queued; the queue is full only when all are held; a release never exceeds the bound |
| `JobSchedulerSafety.WorkerFindsItsJob` | api/services/job_scheduler.py:106-109 | a worker's lookup of its job always succeeds, and finds it queued |
| `JobSchedulerSafety.PhasesOnlyAdvance` | api/services/job_scheduler.py:99-127 | a job's thread never goes back to an earlier section |
| `JobSchedulerSafety.ReleasesOnce` | api/services/job_scheduler.py:90-127 | in a run each job gives its permit back at most once |
| `JobSchedulerSafety.NothingLeaks` | api/services/job_scheduler.py:83-127 | once every job has been through its last section all permits are free and no key is left |
| `JobSchedulerSafety.CancelledHoldsOn` | api/services/job_scheduler.py:129-130 | a job still waiting at shutdown is, at every later moment of the run, still queued, unchanged, and holding its permit and its key |
| `JobSchedulerSafety.OutcomeIsFinal` | api/services/job_scheduler.py:111-122 | once recorded, a job's outcome is there, unchanged, at every later moment of the run |
| `JobOutcomes.TableTells` | api/services/job_scheduler.py:60-127 | in every run the table holds exactly the jobs admitted and not dropped, each with the type and key it was submitted with; it is queued until its start, running until its finish, and then has its operation's outcome |
| `JobOutcomes.OutcomeIsTheOperations` | api/services/job_scheduler.py:111-122 | at every moment after an operation ends its job is found, as submitted, with this very outcome |
| `JobOutcomes.NoOtherOutcome` | api/services/job_scheduler.py:111-122 | no job has an outcome without a finish of it that carried this outcome |
| `JobOutcomes.SubmitAnswers` | api/services/job_scheduler.py:68-81 | in every run a submission joins if an active job has its key, is refused if not and every permit is held, and is admitted otherwise |
| `SchedulerObject.Scheduler.Create` | api/services/job_scheduler.py:51-58 | max_workers + max_queued permits and nothing else; the ValueError exactly for a non-positive worker count or a negative queue |
| `SchedulerObject.Scheduler.Submit` | api/services/job_scheduler.py:68-81 | the specified section: join, refuse or admit |
| `SchedulerObject.Scheduler.Drop` | api/services/job_scheduler.py:85-89 | the specified section after the executor refused a job |
| `SchedulerObject.Scheduler.Start` | api/services/job_scheduler.py:106-109 | the specified section; the lookup succeeds |
| `SchedulerObject.Scheduler.Finish` | api/services/job_scheduler.py:111-122 | the specified section |
| `SchedulerObject.Scheduler.ClearKey` | api/services/job_scheduler.py:123-126 | the specified section |
| `SchedulerObject.Scheduler.ReleasePermit` | api/services/job_scheduler.py:127 | the specified section; the bounded semaphore does not raise |
| `SchedulerObject.Scheduler.Get` | api/services/job_scheduler.py:94-97 | an id is found if and only if it was admitted and the executor did not refuse it, with the status its own thread has got to |
| `AdminGate.WaitMeans` | api/services/admin_auth.py:67-76 | for one limit: the wait is 0 if and only if the window holds fewer failures than the limit; otherwise the limit stays reached up to a moment less than the wait away, at least the wait less one second, and is clear at any time after it |
| `AdminGate.NoWaitNoLimit` | api/services/admin_auth.py:67-76 | a try is allowed if and only if neither the address nor everyone together has reached its limit |
| `AdminGate.RecordKeepsWindow` | api/services/admin_auth.py:82-87 | a failure recorded only below the limit leaves every closed window, wherever it starts, within the limit |
| `AdminGate.PruneIsTail` | api/services/activity.py:189 | in a table in time order pruning takes a prefix, and only rows past 90 days |
| `AdminGate.TailCounts` | api/services/activity.py:189 | what pruning took is too old to be in any window that still matters |
| `AdminGate.SignInKeeps` | api/services/admin_auth.py:79-95 | a try, refused, right or wrong, keeps every window within its limits |
| `AdminGate.PruneKeeps` | api/services/activity.py:189 | a clean-up at any time keeps them too |
| `AdminGate.Reachable` | api/services/admin_auth.py:79-95 | both hold in every run under a clock that does not go back |
| `AdminGate.WindowsAreBounded` | api/services/admin_auth.py:31-33 | in every such run every closed 15-minute window holds at most 5 failures of one address and 30 in all |
| `AdminGate.ExactWait` | api/services/admin_auth.py:67-76 | while the windows are bounded, when one limit clears so does the other in time: the answer is right for both limits at once |
| `AdminGate.RetryAfterIsExact` | api/services/admin_auth.py:67-76 | in every reachable state, if the answer is w > 0 and nothing is recorded meanwhile, a new try is refused until some moment and allowed at all times after, and that moment is less than w and at least w - 1 seconds away |
| `AdminTries.RefusedExactly` | api/services/admin_auth.py:79-87 | in every run under a clock that does not go back, a try is refused if and only if five earlier tries from its address, or thirty from anywhere, were let through with a wrong password in the fifteen minutes up to it |
| `AdminTries.LogTells` | api/services/admin_auth.py:84-86 | in every such run, from any time on, as many failures are recorded for an address, or in all, as tries let through had the wrong password |
| `AdminTries.SixthIsRefused` | api/services/admin_auth.py:31 | after four wrong passwords from an address a fifth is looked at, and after five a sixth is not |
| `AdminTries.CleanUpForgets` | api/services/activity.py:189 | a clean-up leaves exactly the recorded attempts of the last 90 days |
| `AdminDoor.Door.constructor` | api/services/admin_auth.py:79-95 | no attempts |
| `AdminDoor.Door.RetryIn` | api/services/admin_auth.py:67-76 | the loop over the two limits answers the specified wait, 0 exactly when neither limit is reached |
| `AdminDoor.Door.SignIn` | api/services/admin_auth.py:79-95 | the specified step; no password is right while locked out |
| `AdminDoor.Door.Clean` | api/services/activity.py:189 | deletes exactly the rows past 90 days |
| `Activity.CreditDailyTotal` | api/services/activity.py:113-121 | crediting adds its seconds to one group of daily rows, however they are grouped, and to no other |
| `Activity.ApplyAgrees` | api/services/activity.py:158-179 | a heartbeat keeps seconds over people equal to seconds over pages, on every day and client |
| `Activity.PruneAgrees` | api/services/activity.py:182-191 | so does a clean-up |
| `ActivityRuns.LedgersAgree` | api/services/activity.py:113-191 | the two ledgers agree after every sequence of heartbeats and clean-ups, whatever the clock does |
| `ActivityRuns.GainBound` | api/services/activity.py:160-166 | a heartbeat credits at most 75 seconds and at most the time since the last one |
| `ActivityRuns.NextKeeps` | api/services/activity.py:133-191 | every operation at a time not before the last keeps credit within elapsed time, presence at the last heartbeat and days within their bound |
| `ActivityRuns.Reachable` | api/services/activity.py:133-191 | so in every run under a clock that does not go back |
| `ActivityRuns.NeverMoreThanElapsed` | api/services/activity.py:113-121 | in every such run a subject's seconds on one client are at most the time from their first heartbeat to their last |
| `ActivityRuns.NothingIsLostInTime` | api/services/activity.py:182-187 | until a subject's first day is 400 days back, the rows kept hold exactly all that was ever credited |
| `ActivityRuns.DayRowsAreBounded` | api/services/activity.py:166 | a daily row is less than 86,400 + 75 seconds |
| `ActivityRuns.SteadyUseIsCredited` | api/services/activity.py:158-166 | from any reachable state, over n applied heartbeats with no leave and no gap over 75 seconds, whatever else happens between, the credit exceeds the time passed less n seconds |
| `ActivityHistory.PageRowTells` | api/services/activity.py:113-175 | in every run under a clock that does not go back, a page's row of a day and client has as many views as were sent with it, and the seconds of every applied heartbeat whose sender's one before came from this page; it is missing only when both are none or the day is past keeping |
| `ActivityHistory.DayRowTells` | api/services/activity.py:113-121 | a person's row of a day has the seconds of their heartbeats on it, each worth the whole seconds since the one before, at most 75, and nothing after a leave or a gap over 150 seconds; its account is theirs |
| `ActivityHistory.IgnoredExactly` | api/services/activity.py:158-163 | a heartbeat is ignored if and only if it repeats the sender's last, which was not a leave, within ten seconds |
| `ActivityHistory.PresenceRowTells` | api/services/activity.py:164-179 | somebody's presence is their last heartbeat, with the start of their visit and the last version they sent, for 30 days |
| `ActivityHistory.TablesTell` | api/services/activity.py:133-191 | all of this holds after every run |
| `ActivityHistory.PastIsForgotten` | api/services/activity.py:150-155 | after a clean-up, and after every 500th heartbeat, nothing past keeping is left |
| `ActivityPortal.AddDayIs` | api/services/activity.py:306-312 | one row more makes a day's line right for one row more, and leaves the other days right |
| `ActivityPortal.AddPageIs` | api/services/activity.py:288-295 | the same for a page's line, with its client columns |
| `ActivityPortal.AddTimeIs` | api/services/activity.py:224-234 | the same for an account's line, in and out of the range |
| `ActivityPortal.DaysAddUp` | api/services/activity.py:304-312 | the days of the range add up to the range |
| `ActivityPortal.ClientsAddUp` | api/services/activity.py:317-321 | the two clients add up to the range |
| `ActivityPortal.PagesMatchPeople` | api/services/activity.py:113-130 | seconds over pages are seconds over people for any choice of days and clients |
| `ActivityPortal.PagesAddUp` | api/services/activity.py:288-295 | the pages of a range add up to the range, and each client's page column to that client |
| `ActivityPortal.AccountsAddUp` | api/services/activity.py:222-234 | time of accounts and time of visitors add up to the range |
| `ActivityTracker.Tracker.constructor` | api/services/activity.py:133 | empty tables, which agree |
| `ActivityTracker.Tracker.PageRowFor` | api/services/activity.py:124-130 | the page's row is there, new ones empty, others untouched |
| `ActivityTracker.Tracker.Credit` | api/services/activity.py:113-121 | the same seconds to one daily row and one page row, made when missing; none for nothing |
| `ActivityTracker.Tracker.ApplyBeat` | api/services/activity.py:158-179 | the specified step, crediting the page that was open; false exactly when too soon |
| `ActivityTracker.Tracker.RecordBeat` | api/services/activity.py:133-155 | the specified step with its clean-up every 500th heartbeat, keeping the ledgers in agreement |
| `ActivityTracker.Tracker.CleanUp` | api/services/activity.py:182-191 | the specified clean-up, keeping the ledgers in agreement |
| `ActivityTracker.Tracker.DailyLines` | api/services/activity.py:303-312 | a line for each day of the range and no other, each with its seconds, accounts and visitors; every lookup by day succeeds; they add up to the range |
| `ActivityTracker.Tracker.PageLines` | api/services/activity.py:287-295 | a line for each page used in the range, with its views, seconds and client columns |
| `ActivityTracker.Tracker.AccountLines` | api/services/activity.py:222-234 | a line for each account with any time, with its totals, client columns and days in the range |
| `ActivityTracker.Tracker.ClientSum` | api/services/activity.py:317-321 | one client's seconds in the range |
| `ActivityTracker.Tracker.LookBack` | api/services/activity.py:197-206 | days, clients, pages, and accounts with visitors all give the same number of seconds, and each client's page column that client's |
| `PythonOrder.TextOrder` | api/routes/releases.py:46 | Python's order of text: less at the first place they differ, or by ending first; equal only when the same |
| `PythonOrder.TupleLess` | api/routes/releases.py:38-47 | Python's order of tuples: less exactly when at the first difference it ends or its item is less |
| `PythonOrder.EqualIsSame` | api/routes/releases.py:38-47 | values compare equal exactly when they are the same |
| `PythonOrder.CompareFlip` | api/routes/releases.py:38-47 | comparing the other way round gives the opposite, and the same TypeError |
| `PythonOrder.LessTransitive` | api/routes/releases.py:38-47 | less is transitive, on all values, tuples within tuples included |
| `ReleaseVersion.NeverTypeError` | api/routes/releases.py:38-47 | comparing the keys of any two texts never raises a TypeError, though their parts mix numbers and text |
| `ReleaseVersion.TotalPreorder` | api/routes/releases.py:38-47 | the key order is total, antisymmetric up to equal keys, and transitive, on all texts, versions or not |
| `SemVer.RenderMatches` | api/routes/releases.py:35 | the pattern captures exactly the parts of any valid version without build metadata |
| `SemVer.SplitJoined` | api/routes/releases.py:46 | splitting a written pre-release at the full stops gives back its identifiers |
| `SemVer.KeyOfVersion` | api/routes/releases.py:38-47 | the key of a written version holds its numbers and identifiers, numeric ones as numbers |
| `SemVer.OrderIsPrecedence` | api/routes/releases.py:38-47 | for every two valid versions the key order is precedence of section 11 of Semantic Versioning 2.0.0, less, equal and greater |
| `SemVerTexts.OrderIsPrecedenceOfMeaning` | api/routes/releases.py:38-47 | for every two texts the pattern takes, valid versions or not, the key order is precedence of the numbers and identifiers they stand for |
| `SemVerTexts.SameKey` | api/routes/releases.py:38-47 | two texts the pattern takes have one key if and only if their three numbers are equal and their identifiers pairwise are the same text or the same number |
| `SemVerTexts.ValidTexts` | api/routes/releases.py:35 | a text the pattern takes is some valid version written out if and only if every digit of its numbers is in ASCII, no number and no numeric identifier has a leading zero, no identifier is empty and no line break ends it |
| `SemVerTexts.JoinedBack` | api/routes/releases.py:46 | identifiers that are written as the parts of a pre-release join to that pre-release |
| `SemVerTexts.DecimalInverse` | api/routes/releases.py:43-47 | digits without a leading zero are what their number is written as |
| `SemVerTexts.ZeroInFrontTies` | api/routes/releases.py:35-47 | a zero written before any valid version makes a different text that the pattern takes too, with the same key |
| `SemVerTexts.OneAndZeroOne` | api/routes/releases.py:35-47 | `1.0.0` and `01.0.0` are both taken, differ, and have one key |
| `SemVerTexts.OtherScriptTies` | api/routes/releases.py:35-47 | the same first digit of another script in any valid version makes a different text that the pattern takes too, with the same key |
| `SemVerTexts.OneInTwoScripts` | api/routes/releases.py:35-47 | `1.0.0` and the same with an Arabic-Indic one are both taken, differ, and have one key |
| `ReleaseTies.FirstOfTwoIsOffered` | api/routes/releases.py:113-160 | two texts with one key, both published in a channel, are two releases, and the one published first is offered |
| `ReleaseTies.FirstOfOneAndZeroOne` | api/routes/releases.py:113-160 | so with `1.0.0` and `01.0.0`, in either order |
| `Releases.OutranksTransitive` | api/routes/releases.py:125 | descending version order with ties in table order is transitive |
| `Releases.OneLatest` | api/routes/releases.py:124-133 | what the scan may answer is determined: there is one greatest eligible release by version and table order, or none |
| `Releases.TiesGoToTheFirst` | api/routes/releases.py:125 | of eligible releases with equal keys only the first in the table can be the answer |
| `Releases.FittingHas` | api/routes/releases.py:129 | the filter keeps exactly the installers for the platform and architecture asked for |
| `Releases.CountTargets` | api/routes/releases.py:140-142 | there are as many targets as installers exactly when no two installers share one |
| `Releases.NextKeeps` | api/routes/releases.py:137-174 | publishing and withdrawing keep versions unique on their channel, and every release with installers for distinct targets |
| `Releases.ReleasesStay` | api/routes/releases.py:153-173 | in every run a release stays as published but for one withdrawal, and none disappears |
| `Releases.WithdrawnForGood` | api/routes/releases.py:163-174 | a withdrawn version is never eligible again in any run, and publishing it again is refused |
| `ReleaseRuns.RowsTell` | api/routes/releases.py:137-174 | in every run the table holds exactly the releases published in it, each as sent, with its own date or that of the request, and the date of its first withdrawal |
| `ReleaseRuns.PublishAnswers` | api/routes/releases.py:137-160 | a release is taken if and only if its versions and files are in order and none of this version was ever published on the channel; otherwise the refusal is the one that applies |
| `ReleaseRuns.OfferedFromItsDate` | api/routes/releases.py:122-134 | in every run the release offered was published for a date not after now and not withdrawn since, fits, and no other such release has a higher version; none is offered exactly when there is none |
| `Releases.Catalogue.constructor` | api/routes/releases.py:137-138 | an empty catalogue |
| `Releases.Catalogue.NewestFirst` | api/routes/releases.py:124-125 | exactly the channel's releases that are not withdrawn, highest version first, ties in table order |
| `Releases.Catalogue.Latest` | api/routes/releases.py:113-134 | the release returned is eligible and none eligible outranks it, with exactly its matching installers; 404 exactly when nothing is eligible |
| `Releases.Catalogue.PublishRelease` | api/routes/releases.py:137-160 | the specified step with the same order of refusals; releases already there do not change |
| `Releases.Catalogue.WithdrawRelease` | api/routes/releases.py:163-174 | the specified step: 404 exactly when there is no such release; a first withdrawal keeps its date |
| `CommunityMonths.PaddedOrder` | api/services/community_stats.py:59-66 | numbers written with the same number of digits compare as text the way they compare as numbers, whatever follows |
| `CommunityMonths.LabelOrder` | api/services/community_stats.py:59-66 | written months compare as text as they follow in time, and only the same month is written the same |
| `CommunityMonths.LabelReadsBack` | api/services/community_stats.py:59 | a written month reads back as its year, in four digits, and its month, in two |
| `CommunityMonths.LastMonths` | api/services/community_stats.py:62-70 | stepping back and reversing gives the months up to now, oldest first |
| `CommunityMonths.MonthsAreConsecutive` | api/services/community_stats.py:62-70 | they are consecutive and distinct, end now, and are all the months between the first and now |
| `CommunityStats.RanksTotal` | api/services/community_stats.py:76 | the ranking of keys is a total order |
| `CommunityStats.ShownKeys` | api/services/community_stats.py:75-76 | exactly the keys with at least ten people, ranked |
| `CommunityStats.Others` | api/services/community_stats.py:79-85 | the loop adds up the uses and people of exactly the keys not listed |
| `CommunityStats.Grouped` | api/services/community_stats.py:73-89 | rows true to their keys and each of ten people or more; no unlisted qualifying key outranks a listed one, and one is unlisted only when the list is full; listed and other uses add up to the total |
| `CommunityStats.Breakdown` | api/services/community_stats.py:110-122 | from the projects themselves: each row's count and people are those of its category, most used first and ties in the order of the text, and the counts with `other` add up to the number of projects |
| `CommunityGrowth.CountByMonth` | api/services/community_stats.py:123-126 | for every month from the first of the chart, how many were made in it and who made them, though months are compared as text |
| `CommunityGrowth.SumOver` | api/services/community_stats.py:184-185 | the loop adds up all that was made in the chart's months |
| `CommunityGrowth.Monthly` | api/services/community_stats.py:181-199 | each of the twelve lines has its month's counts, everything not made in a later month of the chart so far, and the people active when they are ten or more |
| `CommunityGrowth.TotalsRise` | api/services/community_stats.py:184-188 | running totals start at or above zero, rise by each month's count, never fall and end at the overall count |
| `CommunityGrowth.StartsAtTheRightHeight` | api/services/community_stats.py:181-185 | the line starts at what was made before the chart if and only if nothing is dated after now (no row is undated); what is adds to the start |
| `CommunityGrowth.FutureDateRaisesTheStart` | api/services/community_stats.py:171-185 | one session that its client dated a month ahead starts the line at 1 though nothing was made before the chart |

## Left out

- Syntax checks before the handlers: project ids, paths and hashes by pattern, length limits, 300 files a commit, pages by `normalize_page`. A repeated path in a commit is modelled.
- Who is signed in at a denial, a device removal or a website sign-out with an access token is a parameter; at an approval the token is checked.
- HTTP, cookies, JWT, scrypt, the release token and CORS: only the state changes behind them are modelled; whether a password is right is a parameter.
- Read-only routes that show rows: the single project, missing blobs, one blob, code details, device and release listings.
- Order of lists in replies: they are sets, maps or in table order. The portal's sorting and its cut to 20 pages come after the sums proved here.
- Account deletion (auth/routes.py:384-392, database/service.py:160-183). In the sign-in tables it removes the person with their tokens, codes and devices, so a token spent before it is no longer known to be spent; every run here is one without it. In the activity tables its cascade removes the daily rows and not the page rows, so the two ledgers then differ.
- Two heartbeats racing to insert the same row: with atomic requests the retry in `record` never happens.
- Cookie and login sessions, web socket tickets and admin sessions: rows beside the ones modelled.
- Dates kept only for display: created_at, approved_at, exchanged_at, and the scheduler's times and durations.
- Jobs cancelled at shutdown beyond `CancelledHoldsOn`, and operations that raise `BaseException`.
- Numbers of more than 4,300 digits, for which Python's `int()` raises ValueError, in a header.
- Digits outside ASCII in an If-Match header, which `\d` would also match: a header's characters are Latin-1, where there are none.
- Installers are part of their release and not a table of their own, since nothing changes them.
- `CommunityStats.Breakdown`: a category's key is a parameter; how the text is stripped and lowered into it (`strip().lower()`, over all of Unicode) is not modelled.
- Parts, modes, hardware and the simple counts of the community statistics: the same grouping over other rows. The cache is not modelled.
- `CommunityGrowth.Monthly`: needs a year of months before now, which every date from year 1 on has.
- The portal's accounts, online lists, providers and project counts: joins and counts of other tables.
