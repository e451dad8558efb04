# Verified models of a Telegram server's tools and admin panel

Dafny models of the protocols and algorithms that the server's command-line tools and its admin
panel carry themselves, with proofs of what they promise over every input, every run and every
interleaving. `dafny verify dfyconfig.toml` checks the whole project.

| file | what it models |
|---|---|
| `OtpProtocol.dfy`, `OtpGate.dfy`, `OtpService.dfy` | idempotent delivery of one-time passwords: concurrent requests over a table of receipts. The first is the step machine, from the request gate to the reply, and its invariant; the second is what the gate adds, with concrete runs; the third is the table as objects changed in place, each locked section proved to be one function of the machine |
| `BlobStorage.dfy` | the buffered ranged reader, the copy loop that drains it and the comparison that guards it |
| `MigrationSteps.dfy`, `MigrationTool.dfy`, `StartupGate.dfy` | the offline blob migration: the steps it may take and what every cut-off run keeps, with crashes of the host that lose files never synced; the command itself (keyset loop, copy, read-back, relabel) proved to take only such steps; the server's startup gate over the states it leaves |
| `KeyRotation.dfy`, `KeyFiles.dfy` | rotation of signing keys: the manifest as a state machine over a clock, and the file-system protocol under it with crashes between any two steps |
| `Base64Url.dfy`, `Session.dfy` | the signed session cookie over a concrete unpadded base64url codec (sections 5 and 3.2 of RFC 4648) |
| `Permissions.dfy`, `Operators.dfy`, `OperatorSessions.dfy` | panel operators: permission lists, the account table with the last-manager guard, and logins interleaved with account edits |
| `LikePattern.dfy`, `RatingPages.dfy` | prefix search through SQL's LIKE (section 9.7.1 of the PostgreSQL documentation) and keyset paging of the rating list |
| `PythonBytes.dfy`, `PythonLiterals.dfy`, `SeedJson.dfy` | the seed normaliser: its decoder for Python bytes literals against section 2.4.1 of the Python 3 language reference, and the recursive rewrite of a JSON tree |
| `ReviewCommands.dfy`, `RecordStore.dfy`, `CommandJournal.dfy`, `CommandRuns.dfy` | the fourteen verification commands, dry and real, each as what it does next given the answers it has heard; the versioned records they read; and the command journal as a machine in which any number of processes interleave their statements, reads and calls, and die anywhere, with where each answer and each thing heard came from |
| `Wrappers.dfy`, `Strings.dfy` | result types, and the few library string operations the programs use |

Conventions. A locked section or a single SQL statement is one atomic step. Time is an integer.
Hashes, MACs and the JSON codec are parameters, with "different contents have different digests"
and "reading back gives what was written" as explicit hypotheses where they are used. A call that
can fail for reasons outside the program (a backend, the database, a lost answer) fails by an
arbitrary choice; a migration run called calm is one in which none does. Where the source loops over state it changes, the model is a method with a loop
or a class changed in place, proved equal to a function the lemmas are about.

## What the proofs turned up

- A delivery that panics wedges its delivery ID for good: nobody completes the receipt, and the
  purge deletes only completed ones. `OtpGate.PanicInstance` is a run in which the same request,
  repeated before its expiry, is never answered, and a fresh request for that ID, long after it, is
  refused as a conflict. `OtpProtocol.AnsweredExactly` says that a waiter can be answered if and
  only if its owner did not panic, and `OtpProtocol.PanicWedges` that nothing is delivered for that
  ID again.
- One body can be delivered twice although the gate refuses expired requests: when its expiry falls
  between the second deliverer's gate and its entry (`OtpGate.SecondDeliveryStraddles`). The
  deliverer itself need not have seen the expiry: `OtpGate.StraddlingInstance` is a run in which
  one call did, `OtpGate.PurgedByAnotherInstance` one in which no call did, because a call with
  another ID purged the receipt first.
- A process that dies between binding a command ID and recording its result leaves that ID in a
  state in which every retry is told, without an error, that the command was already executed, with
  an empty result, whether or not its call was ever made (`CommandJournal.RecordedExactly`,
  `CommandJournal.AbandonedAnswers`, `CommandJournal.AbandonedInstance`).
- A passed dry run does not bind the real run (internal/admin/verification.go:165-170 says it never
  turns into a surprise): between them the application may move on
  (`ReviewCommands.DryRunCanExpire`). For how long it holds is said exactly by
  `RecordStore.DryRunHoldsExactly`, `RecordStore.RequestRunHoldsExactly` and
  `CommandJournal.DryRunPredicts`.
- The key tool syncs files but not their directory. A crash can then keep the renamed manifest and
  lose the key file it lists; `KeyFiles.CanBreakExactly` says exactly when, and
  `KeyFiles.RotationCanLoseItsKey` that every rotation passes through such a state unless the
  system happened to write the directory back; `KeyFiles.FirstRotationCanLoseItsKey` reaches it
  from any initialised directory.
- A signing manifest of 32 keys can never be rotated again, since it is refused before its expired
  keys are pruned (`KeyRotation.FullIsFinal`, `KeyRotation.RotatesExactly`); rotating 29 times
  within the retirement window gets there (`KeyRotation.FullInstance`).
- The local blob backend syncs nothing, while the relabelling is committed by the database. A row
  moved to it survives every crash of the host if and only if the system has written its file back
  meanwhile (`MigrationSteps.RelabelSurvivesExactly`, `MigrationSteps.HostCrashInstance`); the source
  keeps its object. A file the crash cut short blocks its object for good
  (`MigrationSteps.TornBlocks`).
- A key operation that crashes leaves its lock file behind, and every later one is refused until it
  is removed by hand (`KeyFiles.StaleLock`).
- A migration that exits normally still leaves rows on the source: exactly those whose object key
  is the empty string, because paging starts strictly after it (`MigrationTool.LeftOnSource`,
  `MigrationTool.EmptyKeyInstance`). The server then refuses to start on the destination
  (`StartupGate.MigrateThenStart`).
- An empty object is never read back for verification, and the local backend does not compare a
  file that already stands under its key. `MigrationSteps.RelabelResolvesExactly` says exactly
  when this matters and `MigrationSteps.EmptyObjectGap` gives an instance.
- The key tool's help offers EdDSA, but the command line upper-cases the name before it is
  compared, so EdDSA keys cannot be rotated (`KeyRotation.CommandLineAlgorithms`).
- The bytes-literal decoder differs from Python on long (triple-quoted) literals, on every prefix
  but `b`, on unknown escapes, line continuations and octal escapes above 0o377, and on nothing
  else (`PythonLiterals.AgreesExactly`; `LongInstance`, `PrefixInstances` and `EscapeInstances`
  give one literal of each kind).
- Following the rating cursor finishes if and only if every page-ending user ID is positive: the
  handler refuses a negative cursor, and a cursor of 0 starts the list over
  (`RatingPages.FollowsExactly`, `RatingPages.BadEndInstances`).
- Beside a hand-written permission list the last-manager guard can refuse an edit it need not
  refuse; `Operators.GuardErrsExactly` says exactly when. It never lets a wrong edit through.
- The comment at cmd/telesrv-admin/security.go:197-199 says that a session of the built-in operator
  keeps the configured rights. It keeps, through every reconfiguration, the rights that were
  configured when it logged in (`OperatorSessions.BuiltInSession`); these are the configured ones if
  and only if the last reconfiguration since names the same
  (`OperatorSessions.BuiltInIsCurrentExactly`). Narrowed rights do not narrow it and a changed
  secret does not end it (`OperatorSessions.NarrowedInstance`,
  `OperatorSessions.ChangedSecretInstance`).
- The comment at cmd/telesrv-admin/adminauth.go:55-58 says that a blank user name no longer means
  the built-in operator. `authenticateLogin` does refuse it, but the login handler
  (cmd/telesrv-admin/server.go:349-351) has replaced it by then (`OperatorSessions.BuiltInLogsInExactly`).

## Model

| member | source | states |
|---|---|---|
| OtpProtocol.StepKept | cmd/otpwebhook-example/main.go:316-366 | every step of every call keeps the invariant that ties table, receipts, calls and event history together |
| OtpProtocol.RunKept | cmd/otpwebhook-example/main.go:316-366 | the invariant holds after every interleaving of any number of calls |
| OtpProtocol.DeliveriesNeverOverlap | cmd/otpwebhook-example/main.go:330-364 | two calls that are inside deliver for one delivery ID are the same call |
| OtpProtocol.SecondDeliveryIsJustified | cmd/otpwebhook-example/main.go:325-364 | between two starts for one ID the first call finished, then closed its channel with that very result, and some clock reading had reached its expiry |
| OtpProtocol.ClosedOnceByOwner | cmd/otpwebhook-example/main.go:359-364 | a channel is closed at most once, by its owner, with the result deliver returned, and is closed exactly when the receipt is marked completed |
| OtpProtocol.ResultsNeverChange | cmd/otpwebhook-example/main.go:338-365 | no continuation changes a completed receipt or a reply already given |
| OtpProtocol.SharedResultIsOwners | cmd/otpwebhook-example/main.go:335-346 | every call that returns a result returns its owner's, for the owner's exact body, whether or not the receipt was purged meanwhile |
| OtpProtocol.ConflictDeliversNothing | cmd/otpwebhook-example/main.go:330-334 | a refused call never delivered, and another call did send a different body for its ID |
| OtpProtocol.EntryIsExact | cmd/otpwebhook-example/main.go:324-355 | at the table a call delivers iff no live receipt holds its ID, is refused iff a live one has another body, and waits on a receipt iff that one is live with the same body |
| OtpProtocol.WaiterProgress | cmd/otpwebhook-example/main.go:335-346 | a waiter's next two steps return its owner's result, or its owner is between start and close, or its owner panicked, exactly one of the three, and in the last two it may still give up |
| OtpProtocol.WaiterWakes | cmd/otpwebhook-example/main.go:338-343 | once the receipt is completed, observing the closed channel and reading it gives its result in any reachable state |
| OtpProtocol.StarterOwns | cmd/otpwebhook-example/main.go:349-365 | whoever started a delivery owns that receipt and is between start and close, or panicked, or has returned its result |
| OtpProtocol.AnsweredExactly | cmd/otpwebhook-example/main.go:357-364 | some continuation answers a waiter if and only if its owner's delivery did not panic |
| OtpProtocol.PanicWedges | cmd/otpwebhook-example/main.go:325-329 | after a panic, in every continuation: the receipt is neither completed nor purged, its waiters wait or give up, and no delivery for its ID starts |
| OtpGate.RunKeepsGate | cmd/otpwebhook-example/main.go:275-303 | in every interleaving, whoever is past the gate has a valid body, a header that names its delivery ID, and a clock reading at the gate before its expiry |
| OtpGate.StartedWasShown | cmd/otpwebhook-example/main.go:275-303 | the same of every call that ever started a delivery |
| OtpGate.GateExactly | cmd/otpwebhook-example/main.go:275-303 | a request gets past the gate iff its body is valid, its header names the body's delivery ID and the clock stands before the expiry, and is answered at once otherwise; the table is not touched |
| OtpGate.CallerAtWedgedId | cmd/otpwebhook-example/main.go:325-347 | who comes to the table for a wedged ID sent the same body and passed the gate before its expiry, and waits for good, or sent another body and is refused |
| OtpGate.PanicInstance | cmd/otpwebhook-example/main.go:357-364 | a concrete run: the owner panics, the same request repeated before expiry is never answered, and a fresh one after it gets a conflict |
| OtpGate.SecondDeliveryStraddles | cmd/otpwebhook-example/main.go:275-366 | with a clock that does not run backwards, a body is delivered twice only if the second deliverer read the clock before the expiry at the gate and some call then read it at or after the expiry before that delivery started |
| OtpGate.StraddlingInstance | cmd/otpwebhook-example/main.go:275-366 | a run in which one call does both readings and delivers the body again |
| OtpGate.PurgedByAnotherInstance | cmd/otpwebhook-example/main.go:322-329 | a run in which no call does both, and the body is delivered again |
| OtpService.Application.PurgeExpired | cmd/otpwebhook-example/main.go:325-329 | the deleting loop leaves exactly the receipts that are not both completed and expired |
| OtpService.Application.EnterLocked | cmd/otpwebhook-example/main.go:324-355 | the first locked section takes the decision and makes the table of the step machine, and touches no existing receipt |
| OtpService.Application.CompleteLocked | cmd/otpwebhook-example/main.go:359-364 | the last locked section completes the caller's own receipt and no other |
| OtpService.Application.ReadLocked | cmd/otpwebhook-example/main.go:340-343 | a waiter reads the receipt it holds, in the table or not |
| BlobStorage.RangeReader.Fill | cmd/blobmigrate/main.go:208-219 | a refill succeeds iff the call succeeds and the object is there with the expected size, and then the buffer is the next bytes |
| BlobStorage.RangeReader.Take | cmd/blobmigrate/main.go:221-224 | hands out the bytes between the old and the new offset and nothing else of the caller's buffer changes |
| BlobStorage.RangeReader.Read | cmd/blobmigrate/main.go:200-225 | end of file iff the offset has reached the total, failure iff a needed range is wrong, progress otherwise; exact bytes |
| BlobStorage.ReadSequence | cmd/blobmigrate/main.go:187-225 | for every sequence of read sizes the output is the object's prefix up to the offset, every non-empty read gains a byte, and the stream ends exactly at the total |
| BlobStorage.CopyAll | internal/app/files/blobfs.go:142-170 | draining the reader yields the whole object or fails; it fails only for a missing, resized or failing object |
| BlobStorage.EqualBytes | cmd/blobmigrate/main.go:227-236 | the accumulated difference is zero iff the two are equal |
| MigrationSteps.RunsCompose | cmd/blobmigrate/main.go:88-126 | a run after a run is one run of steps: reruns compose |
| MigrationSteps.CrashIsLegal | cmd/blobmigrate/main.go:88-126 | cut off after any step, what was done is again a legal run |
| MigrationSteps.MigrationIsSafe | cmd/blobmigrate/main.go:96-114 | over any number of runs in either direction cut off anywhere, with host crashes anywhere: S3 loses nothing, the local backend nothing while the host is up, rows change only their label, and a row that resolved or was relabelled has its full, digest-matching object unless a crash hit that very file |
| MigrationSteps.OriginalBytesSurvive | cmd/blobmigrate/main.go:158-185 | a row that resolved before and was hit by no host crash still resolves to the same bytes |
| MigrationSteps.CrashResolvesExactly | internal/app/files/blobfs.go:91-140 | after a host crash a row still resolves iff its object is not a local file that was not written back and is gone or cut short |
| MigrationSteps.SurvivesExactly | internal/app/files/blobfs.go:91-140 | a row survives every host crash iff its object is not local or was written back |
| MigrationSteps.RelabelSurvivesExactly | cmd/blobmigrate/main.go:103-112 | right after a relabelling: iff it went to S3 or the file has been written back |
| MigrationSteps.WriteBackProtects | internal/app/files/blobfs.go:91-140 | once the system has written its files back, every row that resolves survives every host crash |
| MigrationSteps.HostCrashInstance | internal/app/files/blobfs.go:106-140 | copy to the local backend, relabel, crash: the row is lost where it points while S3 still has the object |
| MigrationSteps.TornBlocks | internal/app/files/blobfs.go:121-127 | a local file that is not its object's content is taken for a finished copy, and no run ever moves the row there |
| MigrationSteps.RelabelResolvesExactly | cmd/blobmigrate/main.go:175-184 | without further assumptions a relabelled row resolves iff its object is not empty or the destination's object under its key is |
| MigrationSteps.EmptyObjectGap | internal/app/files/blobfs.go:91-140 | an instance where it does not: a stray local file under the empty object's key is accepted |
| MigrationTool.Database.Group | internal/store/postgres/blob_migration.go:66-77 | an object is listed, describing all its rows, iff they agree on size and digest and the key is that digest's; otherwise an error |
| MigrationTool.Database.List | internal/store/postgres/blob_migration.go:20-84 | a page is in key order behind the cursor, skips no key, is within the limit, and is empty iff no key is left |
| MigrationTool.Database.Move | internal/store/postgres/blob_migration.go:86-111 | relabels all rows of the object or none; success means it did and the count was as expected, while an error may come after the fact |
| MigrationTool.PutReader | internal/app/files/blobfs.go:91-140 | only the reader's own content is ever published, under its own digest and never over an existing object; when nothing fails it is published iff its key is free, and reported stored iff S3 does not hold another size under it |
| MigrationTool.MigrateObject | cmd/blobmigrate/main.go:158-185 | takes at most one legal publishing step; success establishes that the destination holds the full object, up to the empty-object gap; when nothing fails it succeeds iff the source has the object as listed and what already stands at the destination agrees |
| MigrationTool.BelowIsStrictTotal | internal/store/postgres/blob_migration.go:20-84 | object keys are strictly and totally ordered |
| MigrationTool.NoGap | cmd/blobmigrate/main.go:96-114 | no source row lies between two neighbouring items of a page |
| MigrationTool.CursorMoves | cmd/blobmigrate/main.go:113-113 | moving the cursor to an item passes that object's rows and no other row |
| MigrationTool.CursorStep | cmd/blobmigrate/main.go:100-113 | each item raises the counts by exactly its one object and its rows and leaves fewer rows ahead, the termination measure |
| MigrationTool.TableAdvances | cmd/blobmigrate/main.go:107-113 | relabelling the item's object turns the table of the old cursor into the table of the new one |
| MigrationTool.MigrateOne | cmd/blobmigrate/main.go:103-112 | an object is copied and relabelled by legal steps, or the attempt stops after legal steps; when nothing fails, iff the object can be copied |
| MigrationTool.MigratePage | cmd/blobmigrate/main.go:96-114 | a page moves the cursor to its last key with every passed object migrated, or stops after legal steps |
| MigrationTool.MigrateAll | cmd/blobmigrate/main.go:82-116 | the paging loop terminates; every outcome is a legal run in one direction, and a normal one has passed, counted and relabelled exactly the source rows with a non-empty key |
| MigrationTool.Run | cmd/blobmigrate/main.go:33-126 | for any flags and configuration: the source is only read, a dry run changes nothing, unacceptable arguments do nothing, every outcome is a legal run, and a normal exit reports the exact numbers of objects, rows and bytes; a table whose objects can be copied stays one whatever happens, and when nothing fails the command gets to a normal exit on it |
| MigrationTool.RunAgain | cmd/blobmigrate/main.go:88-126 | whatever cut a run off, one after it in which nothing fails carries the migration to its end |
| MigrationTool.FlagReads | cmd/blobmigrate/main.go:40-41 | a flag names a backend in any case and with white space around it |
| MigrationTool.LeftOnSource | cmd/blobmigrate/main.go:83-89 | after a normal exit a row is on the source iff it was there under the empty key |
| MigrationTool.EmptyKeyInstance | internal/store/postgres/blob_migration.go:30-45 | with one row under the empty key the command exits normally, reports nothing and changes nothing |
| MigrationTool.NothingAhead | cmd/blobmigrate/main.go:93-95 | an empty page means every source row with a non-empty key has been passed and counted |
| StartupGate.RequireConfigured | cmd/telesrv/blob_storage.go:22-41 | the gate opens iff every row is on the configured backend; otherwise it reports each other populated backend once with its row count |
| StartupGate.MixedNeverStarts | cmd/telesrv/blob_storage.go:19-41 | no configuration starts on rows on two backends |
| StartupGate.GateOverMigration | cmd/telesrv/blob_storage.go:22-41 | in every state a cut-off migration leaves, host crashes included: no configuration starts while rows are on both sides, the destination starts once none is left on the source, and whatever starts serves every row that no crash hit its original bytes |
| StartupGate.MigrateThenStart | cmd/telesrv/blob_storage.go:22-41 | migrated from end to end, the server starts on the destination iff no row had an empty key; then every row serves the bytes it served before, and goes on doing so through every host crash iff the destination is S3 or its file was written back; when nothing fails and every object can be copied, the migration gets there |
| StartupGate.OnlyTwoLabels | cmd/blobmigrate/main.go:96-114 | a one-way run puts no row on any third backend |
| KeyRotation.RetireActive | cmd/telegramloginkeygen/main.go:189-213 | the loop succeeds iff every publish time is readable and there is exactly one active key of the algorithm, and then prunes and retires as specified |
| KeyRotation.KeptMembers | cmd/telegramloginkeygen/main.go:189-210 | what survives are exactly the entries that have not expired, retired where due |
| KeyRotation.KeptActives | cmd/telegramloginkeygen/main.go:201-208 | after the loop no key of the algorithm is active and every other algorithm's count is unchanged |
| KeyRotation.RetireKeepsItsPromise | cmd/telegramloginkeygen/main.go:113-120 | despite dropping the fraction of a second, the publish time lies beyond token lifetime plus ten minutes less one second |
| KeyRotation.RetireUntilExactly | cmd/telegramloginkeygen/main.go:207-207 | the stored publish time is the end of the window less the fraction of its second |
| KeyRotation.RotationKeepsInv | cmd/telegramloginkeygen/main.go:177-220 | a rotation keeps the whole manifest invariant, including the promise made to every key retired earlier |
| KeyRotation.ReachableInv | cmd/telegramloginkeygen/main.go:128-149 | every manifest reachable from init by rotations satisfies it |
| KeyRotation.ReachableLoads | internal/app/telegramlogin/keyfiles.go:41-95 | every reachable manifest is one the server loads: one active key per algorithm, at most 32 keys, a publish time on exactly the inactive ones, distinct key IDs |
| KeyRotation.KeyIdsNeverReused | cmd/telegramloginkeygen/main.go:343-363 | a later rotation never takes a key ID any earlier manifest held |
| KeyRotation.TokenOutlived | cmd/telegramloginkeygen/main.go:113-120 | over any rotations, a token signed before its key was retired or up to ten minutes less one second after finds the key published until it expires |
| KeyRotation.MarginIsTight | cmd/telegramloginkeygen/main.go:207-207 | one nanosecond later that fails: a rotation from the initial manifest on the last nanosecond of a second |
| KeyRotation.FullIsFinal | cmd/telegramloginkeygen/main.go:186-188 | no sequence of rotations changes a manifest of 32 keys |
| KeyRotation.RotatesExactly | cmd/telegramloginkeygen/main.go:113-188 | a reachable manifest admits a rotation iff it holds fewer than 32 keys, the algorithm is one of three, the lifetime is from a minute to a day, the window from ten minutes more to ninety days, the clock has not run back and the key ID is fresh |
| KeyRotation.FullInstance | cmd/telegramloginkeygen/main.go:186-218 | 29 rotations from init fill the manifest, after which nothing rotates |
| KeyRotation.CommandLineAlgorithms | cmd/telegramloginkeygen/main.go:71-71 | whatever is typed, trimmed and upper-cased by any map that leaves no lower-case letter, only RS256 and ES256 can be rotated; EdDSA never |
| KeyFiles.StepKeepsInv | cmd/telegramloginkeygen/main.go:307-363 | every file-system step, failure and crash keeps the manifest whole and every key it ever held on disk, provided a crash drops no directory entry older than the manifest it leaves |
| KeyFiles.RunsKeepInv | cmd/telegramloginkeygen/main.go:307-363 | so does every sequence of them |
| KeyFiles.ManifestAlwaysWhole | cmd/telegramloginkeygen/main.go:214-219 | at every point of every such run the visible manifest is complete, loads, and every entry's key file is completely written and synced |
| KeyFiles.WholeExactly | cmd/telegramloginkeygen/main.go:307-363 | after any crash, whatever directory operations it dropped, the manifest is whole iff none of the files it lists lost its entry |
| KeyFiles.CanBreakExactly | cmd/telegramloginkeygen/main.go:337-339 | some crash breaks the visible manifest iff it lists a key whose directory entry was not written back |
| KeyFiles.RotationCanLoseItsKey | cmd/telegramloginkeygen/main.go:214-219 | right after a rotation whose key file was not written back before the rename, some crash does |
| KeyFiles.FirstRotationCanLoseItsKey | cmd/telegramloginkeygen/main.go:214-219 | the first rotation in any initialised directory, step by step without a fault, ends in such a state |
| KeyFiles.FailEndsIdle | cmd/telegramloginkeygen/main.go:102-108 | a run that fails gives its lock back, and its clean-up removes its own half-written file and nothing else |
| KeyFiles.BeginsExactly | cmd/telegramloginkeygen/main.go:102-107 | a rotation begins iff nothing else runs or has left its lock, the manifest admits it and no file has its key's name |
| KeyFiles.StaleLock | cmd/telegramloginkeygen/main.go:102-108 | a crash in the middle of a run leaves the lock behind, and no rotation begins until it is removed by hand |
| KeyFiles.RotationsCompose | cmd/telegramloginkeygen/main.go:102-120 | the steps of any commands with fresh names, one run after the other without a fault, end at rest and unlocked with the manifest of the rotations that are accepted |
| KeyFiles.WriteBackProtects | cmd/telegramloginkeygen/main.go:337-339 | once the directory is written back no crash breaks the visible manifest |
| KeyFiles.SyncProtects | cmd/telegramloginkeygen/main.go:355-360 | before its sync a key file can be torn by a crash, after it its data cannot |
| KeyFiles.OldOrNew | cmd/telegramloginkeygen/main.go:307-341 | a step shows the old manifest, at the rename the complete next one, or after a crash an earlier complete one |
| KeyFiles.HistoryIsRotations | cmd/telegramloginkeygen/main.go:177-220 | whatever crashes, every manifest the disk may show is the end of a sequence of rotations from init, so the key and token guarantees apply |
| KeyFiles.KeyFileInjective | cmd/telegramloginkeygen/main.go:267-271 | different key IDs have different files, so exclusive creation makes key IDs unique |
| Base64Url.RoundTrip | cmd/telesrv-admin/session.go:65-68 | decoding what was encoded gives back every byte string |
| Base64Url.EncodedText | cmd/telesrv-admin/session.go:65-69 | encoded text holds no dot and no line break |
| Base64Url.JoinSplit | cmd/telesrv-admin/session.go:83-86 | regrouping eight bits into six and back loses nothing, whatever the length modulo three |
| Base64Url.SymbolIs | cmd/telesrv-admin/session.go:65-65 | the alphabet is that of Table 2 of RFC 4648 |
| Base64Url.CutsInFour | cmd/telesrv-admin/session.go:65-65 | three bytes and the four values they are cut into write the same number, high bits first |
| Base64Url.LineBreaksSkipped | cmd/telesrv-admin/session.go:83-86 | a line break anywhere in the text makes no difference to what is decoded |
| Base64Url.Vectors | cmd/telesrv-admin/session.go:65-65 | the first test vectors of section 10 of RFC 4648, unpadded |
| Session.SignedVerifies | cmd/telesrv-admin/session.go:60-95 | verifying a signed session returns the signed claims iff their actor is not empty and their expiry lies ahead |
| Session.AcceptedExactly | cmd/telesrv-admin/session.go:72-95 | a cookie is accepted with given claims iff it is a dot-free payload, one dot, and the encoded MAC of that payload, and the payload decodes to these claims and they are current |
| Session.PartsOfJoin | cmd/telesrv-admin/session.go:73-76 | two dot-free strings joined by a dot split into these two |
| Session.JoinOfParts | cmd/telesrv-admin/session.go:73-76 | a string with two parts has exactly one dot, between them |
| Permissions.NormalisePermissions | cmd/telesrv-admin/adminusers_api.go:166-184 | the loop, which leaves early at a wildcard, yields the wildcard alone or the distinct trimmed names in order |
| Permissions.NewPanelPermissions | cmd/telesrv-admin/security.go:312-329 | the flag, the set and the list built in one loop agree with each other and with those names |
| Permissions.NamesMeaning | cmd/telesrv-admin/security.go:312-338 | a name is granted iff it is not empty and some entry trims to it |
| Permissions.NormalisingKeepsRights | cmd/telesrv-admin/adminusers_api.go:163-184 | normalising is idempotent and changes no right |
| Permissions.StoredHasAgrees | cmd/telesrv-admin/adminusers.go:123-134 | the SQL test never claims a right the panel does not grant, and on a normalised list says the same |
| Strings.TrimExactly | cmd/telesrv-admin/security.go:315-315 | trimming takes white space off both ends, all of it, and nothing else |
| Strings.TrimAround | cmd/telesrv-admin/security.go:315-315 | what stands between white space is what trimming leaves |
| Strings.SpaceExactly | cmd/telesrv-admin/security.go:315-315 | white space is that of Unicode, by code point |
| Strings.LowerExactly | cmd/telesrv-admin/adminusers.go:55-63 | lower-casing maps one alphabet to the other and leaves everything else |
| Operators.Console.CheckManagerRemoval | cmd/telesrv-admin/adminusers_api.go:461-483 | over the live table, the guard's verdict as specified |
| Operators.Console.Create | cmd/telesrv-admin/adminusers_api.go:53-89 | the whole new table and answer of a create: validation, reserved name, case-insensitive uniqueness, stored list |
| Operators.Console.Update | cmd/telesrv-admin/adminusers_api.go:102-126 | the whole new table of a guarded update, which keeps the epoch |
| Operators.Console.SetPassword | cmd/telesrv-admin/adminusers_api.go:131-147 | the whole new table of a password change, which moves the epoch on or overflows without effect |
| Operators.Console.Delete | cmd/telesrv-admin/adminusers_api.go:152-161 | the whole new table of a guarded delete |
| Operators.CredentialsExactly | cmd/telesrv-admin/adminauth.go:122-156 | which passwords and which names are refused: all white space or over 72 bytes; shorter than 3, longer than 64, or other than ASCII letters, decimal digits and three signs |
| Operators.AnswersExactly | cmd/telesrv-admin/adminusers_api.go:53-161 | for every command on every table exactly which answer it gets, first reason first, and that nothing changes unless it is done |
| Operators.CommandKeepsManager | cmd/telesrv-admin/adminusers_api.go:446-483 | on any table whatever, no command takes the last enabled manager away |
| Operators.CommandKeepsTable | deploy/migrations/0206_admin_console_users.up.sql:13-39 | commands keep lists normalised, names unique up to case and none of them reserved |
| Operators.ManagerForever | cmd/telesrv-admin/adminusers_api.go:461-483 | over every run of commands, once an enabled manager exists one always does |
| Operators.GuardIsExact | cmd/telesrv-admin/adminusers_api.go:461-483 | on a table the commands built, the guard refuses exactly the edits that would leave no enabled manager |
| Operators.GuardErrsExactly | cmd/telesrv-admin/adminusers_api.go:461-483 | on any table the guard passes no edit that removes the last manager, and refuses one it need not iff another enabled row has the right only by the panel's reading and none has it word for word |
| Operators.GuardWithoutNormalisation | cmd/telesrv-admin/adminusers.go:123-134 | beside a hand-written row with a blank in its list, the guard refuses an edit that would have left a manager |
| OperatorSessions.Reachable | cmd/telesrv-admin/adminauth.go:75-99 | in every interleaving of edits, credential reads and later mints, each login is as old as the epoch it carries says |
| OperatorSessions.EditKeepsBased | cmd/telesrv-admin/adminusers_api.go:131-147 | no edit takes an epoch back, and a changed password moves it past every earlier credential read |
| OperatorSessions.AcceptedSession | cmd/telesrv-admin/security.go:206-218 | an accepted named session has an enabled row whose password is the one it logged in with, acts under that row's name, and gets exactly that row's rights |
| OperatorSessions.ChangeEndsOldSessions | cmd/telesrv-admin/adminusers_api.go:128-147 | no session based on a credential read before a password change is accepted after it, even when minted after it |
| OperatorSessions.UpdateActsAtOnce | cmd/telesrv-admin/adminusers_api.go:91-126 | from its next request on, an updated operator's session has exactly the rights asked for, or is refused when disabled; nobody else's rights move |
| OperatorSessions.CreatedCanLogIn | cmd/telesrv-admin/adminusers_api.go:53-89 | a created operator logs in under any spelling of the name, iff enabled and with that password, with exactly the rights asked for, under a new ID and epoch 1 |
| OperatorSessions.NameFinds | cmd/telesrv-admin/adminusers.go:55-72 | the case-insensitive lookup is unambiguous: any spelling of a row's name reaches that row and logs in iff it is enabled and the password fits |
| OperatorSessions.ChangedPasswordRules | cmd/telesrv-admin/adminusers_api.go:128-147 | after a password change only the new password logs in, every earlier session is refused, and the new one has the same rights |
| OperatorSessions.DeletedCannotLogIn | cmd/telesrv-admin/adminusers_api.go:149-161 | the name of a deleted operator no longer logs in |
| OperatorSessions.DeletedStaysOut | cmd/telesrv-admin/adminusers_api.go:152-161 | a deleted account's ID never comes back, so its sessions stay refused |
| OperatorSessions.BuiltInSession | cmd/telesrv-admin/security.go:206-209 | in every run a session of the built-in operator is accepted with exactly the rights configured when its credential was read, with a secret valid then, whatever was reconfigured since |
| OperatorSessions.BuiltInIsCurrentExactly | cmd/telesrv-admin/security.go:195-209 | it has the rights now configured iff there was no reconfiguration since, or the last one names the same rights |
| OperatorSessions.NarrowedInstance | cmd/telesrv-admin/security.go:206-209 | a session that keeps every right after the configuration was narrowed to none |
| OperatorSessions.ChangedSecretInstance | cmd/telesrv-admin/adminauth.go:65-70 | a session that stays accepted after its secret was changed |
| OperatorSessions.BuiltInLogsInExactly | cmd/telesrv-admin/server.go:349-403 | a blank name or any spelling of the built-in one logs in iff the secret is not empty and is the password or the token, with the configured rights, though authenticateLogin alone refuses a blank name |
| LikePattern.PrefixSearch | cmd/telesrv-admin/readstore.go:259-266 | a name matches the escaped query followed by a percent sign iff the query is its prefix |
| LikePattern.FilterIsPrefix | cmd/telesrv-admin/readstore.go:1690-1695 | the list filter, empty query included, is the prefix test |
| LikePattern.FoldAfterEscape | cmd/telesrv-admin/readstore.go:1884-1884 | folding case after escaping equals escaping after folding |
| LikePattern.OrderMatters | cmd/telesrv-admin/readstore.go:262-266 | escaping the backslash last would let a search for a percent sign match other names |
| LikePattern.EscapeConcat | cmd/telesrv-admin/readstore.go:262-266 | the three successive replacements work on each part of a query by itself |
| RatingPages.Select | cmd/telesrv-admin/readstore.go:1915-1916 | ordering and cutting gives the first rows of the order |
| RatingPages.List | cmd/telesrv-admin/readstore.go:1867-1937 | a page is the first rows behind the cursor up to the clamped limit, and says there is more iff there is |
| RatingPages.ClampMeans | cmd/telesrv-admin/readstore.go:1868-1873 | the page size is the one asked for up to 200, and 50 when none is |
| RatingPages.BehindNth | cmd/telesrv-admin/readstore.go:1909-1914 | the keyset condition on the k-th row selects exactly the rows after it in the order |
| RatingPages.CursorContinues | cmd/telesrv-admin/readstore.go:1890-1914 | the cursor of a row continues right behind it if its user ID is not 0, and restarts the list if it is |
| RatingPages.Handle | cmd/telesrv-admin/server.go:3118-3157 | the handler refuses a negative cursor or limit and otherwise answers the next rows with the cursor of the last one |
| RatingPages.HandlerPages | cmd/telesrv-admin/server.go:3144-3152 | from the start and from behind any row with a positive ID the handler answers the next page of the filtered list |
| RatingPages.FollowsExactly | cmd/telesrv-admin/server.go:3115-3152 | following the cursor finishes iff every page-ending ID is positive, and then with the whole filtered list in order; it is refused iff the first other one is negative, and never ends iff it is 0 |
| RatingPages.PositiveIdsFinish | cmd/telesrv-admin/readstore.go:1889-1936 | on a table of positive user IDs no page end is bad |
| RatingPages.BadEndInstances | cmd/telesrv-admin/readstore.go:1890-1893 | a table of two rows for either failure |
| RatingPages.OrderedIsSorted | cmd/telesrv-admin/readstore.go:1915-1915 | the order lists every row once, each before those after it by level, stars and user ID |
| PythonBytes.OctalEnd | cmd/stickerseeddeploy/main.go:304-308 | the index loop stops behind the longest run of at most three octal digits |
| PythonBytes.EscapeAt | cmd/stickerseeddeploy/main.go:271-317 | the switch reads the escape at the index, with its index jump, or fails |
| PythonBytes.PythonBytesLiteralToHex | cmd/stickerseeddeploy/main.go:256-320 | the loop with its jumps computes the decoding of the literal, piece by piece |
| PythonBytes.HexInjective | cmd/stickerseeddeploy/main.go:319-319 | different byte strings have different hex |
| PythonBytes.HexAt | cmd/stickerseeddeploy/main.go:319-319 | hex is two lower-case digits a byte, the high one first, at every index |
| PythonBytes.LiteralExactly | cmd/stickerseeddeploy/main.go:256-263 | a text is left alone iff it does not start with b and a quote or is too short, and fails when it does not end with that quote |
| PythonLiterals.EscapesAgree | cmd/stickerseeddeploy/main.go:276-292 | the ten simple escapes are the reference's, code point by code point |
| PythonLiterals.HexAgrees | cmd/stickerseeddeploy/main.go:293-302 | hexadecimal digits are read in both cases by place value |
| PythonLiterals.OctalNumberAgrees | cmd/stickerseeddeploy/main.go:304-313 | octal digits are read by place value |
| PythonLiterals.PieceDecodes | cmd/stickerseeddeploy/main.go:266-318 | the decoder reads every character and escape a bytes literal that is not raw can hold as one byte or an error and goes on right behind it |
| PythonLiterals.PlainDecodes | cmd/stickerseeddeploy/main.go:266-318 | a body of plain pieces decodes to what Python reads |
| PythonLiterals.NeverCatchesUp | cmd/stickerseeddeploy/main.go:303-317 | once the decoder has put out bytes Python has not, or has read a piece differently, its output differs from Python's for good, with or without stray quotes around the body |
| PythonLiterals.LongNeverAgrees | cmd/stickerseeddeploy/main.go:260-265 | no triple-quoted literal decodes to what Python reads |
| PythonLiterals.OtherPrefixesIgnored | cmd/stickerseeddeploy/main.go:257-259 | a literal with any prefix but b is left as it is |
| PythonLiterals.AgreesExactly | cmd/stickerseeddeploy/main.go:256-320 | for every bytes literal of Python, of any prefix and form, the decoder gives the hex of what Python reads iff the prefix is b, the form is short, and there is no unknown escape, no line continuation and no octal escape above 0o377 |
| PythonLiterals.LongInstance | cmd/stickerseeddeploy/main.go:260-265 | a triple-quoted A is read with four of its quotes |
| PythonLiterals.PrefixInstances | cmd/stickerseeddeploy/main.go:257-259 | the prefixes B, br and rb are not recognised |
| PythonLiterals.EscapeInstances | cmd/stickerseeddeploy/main.go:303-317 | one literal for each kind of escape that is read differently |
| PythonLiterals.ReprDecodes | cmd/stickerseeddeploy/main.go:256-320 | for every byte string and both quote styles, decoding its repr gives its hex |
| PythonLiterals.ReprMeans | cmd/stickerseeddeploy/main.go:256-320 | that repr is a plain Python literal for exactly that byte string |
| SeedJson.NormalizeSeedJSON | cmd/stickerseeddeploy/main.go:213-254 | the step-by-step rewrite computes the specified tree, or fails when some literal in it does |
| SeedJson.NormalizeFields | cmd/stickerseeddeploy/main.go:220-243 | replacing one key at a time in any order rewrites every field once |
| SeedJson.NormalizeItems | cmd/stickerseeddeploy/main.go:244-251 | replacing one index at a time rewrites every item once |
| SeedJson.ObjectExactly | cmd/stickerseeddeploy/main.go:215-243 | an object fails iff one of its values does, and otherwise has under every key the rewrite of exactly that key's source, the reference under its new key included, and no other keys |
| SeedJson.ArrayExactly | cmd/stickerseeddeploy/main.go:244-253 | an array fails iff an item does, and otherwise has each item's rewrite in its place; other values stay |
| SeedJson.YieldsNormal | cmd/stickerseeddeploy/main.go:213-254 | a result has no file_reference_hex and no bytes literal under "bytes" at any depth |
| SeedJson.FixedExactly | cmd/stickerseeddeploy/main.go:213-254 | normalisation leaves a tree alone iff it has neither |
| SeedJson.Idempotent | cmd/stickerseeddeploy/main.go:213-254 | normalising twice is normalising once |
| SeedJson.HexIsNoLiteral | cmd/stickerseeddeploy/main.go:256-259 | hex output is never taken for a bytes literal again |
| ReviewCommands.VerdictExactly | internal/admin/botverification.go:294-806 | each of the fourteen closures, once it has asked all it asks, passes iff a flat condition on the records it had to read holds, and the real run then makes the one call that is due, keeping a verifier's kill switch |
| ReviewCommands.PreflightMeans | internal/admin/botverification.go:854-880 | the icon scan refuses iff the first entry for the document is inactive or another verifier's |
| ReviewCommands.SameQuestions | internal/admin/verification.go:137-328 | a dry run asks exactly what the real run asks |
| ReviewCommands.RefusalMeans | internal/admin/verification.go:442-453 | a decision is refused for its status iff there is no way from it, and for a conflict iff there is one and the version has moved |
| ReviewCommands.WaysMean | internal/domain/verification.go:109-128 | the ways of both status machines are exactly the listed ones |
| ReviewCommands.VerifierRefusals | internal/admin/botverification.go:817-830 | a missing, moved or switched-off verifier is refused under its own code, and a failing read under the error it gave |
| ReviewCommands.TargetRefusals | internal/admin/verification.go:370-386 | an approval is refused for its target with the target's own reason or the read's own error, a revocation for a built-in account of either kind |
| ReviewCommands.UnchangedStillHolds | internal/admin/botverification.go:294-806 | two runs that got no different answer to the same question decide alike |
| ReviewCommands.VersionDecides | internal/admin/verification.go:436-453 | under the optimistic lock, a dry run over an open application holds for a later real run iff the version is unchanged, or the decision has been taken meanwhile, and for an approval the target is still eligible |
| ReviewCommands.RequestVersionDecides | internal/admin/botverification.go:976-995 | the same for a request to a verifier, whose switch must still be on |
| ReviewCommands.DryRunCanExpire | internal/admin/verification.go:165-170 | an application that moves on in between |
| RecordStore.VersionIdentifies | internal/store/postgres/verification.go:307-531 | over any statements of the store a version only grows, and while it is the same the record is |
| RecordStore.DryRunHoldsExactly | internal/store/postgres/verification.go:490-531 | the lock derived: over any statements between the two reads, exactly when a dry run over an open application still holds |
| RecordStore.RequestRunHoldsExactly | internal/store/postgres/bot_verification.go:875-914 | the same for a request to a verifier |
| CommandJournal.StepKeepsInv | internal/admin/service.go:5288-5368 | every journal statement, read, call, failure and death of any process keeps the joint invariant of journal, processes and calls made |
| CommandJournal.Reachable | internal/admin/service.go:5288-5368 | so does every interleaving |
| CommandJournal.AtMostOnce | internal/store/postgres/admin.go:24-49 | in every interleaving no command ID makes two calls, and each call was made under an ID bound to a real run, by the process that bound it, as its command asks and as what it heard allows |
| CommandJournal.DryRunTouchesNothing | internal/admin/verification.go:137-328 | no step of a dry run changes a record or makes a call |
| CommandJournal.AnswersAgree | internal/admin/service.go:5323-5327 | all results ever answered under one command ID are the same, that of the run that bound it, for the same request |
| CommandJournal.AnswersNeverChange | internal/admin/service.go:5378-5384 | once recorded, a command answers its result to every later submission of the same request and a conflict to any other |
| CommandJournal.RecordedExactly | internal/store/postgres/admin.go:24-49 | an unrecorded command can still be recorded iff the process that bound its ID has neither died nor returned |
| CommandJournal.AbandonedAnswers | internal/admin/service.go:5378-5384 | once the binding process died or gave up unrecorded, in every continuation every retry is answered an empty earlier result without an error, and another request a conflict |
| CommandJournal.AbandonedInstance | internal/admin/service.go:5378-5384 | a process dies before its call and the retry is answered an empty earlier result without an error |
| CommandJournal.DryRunPredicts | internal/admin/botverification.go:294-806 | however interleaved, a dry run passed iff what it heard allows the command, the real run called iff what that heard does, and if nothing both asked was answered differently the one holds for the other |
| CommandRuns.OnlyCallsChange | internal/admin/service.go:5288-5368 | no step of a process but its one call changes the records, and that leaves exactly what the service makes of them |
| CommandRuns.CallAnswers | internal/admin/service.go:5329-5368 | the answer of a process that made a call is what the service answered to that very call on the records as they stood at that step |
| CommandRuns.RecordedAnswers | internal/admin/service.go:5378-5384 | so is every result ever answered or replayed under its command ID |
| CommandRuns.HeardFromRecords | internal/admin/botverification.go:817-943 | everything a process has heard is what the service said, at some point of the run, about the record its command names |
| CommandRuns.InsertBindsExactly | internal/store/postgres/admin.go:24-49 | a command ID is bound by the first to insert it to what that one asked for, and by nobody after |
| CommandRuns.FailuresTakeEffectOrNot | internal/admin/service.go:5307-5368 | a journal statement whose answer is lost has taken effect or not, and the journal shows which |

## Left out

- SeedJson.NormalizeSeedJSON: works on tree values, so that the source's maps and slices are changed in place is not captured (the tree comes fresh from the JSON decoder, and nothing else refers to it: cmd/stickerseeddeploy/main.go:198-211); nor is the sorted order of the keys, which only decides which of several errors is reported (there is one error value here).
- MigrationTool.Run: assumes that nothing else writes the table during the run, as the tool itself asks; the counters are unbounded where the source has int64.
- MigrationTool.PutReader: staging files and multipart uploads are one publishing step; the 32-byte digest length check is not modelled.
- RatingPages.FollowsExactly: the filters are an arbitrary predicate, and the table does not change between pages.
- StartupGate.RequireConfigured: the wording and sorting of the error message, and the failure of the count query.
- KeyFiles.StepKeepsInv: a crash during `init` and the code-key rotation are not modelled; the directory is taken as written back after `init`.
- Operators.GuardIsExact: each command is atomic; two concurrent edits can both pass the guard in the source.
- OperatorSessions.Reachable: a row's password stands for its bcrypt hash; the 12-hour expiry of a session is checked in `Session.Verify`, not here; a change of the session key, which ends every session, and the order of CSRF and same-origin checks are left out.
- LikePattern.PrefixSearch: a pattern ending in a lone escape character, which escaping never produces, matches nothing here instead of being an error; characters are compared one by one without collation.
- ReviewCommands.VerdictExactly: the shape checks before the journal, notes and the details shown to the operator are left out; what the services answer and do is a parameter.
- CommandJournal.AnswersNeverChange: the audit log written with the result is not modelled, and a failing read of an existing row appears as the process dying.
- The signature check and the delivery function around deliverOnce (cmd/otpwebhook-example/main.go:195-265, 371-387): single checks. The checks of validateRequest on the body alone are one flag of the body.
- The gift catalogue collection (cmd/giftfetch/main.go) and the wallet ledger (cmd/walletminiapp/main.go): they would add easy conservation members.
- HTTP handlers, routing, proxying and the wiring of the server; blob capacity accounting.
- The ListAccounts and ListChannels cursors: floating-point conversion inside SQL.
- Real cryptography, PEM, bcrypt and JSON text.
