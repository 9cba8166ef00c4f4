# Computeza control plane: a verified model

Computeza is a single-binary control plane for a data platform. This project
models the parts of it that keep state over long runs, and proves what those
parts promise over every run: the signed audit log, the state store and its
studio files, the PostgreSQL reconciler, the release directories of the
installers, the secrets store across boots, the bundle fetcher, the model-card
registry, the systemd unit printer and the port suggestion.

Code that changes things step by step is a class or a method with a loop.
Where a process may stop between two file operations, or where many clients
interleave, the same code is also a state machine over its single steps.
Laws that come from elsewhere are hypotheses, never axioms: a JSON codec
round-trips and yields non-empty lines without newlines, a cut or glued line
does not decode, signatures have 64 bytes and check, decryption undoes
encryption. The hash is any function.
`Instances.dfy` gives concrete values that meet the hypotheses.

| file | what it holds |
|---|---|
| Common, StringOrder | options, results, repeated steps; byte-wise string order and sorting |
| Timestamps | RFC 3339 (section 5.6) and release-id timestamps, and their order |
| JsonLines, Encodings | record files, torn and glued lines; hex and base64 (section 4 of RFC 4648) |
| Audit, AuditLog | verifier, tamper evidence; writer, recovery, runs with failed writes |
| Store, Transactions | rows under optimistic concurrency; interleaved transactions |
| Studio, StudioHistory | files, trash, purge, revisions; runs of them with failed updates |
| Sql, Reconciler, Convergence | DDL text; plan and apply; the reconcile loop |
| Release, Install | retention and the swap; installs with failures and crashes |
| Secrets, SecretsBoot | the ciphertext file; boots, puts, deletes, crashes |
| Fetch, ModelCards, SystemdUnit, Ports | the four smaller pieces |
| Instances | concrete codecs and suites for the hypotheses |

## What holds only under a condition

Each of these is a promise or an expectation that the code does not meet in
general; the project proves when it does.

- The audit log can be opened after a run exactly when no append was cut inside
  its event and none wrote behind a line that lacks its newline
  (`AuditWriter.RunsReadIffWhole`). It verifies exactly when, besides, every
  append that failed after its event had landed was followed by a reopen before
  the next event landed (`AuditWriter.RunsVerifyIffDisciplined`). A retry on the
  same handle breaks it for good (`AuditWriter.RetryAfterFailedAppendBreaksTheLog`).
- `crates/computeza-audit/src/lib.rs:17` says that truncation breaks the chain.
  Cutting whole lines off the tail does not (`Audit.TruncatedTailIsAccepted`);
  a remembered head detects it (`Audit.RememberedHeadDetectsTruncation`).
- `crates/computeza-audit/src/key.rs:68` says base64 without padding; the code
  uses the padded alphabet, and the model follows the code.
- `crates/computeza-audit/src/log.rs:210` says a partly corrupt last line does
  not poison recovery; a line that does not parse makes `open` fail.
- The empty workspace name is the cluster scope (`State.WorkspaceRoundTrip`,
  `State.KeysShareARow`).
- The PostgreSQL server cuts identifiers to 63 bytes and the reconciler does not
  check their length. The server reads exactly the planned statement, the plan
  resumes, and a full apply converges, exactly when the names fit
  (`Sql.ServerReadsThePlan`, `Convergence.ResumesIffNamesFit`,
  `Convergence.FullApplyConverges`; failing input `Convergence.LongNameIsPlannedAgain`).
- One reconcile goes through exactly on acceptable specs
  (`Convergence.ReconcilesIffAcceptable`). Observing, planning and applying over
  and over falls quiet exactly when names and owners are valid, names fit, no
  system database is asked for, the server takes the first entry of every
  missing database and, with prune, every extra has a valid name
  (`Convergence.LoopConvergesIff`). A missing database listed twice only costs
  another turn (`Convergence.DuplicateTakesAnotherTurn`).
- A failed or interrupted install leaves `current` alone exactly when it ended
  before the cleaning that follows the swap; otherwise its own release is
  current (`Install.InstallKeepsCurrentIffEndedBeforeSwap`). Reusing a release
  id is harmless exactly when it is not the current one
  (`Install.ReusedIdIsSafeIffNotCurrent`).
- Pruning protects the current release only when it can read the link: an error
  counts as no link. `current` survives a prune exactly when the link was read,
  or its release was not listed or is among the newest three listed
  (`Install.CurrentSurvivesPruneIff`); under that condition and with fresh ids it
  always serves a good release (`Install.AlwaysServing`).
- Release ids order as their times exactly when the seconds differ or the
  version texts do not ascend (`Timestamps.ReleaseIdsAreChronological`); within
  one second the version text decides (`Timestamps.ReleaseIdOrder`), which is
  not version order (`Timestamps.SameSecondSortsByVersionText`).
- A file's revision history is lossless exactly when no update failed, or was
  cut off, between its snapshot and its UPDATE, be it for a taken path or for
  any other reason (`StudioHistory.HistoryIsLossless`).
- Over ciphertext, passphrase and salt file stay the same over a whole run exactly
  when no generated passphrase other than the stored one is renamed into place
  and every salt step was probed (`SecretsBoot.KeyFilesStayIff`,
  `SecretsBoot.ReplacesOnlyUnprobed`): an error of an existence probe counts as
  absence and the file is replaced, which makes the stored secrets unreadable.
- The model-card file reads as the cache unless a call since the last successful
  rewrite or seeing reopen touched one side only (`ModelCards.InStepUnlessApart`;
  per call `ModelCards.StaysInStepIff`): a create that failed after bytes had
  landed, a failed rewrite, or a reopen whose existence probe erred, which opens
  empty over a file with cards and returns Ok. Ids stay distinct exactly when
  every card that landed had an id that the file did not have
  (`ModelCards.DistinctIffGuarded`); the code checks the cache instead, and three
  ways to break it are `ModelCards.CreateAfterFailedDeleteDuplicates`,
  `ModelCards.RetryAfterFailedSyncDuplicates` and
  `ModelCards.BlindReopenDuplicatesOrLoses`.
- A printed unit reads back exactly when commands have no newline and the
  environment has no newline, no double quote and no equals sign in a key
  (`SystemdUnit.UnitReadsBackIff`, `SystemdUnit.EqualsInKeyIsAmbiguous`); the
  code asserts only on double quotes in values, and only in debug builds.

## Model

| member | source | states |
|---|---|---|
| Audit.VerifyLog | crates/computeza-audit/src/verify.rs:73-137 | the walk accepts exactly the logs whose events form a signed chain, so every signature decodes to 64 bytes that the key accepts, with their number and final head; otherwise it names the first offending event and why |
| Audit.LinkMeans | crates/computeza-audit/src/verify.rs:102-122 | a link in terms of number, hash and key alone |
| Audit.WhatIsReported | crates/computeza-audit/src/verify.rs:89-122 | after a good beginning each kind of wrong line, a refused signature among them, is the first offence with its own error and values |
| Audit.OffenceRejects | crates/computeza-audit/src/verify.rs:89-122 | an offending line rejects the log whatever follows it |
| Audit.TruncatedTailIsAccepted | crates/computeza-audit/src/verify.rs:84-133 | accepted logs are closed under cutting whole lines off the end |
| Audit.PreimageInjective | crates/computeza-audit/src/verify.rs:117-127 | equal hash inputs of validly signed events are equal events, because the signature width is fixed |
| Audit.TamperEvident | crates/computeza-audit/src/verify.rs:89-132 | two non-empty chains with one final head are equal, or an explicit pair of colliding hash inputs is returned |
| Audit.AcceptedLogsTamperEvident | crates/computeza-audit/src/verify.rs:89-132 | the same for any two files the verifier accepts |
| Audit.RememberedHeadDetectsTruncation | crates/computeza-audit/src/verify.rs:62-69 | a shortened log with the remembered head yields a collision, and one cut to nothing a hash input for 32 zero bytes |
| Encodings.RoundTrip64 | crates/computeza-audit/src/key.rs:69-72 | strict base64 decoding undoes encoding for every byte string |
| Encodings.SixtyFourBytesAre88Symbols | crates/computeza-audit/src/key.rs:76-85 | only 88-symbol strings pass the 64-byte signature check |
| Encodings.HexInjective | crates/computeza-audit/src/verify.rs:125-127 | different digests have different hex forms |
| Encodings.HexDigits | crates/computeza-audit/src/verify.rs:125-127 | the hex form has two lower-case digits per byte, the high one first |
| Encodings.TestVectors64 | crates/computeza-audit/src/key.rs:69-72 | base64 with padding, as in the test vectors of RFC 4648 |
| Encodings.Alphabet64 | crates/computeza-audit/src/key.rs:69-72 | the standard base64 alphabet |
| JsonLines.LinesAfter | crates/computeza-audit/src/verify.rs:84-88 | what follows a terminated file is read as further records |
| JsonLines.ParseAppend | crates/computeza-audit/src/log.rs:123-124 | appending one encoded line to a terminated file adds exactly that record |
| JsonLines.ParseRender | crates/computeza-secrets/src/store.rs:149-160 | reading a rewritten file gives back its records in order |
| JsonLines.ReadLines | crates/computeza-audit/src/log.rs:164-172 | the reading loop decodes every line or fails on a malformed one |
| AuditWriter.RecoverState | crates/computeza-audit/src/log.rs:194-219 | recovery fails exactly on a malformed line, else gives the last sequence number plus one and the hex digest of the last event |
| AuditWriter.RecoveredMeans | crates/computeza-audit/src/log.rs:194-219 | the recovered pair in terms of the last event and the hash |
| AuditWriter.AuditLog.Open | crates/computeza-audit/src/log.rs:52-103 | opening recovers the writer's memory from the file |
| AuditWriter.AuditLog.Append | crates/computeza-audit/src/log.rs:96-142 | a durable append adds one line with the caller's entry under counter and head, and advances both; a failed one leaves memory alone and however many bytes landed |
| AuditWriter.AuditLog.ListRecent | crates/computeza-audit/src/log.rs:157-177 | the file's events reversed, cut to the limit |
| AuditWriter.SealedLinks | crates/computeza-audit/src/log.rs:105-121 | the log with the next sealed event is a chain exactly when it was one and counter and head match it |
| AuditWriter.EveryRun | crates/computeza-audit/src/log.rs:52-142 | what any run of opens, appends and appends that failed after any number of bytes leaves in file and memory |
| AuditWriter.RunsReadIffWhole | crates/computeza-audit/src/log.rs:194-219 | a run leaves a readable file exactly when no append was cut inside its event and none wrote behind a missing newline |
| AuditWriter.RunsVerifyIffDisciplined | crates/computeza-audit/src/log.rs:123-136 | a readable run leaves an accepted log exactly when every failure after the event had landed is followed by a reopen before the next event lands |
| AuditWriter.RejectedForEver | crates/computeza-audit/src/log.rs:52-142 | no later call repairs a rejected or an unreadable log |
| AuditWriter.CleanRunsVerify | crates/computeza-audit/src/log.rs:96-142 | when failed appends wrote nothing the log is accepted, counts the successful appends, and its final head is the writer's chain head |
| AuditWriter.RecentEventsAreTheLastAppended | crates/computeza-audit/src/log.rs:150-177 | after a clean run the viewer's list are the entries last appended, newest first |
| AuditWriter.CleanRunsRecord | crates/computeza-audit/src/log.rs:96-142 | after a clean run the file holds exactly the entries given to the successful appends, in order |
| AuditWriter.RetryAfterFailedAppendBreaksTheLog | crates/computeza-audit/src/log.rs:123-136 | a retry on the same handle after an append that left any byte makes the log unverifiable for good |
| AuditWriter.RecoveryAgreesWithVerifier | crates/computeza-audit/src/log.rs:194-219 | on an accepted log recovery returns the verifier's count and the hex of its final head |
| State.WorkspaceRoundTrip | crates/computeza-state/src/sqlite.rs:438-449 | the workspace survives its encoding exactly when it is not the empty name |
| State.KeysShareARow | crates/computeza-state/src/sqlite.rs:435-449 | two keys share a row exactly when they are equal or name the cluster scope in the two ways |
| State.SqliteStore.Save | crates/computeza-state/src/sqlite.rs:457-549 | when a save succeeds, the row it writes and the answer it gives column by column, what stays, and which error it gives otherwise |
| State.SqliteStore.LoadRow | crates/computeza-state/src/sqlite.rs:551-567 | the columns of the row exactly when it is there, under the caller's key unless the workspace is the empty name |
| State.LoadAfterSave | crates/computeza-state/src/sqlite.rs:457-567 | a load gives what the last successful save answered, with the status that was there |
| State.LoadAfterStatus | crates/computeza-state/src/sqlite.rs:551-607 | a load gives the status last put and all else unchanged |
| State.SaveAfterLoad | crates/computeza-state/src/store.rs:87-94 | a save with the loaded revision succeeds, takes the next revision and keeps the status |
| State.LoadAfterDelete | crates/computeza-state/src/sqlite.rs:609-640 | a deleted row does not load, the others load as before |
| State.SqliteStore.PutStatus | crates/computeza-state/src/sqlite.rs:587-607 | sets status and time of the row, changes no spec, revision, uuid or key set, and fails only with NotFound |
| State.SqliteStore.DeleteRow | crates/computeza-state/src/sqlite.rs:609-640 | removes the row exactly when it exists and the expected revision, if any, matches; which error otherwise |
| State.SqliteStore.List | crates/computeza-state/src/sqlite.rs:569-585 | exactly the rows of the kind and workspace, column by column, in name order |
| State.StatementMeetsContract | crates/computeza-state/src/sqlite.rs:478-537 | deciding on the selected row and running the statement is the contract of the store |
| Transactions.NextSound | crates/computeza-state/src/sqlite.rs:463-538 | every begin, read, write, commit or abort of any client keeps the invariant |
| Transactions.Serializable | crates/computeza-state/src/sqlite.rs:457-549 | for every interleaving the table and all answers are those of a serial run in log order |
| Transactions.UndisturbedCommits | crates/computeza-state/src/sqlite.rs:463-538 | a transaction that nobody disturbs ends with the answer and effect of the contract |
| Transactions.Lifetimes | crates/computeza-state/src/store.rs:70-71 | in each row lifetime committed saves carry revisions 1, 2, 3, and the row is the last one |
| Transactions.RevisionCountsCommittedSaves | crates/computeza-state/src/sqlite.rs:485-537 | in every interleaving a row's revision is the number of saves committed in its lifetime |
| Transactions.SaveReplacesItsPredecessor | crates/computeza-state/src/sqlite.rs:512-537 | no lost update: the save that expects revision r overwrites exactly what revision r wrote |
| Transactions.OneWinnerPerRevision | crates/computeza-state/src/store.rs:87-94 | later saves of a lifetime have strictly larger revisions, so one revision has one winner |
| Transactions.StatusWritesAreInvisible | crates/computeza-state/src/store.rs:110-113 | striking out every status write changes no answer to a save or delete |
| Timestamps.Rfc3339IsChronological | crates/computeza-state/src/sqlite.rs:149-155 | string order on stored timestamps is chronological order, for every mix of fraction lengths |
| Timestamps.Rfc3339Format | crates/computeza-state/src/sqlite.rs:451-453 | the stored form: date, T, time, fraction of 0, 3, 6 or 9 digits, offset |
| Timestamps.ReleaseIdFormat | crates/computeza-driver-native/src/linux/release.rs:116-119 | the form of a release id |
| Timestamps.FractionOrder | crates/computeza-state/src/sqlite.rs:451-453 | fractions of 0, 3, 6 or 9 digits before the offset compare like their nanoseconds |
| Timestamps.SecondsOrder | crates/computeza-state/src/sqlite.rs:196-199 | calendar fields in order decide the chronological order |
| Timestamps.ReleaseIdOrder | crates/computeza-driver-native/src/linux/release.rs:112-119 | release ids sort by their second and, within one second, by the version text |
| Timestamps.ReleaseIdsAreChronological | crates/computeza-driver-native/src/linux/release.rs:112-119 | id order is time order exactly when the seconds differ or the version texts do not ascend |
| Timestamps.SameSecondSortsByVersionText | crates/computeza-driver-native/src/linux/release.rs:116-119 | the failing input: within one second 1.10.0 sorts before 1.9.0 |
| Studio.StudioFiles.Create | crates/computeza-state/src/sqlite.rs:246-267 | refused exactly when any row, live or trashed, has the path |
| Studio.StudioFiles.UpdateFile | crates/computeza-state/src/sqlite.rs:274-326 | what a successful update writes and answers field by field, which snapshot it leaves; when the UPDATE fails for a taken path or any other reason the rows stay and the snapshot remains |
| Studio.StudioFiles.TrashFile | crates/computeza-state/src/sqlite.rs:162-171 | sets the stamp of an existing row and nothing else |
| Studio.StudioFiles.Restore | crates/computeza-state/src/sqlite.rs:175-185 | clears the stamp of a trashed row and nothing else |
| Studio.StudioFiles.Delete | crates/computeza-state/src/sqlite.rs:378-384 | removes the row and exactly its revisions |
| Studio.StudioFiles.PurgeTrash | crates/computeza-state/src/sqlite.rs:191-214 | removes exactly the trashed rows that are expired or forced and returns their exact number, however often ids repeat; a failing statement ends it with what went before |
| Studio.PurgeIsByAge | crates/computeza-state/src/sqlite.rs:196-199 | a row goes by age exactly when it was trashed before the cutoff |
| Studio.ListingsPartition | crates/computeza-state/src/sqlite.rs:135-157 | every row is on exactly one of the two listings, once |
| Studio.TrashListingIsByTime | crates/computeza-state/src/sqlite.rs:147-157 | the trash listing is newest first in time |
| StudioHistory.PathsStayDistinct | crates/computeza-state/src/sqlite.rs:44-50 | over any run paths stay unique across live and trashed rows |
| StudioHistory.RunSound | crates/computeza-state/src/sqlite.rs:274-326 | over any run, whatever fails and whatever the clock does, snapshots and contents of every file agree with what was written |
| StudioHistory.ListedInOrder | crates/computeza-state/src/sqlite.rs:331-353 | ordering snapshots by time descending is the reverse of their creation |
| StudioHistory.HistoryIsLossless | crates/computeza-state/src/sqlite.rs:274-326 | snapshots in insertion order and the current content are the record of everything written, exactly when no update left a snapshot without going through |
| StudioHistory.HistoryPageIsLossless | crates/computeza-state/src/sqlite.rs:274-353 | the same of the history page, for a clock that moves forward between the updates of the file |
| Sql.QuotedDoubled | crates/computeza-reconciler-postgres/src/reconciler.rs:320-325 | a doubled quote is read back as the original text |
| Sql.StatementText | crates/computeza-reconciler-postgres/src/reconciler.rs:311-346 | the statement texts in full |
| Sql.IdentifierAlphabet | crates/computeza-reconciler-postgres/src/reconciler.rs:230-239 | which names pass validation |
| Sql.ServerReadsThePlan | crates/computeza-reconciler-postgres/src/reconciler.rs:305-346 | the server reads from the statement text the planned change with identifiers cut, the planned change itself exactly when they fit |
| Reconciler.ComputePlan | crates/computeza-reconciler-postgres/src/plan.rs:54-78 | which creates and drops are planned, for any input; postgres, template0, template1 and unpruned extras never are dropped, every other unwanted one is |
| Reconciler.PlanInOrder | crates/computeza-reconciler-postgres/src/plan.rs:54-78 | the plan position by position: creates in the order of the spec, then drops in the order observed |
| Reconciler.SystemDatabasesStay | crates/computeza-reconciler-postgres/src/plan.rs:44-46 | no list of changes removes postgres, template0 or template1 |
| Reconciler.PlanSpec | crates/computeza-reconciler-postgres/src/reconciler.rs:271-288 | a spec is planned exactly when all its names and owners are valid |
| Reconciler.ApplyOne | crates/computeza-reconciler-postgres/src/reconciler.rs:311-361 | one change goes through or leaves the server alone, and why: invalid names, an existing or missing database, refused options, no answer |
| Reconciler.Apply | crates/computeza-reconciler-postgres/src/reconciler.rs:290-377 | the server has exactly the changes up to the first failure and keeps its system databases; success counts the executed changes |
| Convergence.Resumes | crates/computeza-reconciler-postgres/src/plan.rs:30-34 | after any k changes, observing and planning again gives the remaining plan as a sequence |
| Convergence.ResumesIffNamesFit | crates/computeza-reconciler-postgres/src/plan.rs:30-34 | it does so for every k exactly when the server can hold every desired name whole |
| Convergence.LongNameIsPlannedAgain | crates/computeza-reconciler-postgres/src/reconciler.rs:230-239 | the failing input: a name of 64 letters is created cut, planned again, and refused |
| Convergence.FullApplyConverges | crates/computeza-reconciler-postgres/src/plan.rs:26-34 | a full apply plans nothing afterwards exactly when the names fit, and then leaves exactly the promised databases |
| Convergence.EmptyPlanIsSatisfied | crates/computeza-reconciler-postgres/src/plan.rs:37-41 | the plan is empty exactly when the spec is satisfied |
| Convergence.ReconcilesIffAcceptable | crates/computeza-reconciler-postgres/src/reconciler.rs:276-361 | one reconcile goes through exactly on specs a caller can recognise beforehand |
| Convergence.LoopConvergesIff | crates/computeza-reconciler-postgres/src/reconciler.rs:271-377 | the loop of observe, plan and apply falls quiet exactly on specs a caller can recognise beforehand, within as many turns as databases are missing or extra |
| Convergence.LoopKeepsSystemDatabases | crates/computeza-reconciler-postgres/src/reconciler.rs:337-340 | however often the loop turns it removes no system database |
| Convergence.DuplicateTakesAnotherTurn | crates/computeza-reconciler-postgres/src/plan.rs:57-62 | a missing database listed twice makes one apply fail and the next turn find nothing to do |
| Convergence.StepClosesAtMostOne | crates/computeza-core/src/reconciler.rs:64-65 | no single step closes the gap by more than one |
| Convergence.PlanLength | crates/computeza-reconciler-postgres/src/plan.rs:54-78 | the plan is exactly as long as the gap |
| Convergence.PlanIsMinimal | crates/computeza-core/src/reconciler.rs:64-65 | no sequence of steps that satisfies the spec is shorter than the plan |
| Convergence.FailedObservationDropsNothing | crates/computeza-reconciler-postgres/src/reconciler.rs:248-269 | planning from the sentinel of a failed observation drops nothing |
| Release.ReleaseRoot.MakeCurrent | crates/computeza-driver-native/src/linux/release.rs:177-201 | the link moves to the release or stays as it was |
| Release.ReleaseRoot.PruneReleases | crates/computeza-driver-native/src/linux/release.rs:214-257 | removes all but the newest and, if its link can be read, the active one of the entries it sees, returning exactly what was removed, oldest first; what cannot be removed may remain in part |
| Release.PruneServesIff | crates/computeza-driver-native/src/linux/release.rs:209-257 | a prune keeps current in place exactly when the link was read or its release is not listed or among the newest listed |
| Release.ShortListingPrunesLess | crates/computeza-driver-native/src/linux/release.rs:216-228 | entries that the walk over the directory misses only make the prune smaller |
| Release.PruneLeavesTheNewest | crates/computeza-driver-native/src/linux/release.rs:203-213 | what is left is the newest and the active release, at most keep plus one, and pruning again removes nothing |
| Release.NewerIsLater | crates/computeza-driver-native/src/linux/release.rs:203-206 | newer by name is a later second, or the same second and a version text that sorts later |
| Install.NextSound | crates/computeza-driver-native/src/linux/garage.rs:130-174 | every step of an install keeps the invariant of the release tree |
| Install.AlwaysServing | crates/computeza-driver-native/src/linux/kanidm.rs:160-229 | over any run of installs, failures and crashes with fresh ids and safe prunes current is absent or a probed release with its manifest |
| Install.UndisturbedInstallSucceeds | crates/computeza-driver-native/src/linux/garage.rs:130-174 | an install that nothing disturbs, of a binary that starts, ends Ok with its release current and described and the newest three kept |
| Install.CurrentSurvivesPruneIff | crates/computeza-driver-native/src/linux/garage.rs:172-174 | the prune after a swap, carried through, leaves current in place exactly when the link was read or the release is not listed or among the newest three listed |
| Install.InstallKeepsCurrentIffEndedBeforeSwap | crates/computeza-driver-native/src/linux/garage.rs:130-174 | an ended install left current as it was exactly when it failed or was cut off before the cleaning after the swap; otherwise its release is current |
| Install.ReusedIdIsSafeIffNotCurrent | crates/computeza-driver-native/src/linux/release.rs:116-126 | reusing an id is harmless exactly when it is not current |
| Install.FailureAfterSwapKeepsTheNewRelease | crates/computeza-driver-native/src/linux/garage.rs:168-174 | an error after the swap returns Err with the new release current |
| Secrets.SealedOpens | crates/computeza-secrets/src/store.rs:83-126 | what put seals, get opens |
| Secrets.GetAfterPut | crates/computeza-secrets/src/store.rs:83-136 | what is put under a name is what get opens, whatever is put or deleted under others |
| Secrets.ReadsBack | crates/computeza-secrets/src/store.rs:57-70 | reading a rewritten file gives back the whole map; its lines are in name order |
| Secrets.SecretsStore.Open | crates/computeza-secrets/src/store.rs:51-79 | the cache is the file's map; only a malformed line fails |
| Secrets.SecretsStore.Put | crates/computeza-secrets/src/store.rs:83-99 | the cache gets the sealed entry, the file the whole new map or nothing |
| Secrets.SecretsStore.Get | crates/computeza-secrets/src/store.rs:102-126 | absent, opened, or an error |
| Secrets.SecretsStore.Delete | crates/computeza-secrets/src/store.rs:129-136 | a missing name changes nothing; otherwise the cache loses it, and the file too unless the rewrite fails |
| Secrets.SecretsStore.ListNames | crates/computeza-secrets/src/store.rs:141-146 | exactly the stored names, sorted |
| Secrets.SecretsStore.WriteFile | crates/computeza-secrets/src/store.rs:149-175 | the file becomes the whole new map or stays the old one |
| SecretsBoot.BootFiles.ResolveOrGenerate | crates/computeza/src/main.rs:883-972 | environment, trimmed file, or a fresh passphrase of 64 hex digits that trimming leaves alone |
| SecretsBoot.TrimTakesBlanks | crates/computeza/src/main.rs:903-914 | trimming takes blanks off both ends and nothing else |
| SecretsBoot.BootFiles.EnsureSalt | crates/computeza/src/main.rs:982-1020 | a salt of at least 16 bytes is kept, any other is replaced |
| SecretsBoot.NextSound | crates/computeza/src/main.rs:843-1020 | every step of boots, puts, deletes, failures and crashes keeps the invariant over the three files |
| SecretsBoot.AcknowledgedSecretsReadBack | crates/computeza-secrets/src/store.rs:51-175 | over any run every acknowledged secret reads back whenever the store is up |
| SecretsBoot.UndisturbedPutIsAcknowledged | crates/computeza-secrets/src/store.rs:83-99 | a put that nothing disturbs is acknowledged and leaves the whole new map on file |
| SecretsBoot.FirstBootComesUp | crates/computeza/src/main.rs:843-869 | a first boot comes up under the key of the passphrase and salt it drew and stored |
| SecretsBoot.RestartReadsBack | crates/computeza/src/main.rs:843-869 | after any crash the next undisturbed boot comes up with all of them |
| SecretsBoot.KeyMaterialIsStable | crates/computeza/src/main.rs:974-981 | over any run from existing ciphertext passphrase, salt and key never change, and the file never goes away and is always a whole map |
| SecretsBoot.PassphraseSurvivesIffProbed | crates/computeza/src/main.rs:897-945 | the passphrase file survives a resolve exactly when the existence probe answered |
| SecretsBoot.SaltSurvivesIffProbed | crates/computeza/src/main.rs:982-1020 | so does the salt, and with it the key |
| SecretsBoot.KeyFilesStayIff | crates/computeza/src/main.rs:843-1020 | over any run from existing ciphertext, with any probes and draws, passphrase and salt file stay the same at every moment exactly when no step replaces one |
| SecretsBoot.ReplacesOnlyUnprobed | crates/computeza/src/main.rs:897-984 | those steps are the unprobed ones that the environment does not cover |
| Fetch.Sha256File | crates/computeza-driver-native/src/fetch.rs:284-296 | hashing chunk by chunk is hashing the whole file |
| Fetch.BundleCache.FetchAndExtract | crates/computeza-driver-native/src/fetch.rs:137-234 | one attempt under any one fault: when it succeeds, what is installed, when a sentinel is there, and what each error leaves; with a pin, only bytes of the pinned digest are installed and others are a checksum mismatch |
| Fetch.TrustedMeansPinned | crates/computeza-driver-native/src/fetch.rs:186-194 | comparing hex without case compares digests |
| Fetch.OnlyPinnedBytesAreInstalled | crates/computeza-driver-native/src/fetch.rs:137-234 | over any attempts and crashes all extracted bytes have the pinned digest, and the sentinel implies a complete extraction of such bytes |
| Fetch.UndisturbedFetchInstalls | crates/computeza-driver-native/src/fetch.rs:137-234 | an attempt that nothing disturbs installs matching bytes with their sentinel |
| Fetch.SentinelFreezes | crates/computeza-driver-native/src/fetch.rs:146-157 | once the sentinel is there nothing changes |
| ModelCards.ModelCardRegistry.Open | crates/computeza-compliance/src/model_card.rs:156-186 | the cache is the list of the file; a malformed line or an error fails, but an error of the probe opens an empty registry |
| ModelCards.ModelCardRegistry.Create | crates/computeza-compliance/src/model_card.rs:206-229 | what a create admits, what a failed one leaves behind, that success keeps the relation of file and cache, and that it keeps ids distinct exactly when the file lacked the id |
| ModelCards.ModelCardRegistry.Update | crates/computeza-compliance/src/model_card.rs:234-246 | replaces one card; success brings the file in step |
| ModelCards.ModelCardRegistry.Delete | crates/computeza-compliance/src/model_card.rs:250-258 | removes the card and keeps all others in order; success after a removal brings the file in step |
| ModelCards.InStepUnlessApart | crates/computeza-compliance/src/model_card.rs:156-275 | over any run the file reads as the cached list unless a call since the last successful rewrite or seeing reopen touched one side only |
| ModelCards.StaysInStepIff | crates/computeza-compliance/src/model_card.rs:156-258 | one call keeps file and cache equal exactly when it did not touch one side only, or replaced a card by itself; a reopen exactly when the probe answered or there are no cards |
| ModelCards.DistinctIffGuarded | crates/computeza-compliance/src/model_card.rs:206-275 | over any run the ids of the file stay distinct and nothing Prohibited gets in exactly when every card that landed had an id new to the file |
| ModelCards.FaultlessRuns | crates/computeza-compliance/src/model_card.rs:156-275 | without I/O errors file and cache always hold one list with distinct ids and nothing Prohibited |
| ModelCards.CreateAfterFailedDeleteDuplicates | crates/computeza-compliance/src/model_card.rs:206-258 | a create after a failed delete writes the id twice |
| ModelCards.RetryAfterFailedSyncDuplicates | crates/computeza-compliance/src/model_card.rs:218-228 | the retry of a create whose sync failed writes the id twice |
| ModelCards.BlindReopenDuplicatesOrLoses | crates/computeza-compliance/src/model_card.rs:163-180 | after a reopen whose probe erred a create repeats an id and a rewrite loses cards, with Ok each time |
| SystemdUnit.UnitReadsBackIff | crates/computeza-driver-native/src/linux/service.rs:405-500 | a reader recovers the environment pairs, the pre-start commands and the start command, in order, exactly when there is no newline, no double quote in the environment and no equals sign in a key |
| SystemdUnit.ExpectedDirectives | crates/computeza-driver-native/src/linux/service.rs:452-472 | what is recovered: pairs, then binary, blank and joined arguments per pre-start step, then binary, blank and arguments |
| SystemdUnit.WordsJoined | crates/computeza-driver-native/src/linux/service.rs:467-472 | joined arguments without blanks can be told apart again |
| SystemdUnit.UnitText | crates/computeza-driver-native/src/linux/service.rs:473-500 | the printed lines in full |
| SystemdUnit.EnvReadsBackIff | crates/computeza-driver-native/src/linux/service.rs:452-461 | a pair reads back exactly when it has no double quote and its key no equals sign |
| SystemdUnit.EqualsInKeyIsAmbiguous | crates/computeza-driver-native/src/linux/service.rs:452-461 | two different environments print one unit |
| Ports.SmartPort | crates/computeza-driver-native/src/detect.rs:91-102 | the least unclaimed port from 5432 on; 65535 exactly when every lower one is taken |
| Instances.AuditSuiteLawful | crates/computeza-audit/src/event.rs:76-82 | the laws assumed of the audit codecs and signatures, torn lines included, can be met |
| Instances.SecretsSuiteLawful | crates/computeza-secrets/src/store.rs:27-32 | the laws assumed of the secrets codec and cipher can be met |
| Instances.CardCodecLawful | crates/computeza-compliance/src/model_card.rs:76-118 | the laws assumed of the model-card codec, torn lines included, can be met |

## Left out

- AuditWriter.RunsVerifyIffDisciplined: takes as a law of JSON objects that a cut encoding does not decode, nor do encodings glued into one line; one handle and one key at a time; a reopen that fails leaves the state as it was.
- Audit.VerifyLog: sequence numbers are unbounded, so the 64-bit counter cannot overflow; read errors of the file are not modelled.
- Transactions.Serializable: SQLite's locks are abstracted to "a commit fails when its snapshot has been overtaken"; waiting, time-outs and the database file are not modelled.
- Transactions.Lifetimes: assumes that version-4 UUIDs are never drawn twice.
- Timestamps.Rfc3339IsChronological: years above 9999 and leap seconds are excluded.
- StudioHistory.HistoryPageIsLossless: with equal stamps the order of revisions is up to the database; updates of one file that overlap are not modelled.
- Studio.StudioFiles.UpdateFile: the returned `trashed_at` is always absent, as in the code, whose lookup does not select that column; revision ids are not modelled.
- Studio.StudioFiles.Create: that a call of one statement changes nothing when the statement fails is not modelled, here and in the other calls of one statement.
- Reconciler.Apply: audit events and the status record are not modelled; which owners and encodings the server takes is a fixed function; a server that stops answering is a budget of statements; a drop that the server refuses because sessions are connected is not modelled.
- Convergence.LoopConvergesIff: nobody else creates or drops databases in between, and the server keeps answering.
- Install.AlwaysServing: one install at a time; ids of different seconds are different; kanidm's extra `src` link, the systemd calls and the configuration file are not modelled.
- Release.PruneLeavesTheNewest: for complete directory listings and a link that was read; `PruneReleases` covers the others.
- SecretsBoot.AcknowledgedSecretsReadBack: one environment setting for all boots, non-overlapping calls, probes that answer (see `SecretsBoot.KeyFilesStayIff`), and a passphrase file that is valid UTF-8; trimming knows ASCII blanks only.
- Fetch.BundleCache.FetchAndExtract: attempts do not overlap, since two of them share one download file; HTTP, the archive formats and the path of a raw artefact are a function from bytes to files; one bundle per version directory.
- ModelCards.DistinctIffGuarded: one registry per file and non-overlapping calls, under the same law of JSON objects as the audit log.
- SystemdUnit.UnitReadsBackIff: commands come back as printed text, since arguments joined by blanks cannot be told apart; the reader takes text literally, while systemd also expands `%` specifiers and backslash escapes and joins a line that ends in a backslash to the next; component and root directory without newlines.
- Ports.SmartPort: the name suffix that `smart_defaults` also returns is not modelled.
- Cryptography is kept as functions with the laws named above; no unforgeability is claimed, and the hash may collide.
- Power loss: completed writes persist and a rename is atomic; file modes and ownership are not modelled.
- The HTTP and TCP reconcilers, identity, licensing, sessions, progress reporting and the user interface are not part of this model.
