# A model of the conversation, installation and release tools of Mos Eisley

The project models the stateful kernels of the release and states what they
promise as theorems over every input, every run or every reachable state.

- `SessionState` to `SessionController`: the persisted conversation controller. A
  pure machine (`SessionMachine`) has one event for each operation, each outcome
  of its saves (saved, raised before persisting, raised after persisting), each
  suspension point of `step` and each crash. Durable state, live controller and
  the log of calls to providers are separate. `SessionController` is the object
  itself, with its fields and its store, and every method is proved to take the
  system exactly where the machine's event does, so the results about runs
  (`SessionTheorems`, `SessionOutcomes`, `SessionEdges`, `SessionStranding`) are
  results about it.
- `Projection`: the model-visible history, with steering chains and compaction.
- `InstallState` to `Installer`: the transactional installer. Each operation is a
  list of atomic effects on a record of the directory; a crash keeps a prefix.
  `Installer` makes the effects one at a time on a mutable directory.
  `InstallReached` holds installations that reach the edges, `InstallArchive` is the
  extraction loop.
- `AppVersion`, `SbomMarkers`: version texts, keys and orders.
- `SbomGraph`, `ImportClosure`: the two worklist closures and their least fixed
  points.
- `GitTree`, `GitAudit`: the Merkle check of a flattened tree and the archive audit.
- `BundleArchive`, `WheelDirectory`: backward search, table of contents, intervals.
- `SyscallFilter`: the compiler to classic BPF, with an interpreter.
- `CodingHandoff`, `OracleScore`, `OperatingGate`: guarded patches and retained
  handoffs, the log scorer and its self-checks, the fault matrix.

`SessionBinding`, `InstallLaws`, `NameLaws`, `MarkerLaws`, `GraphLaws`, `ImportLaws`,
`GitLaws`, `BundleLaws`, `HandoffLaws` and `GateLaws` say what the operations compute without
the functions that compute it: fields, bytes, numbers and reasons, readers against
writers, and inputs that are accepted.

Where the code does not do what it is for on every input, the project keeps the
code as it is and proves exactly when it does:

- A Git-scoped review that is cancelled while its scope is revalidated still runs
  (`SessionOutcomes.SettledChangesExactly`, `SessionEdges.CancelledReviewRuns`).
- An exception that escapes after the saved start of a message, before its call or
  out of it past the handlers of the controller, leaves a running message that
  blocks every dispatch until the session is reopened
  (`SessionStranding.StrandedExactly`, `SessionStranding.StrandedSilent`).
- After a compaction that covers a chat message without a memory context, every
  memory refresh is refused for good. Such is a chat answered and compacted before
  the first refresh, or one cancelled while queued and compacted before the next
  (`SessionStranding.RefreshLostExactly`, `SessionStranding.RefreshLostForGood`).
- An archive with a file named like the runtime inventory installs and then never
  verifies (`InstallSafety.VerifiesExactly`, `InstallReached.InstalledRecoversExactly`).
- An upgrade cut between its two pointer replacements loses the rollback target
  (`InstallOrder.TargetLostExactly`, `InstallOrder.RollbackTargetLost`); an uninstall
  cut just after the tree is gone cannot be repeated
  (`InstallOrder.UninstallResumesExactly`).
- Digits beyond ASCII give different accepted versions one key
  (`AppVersion.KeysEqualExactly`).
- A leading slash in the listed paths is an alias: of the listings accepted for the
  root of a relative one, exactly the relative ones denote the same map
  (`GitTree.LeadingSlashAlias`, `GitTree.RelativeExactly`).

Digests are modelled as the values they are taken of, or, for Git objects, as a
function with no collision among the objects a check hashes. Validation of typed
values, signatures, clocks, subprocess probes, decompression and decoding are
parameters or preconditions of the entities concerned.

`dafny verify dfyconfig.toml` checks the whole project.

## Model

| member | source | states |
|---|---|---|
| `SessionTheorems.AtMostOnce` | src/mos_eisley/conversation.py:1604-1614 | over every run with crashes, failed saves and reopening, every dispatched exchange is already counted as consumed, what was shown is what the recording still holds at that place, and every other dispatch is of another message and another exchange |
| `SessionTheorems.EachExchangeOwned` | src/mos_eisley/conversation.py:1604-1610 | in every durable state each consumed exchange is owned by exactly one message |
| `SessionTheorems.WriteBeforeDispatch` | src/mos_eisley/conversation.py:1612-1623 | a call is made only after the running status and the consumed count are durable; dying just before the call leaves the same durable state and no call |
| `SessionBinding.DispatchWrites` | src/mos_eisley/conversation.py:1218-1691 | what a dispatching event writes, field by field: the first queued message or the waiting review runs, a chat is bound to the session's memory if a recording is retained and admitted with the next exchange, which is the one shown; every other entry and field stays |
| `SessionBinding.RefreshBinds` | src/mos_eisley/conversation.py:1264-1271 | over every run, a chat dispatched after an accepted refresh and before the next one carries exactly the memory that refresh selected; in a live session it carries none |
| `SessionBinding.UnboundBeforeRefresh` | src/mos_eisley/conversation.py:1264-1271 | over every run without a refresh, chats are dispatched without a memory context |
| `SessionTheorems.ConsumedPrefixKept` | src/mos_eisley/conversation.py:712-719 | over every run the consumed part of the recording never changes, whatever refreshes bring in |
| `SessionTheorems.MemoryNeverRebound` | src/mos_eisley/conversation.py:720-736 | once a message carries a memory context no later event gives it another |
| `SessionTheorems.ApplyKeeps` | src/mos_eisley/conversation.py:595-663 | every event keeps the whole invariant of durable state, log and live controller, and only moves the durable state forward |
| `SessionTheorems.RunForward` | src/mos_eisley/conversation.py:1680-1736 | over every run the durable state only moves forward and the log of dispatches only grows |
| `SessionOutcomes.BrokenStaysSilent` | src/mos_eisley/conversation.py:606-610 | after a failed save nothing is written and nothing dispatched until the process ends, over every run |
| `SessionOutcomes.SettledChangesExactly` | src/mos_eisley/conversation.py:1232-1263 | a settled message changes in a step if and only if the step resumes a Git-scoped review that was cancelled during its revalidation; the code's own test for the queued status is before the wait only |
| `SessionEdges.CancelledReviewRuns` | src/mos_eisley/conversation.py:1255-1263 | a concrete session in which that happens: the cancelled review is the one the next event runs |
| `SessionOutcomes.StepAlwaysProjects` | src/mos_eisley/conversation.py:1304-1311 | in every reachable controller the history check of a step succeeds for every queued entry |
| `SessionOutcomes.DurableShape` | src/mos_eisley/conversation_state.py:742-895 | every reachable durable state passes its own validators: one running message at most, backward links, compactions that end before every pending entry |
| `SessionOutcomes.StepDispatchesExactly` | src/mos_eisley/conversation.py:1218-1236 | a step dispatches its first queued message if and only if the controller is idle and unbroken, nothing runs, an exchange is left, budgets admit and the start is saved |
| `SessionOutcomes.SubmitExactly` | src/mos_eisley/conversation.py:1082-1170 | submit succeeds if and only if the text is not blank, the controller works, a place is free and the save works; the new entry is appended last and steers the one running chat, if any |
| `SessionOutcomes.QueuedProjects` | src/mos_eisley/conversation_context.py:133-140 | a queued entry of a state with the invariant always projects |
| `SessionEdges.OnlySavesBreak` | src/mos_eisley/conversation.py:648-663 | no validator and no journal check ever breaks a working controller: only a raising save does |
| `SessionEdges.StuckUntilReopened` | src/mos_eisley/conversation.py:1612-1623 | a message left running with nothing in flight blocks every dispatch until the process ends, over every run |
| `SessionStranding.StrandedExactly` | src/mos_eisley/conversation.py:1612-1736 | an event leaves a running message with nothing in flight if and only if the session works and an exception escapes, either from a dispatched request past its handlers, or between a saved start and its dispatch in a step or in the resumption of a review |
| `SessionStranding.StrandedSilent` | src/mos_eisley/conversation.py:1612-1623 | such a session dispatches nothing over any run, until its process ends |
| `SessionStranding.StrandingReached` | src/mos_eisley/conversation.py:1612-1736 | each of the three ways is reached by a session of a few events, for every text and recording |
| `SessionEdges.RefreshExactly` | src/mos_eisley/conversation.py:693-786 | a refresh is accepted if and only if the session is idle and unbroken, the consumed prefix is preserved, every compacted chat carries a memory context and the save works |
| `SessionStranding.RefreshLostExactly` | src/mos_eisley/conversation.py:819-888 | a session whose compacted chats are all bound to a memory context stops being one if and only if a compaction that covers an unbound chat is accepted and persists |
| `SessionStranding.RefreshLostForGood` | src/mos_eisley/conversation.py:720-786 | once a compacted chat is unbound, every refresh is refused and changes nothing, over every run, crashes and reopening included |
| `SessionStranding.RefreshLostReached` | src/mos_eisley/conversation.py:1264-1272 | opening, one chat answered and compacted before the first refresh reach that state, for every text, answer and recording |
| `SessionEdges.RefreshSeals` | src/mos_eisley/conversation.py:720-736 | an accepted refresh binds every chat that left the queue to the memory selected before it |
| `SessionBinding.RefreshWrites` | src/mos_eisley/conversation.py:720-786 | every field of the state an accepted refresh saves: only chats that left the queue unbound change, and only in their memory |
| `SessionBinding.CompactionRecords` | src/mos_eisley/conversation.py:819-888 | an accepted compaction adds one lineage with the fields of each message it covers and changes nothing else |
| `SessionBinding.CompactableExactly` | src/mos_eisley/conversation.py:819-888 | what a compaction needs beside an idle session: an answered chat to keep, an end after the last one, fewer than three before it, and room |
| `SessionBinding.CancelWrites` | src/mos_eisley/conversation.py:1208-1216 | a successful cancel changes the status of the queued messages and nothing else |
| `SessionBinding.RefusalFails` | src/mos_eisley/conversation.py:1615-1623 | a start refused after it was saved fails its message, closes its dispatch as uncertain and leaves its exchange spent |
| `SessionBinding.SettleCloses` | src/mos_eisley/conversation.py:1656-1736 | the end of a request closes its dispatch with the result of its own message or as uncertain, the controller is idle again, and true is answered exactly for a result that is no infrastructure error of a review |
| `SessionBinding.StepReplies` | src/mos_eisley/conversation.py:1218-1262 | a step answers false exactly if it is idle and nothing is queued, and waits exactly if it dispatched or the first queued message is a Git-scoped review; it never answers true |
| `SessionBinding.ShownFromSession` | src/mos_eisley/conversation.py:1304-1311 | the history a queued message is launched with shows texts and answers of the session's own messages, its own text last, along their steering links, and reports the latest compaction |
| `SessionEdges.ReopenInterrupts` | src/mos_eisley/conversation.py:522-530 | after reopening nothing runs: what ran is interrupted, everything else is as it was saved |
| `SessionEdges.CancelEmptiesQueue` | src/mos_eisley/conversation.py:1208-1216 | after a successful cancel a step finds nothing to do |
| `SessionEdges.SettleRecords` | src/mos_eisley/conversation.py:1656-1736 | the end of a request records its outcome in its own message and in no other |
| `SessionEdges.CompactExactly` | src/mos_eisley/conversation.py:819-888 | a compaction is accepted if and only if the session is idle and unbroken, nothing is pending, its own conditions hold and the save works |
| `SessionRuns.OpenSucceeds` | src/mos_eisley/conversation.py:379-385 | reopening succeeds if and only if the cassette is the one the state names and an interruption, if needed, is saved |
| `SessionRuns.OpenKeeps` | src/mos_eisley/conversation.py:522-530 | recovery interrupts the running message, keeps the invariant and settles nothing else |
| `SessionRuns.LaunchKeeps` | src/mos_eisley/conversation.py:1248-1691 | every way a launch can go, with every save outcome and every crash point, keeps the invariant |
| `SessionRuns.SettleKeeps` | src/mos_eisley/conversation.py:1656-1736 | every end of a request keeps the invariant and leaves settled messages as they are |
| `SessionRuns.RefreshKeeps` | src/mos_eisley/conversation.py:693-786 | a refresh keeps the invariant and every settled result |
| `SessionRuns.CompactKeeps` | src/mos_eisley/conversation.py:819-888 | a compaction keeps the invariant |
| `SessionRuns.CancelKeeps` | src/mos_eisley/conversation.py:1208-1216 | cancelling succeeds exactly on a working controller and a save, and keeps the invariant |
| `SessionSafety.UpdateStarts` | src/mos_eisley/conversation.py:1604-1614 | the save that starts a message passes every validator, adds one dispatch event and moves the consumed count by one for a chat |
| `SessionSafety.UpdateStops` | src/mos_eisley/conversation.py:1604-1610 | the save that ends a message passes every validator and closes its dispatch event once |
| `SessionSafety.SecondStartRefused` | src/mos_eisley/conversation_state.py:742-895 | while one message runs a second start is refused before anything is saved |
| `SessionInvariant.CountsAgree` | src/mos_eisley/conversation_state.py:742-895 | the validator's two counts of attempts agree with the admissions the entries carry |
| `SessionInvariant.JournalFits` | src/mos_eisley/conversation_recovery.py:73-100 | the journal of a state with the invariant passes the journal validator, its bound of 96 events included |
| `SessionChanges.StartJournal` | src/mos_eisley/conversation_recovery.py:152-206 | a start appends exactly one dispatch event and keeps the journal sound |
| `SessionChanges.StopJournal` | src/mos_eisley/conversation_recovery.py:178-225 | an end appends exactly one closing event for the open dispatch and keeps the journal sound |
| `SessionController.ConversationController.constructor` | src/mos_eisley/conversation.py:376-530 | the constructor leaves durable state and controller exactly as the open event of the machine does |
| `SessionController.ConversationController.Submit` | src/mos_eisley/conversation.py:1082-1170 | the method's new state and reply are those of the submit event |
| `SessionController.ConversationController.SubmitReview` | src/mos_eisley/conversation.py:1177-1206 | the method's new state and reply are those of the review event |
| `SessionController.ConversationController.CancelQueued` | src/mos_eisley/conversation.py:1208-1216 | the method's new state and reply are those of the cancel event |
| `SessionController.ConversationController.RefreshMemory` | src/mos_eisley/conversation.py:693-786 | the method's new state and reply are those of the refresh event |
| `SessionController.ConversationController.CompactAuthor` | src/mos_eisley/conversation.py:819-888 | the method's new state and reply are those of the compaction event |
| `SessionController.ConversationController.Step` | src/mos_eisley/conversation.py:1218-1262 | the method's new state, log and reply are those of the step event |
| `SessionController.ConversationController.ResumeRevalidated` | src/mos_eisley/conversation.py:1255-1263 | the method's new state, log and reply are those of the resume event |
| `SessionController.ConversationController.Settle` | src/mos_eisley/conversation.py:1656-1736 | the method's new state and reply are those of the settle event |
| `SessionController.ConversationController.Commit` | src/mos_eisley/conversation.py:648-663 | the method saves before it changes its state, and breaks when the save raises |
| `SessionController.ConversationController.Update` | src/mos_eisley/conversation.py:595-646 | the method validates first, and saves nothing when validation fails |
| `SessionController.ConversationController.Launch` | src/mos_eisley/conversation.py:1248-1691 | the method starts, saves and dispatches in the order of the machine |
| `SessionController.ExtendJournal` | src/mos_eisley/conversation_recovery.py:192-225 | the loop over the entries adds exactly the events of the transition |
| `Projection.ProjectContext` | src/mos_eisley/conversation_context.py:122-196 | the loops compute the specified projection, error cases included |
| `Projection.TurnsShow` | src/mos_eisley/conversation_context.py:184-196 | each turn has one block for each position of its source: the message texts in a user turn, the answers in an assistant turn |
| `Projection.UserTurnChains` | src/mos_eisley/conversation_context.py:142-150 | the positions of a user turn are the whole chain of steering links behind its last message, up to a completed or compacted one |
| `Projection.ProjectRecords` | src/mos_eisley/conversation_context.py:125-183 | the fields of the record, and which of the three errors is raised on which input |
| `Projection.UserPositions` | src/mos_eisley/conversation_context.py:142-154 | the inner loop terminates and returns the steering chain of a message |
| `Projection.ChainCharacterised` | src/mos_eisley/conversation_context.py:142-154 | that chain is the one maximal strictly ascending run of links to unanswered messages after the boundary |
| `Projection.ProjectSucceedsExactly` | src/mos_eisley/conversation_context.py:133-140 | a projection succeeds if and only if the position and count are in range, the compaction ends before the target and every link up to it points backwards |
| `Projection.LimitsNeverReject` | src/mos_eisley/conversation_context.py:36-73 | the declared limits 31, 16 and 15 and the selection validator never reject an admissible history |
| `Projection.TurnsAlternate` | src/mos_eisley/conversation_context.py:156-172 | turns alternate user and assistant, two for each answered exchange after the boundary and one for the target, whose text comes last |
| `Projection.AnsweredExactlyOnce` | src/mos_eisley/conversation_context.py:156-168 | each answered message between the boundary and the target has exactly one assistant turn |
| `Projection.AnsweredNotBorrowed` | src/mos_eisley/conversation_context.py:142-168 | an answered message appears in no other message's turn |
| `Projection.PositionsPartition` | src/mos_eisley/conversation_context.py:169-189 | every position is in exactly one of selected, compacted and omitted, with the right reason |
| `Projection.LaterMessagesIrrelevant` | src/mos_eisley/conversation_context.py:156-196 | messages after the target never change the turns |
| `Projection.CompactionRefines` | src/mos_eisley/conversation_context.py:135-168 | projecting with a boundary equals projecting without one, less the exchanges at or before it, less the positions at or before it |
| `Projection.AssistantTextExists` | src/mos_eisley/conversation_context.py:186-195 | an assistant turn always shows the answer of an answered message, so the source's assertion never fails |
| `InstallSafety.PointerIntegrity` | src/mos_eisley/app_install.py:269-322 | over every run with a crash between any two effects each pointer is absent or names a complete directory of that release, and the installation record is there as long as a pointer is |
| `InstallSafety.DamagedNeverActivated` | src/mos_eisley/app_install.py:284-291 | a partly deleted directory is never pointed to, however often its version is installed again |
| `InstallSafety.VerifiedIsWhole` | src/mos_eisley/app_install.py:189-199 | what passes the inventory check among the remnants of a release is the complete release |
| `InstallSafety.VerifiesExactly` | src/mos_eisley/app_install.py:180-199 | a recorded runtime passes its own verification if and only if no bundled file, at any depth, has the name of the inventory |
| `InstallSafety.PublishedImmutable` | src/mos_eisley/app_install.py:284-295 | until an uninstall every published directory stays as it was, release.json included |
| `InstallSafety.CrashAtomic` | src/mos_eisley/app_install.py:296-337 | cut an install anywhere: recover reports what it would have before, or, once the current pointer was replaced, the new version, failing then exactly for a bundle that cannot verify |
| `InstallSafety.RecoverClears` | src/mos_eisley/app_install.py:325-337 | a successful recover changes nothing but the transaction record, which is gone |
| `InstallSafety.PrepareAllowed` | src/mos_eisley/app_install.py:269-313 | everything an install does before its commit point, and that the record is durable by then |
| `InstallSafety.InstallAllowed` | src/mos_eisley/app_install.py:242-322 | the directory after a complete install |
| `InstallLaws.InstallRefusedExactly` | src/mos_eisley/app_install.py:250-291 | an install is refused for the epoch, a foreign launcher, a version lower at the first of five numbers that differ, changed metadata or a wrong archive, each if and only if that holds and nothing before it; it succeeds exactly otherwise and if the stage passes |
| `InstallLaws.StageRefusedExactly` | src/mos_eisley/app_install.py:270-291 | what is refused after the storage directory was made, reason by reason, leaves only that directory |
| `InstallLaws.PublishedHolds` | src/mos_eisley/app_install.py:277-286 | a published directory holds the bundle and the signed metadata and lists both |
| `InstallLaws.ReadsExactly` | src/mos_eisley/app_install.py:126-135 | the metadata of a directory is read exactly if it is signed and of storage epoch 1 or 2 |
| `InstallLaws.DamageShows` | src/mos_eisley/app_install.py:189-199 | a directory that verified no longer does once its list or a listed file is deleted |
| `InstallLaws.TransactionCovers` | src/mos_eisley/app_install.py:296-320 | from the first change of a pointer to the last effect of an install, transaction.json names what was active and what becomes active |
| `InstallLaws.RecoverRefusedExactly` | src/mos_eisley/app_install.py:325-337 | why a recovery is refused, reason by reason, and what it reports |
| `InstallLaws.RollbackRefusedExactly` | src/mos_eisley/app_install.py:340-356 | why a rollback is refused, reason by reason; a refused one has no effect |
| `InstallSafety.PointedCanUninstall` | src/mos_eisley/app_install.py:359-371 | whatever is reached with a pointer in place can be uninstalled to the end |
| `InstallOrder.NeverLowers` | src/mos_eisley/app_install.py:256-266 | an operation cut anywhere keeps a release active, of no older storage epoch, and only rollback lowers the version |
| `InstallOrder.EpochNeverDecreases` | src/mos_eisley/app_install.py:250-266 | over every run without uninstall the active storage epoch never decreases |
| `InstallOrder.VersionNeverDecreases` | src/mos_eisley/app_install.py:257-260 | over every run without uninstall and rollback the active version never decreases |
| `InstallOrder.RollbackExactly` | src/mos_eisley/app_install.py:340-356 | rollback succeeds if and only if the previous release is there, readable, verified, of the active storage epoch and running |
| `InstallOrder.RollbackIdempotent` | src/mos_eisley/app_install.py:340-356 | rolling back twice is rolling back once |
| `InstallOrder.RollbackNeverRaises` | src/mos_eisley/app_install.py:302-314 | until an uninstall, over every run from an empty directory, the previous release is never newer than the active one |
| `InstallOrder.PreviousAfterCut` | src/mos_eisley/app_install.py:302-303 | where the previous pointer stands for every cut of an install |
| `InstallOrder.UpgradeRemembers` | src/mos_eisley/app_install.py:296-319 | a complete upgrade activates the new release, remembers the former one as previous and leaves no transaction |
| `InstallOrder.UpgradeThenRollback` | src/mos_eisley/app_install.py:302-356 | upgrading and rolling back returns to the formerly active release if and only if it verifies and shares the storage epoch |
| `InstallOrder.TargetLostExactly` | src/mos_eisley/app_install.py:302-316 | the two pointers come to name one release if and only if the upgrade is cut between their replacements |
| `InstallOrder.RollbackTargetLost` | src/mos_eisley/app_install.py:302-314 | an upgrade cut between its two pointer replacements leaves rollback without effect: the former target is lost |
| `InstallReached.InstalledRecoversExactly` | src/mos_eisley/app_install.py:180-199 | every well-formed release installs into an empty directory, and then recovers if and only if no file of its bundle is named like the inventory |
| `InstallReached.TargetLostReached` | src/mos_eisley/app_install.py:302-316 | three releases installed in turn, the third cut between the replacements, reach the state whose rollback target is lost |
| `InstallOrder.UninstallResumesExactly` | src/mos_eisley/app_install.py:361-371 | an interrupted uninstall can be repeated to its end if and only if the tree was still there; one effect later it fails for want of it |
| `InstallOrder.UninstallLeavesNothing` | src/mos_eisley/app_install.py:359-371 | an uninstall leaves no pointer, release or record and removes only its own launcher |
| `InstallOrder.InstallThenUninstall` | src/mos_eisley/app_install.py:242-371 | installing into a clean directory and uninstalling leaves it as it was |
| `Installer.InstallRelease` | src/mos_eisley/app_install.py:242-322 | the method leaves the directory exactly as the install plan cut at the crash does, and returns or raises as it says |
| `Installer.RecoverInstallation` | src/mos_eisley/app_install.py:325-337 | the same for recover |
| `Installer.RollBack` | src/mos_eisley/app_install.py:340-356 | the same for rollback |
| `Installer.UninstallAll` | src/mos_eisley/app_install.py:359-371 | the same for uninstall, for some order of removing the files |
| `Installer.ActivatePointer` | src/mos_eisley/app_install.py:118-123 | unlink, link, replace: the three effects of an activation in order |
| `Installer.RecordRuntime` | src/mos_eisley/app_install.py:180-186 | the loop lists every file and replaces a bundled list |
| `Installer.VerifyRuntime` | src/mos_eisley/app_install.py:189-199 | the loop accepts exactly the directories whose files are those listed |
| `InstallArchive.ExtractArchive` | src/mos_eisley/app_install.py:138-177 | extraction succeeds if and only if the members, in whatever order, have canonical distinct names, no file on or above another member, sizes that fit and a launcher; it then holds every file member and nothing else |
| `InstallArchive.ExtractedInside` | src/mos_eisley/app_install.py:145-161 | everything extracted stays inside the destination and no file is above another |
| `NameLaws.AdmissibleExactly` | src/mos_eisley/app_install.py:143-158 | the names extraction admits are exactly plain parts joined by slashes, none of them two points, with slashes at the end allowed |
| `NameLaws.NamedParts` | src/mos_eisley/app_install.py:163-167 | such a member goes to exactly its parts |
| `NameLaws.ExtractableExactly` | src/mos_eisley/app_install.py:143-176 | an archive is extractable if and only if it has at most thirty thousand admissible members of different names, sizes in the bound, and no file at or above another member |
| `NameLaws.LauncherAlone` | src/mos_eisley/app_install.py:143-178 | a launcher alone is extractable, whatever it holds |
| `InstallArchive.ExtractedOnce` | src/mos_eisley/app_install.py:163-175 | one archive has one content: whatever holds exactly its file members is the same tree |
| `AppVersion.ParsesPrinted` | src/mos_eisley/app_release.py:45-57 | the key of a printed version is that version |
| `AppVersion.PrintsParsed` | src/mos_eisley/app_release.py:45-57 | printing the key of an accepted text gives the text with its digits in ASCII |
| `AppVersion.ReadsDigits` | src/mos_eisley/app_release.py:45-57 | two texts and their numbers, digit by digit |
| `AppVersion.BeforeExactly` | src/mos_eisley/app_release.py:45-57 | a version is before another if and only if it is smaller at the first difference of the five numbers, the fourth of which is 1 for a final release |
| `AppVersion.CandidateExactly` | src/mos_eisley/app_release.py:285-292 | an offered preview is exactly a published prerelease whose tag begins with v and contains the mark of a candidate |
| `AppVersion.ReadableExactly` | src/mos_eisley/app_release.py:285-292 | an inventory entry stops the selection exactly if it is offered and its tag is empty, too long, unprintable, or that of a candidate and names no version |
| `AppVersion.DistributionSpelling` | tools/sbom_metadata.py:31-34 | the distribution spelling of a version is its core, then rc and the number without a point |
| `AppVersion.KeysEqualExactly` | src/mos_eisley/app_release.py:45-57 | two accepted texts have one key if and only if they differ only in how digits are written; for ASCII, if and only if they are equal |
| `AppVersion.OtherDigitsCollide` | src/mos_eisley/app_release.py:45-57 | any digit beyond ASCII that the pattern admits gives two accepted texts with one key |
| `AppVersion.CandidatesPrecede` | src/mos_eisley/app_release.py:51-57 | every candidate precedes its final release and only later candidates lie between |
| `AppVersion.SelectPreview` | src/mos_eisley/app_release.py:282-296 | the preview is chosen if and only if the inventory is short, readable and offers a candidate, and it has the greatest key |
| `AppVersion.PreviewUnique` | src/mos_eisley/app_release.py:295-296 | for ASCII tags the greatest candidate is unique |
| `AppVersion.SpellingsRoundTrip` | tools/sbom_metadata.py:31-34 | a release version survives the distribution spelling and the way back |
| `SbomGraph.BuildGraph` | tools/release_sbom.py:109-146 | it terminates without the cap; what it returns are the nodes of the least solution, each with the edges of its final extras; it succeeds whenever the closure holds nothing to refuse and stays within the cap |
| `SbomGraph.LeastUnique` | tools/release_sbom.py:109-146 | there is one least solution |
| `GraphLaws.ReachedExactly` | tools/release_sbom.py:109-146 | the closure holds exactly the names and extras that walks along holding requirements reach from the roots |
| `GraphLaws.EdgesExactly` | tools/release_sbom.py:130-146 | the edges of the graph are exactly the steps of those walks |
| `GraphLaws.LockedExactly` | tools/release_sbom.py:116-141 | a closure is locked if and only if everything reached is in the archive in its pinned version, with at most 128 extras, and leads to pinned names only |
| `GraphLaws.OneRequirementDecides` | tools/release_sbom.py:109-146 | an application with one requirement takes it in exactly if its marker holds, and is refused for every closure if the marker fails |
| `SbomGraph.OrderIrrelevant` | tools/release_sbom.py:109-146 | neither the closure, nor an edge of the returned graph, nor the check against the pins, nor the condition under which the loop must accept depends on the order of roots and requirements |
| `SbomGraph.RelaxKeeps` | tools/release_sbom.py:128-145 | following one enabled requirement keeps the loop's state, revisits included |
| `SbomGraph.VisitDistribution` | tools/release_sbom.py:128-145 | the loop over one node's requirements follows each enabled one for the extras it has then |
| `SbomMarkers.Trichotomy` | tools/sbom_metadata.py:122-138 | padded versions are less, equal or greater, and exactly one of the three |
| `SbomMarkers.VersionOrderTransitive` | tools/sbom_metadata.py:122-138 | the padded comparison is a total preorder |
| `SbomMarkers.VersionLessExactly` | tools/sbom_metadata.py:122-138 | less means less at the first difference, missing places counting as zero |
| `SbomMarkers.TrailingZeros` | tools/sbom_metadata.py:122-138 | trailing zero components do not matter |
| `SbomMarkers.OperatorsConsistent` | tools/sbom_metadata.py:127-138 | the six operators agree with one another and under exchange of the operands |
| `MarkerLaws.OperatorsExactly` | tools/sbom_metadata.py:119-138 | less is smaller at the first difference, greater the same with the sides exchanged, equal the same at every place; the others follow, and no other operator applies to versions |
| `MarkerLaws.ReleaseExactly` | tools/sbom_metadata.py:116-122 | a text is a version exactly when it is runs of digits joined by points, and its numbers are theirs |
| `MarkerLaws.VersionMarkerExactly` | tools/sbom_metadata.py:112-138 | a marker comparing a version variable with a text, on either side, says what its operator says of 3.12 or 3.12.14 and the numbers of the text, and fails if the text is no version |
| `MarkerLaws.TextMarkerExactly` | tools/sbom_metadata.py:139-154 | a marker comparing any other variable, on either side, says equality or occurrence of the texts, normalized first for the extra |
| `MarkerLaws.JunctionExactly` | tools/sbom_metadata.py:101-106 | a junction is the conjunction or disjunction of its parts, and fails if any of them fails or is a text |
| `MarkerLaws.BoundsRefuse` | tools/sbom_metadata.py:82-97 | too deep, too large, unreadable and absent markers |
| `MarkerLaws.PlatformsOf` | tools/sbom_metadata.py:64-79 | what the environment of each platform says |
| `MarkerLaws.PythonReads` | tools/sbom_metadata.py:64-79 | the numbers of the Python described |
| `MarkerLaws.NormalFormExactly` | tools/sbom_metadata.py:25-28 | normalizing makes letters small and each run of joiners one hyphen |
| `MarkerLaws.NamesExactly` | tools/sbom_metadata.py:20-28 | a name is accepted exactly if it has one to two hundred letters, digits and joiners and begins with no joiner |
| `SbomMarkers.VisitReads` | tools/sbom_metadata.py:94-154 | a marker depends only on the variables it names |
| `SbomMarkers.ExtraIrrelevant` | tools/sbom_metadata.py:64-159 | a marker that does not name the extra applies, or fails, alike for every extra |
| `SbomMarkers.NormalizeIdempotent` | tools/sbom_metadata.py:25-28 | normalizing a name again changes nothing |
| `ImportClosure.Discover` | tools/g6_06_full_offline.py:96-136 | it terminates; it succeeds if and only if the least set closed under ancestors and local imports holds nothing bad, and returns the local names of that set; otherwise it names something bad in it |
| `ImportClosure.Closure` | tools/g6_06_full_offline.py:96-136 | the least closed set exists for all files and seeds |
| `ImportClosure.LeastUnique` | tools/g6_06_full_offline.py:96-136 | there is one least closed set |
| `ImportClosure.SeedOrderIrrelevant` | tools/g6_06_full_offline.py:100-105 | neither order nor repetition of the seeds matters |
| `ImportClosure.Idempotent` | tools/g6_06_full_offline.py:96-136 | the discovery run on what it found finds the same |
| `ImportClosure.CollectImports` | tools/g6_06_full_offline.py:118-132 | the loop collects the candidates of a file, failing for an import that leaves its package |
| `ImportLaws.ResolveExactly` | tools/g6_06_full_offline.py:78-86 | a name below one of three roots is the file of that path, else the package; those of mos_eisley are below src |
| `ImportLaws.AddsExactly` | tools/g6_06_full_offline.py:114-135 | visiting a name adds its proper beginnings and its local imports, and nothing else |
| `ImportLaws.BadExactly` | tools/g6_06_full_offline.py:104-113 | what stops the discovery: no file, one of four protected files, an import that leaves its package |
| `ImportLaws.RelativeExactly` | tools/g6_06_full_offline.py:124-125 | one point is the package, each further point one package up; too many are an error |
| `ImportLaws.CandidatesExactly` | tools/g6_06_full_offline.py:119-132 | what one import statement names |
| `ImportLaws.ImportsExactly` | tools/g6_06_full_offline.py:118-132 | a file names what its statements name and fails if one of them does |
| `ImportLaws.PackageExactly` | tools/g6_06_full_offline.py:117-117 | relative imports count from the module itself in an __init__ file, else from what stands above it |
| `GitTree.RowsInGitOrder` | tools/g3_execution_view_audit.py:79-84 | the rows hashed for a directory are exactly its children, and none comes before an earlier one in the order of the bytes of its name, with a slash after the name of a directory |
| `GitTree.RowsStable` | tools/g3_execution_view_audit.py:79-84 | rows of one name and kind keep the order of the listing |
| `GitTree.GenuineTree` | tools/g3_execution_view_audit.py:78-91 | the bytes hashed for a directory a and a file a.b: Git's own, the file first |
| `GitTree.RootDetermines` | tools/g3_execution_view_audit.py:50-93 | two listings of relative paths accepted for one root id denote the same map from paths to kind, mode and id, when the hash does not collide on them |
| `GitTree.Twin` | tools/g3_execution_view_audit.py:63-93 | without the assumption on paths every entry still has a twin, at its path but for one leading slash |
| `GitTree.LeadingSlashAlias` | tools/g3_execution_view_audit.py:51-76 | every nonempty listing of relative paths accepted for a root has a companion with a slash before each path, accepted for the same root, in which none of the listed paths occurs |
| `GitTree.RelativeExactly` | tools/g3_execution_view_audit.py:50-93 | of the listings accepted for the root of a relative one, exactly the relative ones denote the same map, when the hash does not collide on them |
| `GitTree.OneFileAccepted` | tools/g3_execution_view_audit.py:50-93 | for every hash some listing is accepted |
| `GitTree.ContentUnique` | tools/g3_execution_view_audit.py:85-88 | the content of a directory determines its list of names, modes and ids |
| `GitTree.ObjectUnique` | tools/g3_execution_view_audit.py:46-47 | the hashed object determines its tag and content |
| `GitTree.ModesGiveKinds` | tools/g3_execution_view_audit.py:59-60 | kinds agree when a tree is exactly what has the directory mode |
| `GitAudit.VerifyGitTree` | tools/g3_execution_view_audit.py:50-93 | the loops accept exactly the listings whose paths are safe and distinct, whose parents are there and whose every directory hashes to its id |
| `GitAudit.ArchiveBlobs` | tools/g3_execution_view_audit.py:120-184 | the loops accept exactly the archives that hold every listed blob once, in bounds, with its bytes and mode, and return them |
| `GitLaws.RoleExactly` | tools/g3_execution_view_audit.py:148-164 | what a member with these parts is: refused, skipped, or the file of the parts below the first |
| `GitLaws.SafeExactly` | tools/g3_execution_view_audit.py:56-60 | a listed path is safe exactly if no part of it leads up or is the repository directory |
| `GitLaws.PointsVanish` | tools/g3_execution_view_audit.py:56-60 | single points and doubled or trailing slashes are no parts; a path of nothing else is refused |
| `GitLaws.AcceptedMember` | tools/g3_execution_view_audit.py:165-181 | each file of an accepted archive has its declared size, a file mode, and bytes that hash to the id listed for its path, within the bounds |
| `GitLaws.BlobBytes` | tools/g3_execution_view_audit.py:46-47 | the bytes hashed for a file |
| `GitLaws.OneFileArchive` | tools/g3_execution_view_audit.py:120-184 | for every hash, commit and bytes within the bound some archive is accepted |
| `GitAudit.RootDeterminesFiles` | tools/g3_execution_view_audit.py:120-184 | two archives accepted for one root tree, whose listings have no NUL in a path, give the same map from paths to bytes and mode, with no assumption on leading slashes or kinds |
| `GitAudit.TreeNotBlob` | tools/g3_execution_view_audit.py:46-47 | a tree of one audit and a file of another never share an id |
| `BundleArchive.FindCookie` | tools/sbom_archive.py:245-271 | the block scan terminates and finds exactly the last occurrence of the magic in the whole file, or none if there is none |
| `BundleArchive.NextBlock` | tools/sbom_archive.py:247-270 | no occurrence is lost between two blocks |
| `BundleArchive.LocateCookie` | tools/sbom_archive.py:245-271 | the cookie returned is the one at that last occurrence, with its bounds checked |
| `BundleLaws.CookieReads` | tools/sbom_archive.py:245-269 | at a written cookie exactly its fields are read, big-endian, if the table ends where it begins, the bounds hold and the library name is safe |
| `NameLaws.SafeNameExactly` | tools/sbom_archive.py:50-63 | a safe name is exactly plain parts joined by slashes, none of them two points, in printable characters |
| `BundleArchive.TocEndsAtCookie` | tools/sbom_archive.py:258-266 | the table of contents ends exactly where the cookie begins, inside the file |
| `BundleArchive.ReadToc` | tools/sbom_archive.py:287-353 | the loop accepts exactly the tables that parse to their end, whose entries pass and whose payloads are pairwise disjoint |
| `BundleLaws.EntryReads` | tools/sbom_archive.py:289-305 | a written table entry is read back field by field, with the name its bytes decode to |
| `BundleLaws.BadNamesRefused` | tools/sbom_archive.py:301-304 | a name without NUL, or with anything but NULs after it, is refused |
| `BundleLaws.PayloadEntryExactly` | tools/sbom_archive.py:310-341 | what an entry of a payload must be |
| `BundleLaws.OptionEntryExactly` | tools/sbom_archive.py:306-309 | what a runtime option must be |
| `BundleLaws.ApartExactly` | tools/sbom_archive.py:324-353 | the intervals compared are exactly those of nonempty payloads, and they are disjoint if and only if no two such payloads overlap |
| `BundleLaws.AcceptedExactly` | tools/sbom_archive.py:287-353 | a table is accepted if and only if it parses to its end, every entry passes, payload names differ, payloads do not overlap, and the two sums of sizes and the count keep their bounds |
| `BundleArchive.AdjacentSuffices` | tools/sbom_archive.py:351-353 | comparing neighbours of the sorted list accepts exactly the pairwise disjoint lists |
| `BundleArchive.TocTiles` | tools/sbom_archive.py:289-298 | the entries of an accepted table tile it exactly |
| `BundleArchive.PayloadsFit` | tools/sbom_archive.py:311-325 | the payloads are disjoint and below the table, so their stored sizes together fit there |
| `BundleArchive.PayloadsInside` | tools/sbom_archive.py:326-331 | no payload of an accepted entry is cut short by the end of the file |
| `WheelDirectory.CheckWheel` | tools/sbom_archive.py:171-212 | a wheel is accepted exactly when its last end record describes its directory truly |
| `BundleLaws.EndReads` | tools/sbom_archive.py:178-197 | at a written end record exactly its fields are read, little-endian, if they agree with one another and with the file |
| `BundleLaws.RecordReads` | tools/sbom_archive.py:201-210 | a directory record takes 46 bytes and its three lengths |
| `BundleLaws.NoRecord` | tools/sbom_archive.py:201-206 | no record stands where fewer than 46 bytes are left or the mark is missing |
| `BundleLaws.TailExactly` | tools/sbom_archive.py:174-177 | the tail searched is the last 65557 bytes |
| `WheelDirectory.RecordsTile` | tools/sbom_archive.py:198-212 | the records tile the directory, number exactly the count, and the directory ends where the end record begins |
| `WheelDirectory.TilingCounts` | tools/sbom_archive.py:198-212 | a directory has one tiling, so its count cannot be claimed differently |
| `SyscallFilter.CompilerCorrect` | src/mos_eisley/_git_read_linux.py:86-115 | for every set, architecture and call number the emitted program halts in bounds with exactly the intended verdict |
| `SyscallFilter.BuildFilter` | src/mos_eisley/_git_read_linux.py:91-115 | the loop emits the specified program |
| `SyscallFilter.TablesExactly` | src/mos_eisley/_git_read_linux.py:36-80 | the calls of the two tables by number |
| `SyscallFilter.SourceTablesFit` | src/mos_eisley/_git_read_linux.py:26-115 | the two tables of the source compile to 49 and 43 instructions, a length that the sixteen-bit field holds, kill calls of another architecture and of the x32 range, refuse exactly the calls of the table with error number 1 and allow the rest |
| `CodingHandoff.Apply` | src/mos_eisley/coding_child.py:302-322 | apply returns files exactly when the patch names the brief and every change is owned, current, a change and pure; they are the sorted files of the brief with the changes laid over |
| `HandoffLaws.ChangeExactly` | src/mos_eisley/coding_child.py:302-321 | a change is admitted exactly on an owned path, with a pure text, from the file the brief has there or from none, and if it changes it |
| `HandoffLaws.PathOrder` | src/mos_eisley/coding_child.py:311-322 | one path precedes another exactly if it is smaller at their first difference or its beginning |
| `CodingHandoff.OutsideUntouched` | src/mos_eisley/coding_child.py:302-322 | off the owned paths the verification snapshot is unchanged, and each changed path holds the patch's file |
| `CodingHandoff.TestsSurvive` | src/mos_eisley/coding_child.py:268-281 | the tests a patch is verified with are the frozen ones |
| `CodingHandoff.PreviousIsOriginal` | src/mos_eisley/coding_child.py:309-321 | what the loop checks each change against is the brief's own file |
| `CodingHandoff.ListsUnique` | src/mos_eisley/coding_child.py:322-322 | a tree of files has one sorted listing |
| `CodingHandoff.IntegratedWasVerified` | src/mos_eisley/coding_child.py:437-484 | an integrated record carries accepted plan and final reviews of exactly its patch, passing verification of exactly the patched files, the frozen tests, and equal commits |
| `HandoffLaws.ReviewExactly` | src/mos_eisley/coding_child.py:337-348 | a review is accepted for its phase exactly when it is one receipt |
| `HandoffLaws.RetentionExactly` | src/mos_eisley/coding_child.py:437-484 | what is retained in each of the four states of integration, field by field |
| `HandoffLaws.SmallIntegrated` | src/mos_eisley/coding_child.py:437-484 | some brief, patch, reviews and verifications are retained as integrated |
| `HandoffLaws.CreatedFrozen` | src/mos_eisley/coding_child.py:225-285 | some brief takes its tests from their creator |
| `OracleScore.Score` | tools/g3_oracle_controls.py:81-155 | acceptance depends only on the bag of lines and is exactly the stated condition on it |
| `OracleScore.OrderFree` | tools/g3_oracle_controls.py:81-155 | the reported counts do not depend on the order of the lines |
| `OracleScore.ControlsAccepted` | tools/g3_oracle_controls.py:133-146 | a gold control with a pass and exit code 0 and a base control with a failure and exit code 1 are accepted, and neither as the other |
| `OracleScore.OneMoreLine` | tools/g3_oracle_controls.py:117-155 | which one line may be added to an accepted gold control: a line without a result, another test that did not fail, or a required test that passed in another package too |
| `OracleScore.NegativeChecks` | tools/g3_oracle_controls.py:158-189 | for an accepted gold log the conflict and malformed probes are always rejected and the missing probe exactly when the chosen test ended in one package only |
| `OracleScore.DroppedExactly` | tools/g3_oracle_controls.py:160-171 | without one pass of the chosen test the log is still acceptable if and only if another package ended it too |
| `OracleScore.ProbesRejected` | tools/g3_oracle_controls.py:174-188 | the conflict and malformed probes are rejected whatever the log was |
| `OperatingGate.MatrixConserves` | tools/g6_06_operating_gate.py:456-506 | every reviewable pair has exactly five transport entries and eight claims, at least six request maxima of exposure, no more claims than assignments in any fault, and an advanced checkpoint on every stop |
| `OperatingGate.FaultFixed` | tools/g6_06_operating_gate.py:187-213 | frozen oracle and judgement together fix what each fault can show |
| `GateLaws.ObservedExactly` | tools/g6_06_operating_gate.py:456-506 | what the evidence of every fault of a reviewable pair shows: source, window, roles, status, counts, faults without assignment, exposure and checkpoint |
| `GateLaws.ReviewablePair` | tools/g6_06_operating_gate.py:187-213 | for every request maximum and two different roles some protocol and evidence are reviewable |
| `OperatingGate.JudgeMatrix` | tools/g6_06_operating_gate.py:456-506 | the loop finds exactly the reasons the oracles give |

## Left out

- Goals, schedules, branches, side chats, children, task profiles, live providers and archived entries inside the conversation controller; entries are chats, or reviews with or without a Git scope.
- Byte limits on memory, cassette, pending text and request context: they enter a step as one decision (`admits`) and a compaction as one (`fits`).
- The text a compaction retains and its sizes; its lineage is the settled originals it names, by position.
- The order of ast nodes in a file and the parsing of sources; a file is its list of import statements.
- Ownership, modes, symbolic links, locks and fsync in the installer, leftover stage directories, and tampering from outside.
- `InstallArchive.ExtractArchive`: does not model the limits a file system sets on the length of a name part, or directories that ignore letter case, because they belong to the destination and not to the archive.
- `GitAudit.RootDeterminesFiles`: does not cover listed paths that contain NUL, because a NUL inside a name makes the bytes of a Git tree object ambiguous.
- The removal of the release tree is modelled as any deletions of files, lists and directories followed by the disappearance of the rest in one effect.
- Downloads, redirects, signatures, JSON decoding and the platform probe.
- The spelling of Git ids in hexadecimal and of modes with leading zeros; ids are their twenty bytes, modes their values.
- UTF-8 decoding of names in a table of contents and zlib, which are parameters of `BundleArchive.Reader`.
- The tar and wheel member loops of the inventory and the hashing of members: bounds that repeat those of the table of contents.
- The parser of requirement lines and the runtime export of the dependency metadata.
- `SbomGraph.AnyApplies`: does not fix the sorted order in which extras are tried, because that order only matters when a marker fails.
- The kernel side of the system call filter: no_new_privs, installation and words of the call data other than the number and the architecture.
- The purity check of source texts and the size bound of a snapshot, which are parameters of `CodingHandoff.Rules`.
- `OperatingGate.JudgeMatrix`: takes the reasons of the joins, windows, limits and case reviews as given, because they are conjunctions over other records.
- Terminal presentation, packaging, signing, publication and the smoke and qualification drivers.
