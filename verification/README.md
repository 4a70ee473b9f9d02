# Verified models of the companion's stateful logic

This project models the parts of the repository that keep state over time, over
faults or over restarts, and proves what they promise. Each part has functions
that say what one step does, lemmas about every run of those steps, and, where
the program changes things in place, a class or a loop proved to perform exactly
those steps. The files named `...Rules` say once more what single steps do, in terms of
fields, places and literals instead of the functions the steps are written with.

| files | what they model |
|---|---|
| `CueScheduling`, `CueRuns`, `CueTiming`, `CuePromotion`, `CueScheduler`, `CueRules`, `AvatarCapabilities`, `AvatarController` | the avatar's cue scheduler: layers, bounded priority queue, interrupts, generations, expiry, the promotion pass, the capability fallback and the buffer of cues that arrive before the renderer |
| `SourceDecision`, `SourceDecisionSafety`, `SourceDecisionDeadEnd`, `SourceDecisionRules`, `JudgementRules`, `SourceDecisionProvider` | the native source-decision protocol: evidence inventories, pending leads, latched scope, call allowance and corrections, with the language model as an arbitrary oracle |
| `EvaluationRunner`, `EvaluationResume`, `EvaluationKeys`, `EvaluationLoop`, `EvaluationRules` | the evaluation runner that can be stopped and resumed, its results file, its sample keys and its loop order |
| `DeviceJournal`, `DeviceJournalSafety`, `DeviceDeliveries`, `DeviceRules`, `DeviceStore` | the device journal: atomic saves, uncertain markers ahead of native writes, presentations and queued decisions |
| `DatabaseMerge`, `DatabaseMergeRules` | the row-by-row merge of a second database and the independent check of its result |
| `RecoverySessions`, `SessionRules`, `RecoveryPublication`, `PublicationRules` | rebuilding sessions from the rows that refer to them; backing up, building and publishing under faults and interference |
| `SpringIntegrator`, `SpringStability`, `SpringEnergy`, `SpringFrames`, `SpringTargets`, `SpringRules`, `SpringArithmetic` | the sub-stepped pose springs, over the reals: exactly when they are stable at one substep length, how they behave over frames of uneven length, how they follow moving targets and reach one that stays |
| `PayloadScanner`, `ScannerRules` | the chunked scan of payload files with an overlapping window |
| `RoundBudget`, `RoundRules` | the journalled limit on provider rounds |
| `GrantJournal` | merging directory grants of a sandbox profile |
| `Shards`, `ShardRules`, `Sorting` | splitting a test collection over runners, and checking the shards |
| `HitTest`, `HitRules` | the triangle hit test of visible meshes |
| `OAuthSlot`, `OAuthRules` | the single slot shared by OAuth prepare, timer, cancel and receive |
| `Wrappers`, `Text`, `Checks` | option and result types; blank text; chains of checks, the first of which decides |

`dafny verify dfyconfig.toml` checks the whole project.

## Where the code falls short of what one would expect

Each of these is the behaviour of the code; the named lemmas show the case and
the exact condition for it.

- An interrupt clears layers but runs no promotion pass, so a queued
  non-interruptible cue that could start waits for the next tick
  (`InterruptCanUnsettle`; exact condition in `SettledAfterInterrupt`).
- A pre-ready limit of zero still keeps one cue, because the oldest is dropped
  before the new one is added (`BufferKeepsLatest`), and the first cue is then
  reported as dropping one although none is dropped (`DroppedAreNamed`).
- Invalidating the empty generation removes its cues but does not refuse later
  ones: the scheduler skips the test for an empty identifier
  (`InvalidatedIsGone`).
- The `eyeOpen` spring has k = 0.3 * pi at 60 frames a second, past the stable
  range (`EyeOpenUnstableAtSixtyFrames`; exact range in `SpringStableExactly`).
  Only the clamp on the published value hides it.
- The scan can report a token that no whole-file search finds, when a read ends
  inside a longer run of letters and digits (`CutMakesToken`, with a file for every
  read length in `CutFileIsReported`; exact condition in `FalseTokenExactly`), and a
  token in an early window hides a marker further on
  (`TokenHidesMarker`; exact condition in `LocalPathExactly`). A clean verdict is
  always right.
- Several queued interruptible cues of one layer and equal priority are promoted
  in one pass, and each ends the one before at the instant it started
  (`FirstOfTwoIsLost`; exact condition in `SurvivesExactly`).
- The read schema takes URLs of at most 2048 characters, but a link in the text of
  the user can be longer and then stays an open lead that nothing can read. When
  every other known URL was denied, a search is pending and one call is left, the
  source-decision protocol has no acceptable response (`LongUrlDeadEnd`; exact
  condition in `ShippedAcceptedExactly`, for any tools in
  `SomeDecisionAcceptedExactly`).
- The error handler of the recovery matches the target with the published file and
  then removes whatever is at the path: a file somebody puts there in between is
  deleted (`OthersFileRemoved`; exact condition in `RemovesOwnExactly`).
- A reply whose finish reason is not stop, length or other is used by the run
  that received it and asked again by the next (`SecondRunAsksForgotten`), and
  can leave a gap in the completed slots (`FilteredLeavesGap`; exact condition in
  `CompletedIsPrefixExactly`).
- Sample keys of different variants can collide when a name contains colons
  (`ColonsCollide`; exact condition in `CollideExactly`), and nothing checks that
  two variant names differ: with equal names the second variant is never asked
  (`EqualNamesSkipSecond`; both together in `KeysApartExactly`).
- A delivery presented a thousand others ago counts as new again (`NewAgain`;
  exact condition in `FirstExactly`).
- A journal append that fails after its row reached the disk costs one provider
  round, and one that is cut off in the middle leaves a line that stops every
  later replay (`FailedAppendIsCharged` has the exact conditions;
  `TornAppendIsUnreadable`, `TornJournalStaysTorn`).
- The round journal is written one row a line but read back with `splitlines`,
  which also breaks lines at U+0085, U+2028 and U+2029. A web text or a reply with
  one of these stops the next resume although nothing failed
  (`SeparatorStopsResume`; exact condition in `FaultlessRunIsExact`).

## Model

| member | source | states |
|---|---|---|
| `CueScheduling.RunKeepsInvariant` | packages/avatar-sdk/src/cue-scheduler.ts:49-153 | Over every run of the public operations: the queue is bounded and strictly ordered by descending priority, then ascending sequence, each active cue sits under its own layer, sequence numbers are unique over layers and queue, and no cue of an invalidated non-empty generation is present |
| `CueScheduling.StepKeepsInvariant` | packages/avatar-sdk/src/cue-scheduler.ts:49-153 | Each single operation keeps that invariant, for any capabilities, sizes and times |
| `CueScheduling.InvalidateKeepsInvariant` | packages/avatar-sdk/src/cue-scheduler.ts:100-122 | An invalidation keeps the invariant and leaves a settled queue |
| `CueRuns.InvalidatedIsGone` | packages/avatar-sdk/src/cue-scheduler.ts:49-122 | After an invalidation no cue of that generation is active or queued, for the empty generation too; its later cues are refused if and only if its name is not empty |
| `CueScheduling.InsertSortedHolds` | packages/avatar-sdk/src/cue-scheduler.ts:204-218 | Queueing a cue adds exactly that cue: the multiset of queued cues grows by it and nothing else |
| `CueScheduling.InsertSortedSorted` | packages/avatar-sdk/src/cue-scheduler.ts:204-218 | Queueing into a sorted queue leaves it sorted by descending priority, then ascending sequence; what that order is in a run is spelled out in `CueRules.QueueInOrder` |
| `CueScheduling.SortedPermutationUnique` | packages/avatar-sdk/src/cue-scheduler.ts:213-217 | With distinct sequence numbers there is only one sorted arrangement, so the result does not depend on the sort used |
| `CueScheduling.BlockedStable` | packages/avatar-sdk/src/cue-scheduler.ts:187-202 | Activating a cue that is allowed to start never unblocks another cue |
| `CueScheduling.PassKeepsBlocked` | packages/avatar-sdk/src/cue-scheduler.ts:229-253 | A cue that is blocked before a promotion pass is still blocked after it |
| `CueScheduling.PromoteSettles` | packages/avatar-sdk/src/cue-scheduler.ts:229-253 | One left-to-right pass is a fixpoint: no cue left in the queue could be activated against the layers the pass leaves |
| `CueScheduling.PromoteNothing` | packages/avatar-sdk/src/cue-scheduler.ts:229-253 | A second pass over what is left promotes nothing and changes nothing |
| `CueScheduling.PromoteConserves` | packages/avatar-sdk/src/cue-scheduler.ts:229-253 | A pass loses and duplicates no cue: queued = promoted + kept, and the kept cues keep their order |
| `CueScheduling.PromotedShareLayerPriority` | packages/avatar-sdk/src/cue-scheduler.ts:229-253 | In a sorted queue, a promotion that replaces an earlier one of the same pass has exactly its priority |
| `CueScheduling.PassActiveOrigin` | packages/avatar-sdk/src/cue-scheduler.ts:229-253 | Every active cue after a pass was active before or came out of the queue |
| `CueScheduling.PassKeepsInvariant` | packages/avatar-sdk/src/cue-scheduler.ts:229-253 | The promotion pass keeps the representation invariant, including sequence uniqueness and the motion trace |
| `CueScheduling.TraceAlternates` | packages/avatar-sdk/src/cue-scheduler.ts:220-227 | A well-formed motion trace starts a motion at every even position and ends exactly that motion at the next |
| `CueRuns.MotionLifecycle` | packages/avatar-sdk/src/cue-scheduler.ts:86-153 | In every run started and ended alternate for the same cue, the gesture layer holds exactly the motion left open, and no motion is ever replaced while non-interruptible |
| `CueRuns.NonInterruptibleStays` | packages/avatar-sdk/src/cue-scheduler.ts:187-266 | A non-interruptible active cue leaves its layer only by expiry, invalidation of its generation, an explicit end or clear of its layer, or a reset: never by replacement, promotion or interrupt |
| `CueRuns.ScheduledCueIsPlaced` | packages/avatar-sdk/src/cue-scheduler.ts:49-84 | A scheduled cue of a live generation becomes active exactly when nothing blocks it, is otherwise queued, and is dropped only from a full queue and then with a warning |
| `CueRuns.SettledKept` | packages/avatar-sdk/src/cue-scheduler.ts:86-153 | Every operation other than an interrupt leaves a settled queue settled; tick and invalidation settle any queue |
| `CueRuns.SettledAfterInterrupt` | packages/avatar-sdk/src/cue-scheduler.ts:67-84 | After an interrupt the queue is settled if and only if every queued non-interruptible cue is still held back: by a non-interruptible motion it waits for, by one on its layer, or by the interrupt itself |
| `CueRuns.InterruptCanUnsettle` | packages/avatar-sdk/src/cue-scheduler.ts:255-266 | A reachable state in which an interrupt leaves a queued motion that nothing holds back; it starts at the next tick, whenever that is, and not before |
| `CueRuns.RevisionTracksChange` | packages/avatar-sdk/src/cue-scheduler.ts:86-98 | If the revision did not move, neither the layers nor the queue changed |
| `CueTiming.RunKeepsTimed` | packages/avatar-sdk/src/cue-scheduler.ts:229-249 | In every run every active and every queued cue ends its whole length after its latest start; a cue that waited is timed anew when it starts |
| `CuePromotion.SurvivesExactly` | packages/avatar-sdk/src/cue-scheduler.ts:229-253 | A cue promoted in a pass is still active when the pass ends if and only if it is not interruptible, or no cue behind it in the queue has its layer, its priority and no motion to wait for when its turn comes; otherwise it ends at the instant it starts |
| `CuePromotion.FirstOfTwoIsLost` | packages/avatar-sdk/src/cue-scheduler.ts:229-253 | Two interruptible cues of one layer and one priority that wait for nothing are promoted in the same pass, and only the later one is active after it |
| `CueTiming.TickLeavesNothingExpired` | packages/avatar-sdk/src/cue-scheduler.ts:86-98 | After a tick the only expired active cues are cues of length zero that this tick took from the queue |
| `CueSchedulerObject.CueScheduler.Schedule` | packages/avatar-sdk/src/cue-scheduler.ts:49-84 | The mutating method performs exactly the transition of the same name, on all fields, keeps `Valid()` and returns the snapshot of the new state |
| `CueSchedulerObject.CueScheduler.Tick` | packages/avatar-sdk/src/cue-scheduler.ts:86-98 | The mutating method performs exactly the transition of the same name, on all fields, keeps `Valid()` and returns the snapshot of the new state |
| `CueSchedulerObject.CueScheduler.InvalidateGeneration` | packages/avatar-sdk/src/cue-scheduler.ts:100-122 | The mutating method performs exactly the transition of the same name, on all fields, keeps `Valid()` and returns the snapshot of the new state |
| `CueSchedulerObject.CueScheduler.NotifyMotionEnded` | packages/avatar-sdk/src/cue-scheduler.ts:124-132 | The mutating method performs exactly the transition of the same name, on all fields, keeps `Valid()` and returns the snapshot of the new state |
| `CueSchedulerObject.CueScheduler.ClearLayer` | packages/avatar-sdk/src/cue-scheduler.ts:134-142 | The mutating method performs exactly the transition of the same name, on all fields, keeps `Valid()` and returns the snapshot of the new state |
| `CueSchedulerObject.CueScheduler.Reset` | packages/avatar-sdk/src/cue-scheduler.ts:144-153 | The mutating method performs exactly the transition of the same name, on all fields, keeps `Valid()` and returns the snapshot of the new state |
| `CueSchedulerObject.CueScheduler.Enqueue` | packages/avatar-sdk/src/cue-scheduler.ts:204-218 | Push and sort give the sorted insertion, behind every cue of the same priority, or a warning and no change when full |
| `CueSchedulerObject.CueScheduler.Activate` | packages/avatar-sdk/src/cue-scheduler.ts:220-227 | Replacement ends the old gesture before the new one starts, and only the layer of the cue changes |
| `CueSchedulerObject.CueScheduler.RemoveActiveWhere` | packages/avatar-sdk/src/cue-scheduler.ts:106-112 | The deletion loop over the layers, in any visiting order, removes exactly the matching cues |
| `CueSchedulerObject.CueScheduler.RemoveQueuedWhere` | packages/avatar-sdk/src/cue-scheduler.ts:113-118 | The backward splice loop removes exactly the matching cues and keeps the order of the others |
| `CueSchedulerObject.CueScheduler.InterruptActiveCues` | packages/avatar-sdk/src/cue-scheduler.ts:255-266 | Interrupting drops exactly the interruptible cues from the layers and the queue |
| `CueSchedulerObject.CueScheduler.PromoteQueued` | packages/avatar-sdk/src/cue-scheduler.ts:229-253 | The index loop with in-place splices performs the promotion pass |
| `AvatarCapabilities.Capabilities.Resolve` | packages/avatar-sdk/src/capability-registry.ts:36-76 | A supported cue comes back unchanged on the layer of its kind, without a warning; any other becomes an idle or neutral state on the attention layer, keeps its identity, and is reported |
| `AvatarControllerBuffer.BufferKeepsLatest` | packages/avatar-sdk/src/controller.ts:102-120 | The pre-ready buffer is exactly the latest cues in order of arrival; a limit of zero still keeps one cue |
| `AvatarControllerBuffer.ScheduleAllSnoc` | packages/avatar-sdk/src/controller.ts:70-79 | Draining one more buffered cue is draining the others and then scheduling it at the same instant |
| `AvatarControllerBuffer.DroppedAreNamed` | packages/avatar-sdk/src/controller.ts:102-120 | Every cue that came before the renderer was ready is in the buffer or was named by a warning, in order; of the warnings the latest 32 are kept |
| `AvatarControllerBuffer.AvatarController.ApplyCue` | packages/avatar-sdk/src/controller.ts:102-120 | Before the renderer is ready a cue is buffered, and at the limit the oldest is dropped and named in a warning; afterwards the cue is scheduled at once |
| `AvatarControllerBuffer.AvatarController.Load` | packages/avatar-sdk/src/controller.ts:71-100 | A successful load schedules every buffered cue in order at one instant and empties the buffer; a failed load is reported and keeps it |
| `SourceDecisionSafety.AcceptedIsSafe` | tools/source_decision_evaluation.py:518-594 | Whatever the response, an accepted decision is safe: a call is within the remaining allowance, no repeat, has a new id, reads only a known non-denied URL, and is a search when the post-read search is due; a finish leaves no open unread https lead while calls remain, and a finish with evidence leaves nothing pending |
| `SourceDecisionSafety.AttemptIsSafe` | tools/source_decision_evaluation.py:459-629 | The same for what the whole retry loop emits, against an arbitrary model oracle |
| `SourceDecisionSafety.AttemptAdvances` | tools/source_decision_evaluation.py:608-614 | Every further question used up one correction of the generation; the scope stays latched and pending leads only grow, by known URLs |
| `SourceDecisionSafety.StreamWithin` | tools/source_decision_evaluation.py:393-629 | One stream call asks at most one question more than the corrections left allow |
| `SourceDecisionSafety.OneCorrectionPerGeneration` | tools/source_decision_evaluation.py:187-212 | Over all stream calls of a generation at most one rejected decision is retried |
| `SourceDecisionSafety.GenerationWithinAllowance` | tools/source_decision_evaluation.py:430-594 | Over a whole generation the emitted calls never exceed the allowance of six, never repeat an action and never reuse a call id |
| `SourceDecisionDeadEnd.SomeDecisionAcceptedExactly` | tools/source_decision_evaluation.py:430-594 | With both tools offered and a fresh search admitted, some response passes every check if and only if the last call is not reserved for reading or there are unused, admitted read arguments for a known URL that was not denied |
| `SourceDecisionDeadEnd.NoDeadEnd` | tools/source_decision_evaluation.py:430-594 | With well-formed read receipts and schemas that admit a fresh query and any known URL, every decision state has such a response |
| `SourceDecisionDeadEnd.NoDeadEndWithVariants` | tools/source_decision_evaluation.py:430-594 | So it has, whatever the receipts look like, when the read schema admits at least six different reads of every known URL that was not denied |
| `SourceDecisionDeadEnd.ShippedAcceptedExactly` | skills/builtin/web-read/chatwaifu.yaml:19-37 | With the shipped read tool some response passes every check if and only if the last call is not reserved for reading or some known URL that was not denied fits its schema, https and 9 to 2048 characters; a new focus always makes a new read of it |
| `SourceDecisionDeadEnd.LongUrlDeadEnd` | tools/source_decision_evaluation.py:293-294 | A link of 2100 characters in the text of the user, every other lead denied, a search pending and one call left: both shipped tools are offered, a new search is admitted, and no response at all is accepted |
| `SourceDecisionDeadEnd.AnsweredReadSettled` | tools/source_decision_evaluation.py:293-342 | A well-formed answer settles a read: its URL counts as read or as failed, so it cannot stay an open lead |
| `SourceDecisionSafety.InventoryNested` | tools/source_decision_evaluation.py:293-342 | Whatever was read is known, and whatever was denied has failed |
| `SourceDecisionSafety.InventoryGrows` | tools/source_decision_evaluation.py:293-342 | A request with more exchanges knows, has read and has failed at least as much |
| `SourceDecisionSafety.RetainedReadsAreReceipts` | tools/source_decision_evaluation.py:225-262 | A retained prior reading always comes from a receipt stored at begin with a non-blank body; no model claim can add one |
| `SourceDecisionSafety.ReadSeenMeaning` | tools/source_decision_evaluation.py:264-291 | A body counts as read exactly when this turn or a retained earlier one brought it |
| `SourceDecisionSafety.SearchedAfterReadMeaning` | tools/source_decision_evaluation.py:264-291 | The update search is done exactly when some exchange attempted a search after an earlier exchange, or an earlier turn, had brought a body |
| `SourceDecisionSafety.CountTestsDistinctness` | tools/source_decision_evaluation.py:540-543 | Comparing the number of URLs with the number of rows is exactly the test that no URL is listed twice |
| `SourceDecisionSafety.WireRoundTrip` | tools/source_decision_evaluation.py:344-370 | The executed calls and their receipts can be read back from the wire history although it names only the decision function |
| `SourceDecisionSafety.AcceptedFits` | tools/source_decision_evaluation.py:518-549 | An accepted response is exactly one call of the decision function, with a new id and arguments that fit the schema of the moment; it lists no source or update twice, cites only what was read and updates only what is known |
| `SourceDecisionProviderObject.SourceDecisionProvider.Begin` | tools/source_decision_evaluation.py:187-223 | Clears every per-generation field, stores exactly the successful prior reads, and names the offered tools by kind, a search exactly for web.search |
| `SourceDecisionProviderObject.SourceDecisionProvider.RetainedPriorReadUrls` | tools/source_decision_evaluation.py:225-262 | The loops compute the retained URLs |
| `SourceDecisionProviderObject.SourceDecisionProvider.PostReadSearchState` | tools/source_decision_evaluation.py:264-291 | The receipt loops compute the post-read search state |
| `SourceDecisionProviderObject.SourceDecisionProvider.ReceiptInventory` | tools/source_decision_evaluation.py:293-342 | The nested receipt loops compute the four inventories |
| `SourceDecisionProviderObject.SourceDecisionProvider.Stream` | tools/source_decision_evaluation.py:393-629 | One stream call performs the specified transition of all fields and emits the specified outcome |
| `SourceDecisionProviderObject.SourceDecisionProvider.Decide` | tools/source_decision_evaluation.py:459-629 | The retry loop performs the specified attempts |
| `SourceDecisionProviderObject.SourceDecisionProvider.Validate` | tools/source_decision_evaluation.py:518-594 | The chain of checks gives the first failing error, and keeps scope and pending leads even then |
| `SourceDecisionProviderObject.SourceDecisionProvider.Commit` | tools/source_decision_evaluation.py:615-629 | An accepted decision is recorded and turned into the skill call or the draft |
| `EvaluationResume.ResumeAsksTheSame` | tools/evaluate_character_scenarios.py:1124-1515 | For every configuration: everything asked in any sequence of stopped and resumed runs is asked by one uninterrupted run, the same slot with the same key and the same prompt |
| `EvaluationResume.ResumeAsksInPlace` | tools/evaluate_character_scenarios.py:1124-1515 | If the keys of the slots differ, at the same place of that run |
| `EvaluationResume.ResumeAsksMissing` | tools/evaluate_character_scenarios.py:1124-1515 | What a resumed run asks is, in order, exactly those of the first issues of the uninterrupted run whose keys the file does not hold as completed |
| `EvaluationResume.FileIsOfOneRun` | tools/evaluate_character_scenarios.py:1124-1515 | After any sequence of stopped and resumed runs the file reads as the file of the uninterrupted run after some number of slots |
| `EvaluationResume.FileMeans` | tools/evaluate_character_scenarios.py:388-418 | That file holds exactly the keys answered with a listed finish reason by then, with the answers |
| `EvaluationResume.CompletedIsPrefixExactly` | tools/evaluate_character_scenarios.py:388-418 | After any sequence of runs the file holds what memory held at some slot of the uninterrupted run if and only if no reply that is not read back came before one that is |
| `EvaluationResume.SecondRunAsksForgotten` | tools/evaluate_character_scenarios.py:388-418 | After a run that was not interrupted a second one asks again, in order, exactly the slots whose reply was not usable or finished for an unlisted reason |
| `EvaluationLoop.FilteredLeavesGap` | tools/evaluate_character_scenarios.py:404-407 | A loadable scenario: its conversation goes on behind a first reply that the content filter cut short, and the file keeps the second turn but not the first |
| `EvaluationResume.CompletedIsNotAskedAgain` | tools/evaluate_character_scenarios.py:1124-1515 | For every configuration: a key that the results file holds as completed is never asked again |
| `EvaluationResume.RunEnds` | tools/evaluate_character_scenarios.py:1124-1515 | One run on such a file asks exactly what is missing up to where it ends and leaves such a file; uninterrupted it ends only where the uninterrupted run on an empty file does |
| `EvaluationResume.PromptsFollowConversation` | tools/evaluate_character_scenarios.py:1137-1515 | Every prompt of the uninterrupted run is compiled from the seed of its conversation and all its earlier turns, each the user's text and then the reply remembered for it; `EvaluationRules.PromptsAreCompiled` gives every entry by its place |
| `EvaluationLoop.LoopResumesInPlace` | tools/evaluate_character_scenarios.py:1124-1515 | In the loop order and with the sample keys of the program, for any fixture that loads and tellable variant names, what is asked is asked at the same place |
| `EvaluationKeys.CollideExactly` | tools/evaluate_character_scenarios.py:379-380 | For two different variant names: some samples share a key if and only if one name ends as a key of the other does (mark of repeat and turn, then the name), or is such an ending without its first colon |
| `EvaluationKeys.SameVariantInjective` | tools/evaluate_character_scenarios.py:379-380 | Two samples of one variant never share a key, whatever the names contain |
| `EvaluationKeys.NoColonMimicsNothing` | tools/evaluate_character_scenarios.py:379-380 | A variant name without a colon never ends so |
| `EvaluationKeys.ColonsCollide` | tools/evaluate_character_scenarios.py:379-380 | With a colon in a variant name two different samples can share a key |
| `EvaluationLoop.KeysApartExactly` | tools/evaluate_character_scenarios.py:318-380 | The slots of every fixture that loads have different keys if and only if the variant names differ and none ends as a key of another does |
| `EvaluationLoop.EqualNamesSkipSecond` | tools/evaluate_character_scenarios.py:1993-1997 | Two variants with one name, which the program accepts: the slots of the second are the slots of the first once more, and no run ever asks them |
| `EvaluationLoop.AskedKeysAreNew` | tools/evaluate_character_scenarios.py:1247-1258 | A slot is asked only if no earlier slot has its key |
| `EvaluationKeys.LoopOrderIs` | tools/evaluate_character_scenarios.py:1124-1141 | The nested loops visit exactly the combinations of variant, repeat and scenario, each once if and only if no variant name is repeated |
| `EvaluationRunner.Runner.ReadCompletedRecords` | tools/evaluate_character_scenarios.py:388-418 | The reading loop skips blank, unparsable and unlisted lines, lets later records win and aborts on an invalid snapshot |
| `EvaluationRunner.Runner.Execute` | tools/evaluate_character_scenarios.py:1124-1515 | A run on the results file performs the specified run and leaves the specified file |
| `EvaluationRunner.Runner.Walk` | tools/evaluate_character_scenarios.py:1137-1515 | The turn loop rebuilds the history from saved records, for each turn the user's text and then the reply, and appends one record per new reply |
| `DeviceJournalSafety.AtMostOneWrite` | apps/desktop/src-tauri/src/assistant_device.rs:297-349 | Over every run, with a crash or failed save anywhere, a request reaches the calendar for writing at most once while it is not forgotten, and its entry is the uncertain marker or that single call's result |
| `DeviceJournalSafety.SecondWriteAfterForget` | apps/desktop/src-tauri/src/assistant_device.rs:297-349 | Over the whole history, between two native writes of one request there is always an explicit forget |
| `DeviceJournalSafety.OnlyAdmissibleReachCalendar` | apps/desktop/src-tauri/src/assistant_device.rs:297-349 | The calendar is called only for an unexpired request of this device on a selected source, writable if it writes, and a write only after its marker was saved |
| `DeviceJournalSafety.AdmissionMeans` | apps/desktop/src-tauri/src/assistant_device.rs:298-334 | The chain of checks admits exactly such requests |
| `DeviceJournalSafety.RunKeepsJournal` | apps/desktop/src-tauri/src/assistant_device.rs:182-350 | Every command keeps the journal in that order, whatever fails |
| `DeviceJournalSafety.PresentedIsLatest` | apps/desktop/src-tauri/src/assistant_device.rs:42-58 | Over every run the presented list is exactly the latest thousand recorded deliveries, one delivery is recorded again only after a thousand others, and receipts stay bounded |
| `DeviceJournalSafety.RunKeepsPresented` | apps/desktop/src-tauri/src/assistant_device.rs:182-350 | Every command keeps the presented list equal to the latest recorded ids |
| `DeviceJournalSafety.DecisionNeverChanges` | apps/desktop/src-tauri/src/assistant_device.rs:60-86 | A queued decision stays as it is until it or its server is forgotten, and a rejection is never taken back |
| `DeviceJournalSafety.DecisionNeedsPresentation` | apps/desktop/src-tauri/src/assistant_device.rs:60-86 | Only a delivery that was presented can be decided on |
| `DeviceDeliveries.FirstExactly` | apps/desktop/src-tauri/src/assistant_device.rs:42-58 | After any run, a presentation that there is room for is called new if and only if it is not among the latest thousand recorded for this pairing |
| `DeviceDeliveries.NewAgain` | apps/desktop/src-tauri/src/assistant_device.rs:42-58 | The first of a thousand and one deliveries is new again, although it was recorded and never forgotten |
| `DeviceStoreObject.DeviceStore.Pair` | apps/desktop/src-tauri/src/assistant_device.rs:182-204 | Keeps both invariants of the store (at most one write per request, latest deliveries listed); a second pairing changes nothing, and a new binding starts with no results |
| `DeviceStoreObject.DeviceStore.Forget` | apps/desktop/src-tauri/src/assistant_device.rs:205-209 | Keeps both invariants; afterwards no request of that server counts as written |
| `DeviceStoreObject.DeviceStore.Present` | apps/desktop/src-tauri/src/assistant_device.rs:243-250 | Keeps both invariants; new means not among the latest recorded deliveries, and then recorded |
| `DeviceStoreObject.DeviceStore.QueueAction` | apps/desktop/src-tauri/src/assistant_device.rs:251-256 | Keeps both invariants; a decision is taken up only for one of the latest deliveries and never changed |
| `DeviceStoreObject.DeviceStore.ForgetResult` | apps/desktop/src-tauri/src/assistant_device.rs:285-289 | Keeps both invariants; the request has no entry and counts as unwritten |
| `DeviceStoreObject.DeviceStore.ForgetPresentation` | apps/desktop/src-tauri/src/assistant_device.rs:290-296 | Keeps both invariants; the retain loop removes the receipts of that delivery, and what was recorded stays |
| `DeviceStoreObject.DeviceStore.Execute` | apps/desktop/src-tauri/src/assistant_device.rs:297-349 | Keeps both invariants: at most one write of the request; a known request is answered from its entry and nothing happens, one that reaches the calendar was not written before, and its result is stored and answered |
| `SpringIntegrator.SubstepIsLinear` | packages/avatar-sdk/src/behavior-state-machine.ts:427-432 | A substep maps (distance to the target, distance one substep earlier) linearly, with coefficients 2-2k-k*k and 1-2k for k = omega * h |
| `SpringEnergy.EnergyDrop` | packages/avatar-sdk/src/behavior-state-machine.ts:427-432 | One substep takes exactly k times a square away from the quadratic energy |
| `SpringEnergy.EnergyNeverGrows` | packages/avatar-sdk/src/behavior-state-machine.ts:427-432 | For every number of substeps and k >= 0 the energy never exceeds its start |
| `SpringEnergy.EnergyBoundsBoth` | packages/avatar-sdk/src/behavior-state-machine.ts:427-432 | The energy bounds both distances, with the margin 4(1-k)(1-k) - a*a for the first coefficient a |
| `SpringStability.StableExactly` | packages/avatar-sdk/src/behavior-state-machine.ts:427-432 | The linear map stays bounded from every start if and only if k*k + 4k <= 4 |
| `SpringIntegrator.SpringStableExactly` | packages/avatar-sdk/src/behavior-state-machine.ts:417-433 | Value and velocity stay bounded around every fixed target from every start, for any number of substeps, if and only if k*k + 4k <= 4, that is k <= 2*sqrt(2) - 2 |
| `SpringIntegrator.SubstepsFillFrame` | packages/avatar-sdk/src/behavior-state-machine.ts:424-425 | The substeps of a frame are positive, at most 1/120 s and together last exactly the frame |
| `SpringIntegrator.OtherChannelsStable` | packages/avatar-sdk/src/behavior-state-machine.ts:39-52 | Every channel but eyeOpen is stable at every frame time |
| `SpringIntegrator.EyeOpenUnstableAtSixtyFrames` | packages/avatar-sdk/src/behavior-state-machine.ts:39-52 | eyeOpen at 60 frames a second is not stable: from some start its spring grows without bound |
| `SpringFrames.NeverRaisesExactly` | packages/avatar-sdk/src/behavior-state-machine.ts:427-432 | No state gains energy, distance squared plus the square of velocity over frequency, in a substep if and only if k <= 4/5; this energy is the same for all substep lengths |
| `SpringFrames.OtherChannelsStayNear` | packages/avatar-sdk/src/behavior-state-machine.ts:417-433 | Over frames of any lengths in any order, every channel but eyeOpen stays within the distance from a fixed target and the scaled speed of its first energy |
| `SpringTargets.KeepsBetweenExactly` | packages/avatar-sdk/src/behavior-state-machine.ts:427-432 | A substep keeps value and lead, the value plus velocity over frequency, in every interval that holds them and the target if and only if k <= 1/2 |
| `SpringTargets.SlowChannelsStayBetween` | packages/avatar-sdk/src/behavior-state-machine.ts:417-433 | All channels but the eyes, outside interrupted mode, over frames of any lengths and targets that move at every frame: the value never leaves a range that holds all targets, the value and the lead at the start |
| `SpringTargets.ChannelsFollowTargets` | packages/avatar-sdk/src/behavior-state-machine.ts:417-433 | Every channel but eyeOpen in either mode: value and lead stay within a bound they started in while the moving targets stay within a sixth of it |
| `SpringTargets.ComesCloser` | packages/avatar-sdk/src/behavior-state-machine.ts:427-432 | For 0 < k <= 0.63 one substep takes a tenth of k or more off the bound on both distances |
| `SpringTargets.ReachesTarget` | packages/avatar-sdk/src/behavior-state-machine.ts:417-433 | Every channel but eyeOpen comes to a target that stays and comes to rest there, from any start and however the time is cut into frames: value and lead are within any distance of it once the frames have lasted long enough for that distance |
| `SpringIntegrator.SpringState.Integrate` | packages/avatar-sdk/src/behavior-state-machine.ts:417-433 | The loop performs the counted substeps of equal length, and nothing without time |
| `PayloadScanner.CleanMeansClean` | tools/windows/scan_worker_pack_payload.py:43-55 | However the file is cut into reads, a clean verdict means the whole lower-cased file holds no marker and the file no whole token |
| `PayloadScanner.MarkerFoundExactly` | tools/windows/scan_worker_pack_payload.py:43-55 | Without token-like bytes in the file, the scan reports a local path exactly when the whole lower-cased file contains a marker |
| `PayloadScanner.LocalPathExactly` | tools/windows/scan_worker_pack_payload.py:43-55 | The scan names a local path if and only if some window holds a marker and no earlier window holds a token |
| `PayloadScanner.TokenHidesMarker` | tools/windows/scan_worker_pack_payload.py:50-53 | A token in an early window hides a marker further on: the verdict names the token |
| `PayloadScanner.ViolationMeansPresent` | tools/windows/scan_worker_pack_payload.py:43-55 | A local-path verdict is always right; a token verdict always has hf_ and 34 letters or digits behind it |
| `PayloadScanner.AccessTokenExactly` | tools/windows/scan_worker_pack_payload.py:43-55 | The scan names a token if and only if some window shows one, the edges of the window taken for the ends of the file, and no window up to it shows a marker |
| `PayloadScanner.FalseTokenExactly` | tools/windows/scan_worker_pack_payload.py:15-15 | A file without markers and without a whole token is reported if and only if the edge of some window cuts a core off from the byte next to it that makes it no token |
| `PayloadScanner.CutMakesToken` | tools/windows/scan_worker_pack_payload.py:43-55 | Any first read of a file that ends right behind a core, with another letter or digit next: the scan reports a token where there is none |
| `PayloadScanner.CutFileIsReported` | tools/windows/scan_worker_pack_payload.py:43-55 | For every length of the first read from a whole token on, the 8 MiB of the program among them, there is such a file; read at once it is clean |
| `PayloadScanner.OneReadIsExact` | tools/windows/scan_worker_pack_payload.py:43-55 | A file read at once gets the whole-file verdict |
| `PayloadScanner.ScanReadsStretches` | tools/windows/scan_worker_pack_payload.py:44-54 | Carrying the last bytes over makes every window the stretch of the file that begins one overlap before the chunk |
| `PayloadScanner.TokenInWindow` | tools/windows/scan_worker_pack_payload.py:15-15 | A window sees a token exactly where the file has its core, except that the edges of the window count as the ends of the file |
| `PayloadScanner.FileViolation` | tools/windows/scan_worker_pack_payload.py:43-55 | The read loop with its carried buffer computes the scan |
| `RoundBudget.DispatchedWithinMaximum` | tools/runtime_source_evaluation.py:60-134 | Over any starts, crashes and failed or torn appends on one journal, the streams ever sent never exceed the maximum |
| `RoundBudget.FaultlessRunIsExact` | tools/runtime_source_evaluation.py:67-134 | Without failed appends, however often the evaluation is stopped and resumed, the journal can be replayed if and only if no row written holds U+0085, U+2028 or U+2029, and then it replays to exactly the number of streams sent |
| `RoundBudget.SeparatorStopsResume` | tools/runtime_source_evaluation.py:67-87 | One reply with such a character, written without any fault, and the next start is refused |
| `RoundBudget.FailedAppendIsCharged` | tools/runtime_source_evaluation.py:130-134 | After one request and a restart: exact if and only if nothing was written or the whole row went through; a round that was not sent is charged if and only if its row is complete although the append failed; the journal is lost if and only if the row is cut or holds a separator |
| `RoundBudget.TornJournalStaysTorn` | tools/runtime_source_evaluation.py:67-74 | Once a journal has a line that cannot be read, no later process counts it or sends anything |
| `RoundBudget.TornAppendIsUnreadable` | tools/runtime_source_evaluation.py:84-87 | An append that is cut off in the middle leaves such a line |
| `RoundBudget.AppendKeepsCount` | tools/runtime_source_evaluation.py:84-87 | An append of any length never lowers the count of a journal that can still be replayed |
| `RoundBudget.ReplayableMeans` | tools/runtime_source_evaluation.py:67-74 | The replay accepts exactly the journals without unreadable lines and without a repeated started round |
| `RoundBudget.Replay` | tools/runtime_source_evaluation.py:67-74 | The replay loop counts each started round once, or refuses the journal |
| `RoundBudget.RecordedProvider.Open` | tools/runtime_source_evaluation.py:60-74 | A process counts the journal it finds, and counts at least what was sent |
| `RoundBudget.RecordedProvider.Stream` | tools/runtime_source_evaluation.py:89-134 | A request is refused at the limit; otherwise it is recorded, counted and sent, in this order, and what was sent stays within the limit |
| `RoundBudget.RecordedProvider.Finish` | tools/runtime_source_evaluation.py:159-161 | The finished row never lowers the count of a journal that can be replayed below what was sent |
| `GrantJournal.BatchesAreOneMerge` | crates/windows-appcontainer-host/src/journal.rs:66-85 | Merging grants in two batches equals one merge of their concatenation |
| `GrantJournal.OneRootPerPath` | crates/windows-appcontainer-host/src/journal.rs:66-85 | After a merge there is exactly one root for each path key granted, in key order |
| `GrantJournal.MergedRootMeans` | crates/windows-appcontainer-host/src/journal.rs:66-85 | All grants of a path come to one root: the first path spelling, the strongest access ever granted, the first control bits recorded, and complete only if the first grant was complete and access never rose |
| `GrantJournal.MergedStays` | crates/windows-appcontainer-host/src/journal.rs:66-85 | Merging again what is already merged changes nothing |
| `GrantJournal.UpsertLookup` | crates/windows-appcontainer-host/src/journal.rs:71-83 | One grant changes the root of its own key only |
| `GrantJournal.ProfileJournal.constructor` | crates/windows-appcontainer-host/src/journal.rs:55-64 | A new journal holds the merge of the grants it is given |
| `GrantJournal.ProfileJournal.MergeIn` | crates/windows-appcontainer-host/src/journal.rs:66-85 | Draining and rebuilding the roots performs the merge |
| `GrantJournal.ProfileJournal.Validate` | crates/windows-appcontainer-host/src/journal.rs:87-101 | Validation accepts exactly the current version with the expected profile and identifier |
| `Shards.PartitionIsExact` | tools/ci/pytest_shard.py:13-20 | Every id of a collection without repetition is in exactly one shard, and shards hold nothing else |
| `Shards.PartitionIsEven` | tools/ci/pytest_shard.py:13-20 | Shard sizes differ by at most one, and all shards hold something exactly when there are at least as many ids as shards |
| `Shards.ShardIsSorted` | tools/ci/pytest_shard.py:50-56 | The sorted selection in a manifest is the shard itself |
| `Shards.KeepAndDrop` | tools/ci/pytest_shard.py:46-49 | No test is lost between the selected and the deselected ones |
| `Shards.Collection.ModifyItems` | tools/ci/pytest_shard.py:30-59 | Without options nothing changes; a valid non-empty shard keeps its items in collection order and yields its manifest; anything else is refused and leaves the items |
| `Shards.HonestAccepted` | tools/ci/verify_pytest_shards.py:21-42 | Verification accepts the manifests of one collection in any file order whenever there are at least as many tests as shards |
| `Shards.AcceptedIsExactCover` | tools/ci/verify_pytest_shards.py:21-42 | With a collision-free digest and ids without line ends, accepted manifests that name a collection select every id of it exactly once and nothing else, under every index once |
| `Shards.JoinInjective` | tools/ci/verify_pytest_shards.py:39-39 | Lists of the same length without line ends are told apart by their join |
| `Shards.EachIndexOnce` | tools/ci/verify_pytest_shards.py:22-25 | As many manifests as indices, with all indices present, means each index once |
| `Shards.Verify` | tools/ci/verify_pytest_shards.py:21-42 | The loop over the manifests computes the verdict |
| `HitTest.AcceptedExactly` | tools/live2d_bridge/src/mesh-hit-test.ts:67-92 | A point is accepted exactly when the triangle is not degenerate and the point is on no wrong side of any edge by more than epsilon |
| `HitTest.AcceptedByBarycentric` | tools/live2d_bridge/src/mesh-hit-test.ts:67-103 | A point is accepted exactly when all its barycentric coordinates are at least minus epsilon over the doubled area |
| `HitTest.BarycentricCombines` | tools/live2d_bridge/src/mesh-hit-test.ts:94-103 | Those coordinates combine the vertices to the point and add up to one |
| `HitTest.ConvexAccepted` | tools/live2d_bridge/src/mesh-hit-test.ts:67-92 | Every convex combination of the vertices of a non-degenerate triangle is accepted |
| `HitTest.OrderDoesNotMatter` | tools/live2d_bridge/src/mesh-hit-test.ts:67-103 | The answer is the same for all six vertex orders |
| `HitTest.IsPointInDrawable` | tools/live2d_bridge/src/mesh-hit-test.ts:24-61 | The offset loop finds a hit exactly when some index triple of a shown drawable names a triangle that contains the point |
| `HitTest.IsPointInVisibleDrawableMeshes` | tools/live2d_bridge/src/mesh-hit-test.ts:14-65 | True exactly when some shown drawable is hit |
| `DatabaseMerge.MergeDatabaseExactly` | tools/merge_qq_runtime_database.py:210-274 | The whole operation succeeds exactly when every table is mergeable, and its final row verification then rejects nothing; which rows may meet is spelled out in `DatabaseMergeRules.DatabaseMergesExactly` |
| `DatabaseMerge.LoopMatchesUnion` | tools/merge_qq_runtime_database.py:222-274 | When no conflict is raised, the row loop and the independently declared union give the same table |
| `DatabaseMerge.MergesExactlyCompatible` | tools/merge_qq_runtime_database.py:222-240 | The row loop succeeds exactly when every incoming row is compatible with the primary row of its key; field by field in `DatabaseMergeRules.RowMergesExactly` |
| `DatabaseMerge.MergeIsUnion` | tools/merge_qq_runtime_database.py:222-249 | The result is the keyed union: every primary row is kept or reconciled, every incoming row is there or reconciled, nothing else |
| `DatabaseMerge.ReconciledState` | tools/merge_qq_runtime_database.py:139-149 | A reconciled state has a revision above both inputs, the newer snapshot, and for relationships the summed interaction count |
| `DatabaseMerge.InteractionsConserved` | tools/merge_qq_runtime_database.py:145-148 | Merging the relationship table adds up the interactions of both databases |
| `DatabaseMerge.CountersAreRight` | tools/merge_qq_runtime_database.py:221-250 | The inserted counter is the number of keys gained; in a state table inserted and reconciled rows are all rows |
| `DatabaseMerge.CheckCannotFail` | tools/merge_qq_runtime_database.py:260-274 | For one table: after a merge without conflict the row check passes |
| `DatabaseMerge.ConflictsAreNamed` | tools/merge_qq_runtime_database.py:222-240 | A conflict is reported as one of the merge, never as a lost row |
| `DatabaseMerge.MergeTableRows` | tools/merge_qq_runtime_database.py:210-250 | The row loop of one table |
| `DatabaseMerge.VerifyTable` | tools/merge_qq_runtime_database.py:260-274 | The verification of one table rebuilds the union and compares |
| `DatabaseMerge.MergeDatabase` | tools/merge_qq_runtime_database.py:210-274 | All tables are merged, owners that differ only in their creation time among them, then all are verified |
| `RecoverySessions.SessionsRecovered` | tools/windows/recover_runtime_database.py:1106-1222 | The recovered sessions are exactly the referenced ones, each once, each with a cursor one past its largest recovered event; the counters add up, and the cursor check of the target finds nothing |
| `RecoverySessions.RecoversExactly` | tools/windows/recover_runtime_database.py:1106-1222 | Recovery succeeds exactly when every reference and event is well formed and every referenced session can be looked up or inferred |
| `RecoverySessions.RequiredAre` | tools/windows/recover_runtime_database.py:1112-1122 | The required identifiers are those that some row names, each once; a malformed one is an error |
| `RecoverySessions.MaxSequencesDescribe` | tools/windows/recover_runtime_database.py:1129-1135 | The map of maxima holds the largest sequence of each session with events |
| `RecoverySessions.CursorIsMax` | tools/windows/recover_runtime_database.py:1501-1509 | The recovered cursor equals the database's own MAX + 1 |
| `RecoverySessions.RecoverAllIs` | tools/windows/recover_runtime_database.py:1145-1204 | The loop recovers one row per identifier, by copy or reconstruction, and every count is accounted for |
| `RecoverySessions.RecoverOneIs` | tools/windows/recover_runtime_database.py:1145-1204 | A copied row keeps its columns but the cursor; a missing or corrupt lookup is reconstructed or refused |
| `RecoverySessions.CollectRequired` | tools/windows/recover_runtime_database.py:1112-1122 | The loop over all rows collects the required identifiers |
| `RecoverySessions.CollectMaxima` | tools/windows/recover_runtime_database.py:1129-1135 | The loop over the events collects the maxima |
| `RecoverySessions.RecoverRows` | tools/windows/recover_runtime_database.py:1145-1204 | The loop over the sorted identifiers recovers the rows |
| `RecoverySessions.RecoverSessionTable` | tools/windows/recover_runtime_database.py:1106-1222 | The whole step |
| `RecoveryPublication.TouchesOnlyItsOwn` | tools/windows/recover_runtime_database.py:810-832 | The tool changes the target path only by putting its build where nothing was, or by removing what is there one step after it found its published file there |
| `RecoveryPublication.RemovesOwnExactly` | tools/windows/recover_runtime_database.py:242-246 | The file the error handler removes is the published one if and only if nobody changed the target path between its match and its removal, or the last change put that very file there |
| `RecoveryPublication.OthersFileRemoved` | tools/windows/recover_runtime_database.py:242-246 | A run that removes a file of somebody else, put there between the two |
| `RecoveryPublication.FailureLeavesNothing` | tools/windows/recover_runtime_database.py:242-279 | A failing exit, at whatever step and whatever others did meanwhile, leaves at the target path nothing this run published; its file stays there without success only if the error handler failed too |
| `RecoveryPublication.SuccessIsVerified` | tools/windows/recover_runtime_database.py:168-241 | A successful exit left the verified build at the target path, a backup with the sizes and digests of the first snapshot, and saw the source family equal to that snapshot after publication |
| `RecoveryPublication.HeldSourceIsBackedUp` | tools/windows/recover_runtime_database.py:675-728 | While the source is held against writers, success ends with the source it started from and a backup of it |
| `RecoveryPublication.RunIsSound` | tools/windows/recover_runtime_database.py:168-279 | What holds at every step of every run |
| `RecoveryPublication.UndisturbedRunSucceeds` | tools/windows/recover_runtime_database.py:168-241 | Without faults and interference thirteen steps publish the build |
| `RecoveryPublication.AssertSameFamily` | tools/windows/recover_runtime_database.py:776-794 | The loop compares membership and then each file up to its time |
| `RecoveryPublication.VerifyRawBackup` | tools/windows/recover_runtime_database.py:797-807 | The loop accepts exactly complete copies with equal sizes and digests |
| `RecoveryPublication.RecoveryRun.Check` | tools/windows/recover_runtime_database.py:176-240 | The check made at each step |
| `RecoveryPublication.RecoveryRun.Advance` | tools/windows/recover_runtime_database.py:168-279 | One step of the recovery or of its error handler keeps every stage invariant and changes the target path only to publish where nothing was, or to remove what is there one step after it found its own file there |
| `RecoveryPublication.RecoveryRun.Recover` | tools/windows/recover_runtime_database.py:168-279 | A whole run, with the changes of others in between: success leaves the verified build and a matching backup, failure leaves nothing it published |
| `OAuthSlot.RunIsSound` | apps/desktop/src-tauri/src/google_oauth.rs:57-122 | Over every interleaving the flow in the slot is not signalled and has a running timer, its listener is taken exactly by one receive, and every other waiting receive has been told to stop |
| `OAuthSlot.OthersKeepTheSlot` | apps/desktop/src-tauri/src/google_oauth.rs:88-121 | A timer, cancel or receive of one flow never takes another flow out of the slot, however late it comes |
| `OAuthSlot.SupersededNeverSucceeds` | apps/desktop/src-tauri/src/google_oauth.rs:71-82 | After a new flow is installed, a waiting receive of an older flow ends without a code |
| `OAuthSlot.SignalledNeverYieldsCode` | apps/desktop/src-tauri/src/google_oauth.rs:234-271 | A flow cancelled or expired before its outcome is decided never yields a code in any continuation |
| `OAuthSlot.OAuthState.Take` | apps/desktop/src-tauri/src/google_oauth.rs:28-35 | Taking the flow out of the slot keeps every slot invariant; the flow had not been told to stop, and now has |
| `OAuthSlot.OAuthState.DrawId` | apps/desktop/src-tauri/src/google_oauth.rs:71-71 | A drawn identifier was never drawn before and nothing knows it |
| `OAuthSlot.OAuthState.Prepare` | apps/desktop/src-tauri/src/google_oauth.rs:73-82 | The new flow is alone in the slot with its timer, and every receive still going on has been told to stop |
| `OAuthSlot.OAuthState.TimerFires` | apps/desktop/src-tauri/src/google_oauth.rs:87-99 | A timer ends its flow while it holds the slot and leaves a newer flow alone |
| `OAuthSlot.OAuthState.CancelFlow` | apps/desktop/src-tauri/src/google_oauth.rs:107-122 | A cancel ends its flow while it holds the slot and leaves a newer flow alone |
| `OAuthSlot.OAuthState.CancelAll` | apps/desktop/src-tauri/src/google_oauth.rs:28-35 | The slot is empty and every receive still going on has been told to stop |
| `OAuthSlot.OAuthState.BeginReceive` | apps/desktop/src-tauri/src/google_oauth.rs:242-251 | Receive takes the listener of the right flow, at most once and never of a flow told to stop |
| `OAuthSlot.OAuthState.Await` | apps/desktop/src-tauri/src/google_oauth.rs:252-264 | A receive that was told to stop yields no code; one that yields a code still holds the slot |
| `OAuthSlot.OAuthState.EndReceive` | apps/desktop/src-tauri/src/google_oauth.rs:265-270 | Receive ends once and clears the slot only if it is still its own |
| `CueRules.AdmittedBecomes` | packages/avatar-sdk/src/cue-scheduler.ts:49-186 | What scheduling makes of a cue: the cue itself or its fallback, filled with intensity 1, interruptible, priority 50 and an immediate start where nothing is given, on the layer of its kind, numbered and ending its own or its kind's default length after now |
| `CueRules.BlockedExactly` | packages/avatar-sdk/src/cue-scheduler.ts:187-202 | A cue is held back exactly while a motion plays that it asks to wait for, or while its layer holds a cue that is not interruptible or has a higher priority |
| `CueRules.QueueInOrder` | packages/avatar-sdk/src/cue-scheduler.ts:204-218 | In every run, of two queued cues the one in front has the higher priority, or the same priority and the smaller sequence number; both priorities are set |
| `CueRules.NumbersCount` | packages/avatar-sdk/src/cue-scheduler.ts:166-186 | The sequence number moves with every cue of a live generation and with nothing else, so a cue scheduled later has a larger one |
| `CueRules.FirstScheduledStarts` | packages/avatar-sdk/src/cue-scheduler.ts:124-132 | Of two queued motions of one priority that wait for the one that plays, the one scheduled later never starts when that ends; the one scheduled first does, unless another queued motion is before it |
| `CueRules.ActiveLeavesExactly` | packages/avatar-sdk/src/cue-scheduler.ts:86-266 | In every run an active cue leaves its layer if the operation takes it off; otherwise it stays, or an interruptible one is replaced by a cue of at least its priority |
| `CueRules.EndsSayWhy` | packages/avatar-sdk/src/cue-scheduler.ts:220-279 | The reason told with the end of a motion: expired, invalidated or replaced, by operation |
| `CueRules.ScheduledExactly` | packages/avatar-sdk/src/cue-scheduler.ts:49-84 | In every run, a cue of a live generation: what it becomes, what an override takes away first, and that it is then active, or queued, or dropped from a full queue with a warning; its number and the revision move |
| `CueRules.StaleOnlyWarns` | packages/avatar-sdk/src/cue-scheduler.ts:49-62 | A cue of an invalidated generation changes nothing but the warnings, of which the latest are kept |
| `CueRules.QueueAfterExactly` | packages/avatar-sdk/src/cue-scheduler.ts:86-153 | In every run the other operations keep the queue in its order; what stays is held back by what is active wherever queued cues were let start |
| `CueRules.QueuedIsNotLost` | packages/avatar-sdk/src/cue-scheduler.ts:229-253 | A queued cue stays, is discarded by the operation that names it, or starts with its length counted from now |
| `CueRules.RevisionMovesExactly` | packages/avatar-sdk/src/cue-scheduler.ts:49-153 | The revision moves by one with every cue of a live generation, with a reset, and with any other operation exactly when the layers or the queue changed |
| `SourceDecisionRules.BeginExactly` | tools/source_decision_evaluation.py:187-223 | After begin no call, action, decision or lead is left of the last generation, one correction is free, and the names are those of the projections exactly if all of them are read-only searches and reads: web.search means the search tool, anything else the read tool, the last projection of a name counts; else there are none |
| `SourceDecisionRules.EveryNameHasItsKind` | tools/source_decision_evaluation.py:202-212 | With different names, every projection's name is the search tool if and only if its skill is web.search |
| `SourceDecisionRules.InventoryExactly` | tools/source_decision_evaluation.py:293-342 | Read, known, failed and denied, URL by URL: which single receipt of which exchange, which link of the user or which retained reading puts it there |
| `SourceDecisionRules.PostReadExactly` | tools/source_decision_evaluation.py:264-291 | The two flags by exchanges: a body was brought before, and a search was tried after one |
| `SourceDecisionRules.RetainedExactly` | tools/source_decision_evaluation.py:225-262 | A URL is retained exactly if the newest envelope repeats, word for word, the body that begin stored for an earlier successful read of it, and that body has text |
| `SourceDecisionRules.DefinitionsExactly` | tools/source_decision_evaluation.py:393-430 | The tool of a kind is the last one offered under a name of that kind |
| `SourceDecisionRules.SituationExactly` | tools/source_decision_evaluation.py:430-459 | What a question is asked with: calls left, leads, last call kept for reading and update search due |
| `JudgementRules.JudgeExactly` | tools/source_decision_evaluation.py:518-594 | Whatever the model answers: the error is that of the first check that fails, in the order of the program, the decision is accepted exactly if all hold, and the scope and the pending leads move exactly from the check on that the program moves them at |
| `JudgementRules.SettleExactly` | tools/source_decision_evaluation.py:595-629 | What an accepted decision is recorded as and becomes: a search call, a read call, a focused draft |
| `JudgementRules.AttemptExactly` | tools/source_decision_evaluation.py:459-614 | A rejected answer is asked again with its error exactly while the correction of the generation is free |
| `JudgementRules.StreamExactly` | tools/source_decision_evaluation.py:393-459 | One call: not active it passes through, with a foreign tool it is refused, else it asks |
| `JudgementRules.ShowsDecisions` | tools/source_decision_evaluation.py:344-370 | A call that a decision stands for is shown as that decision with its result below, any other as it is |
| `EvaluationRules.PromptsAreCompiled` | tools/evaluate_character_scenarios.py:1137-1515 | On any results file and with any stops, a prompt is compiled from a history of the seed and then for every earlier turn i, at places |seed| + 2i and |seed| + 2i + 1, the user's text as a user entry and the reply remembered under that turn's key as an assistant entry with that key |
| `EvaluationRules.LoopPromptsAreCompiled` | tools/evaluate_character_scenarios.py:1124-1515 | The same in the loop of the program, for every fixture that loads |
| `EvaluationRules.ConversationAt` | tools/evaluate_character_scenarios.py:1124-1141 | Where each conversation comes: by variant, then repeat, then scenario |
| `EvaluationRules.LoopSlotAt` | tools/evaluate_character_scenarios.py:1124-1247 | Where each turn comes, and that each comes once |
| `EvaluationRules.KeyReads` | tools/evaluate_character_scenarios.py:379-380 | The key spells scenario, repeat, turn from one, and variant; the numbers read back |
| `EvaluationRules.ReadBackExactly` | tools/evaluate_character_scenarios.py:388-418 | The resume is refused exactly if a counting record has an invalid snapshot; else exactly the keys of counting records are completed, each with its last reply |
| `EvaluationRules.RunWrites` | tools/evaluate_character_scenarios.py:383-386 | Every answer is appended as one record, in the order of asking; all that is asked is answered but perhaps the last |
| `DeviceRules.LetThroughExactly` | apps/desktop/src-tauri/src/assistant_device.rs:298-334 | A request is let through exactly if all seven checks of the program hold, each in its own terms ... |
| `DeviceRules.FirstFailingRefuses` | apps/desktop/src-tauri/src/assistant_device.rs:298-334 | ... and otherwise the first that fails answers it, with its own refusal |
| `DeviceRules.ExecuteExactly` | apps/desktop/src-tauri/src/assistant_device.rs:297-349 | What a request answers and leaves for any faults: a known one its entry, a new one the marker ahead of a write, then the native call, then the result in the journal and as the answer, or the marker if the call died or the last save did not land |
| `DeviceRules.KnownIsRepeated` | apps/desktop/src-tauri/src/assistant_device.rs:298-303 | A request with an entry is answered from it whatever else it asks for, and nothing happens |
| `DeviceRules.ResultIsRepeated` | apps/desktop/src-tauri/src/assistant_device.rs:297-349 | After any run, a request let through whose native call returned and whose result landed is answered with that result by every later request of its identifier, until it or its server is forgotten |
| `DeviceRules.UncertainIsRepeated` | apps/desktop/src-tauri/src/assistant_device.rs:335-349 | A write that died in the native call, or whose result did not land, is answered as uncertain from then on |
| `DeviceRules.EntryStays` | apps/desktop/src-tauri/src/assistant_device.rs:182-350 | No command and no fault changes an entry but forgetting it or its server |
| `DeviceRules.PresentExactly` | apps/desktop/src-tauri/src/assistant_device.rs:42-58 | What a presentation records, with both bounds and their order |
| `DeviceRules.QueueExactly` | apps/desktop/src-tauri/src/assistant_device.rs:60-86 | What a decision records, with its refusals in their order |
| `DeviceRules.OtherSaves` | apps/desktop/src-tauri/src/assistant_device.rs:97-125 | Every other command under each end of its save: only a crash behind the rename leaves what a save would |
| `SpringRules.SubstepFollowsEquation` | packages/avatar-sdk/src/behavior-state-machine.ts:427-432 | A substep is a difference step of x'' + 2 omega x' + omega^2 (x - target) = 0 with the new speed, and rests exactly on the target |
| `SpringRules.FewestSubsteps` | packages/avatar-sdk/src/behavior-state-machine.ts:424-425 | A frame takes the fewest equal substeps that are no longer than 1/120 of a second |
| `SpringRules.InterruptedQuickens` | packages/avatar-sdk/src/behavior-state-machine.ts:235-239 | Interrupted, no channel is slower than 10: all but the eyes move up to exactly that, the eyes stay |
| `ScannerRules.MarkerExactly` | tools/windows/scan_worker_pack_payload.py:48-50 | A marker is found exactly where its bytes stand, ASCII letters of the file in either case |
| `ScannerRules.TokenExactly` | tools/windows/scan_worker_pack_payload.py:15-15 | A token is found exactly where the pattern matches, spelled in characters |
| `ScannerRules.KeptBytes` | tools/windows/scan_worker_pack_payload.py:44-44 | What is kept is one byte less than the longest marker, and never fewer than 39 |
| `ScannerRules.ScanExactly` | tools/windows/scan_worker_pack_payload.py:43-55 | Each read is searched with the kept bytes in front; the first one with a find decides, in it a marker goes before a token, and without a find the file is clean |
| `RoundRules.AppendExactly` | tools/runtime_source_evaluation.py:67-87 | What each end of an append leaves, line by line |
| `RoundRules.ReplayExactly` | tools/runtime_source_evaluation.py:67-74 | A start refuses the file exactly if a line cannot be read or a round was started twice, and otherwise counts the different rounds in it |
| `RoundRules.EventExactly` | tools/runtime_source_evaluation.py:60-161 | Everything that a start, a request, a finished row and a crash may change |
| `RoundRules.RunExactly` | tools/runtime_source_evaluation.py:60-161 | Every run is a chain of such events |
| `DatabaseMergeRules.RowMergesExactly` | tools/merge_qq_runtime_database.py:222-249 | A row is merged exactly if its key is new or the two rows may meet: a participant "local" with equal fields but the creation time, two states of the same person in the two state tables, elsewhere equal rows; the kept or reconciled row field by field |
| `DatabaseMergeRules.FirstConflictIsReported` | tools/merge_qq_runtime_database.py:222-240 | The error is that of the first row that may not meet the one already there |
| `DatabaseMergeRules.TableMergesExactly` | tools/merge_qq_runtime_database.py:210-250 | A table is merged exactly if it is kept as configuration, brings nothing, or is an imported table with a primary key whose rows may all meet; then its result is the union, key by key |
| `DatabaseMergeRules.UnionIsOne` | tools/merge_qq_runtime_database.py:222-249 | Those conditions determine the result |
| `DatabaseMergeRules.CheckAcceptsExactlyUnion` | tools/merge_qq_runtime_database.py:260-274 | The final check accepts exactly that union |
| `DatabaseMergeRules.DatabaseMergesExactly` | tools/merge_qq_runtime_database.py:210-274 | The operation succeeds exactly if every table may be merged, and then each result is the union of the two tables |
| `DatabaseMergeRules.CountersOfTable` | tools/merge_qq_runtime_database.py:221-250 | Every key gained is one row inserted; in the two state tables every other row is one reconciled, elsewhere none is |
| `PublicationRules.EveryChangeIsNoticed` | tools/windows/recover_runtime_database.py:776-794 | Two snapshots count as the same exactly if membership and the four compared fields agree; a changed time alone is not noticed |
| `PublicationRules.StepGoesOnExactly` | tools/windows/recover_runtime_database.py:168-241 | The thirteen steps in their order: each goes on exactly if its test holds and then does what it is for |
| `PublicationRules.FaultsRaise` | tools/windows/recover_runtime_database.py:168-241 | A fault before a step prevents its effect, one after it comes too late for that; both lead to the error handler |
| `PublicationRules.HandlerExactly` | tools/windows/recover_runtime_database.py:242-279 | The error handler removes the target exactly one step after it found there the file this run published |
| `PublicationRules.SuccessSaw` | tools/windows/recover_runtime_database.py:168-241 | What a successful run has seen, field by field |
| `SessionRules.OneExactly` | tools/windows/recover_runtime_database.py:1145-1204 | One identifier: when it can be recovered, its row column by column, every counter, and the error |
| `SessionRules.CountersExactly` | tools/windows/recover_runtime_database.py:1145-1204 | The report counts the cases |
| `SessionRules.FirstUnrecoverable` | tools/windows/recover_runtime_database.py:1145-1204 | It stops at the first identifier that cannot be recovered |
| `SessionRules.FailureExactly` | tools/windows/recover_runtime_database.py:1106-1222 | A malformed reference is reported before a malformed event, and both before any session |
| `SessionRules.SortedByPrintedId` | tools/windows/recover_runtime_database.py:1106-1222 | The rows come in the order of the printed identifiers |
| `EvaluationRules.RunEndsAt` | tools/evaluate_character_scenarios.py:1137-1515 | On any file and with any stops a run takes slot after slot; it ends behind the last one or at the first one without a remembered reply that was stopped before being asked, stopped after, or got a reply without text |
| `AvatarControllerBuffer.NoticesAt` | packages/avatar-sdk/src/controller.ts:102-120 | With room in the buffer: the warnings name, in order, every cue but the last ones that fit, and of these the latest 32 |
| `GrantJournal.SlashesReplaced` | crates/windows-appcontainer-host/src/journal.rs:134-141 | The key of a path is as long as the path and differs from it, before folding, only in that every slash is a backslash |
| `OAuthRules.ToldExactly` | apps/desktop/src-tauri/src/google_oauth.rs:28-122 | In every run a flow is told to stop exactly by its timer, its own cancel, a cancel of all or the flow that takes its place, while it is in the slot; at most once, and only a timer tells that it expired |
| `OAuthRules.SlotExactly` | apps/desktop/src-tauri/src/google_oauth.rs:57-271 | Who is in the slot after each event of every run |
| `OAuthRules.IdentifiersCount` | apps/desktop/src-tauri/src/google_oauth.rs:57-99 | Identifiers count up from one; a drawn one waits until it is installed, an installed flow has a timer until that fires |
| `OAuthRules.ReceiveExactly` | apps/desktop/src-tauri/src/google_oauth.rs:234-271 | In every run a receive goes from waiting to its outcome to its end and nothing else moves it; what it answers, by signal and callback |
| `HitRules.TriangleExactly` | tools/live2d_bridge/src/mesh-hit-test.ts:67-103 | A point is accepted exactly if it is on the left of all edges of a triangle that turns left, or on the right of all of one that turns right, with a margin of 1e-7 each |
| `HitRules.HitExactly` | tools/live2d_bridge/src/mesh-hit-test.ts:14-65 | A drawable is hit exactly if it is visible, more than 0.02 opaque, and some triple of its indices names three vertices around the point |
| `ShardRules.ShardAt` | tools/ci/pytest_shard.py:13-20 | Runner i gets the ids at places i, i + count, i + 2 count and so on of the sorted collection |
| `ShardRules.PartitionExactly` | tools/ci/pytest_shard.py:13-20 | When and with what a partition is refused |
| `ShardRules.JoinReads` | tools/ci/verify_pytest_shards.py:39-39 | The digested text has one id a line and no line end behind the last |
| `ShardRules.VerdictExactly` | tools/ci/verify_pytest_shards.py:21-42 | The verification accepts exactly if its five conditions hold, spelled over the manifests ... |
| `ShardRules.FirstFailingRaises` | tools/ci/verify_pytest_shards.py:21-42 | ... and otherwise raises what the first one says that fails |
| `ShardRules.RunnersAreAccepted` | tools/ci/pytest_shard.py:30-59 | If every runner writes its manifest, in whatever order the files are read, the verification counts the whole collection |

## Left out

- Language models, HTTP, graph and SQL databases, EventKit, windows, the renderer
  and every other foreign call: they are oracles, parameters or environment steps.
- JSON encoding, JSON Schema and SHA-256: schemas and gates are uninterpreted
  predicates, digests are functions (injective only where a lemma says so).
- Floating-point rounding, `sin` and wall-clock time: reals and arbitrary times;
  pi is any number between 3.14 and 3.15.
- Text beyond ASCII: lower-casing of bytes is ASCII, Windows path folding is an
  arbitrary function.
- Directory durability of a rename: a save either replaced the file or did not.
- Re-entrant motion callbacks of the scheduler, and dispose or unload during an
  unfinished load: the code does not guard them.
- The order in which a map of layers is visited: removal loops are proved for any
  order, and the notifications of one removal come in that order.
- The evaluation's tool-using path, timing, telemetry and database rows: the
  provider is deterministic and the compiled prompt is an arbitrary function of
  scenario, turn and history. The nested loops over variants, repeats, scenarios
  and turns are walked as the sequence of slots they enumerate.
- Read-only device commands and permission prompts, which change nothing stored.
- `AtMostOneWrite`: speaks of the time since a request was last forgotten, because
  forgetting a result deliberately allows the request again.
- `WireRoundTrip`: takes exchanges whose receipts answer one of their calls; the
  code raises a key error otherwise.
- `CleanMeansClean`: is about one file; walking the directory and resolving the
  forbidden paths to markers only repeats it for each file.
- `FaultlessRunIsExact`: takes request identifiers that differ, as UUIDs do; a
  repeated one makes the replay refuse the journal. Only the text of a row matters
  for its line; the rest of its JSON is not modelled.
- Token usage totals of the recorded provider: an easy sum.
- Reading and durably writing the grant journal file, and revoking grants.
- `AcceptedIsExactCover`: takes a digest without collisions and ids without line
  ends; with either missing, acceptance proves only disjointness and the count.
- The preflight checks of the merge (integrity, idleness, equal schemas, disjoint
  sessions, provider identity), triggers, full-text search and tables without a
  primary key: tables are maps from key to row.
- `MergeDatabase`: takes each table with its role; the file handling around it
  (new output file, rollback, removal on failure) is not modelled.
- `SessionsRecovered`: the inferred columns of a missing session and the test for
  ambiguous ownership are parameters; a schema mismatch of the sessions table is
  not modelled.
- The rest of the recovery's table selection and logical-reference checks.
- The publication protocol: a snapshot of the source family is one step, and so is
  hashing the target in a match; a process killed outright (which has no exit) is not
  modelled, the build itself is an oracle, and nobody else touches the private
  working directory. Alias audits are faults that may strike at any step.
- `ReachesTarget`, `ChannelsFollowTargets`: the mode, and with it the frequency, is
  the same over a whole run; `eyeOpen` is past the stable range at common frame times.
- Validation of the authorization address and of the callback request in the OAuth
  flow: a flag and an outcome.
- Saccades, blinks and the seeded random numbers of the behaviour machine, lip
  synchronisation, window preferences and metrics: they would add only easy
  members.
