# QuantZhai proxy: verified model

This project models the stateful cores of the QuantZhai proxy in Dafny and proves what they keep over
whole runs. `dafny verify dfyconfig.toml` checks all of it.

| area | files | main results |
|---|---|---|
| GGUF metadata | `GgufFormat`, `GgufRoundTrip`, `GgufReader`, `GgufMeaning`, `GgufErrors` | round trip, acceptance of exactly the encodings, what the bytes mean as Python values, truncation, termination with a bound on reads |
| configuration layers | `ConfigMerge` | the value at every path, idempotence, exactly when layers may be regrouped |
| backend lifecycle | `BackendLifecycle`, `BackendOutcomes`, `BackendContainer`, `BackendManager` | the answers that make a start succeed, mutual exclusion in every interleaving, exact acceptance sets, workers end, exactly when the reported state is that of the container |
| recovery backoff | `Recovery`, `RecoveryEndpoint`, `RecoveryRaces` | state read off the history, spacing of failures; for concurrent requests, exactly when attempts exclude each other and failures are spaced |
| tool-call advisories | `NativeAdvisories`, `ToolDecisions`, `ToolHistory` | every decision read off the history, advisories run out, seeding agrees with recording |
| memory store | `BraincaseStore`, `BraincaseDb`, `BraincaseEffects`, `BraincaseIndex`, `BraincaseHistory`, `BraincaseLinks` | every column read off the history, index agreement, complete history, exactly when supersession ends, merging |
| rendering and recall | `Ranking`, `BraincaseRender`, `BraincaseItems`, `BraincaseBudget`, `BraincaseRecall`, `RecallExactness` | the whole text in terms of the records, exact budget, accounting, top-k over tiers and exactly when it loses nothing |
| retention, review | `BraincaseRetention`, `BraincasePrune`, `BraincaseVisibility` | exact verdict, safe and idempotent pruning, visibility over runs |
| model selection | `ModelSelection`, `ModelHistory` | the last choice stands, confirmed recovery point, rollback, probes that do not interfere |

Code that updates objects is a class whose methods are each proved to carry out one operation of a
functional specification; the results about runs are lemmas on that specification, and the modules named
`...Meaning`, `...Outcomes`, `...History`, `...Effects` and `...Items` say what it computes without using it. Threads are events of
a transition system. Docker, health, clock, database order and failed index synchronisations are inputs
that may take any value. Times and importances are reals or integers without rounding; string decoding,
hashing and shell parsing are opaque values.

Some promises do not hold of the code as it is. Each has a lemma with an input that breaks it, and a
lemma that says exactly when it holds, for all inputs or runs:

| promise | broken by | holds exactly when |
|---|---|---|
| configuration layers may be regrouped | `ConfigMerge.GroupingCanMatter` | `ConfigMerge.AssociativeIffNoBarrier` |
| a disabled backend manager stays disabled | `BackendLifecycle.FailureReportEnables` | `BackendLifecycle.DisabledStaysDisabled` |
| a healthy backend has its container reported as running | `BackendLifecycle.ReportDuringStartIsLost` | `BackendLifecycle.HealthyHasContainer` |
| a stopped backend has lost its container | `BackendContainer.FailedRemovalIsReportedAsStopped` | `BackendContainer.GoneIffNoneLeft` |
| the in-progress flag lets one recovery action run at a time | `RecoveryRaces.RaceBreaksExclusion`, `ClearingBreaksExclusion` | `RecoveryEndpoint.ExclusiveIff` |
| failures of a recovery action are spaced by its backoff | `RecoveryRaces.ExclusionIsNotEnough`, `ClearingBreaksExclusion` | `RecoveryEndpoint.KeptApartIffNeverTooSoon` |
| the full-text index has the current tags after a patch | `BraincaseIndex.PatchLeavesOldTags` | `BraincaseIndex.PatchKeepsEntryIff` |
| reopening the store repairs the full-text index | `BraincaseIndex.FailedSyncSurvivesReopening` | `BraincaseIndex.ReopenRepairsIff`, `LostIffNeverRefreshed` |
| supersession links end | `BraincaseLinks.SelfSupersessionLoops`, `PresetSuccessorLoops` | `BraincaseLinks.ChainsEndIffAllSafe`, `SupersedeKeepsAcyclicIff` |
| recall returns the top records of all that match | `BraincaseRecall.LaterUpdateCanBeLost`, `RecallExactness.OlderIsHidden` | `RecallExactness.RecallIsExactIff`, `OneTierIsExactIff` |
| retired and superseded records do not come back | `BraincaseVisibility.RejectedIsPromoted` | `BraincaseVisibility.InactiveIffNeverRevived` |
| a recovery point names the backend that was probed | `ModelSelection.ProbeRecordsUnprobed` | `ModelSelection.ProbeRecordsProbedIff` |

A consequence of the tier tables: a record that the memory manager has re-tiered is out of all recall
modes (`BraincaseVisibility.RetieredIsNotRecalled`).

Where code and comments differ the model follows the code: `_do_stop` sets the phase to stopped whether or
not `docker rm -f` succeeded (proxy/qz_backend_manager.py:1128-1161), `supersede_state_record` does not check
that the new id differs (proxy/qz_braincase_db.py:616-645), and the trigger endpoint, which says that marking
an action makes concurrent requests wait (proxy/qz_request_router.py:2011), reads the flag, the gate and the
mark in separate locked blocks. What follows from each is in the table above.

## Model

| member | source | states |
|---|---|---|
| GgufRoundTrip.RoundTrip | proxy/qz_model_catalog.py:74-150 | Reading the encoding of any file (all scalar types, strings, arrays nested to any depth), whatever bytes follow, returns that file and stops exactly at the end of the encoding |
| GgufRoundTrip.AcceptedIsEncoding | proxy/qz_model_catalog.py:74-150 | Whatever is accepted starts with the encoding of what was returned, so nothing but encodings is accepted |
| GgufRoundTrip.AcceptedIffEncoding | proxy/qz_model_catalog.py:126-150 | A byte string is accepted if and only if some prefix of it is the encoding of a file |
| GgufRoundTrip.PrefixFree | proxy/qz_model_catalog.py:126-150 | No encoding is a prefix of a different one |
| GgufRoundTrip.TruncationRejected | proxy/qz_model_catalog.py:74-150 | Every strict prefix of an encoding is rejected |
| GgufErrors.TruncationIsReported | proxy/qz_model_catalog.py:74-150 | Every strict prefix of an encoding is reported as an unexpected end of file, or as no GGUF file when it is cut within the first four bytes |
| GgufErrors.HeaderErrors | proxy/qz_model_catalog.py:126-135 | Input is refused as no GGUF file exactly when it does not begin with GGUF, and for its version exactly when the next four bytes are there and are neither 2 nor 3 |
| GgufErrors.ScalarErrors | proxy/qz_model_catalog.py:96-112 | A scalar is refused for its type exactly when the id is none of the twelve, and otherwise fails only at the end of the file |
| GgufRoundTrip.ReadValueEncoded | proxy/qz_model_catalog.py:115-123 | A value is read back from its encoding at any position, nested arrays included, and the reader stands right behind it |
| GgufRoundTrip.ReadScalarIsEncoding | proxy/qz_model_catalog.py:96-112 | A scalar is accepted only with a known type id and enough bytes, and is the value those bytes encode, signed types in two's complement |
| GgufFormat.LittleEndianRoundTrip | proxy/qz_model_catalog.py:74-85 | A little-endian field of any width holds every number below its bound |
| GgufReader.MetadataIsLastWins | proxy/qz_model_catalog.py:139-148 | The dictionary maps a key to its last kept entry; a top-level array of more than 32 elements neither sets its key nor erases an earlier value |
| GgufReader.Handle.ReadUInt | proxy/qz_model_catalog.py:74-85 | A fixed-width field is read from the file handle, or the end of the file is reported |
| GgufReader.Handle.ReadString | proxy/qz_model_catalog.py:88-93 | A length-prefixed string is read, with its length checked against the bytes that are left |
| GgufReader.Handle.ReadScalarValue | proxy/qz_model_catalog.py:96-112 | Scalar dispatch by type id, with the unsupported-type and end-of-file errors |
| GgufReader.Handle.ReadAny | proxy/qz_model_catalog.py:115-123 | The recursive value reader terminates on every byte string whatever counts it claims, agrees with the functional reader, and makes no more value reads than it consumes bytes (plus one when it fails) |
| GgufReader.Handle.ReadElements | proxy/qz_model_catalog.py:118-122 | The element loop of an array, with the same bound |
| GgufReader.Handle.ReadEntryInto | proxy/qz_model_catalog.py:141-148 | One key, type id and value, and the dictionary update with its 32-element limit |
| GgufReader.ReadGgufMetadata | proxy/qz_model_catalog.py:126-150 | Magic, version, counts and entries: the tensor count and the dictionary of the entries the functional reader finds, or its error, with at most one value read per byte plus one |
| GgufMeaning.AmountsIff | proxy/qz_model_catalog.py:74-85 | A field of 1, 2, 4 or 8 bytes is its bytes times powers of 256, lowest first, written out |
| GgufMeaning.EncodingStands | proxy/qz_model_catalog.py:96-123 | What the reader hands out for an encoded value is what its bytes mean to Python: False for byte 0 and True for any other, integers by width and sign bit, float bits as they are, strings by the decoder, lists element by element |
| GgufMeaning.StandingEncodes | proxy/qz_model_catalog.py:96-123 | And conversely: bytes that mean a Python value are the encoding of one that is handed out as it |
| GgufMeaning.MetadataIsDictionary | proxy/qz_model_catalog.py:139-148 | The dictionary has the value of the last line of each key, lines with lists of more than 32 elements left out |
| GgufMeaning.ReadGgufFile | proxy/qz_model_catalog.py:126-150 | The reader succeeds exactly when the bytes start with GGUF, version 2 or 3, two counts and that many lines of key, type and the bytes of a Python value, and then gives the tensor count and the last value of each key, and has read those bytes and nothing more |
| ConfigMerge.DeepMerge | proxy/qz_model_catalog.py:64-71 | The copying loop over the overlay's items computes the recursive merge, in whatever order the items come |
| ConfigMerge.MergeAtPath | proxy/qz_model_catalog.py:64-71 | The value at every path of the merge in terms of the two layers: the overlay wins where it has a value, siblings it does not mention survive, and below a replaced value only the overlay counts |
| ConfigMerge.EmptyIsIdentity | proxy/qz_model_catalog.py:64-71 | An empty layer changes nothing, above or below |
| ConfigMerge.MergeIsIdempotent | proxy/qz_model_catalog.py:64-71 | Layering the same overlay twice is layering it once |
| ConfigMerge.AbsorbedIffMergeIsOverlay | proxy/qz_model_catalog.py:64-71 | Exactly when nothing of the base survives a merge |
| ConfigMerge.AssociativeIffNoBarrier | proxy/qz_model_catalog.py:431-489 | Three layers may be grouped either way if and only if no path has a non-dictionary of the middle layer between two dictionaries, except where the last layer absorbs the first |
| ConfigMerge.GroupingCanMatter | proxy/qz_model_catalog.py:64-71 | Three concrete layers for which the grouping matters |
| BackendLifecycle.ApplyKeepsInvariant | proxy/qz_backend_manager.py:394-474 | Every locked block keeps: one live worker exactly while busy, a transitional phase implies busy, the worker fits the phase, and the health flag agrees with the phase |
| BackendLifecycle.EveryRunKeepsInvariant | proxy/qz_backend_manager.py:921-1161 | The same in every interleaving of requests, delayed autostarts, failure reports and worker steps |
| BackendLifecycle.AcceptanceSets | proxy/qz_backend_manager.py:41-47 | start() is accepted exactly from the declared startable phases when idle, stop() exactly from an idle healthy or failed backend, although the code tests other sets |
| BackendLifecycle.LaunchesPayForSteps | proxy/qz_backend_manager.py:935-1161 | However the environment answers, worker steps number at most six for each launch |
| BackendLifecycle.BusyIsReleased | proxy/qz_backend_manager.py:1124-1126 | A worker given six steps has released the busy flag on the way |
| BackendLifecycle.DisabledStaysDisabled | proxy/qz_backend_manager.py:394-406 | A manager created with autostart off keeps its state exactly as long as no runtime failure is reported |
| BackendLifecycle.FailureReportEnables | proxy/qz_backend_manager.py:423-434 | After one report start() is accepted on a disabled manager |
| BackendLifecycle.OnlyOverridingBreaksHonesty | proxy/qz_backend_manager.py:394-406 | The one event that makes a healthy backend report no running container is a success of the checks after a failure report has hit them |
| BackendLifecycle.HealthyHasContainer | proxy/qz_backend_manager.py:990-1109 | Over any run a healthy backend reports a running container at every moment if and only if no success of the checks overrides a failure report that arrived since the container was marked as running |
| BackendLifecycle.ReportDuringStartIsLost | proxy/qz_backend_manager.py:1102-1109 | A run in which a failure report during the checks is overwritten by success and leaves a healthy backend without a running container |
| BackendOutcomes.StartSucceedsIff | proxy/qz_backend_manager.py:921-1126 | A worker launched by start() or by the delayed autostart makes the backend healthy if and only if its answers begin with yes, yes (container found, checks passed) or no, yes, yes, yes (launched, became healthy, checks passed), none of them an exception, however requests and other threads interleave |
| BackendOutcomes.StartLeaves | proxy/qz_backend_manager.py:935-1126 | Once a start worker has ended with no failure reported meanwhile, the backend is healthy if its answers are those and failed otherwise, and reports a running container exactly when its checks came to a verdict |
| BackendOutcomes.StopNeverSucceeds | proxy/qz_backend_manager.py:1128-1161 | No answers to a stop worker make the backend healthy |
| BackendOutcomes.AutostartsAccount | proxy/qz_backend_manager.py:412-421 | Over any run every autostart that was queued, while idle and enabled, still sleeps or woke up once, only those that woke up launched anything, and with autostart off none is queued |
| BackendContainer.GoneUnlessLeft | proxy/qz_backend_manager.py:1128-1161 | What makes a stopped backend's container still be there: a stop whose forced removal failed, or somebody else starting it |
| BackendContainer.GoneIffNoneLeft | proxy/qz_backend_manager.py:1128-1161 | Over any run, with the container dying or being started from outside at will, a backend reported as stopped has lost its container at every moment if and only if neither happens |
| BackendContainer.BackedIffNoneLost | proxy/qz_backend_manager.py:935-1161 | Over any run a running or healthy backend has its container, and docker is run only with none there, at every moment if and only if no container of a serving backend dies, none is missing when reconnecting or the checks succeed, and none is left over or started from outside before the launch |
| BackendContainer.FailedRemovalIsReportedAsStopped | proxy/qz_backend_manager.py:1135-1161 | A run in which the removal fails and the backend is stopped, with no running container reported and the container up |
| BackendManagerObject.BackendManager.RequestStart | proxy/qz_backend_manager.py:423-447 | start() is the Start event, and its answer is the acceptance test |
| BackendManagerObject.BackendManager.RequestStop | proxy/qz_backend_manager.py:449-474 | stop() is the Stop event, and its answer is the acceptance test |
| BackendManagerObject.BackendManager.RecordRuntimeFailure | proxy/qz_backend_manager.py:394-406 | The report is the RuntimeFailure event |
| BackendManagerObject.BackendManager.QueueAutostart | proxy/qz_backend_manager.py:412-421 | Autostart is queued only from idle and when enabled |
| BackendManagerObject.BackendManager.AutostartAfterDelay | proxy/qz_backend_manager.py:921-933 | The delayed thread checks phase and busy flag again before it becomes a start worker |
| BackendManagerObject.BackendManager.WorkerStep | proxy/qz_backend_manager.py:935-1161 | The locked blocks of the start and stop workers are the Step events, of which StartSucceedsIff and StartLeaves say where they lead |
| BackendManagerObject.VerifyGpu | proxy/qz_backend_manager.py:1033-1101 | The retry window confirms the GPU exactly when some probe's logs show it, or the inventory has it and the logs show no CPU buffers, with the container alive until then, and refuses the backend exactly when the container dies first or the last probe is a hard failure or CPU buffers |
| Recovery.RecoveryRuntimeState.IsBackoffActive | proxy/qz_recovery_state.py:96-102 | The gate is closed by the manual latch or by a deadline in the future |
| Recovery.RecoveryRuntimeState.MarkStarted | proxy/qz_recovery_state.py:111-126 | Marks the action in progress |
| Recovery.RecoveryRuntimeState.MarkCompleted | proxy/qz_recovery_state.py:128-144 | Success resets the action's entries |
| Recovery.RecoveryRuntimeState.MarkFailed | proxy/qz_recovery_state.py:146-178 | Failure counts, and sets the backoff or the manual latch, which StateFromHistory gives in terms of the schedule |
| Recovery.RecoveryRuntimeState.ClearState | proxy/qz_recovery_state.py:180-204 | Clears one action, or everything |
| Recovery.ParsedSchedule | proxy/qz_recovery_state.py:29-47 | The schedule is never empty and never has a non-positive entry; it is the given list exactly when that is usable, and the default otherwise |
| Recovery.StateFromHistory | proxy/qz_recovery_state.py:96-204 | In every interleaving with other actions, count, deadline and latch of an action follow from its failures since its last reset alone: after the n-th the deadline is its time plus entry n of the schedule, or plus the last entry when there are fewer, and the latch holds exactly when n exceeds the maximum |
| Recovery.FlagFromHistory | proxy/qz_recovery_state.py:104-204 | The in-progress flag names an action exactly when it was marked last and nothing has been reported or cleared since |
| Recovery.FailuresAreSpaced | proxy/qz_recovery_state.py:146-178 | If each repeated failure belongs to an attempt begun behind an open gate after the previous failure, then between resets there are at most max_attempts + 1 failures, and number k + 1 comes no earlier than the first plus the sum of the first k schedule entries, the last entry once more for each one beyond the schedule |
| Recovery.KeptApartIff | proxy/qz_recovery_state.py:96-178 | The failures of an action stay apart by their backoffs and within max_attempts + 1 if and only if every repeated one is recorded while is_backoff_active answers no |
| RecoveryEndpoint.NextKeepsConsistent | proxy/qz_request_router.py:1867-2087 | Each locked block of the endpoint keeps the recovery state that of its writes, and every request past the gate found it open where it last looked |
| RecoveryEndpoint.ChecksInOrder | proxy/qz_request_router.py:1867-2008 | After it arrives a request for a dangerous action is refused by a closed gate at its first two looks and by the flag at its third, any other by a closed gate at its only one, and it can be marked after that many looks and no earlier, whatever other requests do |
| RecoveryEndpoint.RequestWrites | proxy/qz_request_router.py:2011-2087 | A request writes its start when it is marked, clearing when that is its action, and exactly one outcome as it leaves, success or failure as answered |
| RecoveryEndpoint.StartsAndOutcomesBalance | proxy/qz_request_router.py:2011-2087 | In every interleaving the recorded starts number the recorded outcomes plus the requests that still run |
| RecoveryEndpoint.ExclusiveIff | proxy/qz_request_router.py:1870-2046 | Over any interleaving of requests, actions exclude each other if and only if none is marked while another one runs that was marked after the request last read the flag, or that had cleared the flag before |
| RecoveryEndpoint.KeptApartIffNeverTooSoon | proxy/qz_request_router.py:1870-2087 | Over any interleaving, clearing included, the failures of an action keep apart and within the bound if and only if none is reported that another failure of the action has beaten, since the request last looked at the gate, and whose backoff still runs |
| RecoveryEndpoint.UndisturbedRuns | proxy/qz_request_router.py:1870-2087 | If no action is marked during another request's checks, nor by one that slipped in between another's clearing and reporting, actions exclude each other and all failures between resets are fully spaced and bounded |
| RecoveryRaces.RaceBreaksExclusion | proxy/qz_request_router.py:2011-2046 | Two reload requests that both check before either is marked run at once and fail at once |
| RecoveryRaces.ExclusionIsNotEnough | proxy/qz_request_router.py:1880-2046 | Two such requests that run one after the other exclude each other, and fail at once all the same |
| RecoveryRaces.ClearingBreaksExclusion | proxy/qz_request_router.py:1747-1758 | A clear_failure request frees the flag twice, so that two reloads run at once and fail at once although every request is marked right after its own checks |
| NativeAdvisories.AdvisoryState.Record | proxy/qz_native_signal.py:197-215 | A native call is counted, by arguments and by escalation |
| NativeAdvisories.AdvisoryState.Check | proxy/qz_native_signal.py:217-301 | The first due warning not yet given is given and marked |
| NativeAdvisories.AdvisoryCascade | proxy/qz_native_signal.py:225-301 | The order of the four warnings: an already given one does not hide the next |
| NativeAdvisories.AdvisoryState.Seed | proxy/qz_native_signal.py:138-195 | Seeding from the history gives the counts that recording its calls one by one gives, and for each command the number of its non-zero exits since its last zero exit among outputs joined by call id |
| NativeAdvisories.FailuresSnoc | proxy/qz_native_signal.py:176-193 | Reading one more output empties the failures of its command or adds one to them |
| ToolDecisions.RepeatedReadSignal | proxy/qz_file_signal.py:224-279 | Exactly the paths the call reads that were read before, not written and not warned about are signalled, with the right scope |
| ToolDecisions.ReadTracker.constructor | proxy/qz_file_signal.py:208-222 | Seeding records all calls of the history and takes their reads as history |
| ToolDecisions.ReadTracker.Record | proxy/qz_file_signal.py:194-202 | A call adds the paths it reads and writes |
| ToolDecisions.CompletedCallDecision | proxy/qz_proxy_tools.py:200-307 | The decision cascade and the state it changes: only a signal changes anything, and only by marking what it warned about |
| ToolHistory.ReadSignalIff | proxy/qz_file_signal.py:194-279 | A path is signalled at a call if and only if the call reads it, an input call or an earlier passed call read it, none of them wrote it, no earlier signal named it, and no earlier rule takes the call |
| ToolHistory.AdvisoryFromHistory | proxy/qz_native_signal.py:217-301 | Which advisory a native call gets, from the numbers of passed calls, escalations, failures and repetitions before it and the advisories already given |
| ToolHistory.EarlierRules | proxy/qz_proxy_tools.py:200-262 | Exactly when a call that is not left to the client is answered locally, passed on, or an error |
| ToolHistory.ReplayedCounts | proxy/qz_native_signal.py:138-215 | Recording the calls of a history one by one counts the native calls, the escalations and the repetitions in it |
| ToolHistory.JoinedIsLastCommand | proxy/qz_native_signal.py:145-168 | A call id is joined to the command of the last command call that has it |
| ToolDecisions.SignalClosesOne | proxy/qz_proxy_tools.py:263-292 | Each signal uses up a warning that was still open, and no decision or recording reopens one |
| ToolDecisions.FiniteSuppression | proxy/qz_proxy_tools.py:259-299 | Over any run from any state signals number at most the distinct paths read, plus two, plus the distinct (tool, command) and (tool, arguments) signatures |
| ToolDecisions.RetriesGetThrough | proxy/qz_proxy_tools.py:294-299 | A native call that no earlier rule takes is passed through before its retries exceed the paths it reads by five |
| BraincaseDb.BrainCaseDB.PutStateRecord | proxy/qz_braincase_db.py:246-321 | Stores or replaces a record and synchronises the index, which may fail and switch the index off; a dictionary with a forbidden field is refused without effect |
| BraincaseDb.BrainCaseDB.RetireStateRecord | proxy/qz_braincase_db.py:452-492 | Retires a stored record with a revision, or refuses without effect |
| BraincaseDb.BrainCaseDB.PromoteStateRecord | proxy/qz_braincase_db.py:494-547 | Sets status and visibility with a revision that keeps both snapshots |
| BraincaseDb.BrainCaseDB.PatchStateRecord | proxy/qz_braincase_db.py:549-607 | Changes tier, importance or tags with a revision, and refuses an empty patch |
| BraincaseDb.BrainCaseDB.SupersedeStateRecord | proxy/qz_braincase_db.py:609-667 | Stores the new record, links it both ways and logs the old one; an unknown old id or a forbidden field is refused without effect |
| BraincaseDb.BrainCaseDB.RecordAccess | proxy/qz_braincase_db.py:323-344 | Touches the access columns of the records that exist, once for each mention |
| BraincaseDb.BrainCaseDB.RebuildFtsIndex | proxy/qz_braincase_db.py:809-850 | Refills the index from the record table |
| BraincaseDb.BrainCaseDB.ReopenDatabase | proxy/qz_braincase_db.py:98-130 | Reopening switches the index on and fills it only if it is empty while records exist |
| BraincaseEffects.ColumnsFromHistory | proxy/qz_braincase_db.py:246-667 | After any run from an empty store a record is there exactly when some operation has set its columns, and each column holds what the last operation that sets it gave |
| BraincaseEffects.IndexOnFromHistory | proxy/qz_braincase_db.py:98-321 | The full-text index is in use exactly when every failed synchronisation of the run was followed by reopening the store |
| BraincaseEffects.ChangesAreLogged | proxy/qz_braincase_db.py:452-667 | A change that is carried out appends one revision with its kind, reason and time and the value the record had |
| BraincaseEffects.AccessCountsMentions | proxy/qz_braincase_db.py:323-344 | An access adds to the count of a stored record the number of times it is mentioned, dates it exactly when it is, and changes nothing else |
| BraincaseEffects.AccessColumns | proxy/qz_braincase_db.py:270-344 | Storing a record anew resets its access columns, and no operation but accessing changes them otherwise |
| BraincaseIndex.IndexAgreesOverRuns | proxy/qz_braincase_db.py:246-321 | Over any run: at most one index row per id, none without a record, and exactly the current row for every record outside a set that only failed or skipped synchronisations and tag patches enlarge |
| BraincaseIndex.IndexIsExact | proxy/qz_braincase_db.py:809-873 | From an empty store, with the index synchronising and tags not patched: exactly one row per record, with its current claim, summary and tags |
| BraincaseIndex.IndexRowsAreCurrent | proxy/qz_braincase_db.py:246-321 | The same row by row: one row with the id, claim, summary and joined tags of each record, and none of an id that is not stored |
| BraincaseIndex.JoinTagsSnoc | proxy/qz_braincase_db.py:306-321 | Tags are joined by single spaces |
| BraincaseIndex.PatchKeepsEntryIff | proxy/qz_braincase_db.py:549-607 | A patch leaves the index row right if and only if the new tags join to the same text as the old ones |
| BraincaseIndex.PatchLeavesOldTags | proxy/qz_braincase_db.py:549-607 | After a patch of the tags the index row still has the old ones |
| BraincaseIndex.ReopenRepairsIff | proxy/qz_braincase_db.py:875-894 | Reopening leaves an entry exact if and only if the index was empty or the entry was exact before |
| BraincaseIndex.LostIffNeverRefreshed | proxy/qz_braincase_db.py:809-894 | A stored record missing from the index stays missing throughout a run if and only if the run never stores it with a working synchronisation, rebuilds the index, or reopens the store with an empty one |
| BraincaseIndex.FailedSyncSurvivesReopening | proxy/qz_braincase_db.py:875-894 | A record missed by a failed synchronisation stays missing after reopening, since the index is not empty |
| BraincaseHistory.LogIsCompleteHistory | proxy/qz_braincase_db.py:452-667 | For a record that is not stored anew: the values kept by its revisions and the present row are exactly all values it has had in any run, in order, and every revision leads from one to the next |
| BraincaseHistory.ChangeIsLogged | proxy/qz_braincase_db.py:452-667 | A change appends one revision that keeps the old value and explains the new one |
| BraincaseHistory.OthersAreNotLogged | proxy/qz_braincase_db.py:323-344 | Accesses and operations on other records leave a record and its log alone |
| BraincaseHistory.OverwriteIsNotLogged | proxy/qz_braincase_db.py:270-299 | Storing over an existing record leaves no revision |
| BraincaseLinks.SupersessionEnds | proxy/qz_braincase_db.py:609-667 | After every run that stores records without a successor and never supersedes a record by its own id, following superseded_by comes to an end at a record that is not superseded, even if ids are reused |
| BraincaseLinks.PutKeepsAcyclicIff | proxy/qz_braincase_db.py:270-299 | Storing a record keeps the links acyclic if and only if it brings no successor, or a stored one that does not lead back to it |
| BraincaseLinks.SupersedeKeepsAcyclicIff | proxy/qz_braincase_db.py:616-661 | Superseding keeps the links acyclic if and only if the new id differs from the old one, which the documentation asks for and the code does not check, and the new record brings no successor, or a stored one that leads back to neither |
| BraincaseLinks.ChainsEndIffAllSafe | proxy/qz_braincase_db.py:246-667 | Over any run, following superseded_by from any record comes to an end at every moment if and only if every operation links like that |
| BraincaseLinks.SelfSupersessionLoops | proxy/qz_braincase_db.py:639-661 | A record superseded by its own id is a chain without end |
| BraincaseLinks.PresetSuccessorLoops | proxy/qz_braincase_db.py:642-661 | A record superseded by one that already names it as its successor is a chain without end |
| BraincaseLinks.MergeTool | proxy/qz_braincase_tools.py:1670-1734 | Every source that exists ends up superseded by the merged record, the merged record names the last of them, the others are reported as failed, and no other row changes |
| BraincaseLinks.MergedRecordSays | proxy/qz_braincase_tools.py:1697-1726 | The merged record field by field: the given text, tier and retention, active and the operator's, created now, naming the last stored source, and the first source's other fields |
| BraincaseLinks.SupersedeAll | proxy/qz_braincase_tools.py:1720-1726 | The loop over the sources, with repeated ids allowed: stored ones succeed and change in nothing but status, successor and update time |
| Ranking.RankedIsSortedPermutation | proxy/qz_braincase_render.py:188-195 | Ranking is a sorted permutation by importance, update and creation time, descending |
| Ranking.RankedIsStable | proxy/qz_braincase_render.py:188-195 | Equal keys keep their input order |
| BraincaseRender.RenderPack | proxy/qz_braincase_render.py:155-290 | Filtering, ranking and the greedy loop compute the packet, of which PacketExhibitsRanking and NoWarningPrintsAll say what it is |
| BraincaseItems.PacketExhibitsRanking | proxy/qz_braincase_render.py:155-290 | The text is the header, then for each record in ranking order its numbered item, then the footer with the counts, cut to the budget if longer. An item is tier, type, claim, summary (unless empty or equal to the claim) and id in full if it fits the room left there; else without the summary; else with the longest piece of the claim that fits; else without claim; else the record is omitted. Sources, counts and the three warnings say the same |
| BraincaseItems.NoWarningPrintsAll | proxy/qz_braincase_render.py:66-148 | A packet without warnings has, for every active and renderable record of the domain and tiers, its claim (or first 197 characters and dots), its summary (likewise 147) and its id |
| BraincaseItems.RankingFollowsKeys | proxy/qz_braincase_render.py:188-195 | A higher place means no lower importance, then no older update, then no older creation |
| BraincaseItems.DecimalIsNumeral | proxy/qz_braincase_render.py:215-267 | Numbers are printed in decimal digits without leading zeros |
| BraincaseRender.BoundedLineFits | proxy/qz_braincase_render.py:90-148 | A line rendered within a limit fits it and ends with the whole source line; it is refused exactly when header and source line alone do not fit |
| BraincaseRender.CutLineFillsRoom | proxy/qz_braincase_render.py:131-148 | A line whose claim had to be cut leaves at most one character of its room |
| BraincaseBudget.TextWithinBudget | proxy/qz_braincase_render.py:54-56 | The packet text never exceeds max(80, 4 * tokens) characters |
| BraincaseBudget.ClampDoesNotFire | proxy/qz_braincase_render.py:267-276 | With a record shown and at most 999 eligible the final clamp does not fire |
| BraincaseBudget.SourcesAreNamed | proxy/qz_braincase_render.py:217-276 | Every listed source has its whole source line in the text, from line break to line break |
| BraincaseBudget.PackingAccounts | proxy/qz_braincase_render.py:211-265 | Rendered and omitted add up to eligible, and the sources are a subsequence of the ranked list |
| BraincaseBudget.CutOmitsRest | proxy/qz_braincase_render.py:137-148 | Once a claim had to be shortened or left out, every lower-ranked record is omitted |
| BraincaseBudget.IneligibleLeaveNoTrace | proxy/qz_braincase_render.py:181-186 | Adding ineligible records anywhere leaves the packet unchanged |
| BraincaseBudget.SourcesAreEligible | proxy/qz_braincase_render.py:66-87 | Every source id of a packet belongs to an eligible input record |
| BraincaseRecall.RecallCandidates | proxy/qz_braincase_tools.py:889-950 | The tier loop with its fallback, de-duplication, ranking and cut |
| BraincaseRecall.RecallIsTopOfPool | proxy/qz_braincase_tools.py:889-950 | Per-tier top-k, merged, ranked and cut, has the same importances as ranking the whole pool: all matches of a tier where the query finds any, the tier's listing otherwise; tiers may repeat and ties may come in any order |
| BraincaseRecall.TopRepresents | proxy/qz_braincase_db.py:1027-1110 | ORDER BY importance DESC LIMIT k keeps, above every threshold, as many matches as there are up to k |
| BraincaseRecall.LaterUpdateCanBeLost | proxy/qz_braincase_tools.py:942-950 | Only the importances: among equally important matches the more recently updated one can be lost |
| RecallExactness.RecallIsExactIff | proxy/qz_braincase_tools.py:889-950 | For queried and for listed tiers, recall returns the very records of ranking everything, whatever order the database gives ties, if and only if each of them has at most k rows of its tier at or above it in the database's order, and the final cut does not split a tie of one tier |
| RecallExactness.OneTierIsExactIff | proxy/qz_braincase_db.py:1027-1110 | For the matches of one tier: if and only if they fit, or the first one left out is less important than the last one returned |
| RecallExactness.OlderIsHidden | proxy/qz_braincase_db.py:391-405 | A listing is cut by creation time, so a newer record hides an older, more important one |
| RecallExactness.FittingTiersLoseNothing | proxy/qz_braincase_tools.py:914-936 | If the rows drawn on in every tier fit within the limit, nothing is lost before the final cut |
| BraincaseRetention.RuleMatches | proxy/qz_braincase_retention.py:134-188 | The early-exit loop holds exactly when every match field does, unknown fields failing closed |
| BraincaseRetention.DecideRetention | proxy/qz_braincase_retention.py:195-378 | The evaluator's early exits, first-match loop and safety overrides |
| BraincaseRetention.RetireIff | proxy/qz_braincase_retention.py:195-378 | For any policy the verdict is retirement exactly for a record that is not inactive, not active and durable and not updated in the future, when the first matching rule says retire and has expired, or no rule matches and the default says retire |
| BraincaseRetention.StaleIff | proxy/qz_braincase_retention.py:195-378 | Likewise for the verdict that a record is stale: its first matching rule's action has expired and is "stale", or has not expired and its stale threshold is reached, or no rule matches and the default says so |
| BraincaseRetention.MatchesByKey | proxy/qz_braincase_retention.py:134-188 | A rule matches exactly when its match dictionary has known keys only, every text equals the record's, the importance is within both bounds (numbers, truth values and numerals count), and source references are there if asked for |
| BraincaseRetention.VerdictNamesRule | proxy/qz_braincase_retention.py:303-378 | A verdict by a rule names the first one that matches; its reason is that rule's own, else its name, when its action was carried out, and says so when the action is not permitted and the record is kept instead, when it is only stale, or within its window |
| BraincaseRetention.VerdictWithoutRule | proxy/qz_braincase_retention.py:232-318 | Exactly when a verdict without a rule is for an unreadable policy, an inactive record, a record from the future, an active and durable one, or for want of a matching rule, of which only the last can do other than keep it |
| BraincasePrune.CountIsCardinality | proxy/qz_braincase_review.py:333-431 | The report counts the records of the asked retention class with each verdict |
| BraincasePrune.ProposedInOrder | proxy/qz_braincase_review.py:333-431 | The records with the verdict retire are proposed in the order of the listing until the limit |
| BraincasePrune.Report | proxy/qz_braincase_review.py:333-431 | The report counts verdicts and proposes the due records up to the limit |
| BraincasePrune.ApplyDecisions | proxy/qz_braincase_review.py:533-586 | For any list of ids, however stale: exactly the named records whose fresh verdict is retirement are retired, and retired plus skipped is the length of the list |
| BraincasePrune.Prune | proxy/qz_braincase_review.py:438-599 | Report and apply together |
| BraincasePrune.PruneIsSafe | proxy/qz_braincase_review.py:533-586 | A changed row was proposed, was neither active and durable nor inactive, and the policy asked for it just then |
| BraincasePrune.PruneFollowsFilter | proxy/qz_braincase_review.py:438-599 | A prune changes only records of the domain, status and retention class it was asked for |
| BraincasePrune.SecondPruneIsIdle | proxy/qz_braincase_review.py:438-599 | When the limit covers the store a second prune proposes nothing |
| BraincaseVisibility.HiddenStaysHidden | proxy/qz_braincase_db.py:494-547 | A record that is not renderable stays so over every run in which nothing stores or promotes it as active and renderable |
| BraincaseVisibility.CandidateIsNotRendered | proxy/qz_braincase_tools.py:1113-1138 | A candidate written by the model, whatever it asked for, is never a packet source until then |
| BraincaseVisibility.RetieredIsNotRecalled | proxy/qz_braincase_tools.py:1635-1650 | The tiers the memory manager may set belong to no recall mode, so a record it has re-tiered is in no recall packet of any mode, however the caller narrows the tiers, until it is re-tiered or stored anew |
| BraincaseVisibility.PromoteCandidate | proxy/qz_braincase_review.py:135-257 | Only a candidate is promoted, past the domain guard and the redaction check, and nothing else changes |
| BraincaseVisibility.RejectCandidate | proxy/qz_braincase_review.py:264-326 | Only a candidate is rejected |
| BraincaseVisibility.InactiveIsAbsorbing | proxy/qz_braincase_review.py:135-326 | If only the review interface promotes and stored ids are new, retired and superseded records never come back and are never rendered |
| BraincaseVisibility.RevivesIff | proxy/qz_braincase_db.py:494-667 | An inactive record stays inactive under an operation if and only if it is neither promoted to, nor stored anew with, another status |
| BraincaseVisibility.InactiveIffNeverRevived | proxy/qz_braincase_db.py:452-667 | Over any run an inactive record stays inactive at every moment if and only if no operation of the run does so, and is then never rendered |
| BraincaseVisibility.RejectedIsPromoted | proxy/qz_braincase_tools.py:1604-1619 | bc_promote_tool has no candidate check: a record that review rejected is active and renderable again |
| ModelSelection.StripTwice | proxy/qz_model_state.py:160-163 | A stripped field is read back as it is |
| ModelSelection.Router.PersistModelState | proxy/qz_model_router.py:230-322 | Writing a selection: observational writes keep a canonical one, an unchanged backend keeps its provenance, recovery memory is kept |
| ModelHistory.ChoiceIsSelected | proxy/qz_model_router.py:230-322 | After any file, a write that is not a status probe's makes the selection the entry's key, backend id and stripped label; its provenance is kept exactly when a canonical selection already named that backend, and nothing else changes |
| ModelHistory.SnapshotYields | proxy/qz_model_router.py:265-285 | A status probe's write leaves a canonical selection alone, and otherwise selects what the probe saw |
| ModelHistory.LastChoiceStands | proxy/qz_model_router.py:230-322 | In every run the selection is that of the last such write, unless a later rollback or a probe of a file without a canonical selection replaced it |
| ModelHistory.SupplantedBy | proxy/qz_model_state.py:429-473 | Those two replace it by the recovery point and by what the probe saw |
| ModelHistory.SuccessIsReported | proxy/qz_model_state.py:400-426 | A reported success clears the failed candidate and makes a named selection the recovery point |
| ModelHistory.FailureIsReported | proxy/qz_model_state.py:429-473 | A reported failure names the candidate, and goes back to the recovery point when asked to |
| ModelHistory.ProbeIsReported | proxy/qz_model_router.py:498-555 | A probe reports a success only when the backend is ready and there is no recovery point yet |
| ModelHistory.StripTrims | proxy/qz_model_state.py:160-163 | A stripped field is what lies between the blanks at both ends |
| ModelSelection.Router.ReconcileStatus | proxy/qz_model_router.py:498-555 | The model-state part of a status probe |
| ModelSelection.GoodIsConfirmed | proxy/qz_model_state.py:400-426 | In every run from an empty file the recovery point is empty or a selection that an earlier mark_load_success recorded |
| ModelSelection.RollbackLandsOnConfirmed | proxy/qz_model_state.py:429-473 | A failed load rolls back exactly when asked to and a recovery point exists, and lands on that selection |
| ModelSelection.ProbesKeepSelection | proxy/qz_model_router.py:265-285 | Any number of status probes leaves key, backend id, label and source of a canonical selection as they are |
| ModelSelection.ProbeRecordsProbedIff | proxy/qz_model_router.py:532-555 | The recovery point a healthy probe creates names the probed backend if and only if the persisted selection already named it, or was not canonical and the probe had a key |
| ModelSelection.ProbeRecordsUnprobed | proxy/qz_model_router.py:532-555 | With an operator's selection persisted, a healthy probe that saw another model records the operator's as loaded |

## Left out

- GgufReader.Handle.ReadAny: interpreter limits are not modelled; the program raises on arrays nested beyond its recursion limit and on lengths beyond its memory, which is a rejection as well.
- GgufReader.Handle.ReadString: UTF-8 decoding with replacement is a parameter; results hold for every decoding function.
- BackendManagerObject.BackendManager.WorkerStep: thread creation and event emission are taken to succeed, and the health loop is one step whose answer is free.
- BackendContainer.GoneIffNoneLeft: docker's answers and the real effect of each command are inputs; only one container name is modelled.
- Recovery.ParsedSchedule: splitting and integer parsing of the environment string are an input; last-action history and error texts are not kept.
- Recovery.FailuresAreSpaced: clock values are reals, so no rounding of sums.
- RecoveryEndpoint.NextKeepsConsistent: the clock does not go back; refusals that do not read the recovery state are a free choice, and marking, worker start and reporting are taken to succeed.
- NativeAdvisories.AdvisoryState.Seed: hashes, exit-code parsing and argument parsing are fields of the call or item.
- ToolDecisions.CompletedCallDecision: advisory and error texts and the repaired arguments are not modelled, only the kind of decision and the state.
- BraincaseDb.BrainCaseDB.PutStateRecord: statements on the record table do not fail, a closed connection is not modelled, and the source-reference table is the record's set of references.
- BraincaseHistory.LogIsCompleteHistory: about records that are not stored anew; storing over a record is not logged, as OverwriteIsNotLogged shows.
- BraincaseLinks.MergeTool: the generated id is taken to be fresh.
- BraincaseRetention.DecideRetention: duration strings are taken as parsed or not, the warnings list and reported ages are left out, and policy values that cannot be hashed, on which the program raises, are excluded.
- BraincasePrune.Prune: the order of the listing and the texts of the result entries are not modelled.
- BraincaseVisibility.PromoteCandidate: duplicate and conflict hints do not block and are left out; the redaction check's answer is an input.
- ModelSelection.Router.PersistModelState: a failed file write, error fields and the context length are left out; stripping knows the ASCII space characters.
- Query syntax of the full-text index and LIKE patterns: the set of matching rows is an input of recall.
- HTTP handlers, event streams, telemetry, docker commands, prompt assembly, catalog and client configuration generators: input and output without state of their own.
- Record metrics and the memory manager's model-driven passes: they depend on a scorer and on model output.
- Recovery plan, admission state and status payloads: finite decision tables.
- Recovery job store and active-request tracker: small containers that would only add easy members.
- Resolving a requested model and waiting for backend loads: their guarantees depend on a server that is not part of this model.
