# Verified models of the invoicing service

This project models the hard logic of an invoicing service on Stellar and proves what that logic
promises: pages that lose and repeat nothing while rows change, a mutex that really excludes,
merges that mean what their strategies say, stores whose indexes, chains and mirrors stay true
over every run, calendar windows that tile time, totals that add up, CSV that reads back, and
clean-ups that never touch what they must keep.

`dafny verify dfyconfig.toml` checks everything. Each file is one module:

| file | models |
|---|---|
| `Basics`, `Ordering`, `Decimal` | shared list operations, the newest-first order, decimal text |
| `CanonicalJson`, `CursorCodec`, `KeysetWalk`, `StableCursor` | canonical scope text, signed cursors, keyset paging |
| `PolicyDryRun` | the bounded preview page and its counters |
| `Calendar`, `TrendExport` | UTC windows, bucket accumulation, filling and capping |
| `ConflictResolver`, `InvoiceMerge` | three-way merge of metadata and of whole invoices |
| `LockManager` | the keyed mutex as a step system |
| `Shuffle`, `ReplayEngine` | the shuffled schedule and the batch loop |
| `ReplaySchedules`, `ReplayOutcomes` | what the schedule decides when events expect versions |
| `AuditStore` | the hash-chained, bounded audit trail |
| `CsvExport`, `ExportService` | CSV by RFC 4180, the paging export loop |
| `OperationQueue` | the browser's queue with reloads at any await |
| `Retention`, `RetentionSweep`, `RetentionDrain` | the retention plan, the sweep, and repeated sweeps |
| `WorkflowSla` | deadlines and escalation |

Code that computes values is modelled by functions; code that updates things in place by classes
and methods whose contracts tie the new state to a specification function, about which the
properties are proved. A step system (locks, queue, SLA engine) has a `Step` function, an
invariant, and theorems over all sequences of steps.

## Where the code does not do what one would expect

Each of these is a lemma, with the exact condition where there is one.

* A cursor is undecodable exactly when its position is not `Legal` (a negative or over-long
  timestamp, an empty id, an id with a bar, or more than 512 characters): `CursorCodec.CursorRoundTrip`.
* Scopes that differ only in a `Date` share their hash: `CanonicalJson.DatesCollide`.
* The seen set of `paginateStable` guards one page only. On a fixed snapshot some page size repeats an
  id exactly if a visible id has two sort keys and another visible id sorts behind the first of them:
  `StableCursor.RepeatsExactly`.
* `Date.UTC` reads years 0 to 99 as 1900 to 1999; exactly there a window start lies above its
  instant: `Calendar.FloorIsStart`.
* AUTO_MERGE breaks ties by locale on fields and by code units inside metadata. It is one of the two
  winning modes exactly if the tie-breaks agree, or no plain field is in conflict, or nothing collides
  inside metadata: `InvoiceMerge.AutoExactly`, with an edit by "Zoe" that is neither.
* The mutex is not first come, first served; a waiter can be overtaken any number of times
  (`LockManager.Starvation`), but by no more calls than were asleep with it or entered since
  (`LockManager.OvertakingIsBounded`).
* The header comment of the replay engine promises that all interleavings converge. For batches whose
  keys are distinct, whatever versions they expect and whichever keys were used before, the final
  resource is the same for all draws of the generator exactly if either no live event expects a
  version between the initial one and that plus the number of live events without expectation, and no
  two of the latter write different things to a field or settle and cancel; or all live events expect
  versions, none the one after the initial, some the initial one, and all of these would leave the same
  resource: `ReplayOutcomes.FinalStateExactly`. `ReplayOutcomes.RaceForAVersion` is the simplest race.
  Field by field and for the status, `ReplayOutcomes.OutcomesExactly` says what can be left. In a batch
  without expected versions whose keys are also new this is the plain rule of
  `ReplayEngine.SeedIndependentCell`.
* Querying the audit trail for the empty entity id returns everything, looking it up does not:
  `AuditStore.EntityLookupIsQuery`. The chain verifies exactly while nothing was evicted:
  `AuditStore.MemoryAuditStore.Verify`.
* A reload while an executor is at work gets it called again, so an operation that commits once may be
  executed more often, exactly once more than it failed or was cut off: `OperationQueue.CallsAccounted`,
  `OperationQueue.ReloadRepeats`.
* RETRY_WITH_LATEST always gets the executor called, even on a paid invoice; FORCE_APPLY exactly
  under a stated condition, which version zero fails: `OperationQueue.RetryAlwaysRuns`,
  `OperationQueue.ForceRunsExactly`.
* Retention anchors lose their fraction of a second, so rows go up to a second early:
  `Retention.EligibleExactly`.
* Payment events hold on to their invoices (`db/schema.sql:61`) and invoices are deleted first, so
  one referenced invoice can stop the sweep for good. It drains exactly if the events go first:
  `RetentionDrain.DrainsExactly`.
* The deletes of a sweep trust its plan. An invoice that was paid or held in between is lost exactly if
  the plan had put it in the batch and no payment event holds on to a batched invoice; then exactly the
  references to batched invoices are cleared: `RetentionSweep.LostExactly`,
  `RetentionSweep.ReferenceKeptExactly`.
* The sweep selects `created_at` from `transactions`, a column that `db/schema.sql:43-56` does not
  declare. The model follows the query.
* Evaluation demotes an escalated workflow exactly within the first period after its deadline, or
  under a policy without levels: `WorkflowSla.DemotesExactly`. Lowering a policy's top level lets a
  manual escalation lower the level: `WorkflowSla.LevelFallsExactly`.

## Model

| member | source | states |
|---|---|---|
| `Ordering.CompareStableTotal` | backend/src/domain/stable-cursor.ts:62-66 | the comparator is a total order: its sign flips with its arguments, it is zero only on equal positions, and any two positions are comparable |
| `Ordering.BeforeExactly` | backend/src/domain/stable-cursor.ts:62-66 | later instants come first, and among equal ones greater ids |
| `Ordering.TextLessExactly` | backend/src/domain/stable-cursor.ts:65-65 | texts compare at the first character in which they differ, and a proper prefix comes first |
| `Ordering.RankIsUtf16` | backend/src/domain/stable-cursor.ts:65-65 | characters compare by their UTF-16 code units |
| `CanonicalJson.StringifyInjective` | backend/src/domain/stable-cursor.ts:68-73 | two JSON values have the same canonical text if and only if they are the same value up to key order and undefined members |
| `CanonicalJson.SimpleTexts` | backend/src/domain/stable-cursor.ts:68-70 | null, undefined and non-finite numbers print as null, booleans and plain strings as JSON does, empty arrays and objects as brackets |
| `CanonicalJson.ItemsInOrder` | backend/src/domain/stable-cursor.ts:70-70 | array items keep their order, separated by commas in brackets |
| `CanonicalJson.MembersByKey` | backend/src/domain/stable-cursor.ts:71-72 | object members are listed by key, whichever came first |
| `CanonicalJson.UndefinedLeftOut` | backend/src/domain/stable-cursor.ts:72-72 | undefined members are left out |
| `CanonicalJson.DatesCollide` | backend/src/domain/stable-cursor.ts:68-73 | any two dates have the same canonical text |
| `CursorCodec.Base64RoundTrip` | backend/src/domain/stable-cursor.ts:83-92 | base64url (section 5 of RFC 4648, unpadded) decodes what it encoded, uses only its alphabet, and has the length it should |
| `CursorCodec.CursorRoundTrip` | backend/src/domain/stable-cursor.ts:83-104 | decoding an issued cursor under any scope gives the position back, or the scope error when the scope hashes differ, or the malformed error exactly for positions no cursor can carry |
| `CursorCodec.ScopesApart` | backend/src/domain/stable-cursor.ts:75-104 | where the digest tells texts apart, an issued cursor is accepted under another scope if and only if both are the same JSON value |
| `CursorCodec.DecodeExactly` | backend/src/domain/stable-cursor.ts:88-104 | which texts decode, to which position, and which of the three errors the others get |
| `CursorCodec.AlphabetIs` | backend/src/domain/stable-cursor.ts:89-92 | the alphabet of section 5 of RFC 4648, in order |
| `CursorCodec.SignatureBinds` | backend/src/domain/stable-cursor.ts:79-104 | if equal signatures come from equal texts, any two strings that decode and carry the same signature have the same position and scope hash |
| `StableCursor.LimitExactly` | backend/src/domain/stable-cursor.ts:111-112 | a limit is used as asked, fifty where none or zero is asked, one where a negative one is, and never more than the maximum |
| `StableCursor.PaginateStable` | backend/src/domain/stable-cursor.ts:110-140 | the pipeline computes the specified page: an absent or empty cursor starts over, then filter, sort, keep the first row of each id, slice, and issue the next cursor |
| `StableCursor.KeepFirst` | backend/src/domain/stable-cursor.ts:127-129 | the filter that fills the seen set keeps the first row of every id |
| `StableCursor.ListingNewestFirst` | backend/src/domain/stable-cursor.ts:115-129 | what remains behind a position is listed newest first, equally old rows by falling id |
| `StableCursor.VisitIsWalk` | backend/src/domain/stable-cursor.ts:83-140 | following opaque cursors over changing snapshots is the plain keyset walk, whether or not sort keys change: encoding and decoding lose nothing |
| `StableCursor.VisitNeverRepeats` | backend/src/domain/stable-cursor.ts:110-140 | however rows are inserted, deleted or hidden between requests, no id comes twice, rows come in strict order, and only rows visible at some request come |
| `StableCursor.VisitMissesNothing` | backend/src/domain/stable-cursor.ts:110-140 | a finished visit returned every row that was present and visible at every request |
| `StableCursor.VisitStaysBehindCursor` | backend/src/domain/stable-cursor.ts:113-125 | rows at or above the cursor in hand are never returned |
| `StableCursor.FrozenVisit` | backend/src/domain/stable-cursor.ts:110-140 | on a fixed snapshot n requests return the first n pages of the sorted visible list, and finish exactly when n pages hold it |
| `StableCursor.RepeatsExactly` | backend/src/domain/stable-cursor.ts:110-140 | on a fixed snapshot some limit and number of requests return an id twice if and only if a visible id has two sort keys and another visible id sorts behind the first |
| `StableCursor.MovingKeyRepeats` | backend/src/domain/stable-cursor.ts:127-129 | an instance: one id with two sort keys around another row is returned twice |
| `PolicyDryRun.PreviewPage.InsertBounded` | backend/src/domain/policy-dry-run.ts:231-242 | binary search, splice and pop in place equal inserting into the sorted page and cutting to the bound |
| `PolicyDryRun.InsertSliced` | backend/src/domain/policy-dry-run.ts:231-242 | inserting into a page that was cut loses nothing of the first rows of the whole list |
| `PolicyDryRun.NewestExactly` | backend/src/storage/invoice-cursor.ts:245-273 | newer invoices come first, and among equally old ones those with the greater id, case ignored |
| `PolicyDryRun.WindowExactly` | backend/src/domain/policy-dry-run.ts:214-218 | the payment window in days is rounded half up, and not known below one day |
| `PolicyDryRun.DecideExactly` | backend/src/domain/policy.ts:66-100 | an invoice is allowed if and only if amount, asset and known window are within the policy, and else the first of these to fail is named |
| `PolicyDryRun.AffectedExactly` | backend/src/domain/policy-dry-run.ts:258-270 | the affected invoices are, in storage order, those allowed now and refused under the proposal, each with the refusing rule |
| `PolicyDryRun.EvaluatePolicyDryRun` | backend/src/domain/policy-dry-run.ts:245-318 | the loop reports the counts of all affected invoices and the page that sorting all of them and slicing would give |
| `PolicyDryRun.CountsSumToTotal` | backend/src/domain/policy-dry-run.ts:259-318 | on every page the counts by status and by rule each add up to the total |
| `PolicyDryRun.PagingListsAll` | backend/src/domain/policy-dry-run.ts:259-318 | following the cursor lists every affected invoice once, newest first, and stops exactly when all are listed |
| `Calendar.FloorIsStart` | backend/src/exports/trend-export.ts:232-255 | for every instant, the floor is the start of its hour, day, ISO week or civil month if its year has not two digits, and otherwise lies above the instant |
| `Calendar.WindowsAre` | backend/src/exports/trend-export.ts:232-255 | outside two-digit years the windows are full hours, days from midnight, weeks from Monday and civil months, all UTC |
| `Calendar.MondaysAre` | backend/src/exports/trend-export.ts:243-248 | the step back to Monday is the number of days since Monday |
| `Calendar.CivilCalendar` | backend/src/exports/trend-export.ts:232-273 | months have their civil lengths, leap years come every four years but three in four centuries, and day zero is 1 January 1970 |
| `Calendar.WindowsTile` | backend/src/exports/trend-export.ts:232-273 | floor(t) is at most t and t is below the next window, floor is idempotent, and the next window start is a window start |
| `Calendar.SameFloorSameWindow` | backend/src/exports/trend-export.ts:232-273 | two instants have the same floor if and only if they lie in the same window |
| `Calendar.EpochIsModern` | backend/src/exports/trend-export.ts:232-273 | every instant from the epoch on is covered by the two lemmas above |
| `Calendar.FloorMonotone` | backend/src/exports/trend-export.ts:232-255 | later instants never have an earlier window |
| `Decimal.FormatStroopsReadsBack` | backend/src/exports/trend-export.ts:215-218 | the printed amount has exactly seven decimals, no leading zeros, and reads back to the same stroop count |
| `TrendExport.GenerateTrendExport` | backend/src/exports/trend-export.ts:551-729 | the three loops over mutable buckets, the filling loop, the sort and the cap compute the specified export |
| `TrendExport.Aggregator.Accumulate` | backend/src/exports/trend-export.ts:574-701 | one loop over records updates buckets, totals and the cap as the fold over the records does |
| `TrendExport.Aggregator.FillEmptyBuckets` | backend/src/exports/trend-export.ts:703-716 | the filling loop adds exactly the missing windows within its safety bound |
| `TrendExport.TakeAllHolds` | backend/src/exports/trend-export.ts:574-701 | every bucket holds exactly what the counted records of its window add; counted are the first with a readable time from `from` to `to` inclusive, and the cap is reported if and only if there were more |
| `TrendExport.TotalsAreBucketSums` | backend/src/exports/trend-export.ts:551-729 | without bucket truncation every total counter and per-asset volume is the sum over the exported buckets |
| `TrendExport.AmountIsWorth` | backend/src/exports/trend-export.ts:574-701 | what the loops add for a record is, metric by metric, what that record counts for |
| `TrendExport.TotalsMean` | backend/src/exports/trend-export.ts:574-729 | every total is what the counted records are worth; statuses partition the invoices, outcomes the operations, and no asset has more settled than invoiced |
| `TrendExport.FilledExport` | backend/src/exports/trend-export.ts:703-729 | with filling, the export lists exactly the first maxBuckets consecutive windows from floor(from) to floor(to), and says MAX_BUCKETS_REACHED if and only if there are more |
| `TrendExport.UnfilledExport` | backend/src/exports/trend-export.ts:551-729 | without filling, the buckets are exactly the windows of the counted records, ascending, and the cap is reported if and only if there are more |
| `TrendExport.UtcWindowsTile` | backend/src/exports/trend-export.ts:232-273 | the UTC windows tile time from every start since the epoch on, as `TrendExport.FilledExport` asks of its windows |
| `ConflictResolver.DeepEqualIsEqual` | backend/src/concurrency/conflict-resolver.ts:141-168 | the recursive comparison is equality |
| `ConflictResolver.MergeMetadata` | backend/src/concurrency/conflict-resolver.ts:173-253 | the key loop builds the recursive merge, and under STRICT collects exactly the colliding paths |
| `ConflictResolver.ClientWinsIsSwapped` | backend/src/concurrency/conflict-resolver.ts:173-253 | CLIENT_WINS is SERVER_WINS with the sides exchanged |
| `ConflictResolver.AutoMergeIsOneSided` | backend/src/concurrency/conflict-resolver.ts:173-253 | AUTO_MERGE is one of these two, throughout the object |
| `ConflictResolver.StrictIsAgreement` | backend/src/concurrency/conflict-resolver.ts:173-253 | STRICT finds no collision if and only if SERVER_WINS and CLIENT_WINS agree, and then all strategies give that object |
| `ConflictResolver.OneSidedEdit` | backend/src/concurrency/conflict-resolver.ts:173-253 | if one side equals the base the merge is the other side, deletions included |
| `ConflictResolver.ThreeWayEverywhere` | backend/src/concurrency/conflict-resolver.ts:173-253 | at every path below objects the merge is the three-way merge of the three values there, with the side that wins named for each strategy |
| `ConflictResolver.CollisionExactly` | backend/src/concurrency/conflict-resolver.ts:173-253 | a path is reported if and only if both sides have objects down to it and there differ from the base and from each other without both being objects |
| `ConflictResolver.CollisionDecided` | backend/src/concurrency/conflict-resolver.ts:237-249 | at a colliding path SERVER_WINS has the server's value, CLIENT_WINS the client's, AUTO_MERGE the winner's, STRICT none |
| `InvoiceMerge.ResolveMultiClientConflict` | backend/src/concurrency/conflict-resolver.ts:266-485 | the field loop gives the specified merged invoice with its new version, the unresolved fields and the conflict flag, or the refusal |
| `InvoiceMerge.OnlyEditableChanges` | backend/src/concurrency/conflict-resolver.ts:266-325 | an accepted edit is on a pending invoice by a non-viewer, restates immutable fields at most, and changes only editable fields and the version, which it raises by one |
| `InvoiceMerge.RefusedExactly` | backend/src/concurrency/conflict-resolver.ts:277-314 | an edit is refused if and only if the invoice is settled, the actor a viewer, or one of the ten immutable fields changed, in this order |
| `InvoiceMerge.PlainFieldExactly` | backend/src/concurrency/conflict-resolver.ts:321-462 | what the client leaves alone stays the server's, what only the client changed or both changed alike lands, and a contested field goes to the side the mode or the tie-break favours |
| `InvoiceMerge.MetadataExactly` | backend/src/concurrency/conflict-resolver.ts:321-398 | metadata likewise, except that what both sides changed is merged inside with the strategy of the mode |
| `InvoiceMerge.UnresolvedExactly` | backend/src/concurrency/conflict-resolver.ts:376-470 | a field is unresolved if and only if the mode is STRICT and it is contested, metadata only if something collides inside; the version rises if and only if nothing is unresolved |
| `InvoiceMerge.ConflictsExactly` | backend/src/concurrency/conflict-resolver.ts:353-355 | a conflict is reported if and only if some editable field was changed differently on both sides |
| `InvoiceMerge.StrictResolvesAgreement` | backend/src/concurrency/conflict-resolver.ts:300-470 | STRICT resolves an edit if and only if SERVER_WINS and CLIENT_WINS give the same invoice, and then every mode gives it |
| `InvoiceMerge.AutoIsOneSided` | backend/src/concurrency/conflict-resolver.ts:360-448 | where every tie-break that decides anything favours one side, AUTO_MERGE is the mode in which that side wins |
| `InvoiceMerge.AutoExactly` | backend/src/concurrency/conflict-resolver.ts:360-448 | AUTO_MERGE is one of the two winning modes if and only if its tie-breaks agree, or no plain field is in conflict, or nothing collides inside metadata |
| `InvoiceMerge.MixedTieBreak` | backend/src/concurrency/conflict-resolver.ts:360-448 | where the tie-breaks disagree, which takes equal timestamps, an edit that collides in a field and inside metadata is neither |
| `InvoiceMerge.ZoeIsMergedBothWays` | backend/src/concurrency/conflict-resolver.ts:360-448 | an instance: actor "Zoe", equal timestamps, description and one metadata entry changed on both sides |
| `LockManager.MutualExclusion` | backend/src/concurrency/lock-manager.ts:16-34 | in every run at most one unreleased holder per invoice, the table lists exactly the held invoices, and a waiter of a free invoice can resume |
| `LockManager.GrantsDoNotOverlap` | backend/src/concurrency/lock-manager.ts:16-34 | in every run, between two grants of one invoice the earlier holder released it |
| `LockManager.StaleReleaseIsInert` | backend/src/concurrency/lock-manager.ts:28-33 | a second or stale release changes nothing at all |
| `LockManager.ServingEnds` | backend/src/concurrency/lock-manager.ts:16-34 | however wake-ups and first releases are scheduled, they end within a bound computed from the state |
| `LockManager.NobodyLeftBehind` | backend/src/concurrency/lock-manager.ts:16-34 | when they have ended, no call sleeps and no invoice is locked |
| `LockManager.Starvation` | backend/src/concurrency/lock-manager.ts:16-19 | the second caller can be overtaken by any number of later ones |
| `LockManager.GrantsAccounted` | backend/src/concurrency/lock-manager.ts:16-34 | in every run the grants of an invoice are the calls asleep for it before plus those that entered since, less those asleep for it after |
| `LockManager.OvertakingIsBounded` | backend/src/concurrency/lock-manager.ts:16-34 | while a call sleeps it is overtaken at most by the other calls asleep with it and by those that entered since |
| `LockManager.InvoiceLockManager.EnterAcquire` | backend/src/concurrency/lock-manager.ts:16-26 | one pass of the loop is the specified step, keeps the invariant, and grants exactly if the invoice was free |
| `LockManager.InvoiceLockManager.Resume` | backend/src/concurrency/lock-manager.ts:17-26 | a woken caller takes the same step again, and keeps the invariant |
| `LockManager.InvoiceLockManager.CallRelease` | backend/src/concurrency/lock-manager.ts:28-33 | a release is the specified step, and changes nothing unless the caller holds the lock |
| `LockManager.InvoiceLockManager.IsLocked` | backend/src/concurrency/lock-manager.ts:36-38 | an invoice is reported locked if and only if some call is inside its critical section |
| `Shuffle.ShuffleCopy` | backend/src/concurrency/deterministic-replay-engine.ts:73-80 | the in-place swaps compute the specified shuffle of a copy, with every index in range |
| `Shuffle.PickExactly` | backend/src/concurrency/deterministic-replay-engine.ts:76-76 | the index swapped with is the whole part of the draw's fraction of the places left |
| `Shuffle.SchedulesArePermutations` | backend/src/concurrency/deterministic-replay-engine.ts:73-80 | with draws that are independent of each other, a sequence is a possible schedule of a batch if and only if it is a permutation of it |
| `ReplayEngine.DeterministicReplayEngine.ExecuteConcurrentBatch` | backend/src/concurrency/deterministic-replay-engine.ts:111-223 | a batch applies the shuffled schedule, appends its journal to the trace, and reports the counts of successes, conflicts and retries in that journal |
| `ReplayEngine.BatchesAreOneRun` | backend/src/concurrency/deterministic-replay-engine.ts:111-223 | a sequence of batches leaves the state and the trace of one long schedule |
| `ReplayEngine.JournalAt` | backend/src/concurrency/deterministic-replay-engine.ts:125-214 | every event adds exactly one trace step, at its index, judged in the state the earlier events left |
| `ReplayEngine.RunAccounts` | backend/src/concurrency/deterministic-replay-engine.ts:125-214 | the version is the initial one plus the successes, and the settled amount the initial one plus the successful settlements |
| `ReplayEngine.VerdictsExactly` | backend/src/concurrency/deterministic-replay-engine.ts:125-214 | the verdict on each event, said of the whole run: dropped, remembered key, unauthorised, stale against the initial version plus the successes so far, or success, each if and only if |
| `ReplayEngine.ReportsExactly` | backend/src/concurrency/deterministic-replay-engine.ts:125-214 | each trace step names its event, client and action, and reports the initial version plus the successes up to it, or for a hit the version of the success it stands for |
| `ReplayEngine.KeySucceedsOnce` | backend/src/concurrency/deterministic-replay-engine.ts:142-204 | after a success every event with that key is dropped or answered with the version of the success |
| `ReplayEngine.RememberedWasSuccess` | backend/src/concurrency/deterministic-replay-engine.ts:199-204 | a remembered key always has an earlier success with that version behind it |
| `ReplayEngine.OneWinnerPerVersion` | backend/src/concurrency/deterministic-replay-engine.ts:171-187 | of the events that expect one version at most one succeeds |
| `ReplayEngine.RetryDropsOut` | backend/src/concurrency/deterministic-replay-engine.ts:142-155 | a retry of a key that has succeeded can be added anywhere later without changing the outcome |
| `ReplayEngine.SeedIndependence` | backend/src/concurrency/deterministic-replay-engine.ts:119-214 | without expected versions, with new distinct keys and one writer per field, all draws end with the same version, fields and settled amount |
| `ReplayEngine.SeedIndependentCell` | backend/src/concurrency/deterministic-replay-engine.ts:119-214 | in a batch without expected versions whose keys are new and distinct, all draws leave the same thing in a field or in the status if and only if no two effective events write different things there |
| `ReplayEngine.StatusIndependence` | backend/src/concurrency/deterministic-replay-engine.ts:187-195 | in such a batch all draws end with the same status if and only if it has not both an effective settlement and an effective cancellation |
| `ReplaySchedules.RunApplies` | backend/src/concurrency/deterministic-replay-engine.ts:125-214 | the final resource is what the successful events make of the initial one, and the version counts them |
| `ReplayOutcomes.CanSucceedExactly` | backend/src/concurrency/deterministic-replay-engine.ts:119-214 | for distinct keys, an event can succeed for some draws if and only if it is live and expects no version, or one that is not below the initial one and has at most as many unexpected versions in front of it as there are live events without expectation |
| `ReplayOutcomes.SuccessesAgreeExactly` | backend/src/concurrency/deterministic-replay-engine.ts:119-214 | for distinct keys, the same events succeed for all draws if and only if no live event can meet the version it expects, or nothing live is free, equal events expect the initial version and none the next |
| `ReplayOutcomes.FinalStateExactly` | backend/src/concurrency/deterministic-replay-engine.ts:119-214 | for distinct keys, all draws leave the same resource if and only if no live event can meet the version it expects and no two free ones clash, or exactly one event will succeed and all candidates would leave the same |
| `ReplayOutcomes.OutcomesExactly` | backend/src/concurrency/deterministic-replay-engine.ts:119-214 | for distinct keys, a field or the status ends up with something for some draws if and only if a writer that can have the last word writes it, or it was there and can be left alone |
| `ReplayOutcomes.CellExactly` | backend/src/concurrency/deterministic-replay-engine.ts:119-214 | for distinct keys, all draws leave the same thing in a field or in the status if and only if only one thing is possible there |
| `ReplayOutcomes.RaceForAVersion` | backend/src/concurrency/deterministic-replay-engine.ts:119-214 | two events that expect the initial version and write different fields do not clash, and yet the draws decide which field is written |
| `AuditStore.VerifyChain` | backend/src/audit/audit-service.ts:232-246 | the loop accepts exactly the chained lists, and otherwise reports the first flaw with its position, id and reason |
| `AuditStore.TamperEvidence` | backend/src/audit/audit-service.ts:232-246 | with an injective hash, two non-empty verified trails that end in the same hash are identical |
| `AuditStore.MemoryAuditStore.RecordEvent` | backend/src/audit/audit-service.ts:109-168 | recording extends the trail by the hashed and linked event; the store keeps the latest events up to its capacity, at least one, and all indexes agree with them |
| `AuditStore.MemoryAuditStore.GetEventsByEntity` | backend/src/audit/audit-service.ts:170-176 | the indexed look-up is the newest-first filter of the retained events |
| `AuditStore.MemoryAuditStore.QueryEvents` | backend/src/audit/audit-service.ts:178-214 | a page holds, element by element, the newest-first matching events from the offset on, as many as the limit and the rest allow, and the total counts them all |
| `AuditStore.MatchesExactly` | backend/src/audit/audit-service.ts:182-201 | an event matches if and only if it passes every filter that is set; dates that cannot be read pass no bound |
| `AuditStore.PageSize` | backend/src/audit/audit-service.ts:204-204 | a limit from 1 to 500 is used as asked, zero is 50, below is 1 and above is 500 |
| `AuditStore.PagesListAll` | backend/src/audit/audit-service.ts:203-206 | requests at consecutive offsets list every matching event once, in order |
| `AuditStore.EntityLookupIsQuery` | backend/src/audit/audit-service.ts:170-187 | look-up and query by entity agree if and only if the id is not empty or every event has the empty id |
| `AuditStore.MemoryAuditStore.Verify` | backend/src/audit/audit-service.ts:232-246 | in every reachable store all inner links and hashes hold, and the chain verifies if and only if nothing was evicted since creation or clear |
| `AuditStore.CutChain` | backend/src/audit/audit-service.ts:134-150 | a chain without its beginning fails at its first event |
| `AuditStore.MemoryAuditStore.Size` | backend/src/audit/audit-service.ts:228-230 | the size is the number of events since creation or clear, up to the capacity, at least one |
| `AuditStore.MemoryAuditStore.Clear` | backend/src/audit/audit-service.ts:221-226 | clearing starts a new trail with empty indexes |
| `CsvExport.Neutral` | backend/src/exports/export-service.ts:119-125 | text that starts with = + - @ tab or CR gets an apostrophe in front, and nothing else changes |
| `CsvExport.CellExactly` | backend/src/exports/export-service.ts:122-127 | a cell is quoted if and only if it holds a quote, a comma, CR or LF, with its quotes doubled |
| `CsvExport.CsvRoundTrip` | backend/src/exports/export-service.ts:282-286 | reading a rendered export by section 2 of RFC 4180 gives the header and, for every record, one cell per field with its neutralised value |
| `CsvExport.FieldRoundTrip` | backend/src/exports/export-service.ts:122-127 | any text, whatever it holds, reads back as itself in front of a comma, a line break or the end |
| `ExportService.AddPage` | backend/src/exports/export-service.ts:202-217 | one storage page adds its emitted invoices up to the cap, truncation is reported if and only if some did not fit, and the seen set grows |
| `ExportService.Collect` | backend/src/exports/export-service.ts:181-218 | on fixed storage the loop ends and emits exactly the first maxRecords of the requester's matching invoices in storage order, and reports truncation if and only if there are more |
| `ExportService.NewestExactly` | backend/src/storage/invoice-cursor.ts:245-273 | storage order is newest first, equally old invoices by falling id, case ignored |
| `ExportService.StorageFetches` | backend/src/services/invoice-memory.service.ts:177-194 | a storage page is the stretch of the sorted list right behind the cursor |
| `OperationQueue.EveryRun` | frontend/lib/operation-queue.js:88-315 | in every run with reloads anywhere, storage mirrors the queue, exactly the operations in flight have a suspended call, no operation is reported committed twice, and every executor call was safe |
| `OperationQueue.CallsAccounted` | frontend/lib/operation-queue.js:219-262 | in every run the executor calls of an operation are its commit, if any, the call still at work, if any, its failed calls and those cut off by a reload |
| `OperationQueue.ReloadRepeats` | frontend/lib/operation-queue.js:97-104 | a reload while an executor is at work gets it called again |
| `OperationQueue.NothingIsLost` | frontend/lib/operation-queue.js:88-349 | an operation disappears if and only if it is completed when a clear comes, and its purpose never changes |
| `OperationQueue.CompletedForGood` | frontend/lib/operation-queue.js:219-349 | a committed or discarded operation stays as it is until cleared, and then stays gone |
| `OperationQueue.CompletedIsNotExecuted` | frontend/lib/operation-queue.js:223-225 | no executor is ever called again for a completed operation |
| `OperationQueue.DiscardIsFinal` | frontend/lib/operation-queue.js:275-282 | a discarded conflict is DISCARDED in every run from there until it is cleared, and is never executed |
| `OperationQueue.ResolvedExactly` | frontend/lib/operation-queue.js:274-314 | what each of the three resolutions changes in the operation and what it keeps, and which are refused |
| `OperationQueue.AnswerExactly` | frontend/lib/operation-queue.js:232-261 | an error fails the operation if and only if its attempts are used, and else queues it; a success commits it with its result; a conflict is stored with its reason |
| `OperationQueue.ConflictExactly` | frontend/lib/operation-queue.js:173-214 | which reason a conflict has: no entity, then a foreign terminal status, then a numeric version other than the base |
| `OperationQueue.ReloadExactly` | frontend/lib/operation-queue.js:88-113 | a reload brings every operation back unchanged, except that those in flight are queued |
| `OperationQueue.ClearExactly` | frontend/lib/operation-queue.js:337-349 | a clear removes the committed and the discarded operations and nothing else |
| `OperationQueue.FailedOnlyWhenExhausted` | frontend/lib/operation-queue.js:253-261 | in every run an operation is marked failed only after as many attempts as are allowed |
| `OperationQueue.TerminalNeedsRetry` | frontend/lib/operation-queue.js:219-315 | an executor is called on a terminal status other than the enqueued base status only after a retry adopted that status or an empty one, never by forcing |
| `OperationQueue.RetryAlwaysRuns` | frontend/lib/operation-queue.js:284-297 | after RETRY_WITH_LATEST the executor is called on the state it was given, terminal or not |
| `OperationQueue.ForceRunsExactly` | frontend/lib/operation-queue.js:299-310 | after FORCE_APPLY it is called if and only if that state's status does not overtake the operation and its version is not zero, unless the base version is |
| `OperationQueue.OperationQueue.EnqueueOperation` | frontend/lib/operation-queue.js:142-167 | enqueueing is the specified step, refused if and only if type or entity is missing, and stores exactly the given fields with their defaults |
| `OperationQueue.OperationQueue.BeginOperation` | frontend/lib/operation-queue.js:219-230 | starting is the specified step, for exactly the queued and failed operations; it counts the attempt, and none of them has a suspended call |
| `OperationQueue.OperationQueue.AfterFetch` | frontend/lib/operation-queue.js:232-246 | the answer of the fetch is the specified step: a conflict, an error, or the executor call |
| `OperationQueue.OperationQueue.AfterExecute` | frontend/lib/operation-queue.js:246-262 | the answer of the executor is the specified step: committed, queued again or failed |
| `OperationQueue.OperationQueue.ResolveConflict` | frontend/lib/operation-queue.js:267-315 | resolving is the specified step; discarding leaves DISCARDED and the others QUEUED, it is refused if and only if the operation is not in conflict, the action unknown or the latest state missing for a retry, and then changes nothing |
| `OperationQueue.OperationQueue.Clear` | frontend/lib/operation-queue.js:337-349 | the deleting loop is the specified step, and counts what it removed |
| `OperationQueue.OperationQueue.ReloadPage` | frontend/lib/operation-queue.js:88-113 | loading from storage is the specified step: every operation is back, the interrupted ones queued |
| `Retention.EligibilityIsMonotone` | backend/src/db/retention.ts:192-287 | once eligible always eligible, and a protected row becomes eligible exactly at the instant its verdict names, if any |
| `Retention.EligibleExactly` | backend/src/db/retention.ts:192-287 | which rows are eligible, table by table with their windows in days, flags, links and ages, up to the fraction of a second that the anchor loses |
| `Retention.LegalHoldExactly` | backend/src/db/retention.ts:178-184 | a hold is one of the flags legal_hold, under_dispute and under_audit that is true or the text "true" |
| `Retention.ProtectedBecause` | backend/src/db/retention.ts:192-287 | the reason of a protection: settlement before hold before missing age before the window |
| `Retention.PlanRetention` | backend/src/db/retention.ts:311-332 | the loops split the records into eligible and protected, in order, and the counts per class are those of the two lists |
| `RetentionSweep.RunRetentionSweep` | backend/src/db/retention-sweep.ts:105-183 | loading, planning, grouping and deleting compute the specified outcome, also when a statement is refused midway |
| `RetentionSweep.GroupByTable` | backend/src/db/retention-sweep.ts:155-160 | the map lists the tables by first occurrence, each with its records in order |
| `RetentionSweep.SweepsAreSafe` | backend/src/db/retention-sweep.ts:64-183 | no sequence of sweeps, at any clocks and options, deletes a paid, transaction-linked or held invoice or changes any transaction, so no reference dangles |
| `RetentionSweep.ProtectedSurvive` | backend/src/db/retention-sweep.ts:64-183 | after any sequence of sweeps every invoice is still there that is paid, that a transaction refers to, or that one of the three flags holds, and every transaction is as it was |
| `RetentionSweep.LinksExactly` | backend/src/db/retention-sweep.ts:64-80 | settlement links are the ids of the paid invoices and of those a transaction refers to |
| `RetentionSweep.ReportedIsLost` | backend/src/db/retention-sweep.ts:154-170 | the number reported is the number of rows lost, and a dry run loses none |
| `RetentionSweep.SweepIsBounded` | backend/src/db/retention-sweep.ts:162-170 | one sweep takes at most batchSize rows from each table |
| `RetentionSweep.DeletesTakeTheDoomed` | backend/src/db/retention-sweep.ts:148-170 | for any plan and any database met later, deletes that are accepted take exactly the invoices in the planned batch and clear exactly the references to them |
| `RetentionSweep.AcceptedExactly` | backend/src/db/retention-sweep.ts:148-170 | the deletes are accepted if and only if no payment event refers to a batched invoice without being deleted in front of it |
| `RetentionSweep.SurvivesExactly` | backend/src/db/retention-sweep.ts:148-170 | an invoice present when the deletes come survives if and only if they are refused or the plan did not batch its id, whatever its status has become |
| `RetentionSweep.ReferenceKeptExactly` | backend/src/db/retention-sweep.ts:148-170 | a transaction keeps its reference if and only if the deletes are refused or it refers to no batched invoice |
| `RetentionSweep.LostExactly` | backend/src/db/retention-sweep.ts:148-170 | an invoice that became paid, linked or held after the plan is lost if and only if the plan had batched such an invoice and no payment event holds on to a batched one |
| `RetentionSweep.PaymentDuringSweep` | backend/src/db/retention-sweep.ts:148-170 | an instance: an eligible invoice paid between plan and delete is deleted, and its transaction loses its reference |
| `RetentionDrain.SweepOnce` | backend/src/db/retention-sweep.ts:141-183 | a sweep of all tables drops the first batch of eligible rows of each table, or is refused and changes nothing if a payment event refers to an invoice in its batch |
| `RetentionDrain.DrainsExactly` | backend/src/db/retention-sweep.ts:141-183 | at a fixed clock repeated sweeps delete everything eligible if and only if every payment event that refers to an eligible invoice is eligible and due in an earlier batch |
| `RetentionDrain.OneBatchDrains` | backend/src/db/retention-sweep.ts:162-170 | if all eligible invoices fit in one batch, that is: if and only if no payment event refers to one |
| `RetentionDrain.WhatRemains` | backend/src/db/retention-sweep.ts:141-183 | a drained database holds exactly the rows that were not eligible, in their order |
| `WorkflowSla.LazyIsEager` | backend/src/domain/workflow-sla.ts:160-214 | evaluating at any rising times leaves the status and level of evaluating only at the last, and for a fresh workflow both are a function of the clock |
| `WorkflowSla.LevelOfLatest` | backend/src/domain/workflow-sla.ts:160-214 | in whatever order times are evaluated, the level is that of the latest one |
| `WorkflowSla.EnteredExactly` | backend/src/domain/workflow-sla.ts:133-153 | the deadline lies the policy's seconds behind the entry, and the workflow is on time at level zero |
| `WorkflowSla.LevelExactly` | backend/src/domain/workflow-sla.ts:178-182 | the level due is the largest number of whole periods since the deadline, up to the maximum |
| `WorkflowSla.EvaluatedExactly` | backend/src/domain/workflow-sla.ts:160-214 | an evaluation past the deadline keeps the greater level, records a rise, and sets the status by whether a level is due |
| `WorkflowSla.EscalateExactly` | backend/src/domain/workflow-sla.ts:233-241 | a manual escalation goes up by one, stops at the maximum, and is recorded with who, why and when |
| `WorkflowSla.DemotesExactly` | backend/src/domain/workflow-sla.ts:178-188 | evaluation takes an escalated workflow back to overdue if and only if its deadline passed by less than a period or its policy has no levels |
| `WorkflowSla.StepKeeps` | backend/src/domain/workflow-sla.ts:133-287 | after every call the level equals the last history entry, and a workflow is resolved if and only if it has a resolution time |
| `WorkflowSla.LevelsOverRuns` | backend/src/domain/workflow-sla.ts:133-255 | with fixed policies the level never falls, never exceeds the maximum, and the history never goes down |
| `WorkflowSla.LevelFallsExactly` | backend/src/domain/workflow-sla.ts:219-255 | a step lowers a level if and only if it is a manual escalation after the maximum was set below the level |
| `WorkflowSla.ResolvedForGood` | backend/src/domain/workflow-sla.ts:133-287 | a resolved workflow keeps status, level and history until it enters a state again |
| `WorkflowSla.WorkflowSLAEngine.EnterState` | backend/src/domain/workflow-sla.ts:133-153 | entering is the specified step, and is refused if and only if the state has no policy |
| `WorkflowSla.WorkflowSLAEngine.EvaluateAt` | backend/src/domain/workflow-sla.ts:160-214 | evaluation is the specified step, also where nothing is to be written |
| `WorkflowSla.WorkflowSLAEngine.EscalateManually` | backend/src/domain/workflow-sla.ts:219-255 | manual escalation is the specified step, and is refused on resolved workflows |
| `WorkflowSla.WorkflowSLAEngine.ResolveAt` | backend/src/domain/workflow-sla.ts:260-287 | resolving is the specified step, also on a resolved workflow |
| `WorkflowSla.WorkflowSLAEngine.ReplacePolicy` | backend/src/domain/workflow-sla.ts:71-73 | replacing a policy changes that policy and no other |

## Left out

- SHA-256, HMAC and UTF-8 are functions the models are given, with what is needed of them stated (`Platform.Sound`, `Injective`).
- The generator behind `SeededPRNG.next` is not modelled; a draw is any multiple of 1/2^32 below one, and draws are independent. One 32-bit seed fixes all draws, so it cannot reach every order of a large batch.
- Batches in which two events share a key are covered by `ReplayEngine.KeySucceedsOnce`, `ReplayEngine.RetryDropsOut` and `ReplayEngine.VerdictsExactly`, but not by the theorems over all schedules in `ReplayOutcomes`.
- Randomness, clocks, fetched states, executor results and storage rows are parameters or events.
- Numbers are integers: amounts are stroops, times milliseconds; NaN, fractions and sums beyond 2^53 are not modelled, nor instants outside the range of a date.
- `localeCompare` is an input of the invoice merge, since its result depends on the platform.
- Text compares by UTF-16 code units over whole characters; upper and lower case are ASCII only; lone surrogates are not modelled.
- Arrays inside merged metadata, and keys that `Object.prototype` has, are not modelled; undefined means absent.
- ConflictResolver.MergeMetadata: reports collisions as a set, not in the order they are found; the order and the reason texts of `resolvedFields` are not modelled either.
- AuditStore.MemoryAuditStore.RecordEvent: takes the id and the parsed timestamp from the caller, where the original draws a fresh UUID and reads the clock.
- Averages, percentiles, rates and the trend CSV are not modelled, nor request validation and authorisation of trend exports.
- The text of the dry-run cursor, policy validation and policy diffs are not modelled; the cursor is its position.
- The cancellation signal of an export, its JSON body, redaction, and the artifact store with its expiry and quota would only add easier members.
- Storage without changes during an export is assumed, with ids unique up to case; the Postgres backend is not part of this model.
- The audit trail's CSV and NDJSON export and the sanitising of states are not modelled; an event's descriptive fields are one text.
- Several tabs sharing one storage, a storage that fails, and enqueueing an id that is already in use are not modelled.
- `email_deliveries` and other tables that the sweep does not name are not modelled, nor the refusal of unknown table names; rows come in one fixed order, where SQL promises none.
- Retention of payment events of protected invoices is not claimed: the sweep compares the event's own id with invoice ids.
- SLA policies with a period that is not positive, audit events of the engine, and history arrays shared between returned copies are not modelled.
- The error texts of the replay trace and of conflicts are not modelled.
