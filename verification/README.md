# Verified model of the dustnet client and server cores

This project models the stateful cores of dustnet, a terminal browser, its
protocol client and its server, and proves what they keep over whole runs:

- the **viewer reducer**, a state machine of 46 events and 29 effects over page
  scopes, request slots, bounded history, cached-history activation with
  rollback, subscriptions, resize projections and pressure recovery;
- the **live-region fan-out** of the server: one registry task and many
  connections, interleaved at every suspension point, with file writes as an
  adversary, per-subscriber deltas, one shared budget and directory watches;
- the **budgets and leases** of the client, and the session store under them;
- the **client-owned tables**: the pending-update ring, the resource cache and
  the ownership of subscriptions by pages;
- the **AML serializer** against the real scanner, the include splice, and the
  session store with its wire form.

`dafny verify dfyconfig.toml` checks everything.

## How it is laid out

| files | component |
|---|---|
| `Wrappers`, `Text` | options and results, `u64` wrap-around, saturating subtraction; text measured in UTF-8 bytes |
| `ViewerTypes`, `ViewerTables`, `ViewerHistory`, `ViewerStep` | values, slot tables, history commits, and the transition function `Step` |
| `ViewerModel` | the reducer in place: classes with slot arrays and fields, each method proved equal to its part of `Step` |
| `ViewerOwnership`, `ViewerLedger`, `ViewerGenerations`, `ViewerRollback`, `ViewerPressure`, `ViewerDiscipline` | theorems about runs of `Step` |
| `ViewerCommits`, `ViewerMoves`, `ViewerLifecycles` | what a commit keeps, what a move shows, and whole operations from the event that starts them to the one that ends them |
| `ViewerRuns` | concrete disciplined runs from a new viewer |
| `Governor`, `GovernedSessions` | budget and leases; the session store that lives under them |
| `Sessions`, `SessionDirectives` | the session store and the wire form of its directives |
| `PendingRing`, `ResourceCaches`, `ClientScopes`, `ClientDelivery` | the client's tables, and what they deliver |
| `LiveWake`, `LiveProgress`, `LiveDelta`, `LiveReconcile` | the server's live regions: what is never lost, what is reached, what is sent, what is read |
| `LiveBudget`, `LiveCharges`, `LiveDirectories` | their budget, the size of every lease, and the directory watches |
| `Aml`, `AmlScanner`, `AmlRoundTrip`, `AmlControls`, `AmlSpelling` | serializer, scanner, their round trip, what is removed before scanning, and every spelling of a page |
| `Include`, `IncludePages` | the include splice, and what a resolved page is |

Where the source updates fields, arrays or maps in place there is a class whose
methods state their new state as a function of the old one; the theorems are
about that function. Interleavings are transition systems with one action per
atomic step of a task. Failing allocations, network outcomes, clocks, measured
capacities and the contents of torn reads are inputs, so every statement holds
for all of them.

A reducer run is *disciplined* when each completion answers an effect the
reducer emitted earlier (`ViewerDiscipline.Answers`). Runs issue fewer than
2^64 ids; only the pigeonhole lemma covers wrap-around.

## Where the code departs from its stated intent

Each departure keeps the code as it is, gives a failing run, and proves exactly
when the intent holds. The runs of the reducer start from a new viewer and every
completion in them answers an emitted effect (`ViewerRuns.Reached`).

- Pressure eviction moves the history position but not the positions a pending
  activation remembers: a later failure leaves the position past the history
  (`EvictionLeavesPositionDangling`), a later success makes the wrong entry
  current (`EvictionShowsWrongEntry`); `EvictionKeepsRollbackIff` gives both
  conditions over runs.
- Any layout of the page being shown commits a pending history activation, a
  resized projection's too (`AnyLayoutCommits`, `ResizeDefeatsRollback`).
- A stored pressure retry outlives its page when history moves
  (`RetiredRetryIsEmitted`, `RetryStaysCurrentIff`).
- A generation too large to send still moves a subscriber's baseline
  (`SkippedGenerationCorrupts` for every region name of two bytes or more,
  `ShortRegionIsSafe`, `SyncedIffNotSkipped`).
- A directory is counted once per installed file and released once per emptied
  directory (`TwoFilesLeaveTheirDirectory`, `DirectoryReleasedIff`).
- A timed-out UNSUBSCRIBE leaves the retired page's work in the tables
  (`TimedOutRetirementLeaks`, `StepKeepsOwnership`).
- Loading a page of another origin after the current page was retired forgets
  the page being loaded (`RetireThenLeaveOrigin`, `NavigationIsCurrentIff`).
- An attach wakes its own connection for the generation it returns when that
  connection was registered before (`ReattachWakesItself`,
  `AttachWakesItselfIff`).
- A page whose include tag has a space after its bracket is served unresolved
  (`SpacedIncludeIsMissed`), and a handler's text can put an include back
  (`DirtyTextInjectsInclude`); `PageIsExpandedIff` gives the condition.
- A text or value with a control or deceptive character does not survive
  serialization and scanning: an escape character swallows a tag
  (`EscapeCharacterSwallowsTag`), a control sequence introducer turns text into
  a tag (`IntroducerMakesTag`). A text longer than the scanner admits is refused
  (`LongTextIsRefused`). `RoundTrip` is the if-and-only-if.
- A scope with a space is valid but is cut when it is parsed
  (`SpacedScopeIsMisread`, `SetRoundTrip`).

## Model

| member | source | states |
|---|---|---|
| `ViewerTables.TryInsertSucceedsIffFree` | crates/dustnet-client/src/viewer.rs:794-805 | pigeonhole: an id is found exactly when one of the 64 slots is free, even when the counter wraps, and it is new and in range |
| `ViewerTables.InsertCounts` | crates/dustnet-client/src/viewer.rs:729-735 | a subscription is stored exactly when the table of 16 is not full, and then occupies one slot more |
| `ViewerModels.OutstandingRequests.InsertFrom` | crates/dustnet-client/src/viewer.rs:794-805 | the slot array holds the old ids and the first free id from the counter on, or is unchanged when full |
| `ViewerModels.OutstandingRequests.RetainUnless` | crates/dustnet-client/src/viewer.rs:823-829 | exactly the ids that no pending subscription waits for are kept |
| `ViewerModels.OutstandingRequests.Available` | crates/dustnet-client/src/viewer.rs:835-841 | 64 minus the number of distinct outstanding ids |
| `ViewerModels.SubscriptionOwnership.Add` | crates/dustnet-client/src/viewer.rs:729-735 | the first free slot takes the subscription; refused exactly when all 16 are taken |
| `ViewerModels.SubscriptionOwnership.Take` | crates/dustnet-client/src/viewer.rs:741-751 | the slot with this id and region is emptied and nothing else changes |
| `ViewerModels.ViewerModel.Navigate` | crates/dustnet-client/src/viewer.rs:984-1073 | the in-place update equals `BeginNavigation` on the whole state and its effects |
| `ViewerModels.ViewerModel.ShowEntry` | crates/dustnet-client/src/viewer.rs:1135-1262 | the in-place update equals `ActivateHistoryEntry`: new generation, remembered previous page, cleared tables |
| `ViewerModels.ViewerModel.Fail` | crates/dustnet-client/src/viewer.rs:1075-1117 | the in-place update equals `FailOwned`: rollback of a pending activation or the error page |
| `ViewerModels.ViewerModel.DropOld` | crates/dustnet-client/src/viewer.rs:1514-1536 | the eviction loop computes `Evict`, and the list of removed ids never outgrows its 128 places |
| `ViewerModels.ViewerModel.CommitHistory` | crates/dustnet-client/src/viewer.rs:1436-1548 | the in-place update equals `CommitPending`, releases before the install |
| `ViewerModels.ViewerModel.EvictHistory` | crates/dustnet-client/src/viewer.rs:1605-1679 | the in-place update equals `EvictForPressure` on all four branches |
| `ViewerModels.ViewerModel.LoadAll` | crates/dustnet-client/src/viewer.rs:1684-1728 | the loop issues one request per module, as `LoadModules` does |
| `ViewerModels.ViewerModel.Reduce` | crates/dustnet-client/src/viewer.rs:1264-1950 | for every event the in-place state and the effects are exactly those of `Step` |
| `ViewerHistory.CommitIsBounded` | crates/dustnet-client/src/viewer.rs:1458-1547 | a commit from any history of at most 128 entries ends with 1 to 128 entries of at most 16 MiB, the new one current, ids conserved as kept plus removed, and at most 128 removals and releases |
| `ViewerHistory.EvictConserves` | crates/dustnet-client/src/viewer.rs:1519-1536 | eviction neither invents nor loses an id: kept plus removed is constant |
| `ViewerHistory.EvictIsLazy` | crates/dustnet-client/src/viewer.rs:1519-1536 | the history before the last removal did not fit |
| `ViewerCommits.EvictIs` | crates/dustnet-client/src/viewer.rs:1519-1536 | eviction removes the oldest other entries first, in order, and no more of them than the bounds need; the current entry stays |
| `ViewerCommits.AppendKeeps` | crates/dustnet-client/src/viewer.rs:1483-1512 | an appended page follows a suffix of the entries up to the old position; everything before that suffix and everything after the position is removed |
| `ViewerCommits.ForwardEntriesGo` | crates/dustnet-client/src/viewer.rs:1483-1491 | every entry after the position is removed by an appending commit and none of them is kept |
| `ViewerCommits.ReplaceKeeps` | crates/dustnet-client/src/viewer.rs:1464-1482 | a replacing commit keeps the history with the one entry exchanged, less the oldest others the bounds need gone |
| `ViewerCommits.StrayReplacementAppends` | crates/dustnet-client/src/viewer.rs:1464-1491 | a replacement whose entry is no longer the current one is an append |
| `ViewerMoves.BackShows` | crates/dustnet-client/src/viewer.rs:1295-1303 | Back asks for exactly the entry before the position, under a new generation of that entry's origin, with the old page's work retired first; without such an entry nothing changes |
| `ViewerMoves.ForwardShows` | crates/dustnet-client/src/viewer.rs:1304-1310 | Forward asks for exactly the entry after the position, or changes nothing |
| `ViewerMoves.RestoreShows` | crates/dustnet-client/src/viewer.rs:1311-1316 | restoring asks for exactly the entry at the position, or changes nothing |
| `ViewerMoves.JumpShows` | crates/dustnet-client/src/viewer.rs:1121-1133 | a jump asks for exactly the entry it names, unless it is current or does not exist |
| `ViewerMoves.MoveLands` | crates/dustnet-client/src/viewer.rs:1749-1762 | in every disciplined run a move and the first owned layout of its page make that very entry current, whatever happens in between that leaves it pending |
| `ViewerMoves.BackLands` | crates/dustnet-client/src/viewer.rs:1295-1303 | in every disciplined run Back and its layout land one entry further back |
| `ViewerMoves.ForwardLands` | crates/dustnet-client/src/viewer.rs:1304-1310 | in every disciplined run Forward and its layout land one entry further on |
| `ViewerMoves.BackThenForward` | crates/dustnet-client/src/viewer.rs:1295-1310 | Back, its layout, Forward and its layout bring back the position and leave every entry in place |
| `ViewerLifecycles.LoadStarts` | crates/dustnet-client/src/viewer.rs:984-1073 | a load starts a fresh page under a new generation and one new request, retires the old page's work, closes the transport exactly when the origin changes, then connects and fetches |
| `ViewerLifecycles.FormIsSubmitted` | crates/dustnet-client/src/viewer.rs:1318-1341 | a form is a load whose last effect submits instead of fetching, under the same request |
| `ViewerLifecycles.PageLoads` | crates/dustnet-client/src/viewer.rs:1342-1366 | connection, response, parse, layout and activation ask for one another in this order and end ready, with the request ended |
| `ViewerLifecycles.PageFails` | crates/dustnet-client/src/viewer.rs:1075-1117 | a failure of fetch, parse or layout while no move is pending drops the page's work, keeps history and location, and shows the error page |
| `ViewerLifecycles.PageCommits` | crates/dustnet-client/src/viewer.rs:1367-1548 | admission and commit put the document into history as current entry under one id, the replaced entry's own or a new one, and install it last |
| `ViewerLifecycles.UnpreparedIsInert` | crates/dustnet-client/src/viewer.rs:984-1073 | when its effects cannot be prepared a load, a move or new work changes nothing |
| `ViewerLifecycles.SubscriptionLives` | crates/dustnet-client/src/viewer.rs:1774-1840 | updates of a region are applied from the completion of its subscription to its retirement, and at no other time |
| `ViewerLifecycles.SubscribesIff` | crates/dustnet-client/src/viewer.rs:1790-1809 | a subscription is asked for if and only if the page is connected and both tables have a free slot |
| `ViewerLifecycles.SubscriptionFails` | crates/dustnet-client/src/viewer.rs:1784-1789 | a failed subscription gives back its slot and its request and nothing else |
| `ViewerLifecycles.RetirementSparesOthers` | crates/dustnet-client/src/viewer.rs:1828-1834 | retiring the subscriptions of a page ends exactly the requests that wait for one |
| `ViewerLifecycles.ModuleRuns` | crates/dustnet-client/src/viewer.rs:1763-1773 | a module is loaded, activated and rendered under one request, which ends with it |
| `ViewerLifecycles.ModulesLoadInOrder` | crates/dustnet-client/src/viewer.rs:1708-1728 | the modules of a page are asked for in order under consecutive requests, one each, and exactly those requests are taken |
| `ViewerLifecycles.DeferralEnds` | crates/dustnet-client/src/viewer.rs:1810-1827 | a deferred navigation is resumed or dropped, and its request ends either way |
| `ViewerLifecycles.TicksIff` | crates/dustnet-client/src/viewer.rs:1903-1918 | a tick is asked for on a ready page under a request, on the start page without one, and otherwise not |
| `ViewerLifecycles.TransportReturns` | crates/dustnet-client/src/viewer.rs:1919-1939 | a lost transport is dialled again once, under its own request; its outcome changes the connection and leaves the page as it was |
| `ViewerLifecycles.ResizeProjects` | crates/dustnet-client/src/viewer.rs:1852-1888 | a resize projects the page at the new size and its layout is activated |
| `ViewerLifecycles.ResizeSupersedes` | crates/dustnet-client/src/viewer.rs:1852-1888 | a second resize makes the projection of the first one stale |
| `ViewerLifecycles.PressureRecovers` | crates/dustnet-client/src/viewer.rs:1567-1604 | work lost to pressure is stored, and asked for again once a resource is evicted; otherwise history is evicted next |
| `ViewerLifecycles.LostEffectIsRepeated` | crates/dustnet-client/src/viewer.rs:1567-1604 | an effect that ran out of memory is asked for again, the very same, if and only if it is work of the current page that no newer resize superseded |
| `ViewerLifecycles.StaleWorkIsNotStored` | crates/dustnet-client/src/viewer.rs:1567-1592 | work of another page or of a superseded projection is not stored |
| `ViewerLifecycles.EvictionSparesShown` | crates/dustnet-client/src/viewer.rs:1605-1660 | pressure releases the oldest entry that is neither current nor being shown; the current entry stays current and the stored work is asked for again |
| `ViewerLifecycles.NothingToEvict` | crates/dustnet-client/src/viewer.rs:1632-1679 | with nothing to evict, stored page work fails its page, and otherwise the error page is shown without any work left |
| `ViewerLifecycles.WorkEnds` | crates/dustnet-client/src/viewer.rs:1554-1566 | the error page and the shutdown leave no request, subscription or reconnection, so no completion is owned |
| `ViewerOwnership.StepAges` | crates/dustnet-client/src/viewer.rs:1264-1950 | every event makes only newly issued ids outstanding, and a change of page leaves no older id outstanding |
| `ViewerOwnership.IssuedOnce` | crates/dustnet-client/src/viewer.rs:930-934 | over every run no request id is issued twice |
| `ViewerOwnership.NeverRevived` | crates/dustnet-client/src/viewer.rs:936-942 | over every run an owner that stopped being owned is never owned again, even when a failed activation restores an older scope |
| `ViewerOwnership.StaleCompletionsAreInert` | crates/dustnet-client/src/viewer.rs:1342-1366 | a completion guarded by such an owner changes nothing and emits nothing at any later time |
| `ViewerLedger.LedgerMirrorsHistory` | crates/dustnet-client/src/viewer.rs:1395-1548 | in every disciplined run the fold of all release and install effects is defined and equals the ids in history, which are distinct |
| `ViewerLedger.CommitReleasesFirst` | crates/dustnet-client/src/viewer.rs:1537-1548 | a commit emits distinct releases and then its one install |
| `ViewerLedger.InitialIsKept` | crates/dustnet-client/src/viewer.rs:876-900 | a new viewer satisfies the invariant the ledger needs |
| `ViewerRollback.RollbackIsExact` | crates/dustnet-client/src/viewer.rs:1084-1102 | Back, Forward, jump or restore, any events that leave it pending, then an owned failure: history less evicted entries, position, scope, location, phase and connection are those before |
| `ViewerPressure.PositionStaysInRange` | crates/dustnet-client/src/viewer.rs:1605-1631 | in every disciplined run whose evictions spare the remembered positions, the position and everything a rollback refers to stay in range |
| `ViewerPressure.EvictionKeepsRollbackIff` | crates/dustnet-client/src/viewer.rs:1620-1626 | in every disciplined run, eviction under a pending activation keeps the rollback exact if and only if the evicted entry lies above target and previous position, and the page's layout makes the entry shown current if and only if it lies above the target |
| `ViewerPressure.InitialIsInRange` | crates/dustnet-client/src/viewer.rs:876-900 | a new viewer satisfies the range and generation invariants |
| `ViewerGenerations.RunGenerations` | crates/dustnet-client/src/viewer.rs:1038-1054 | over every run no scope shown, stored in history or remembered is newer than the last generation issued |
| `ViewerRuns.EvictionLeavesPositionDangling` | crates/dustnet-client/src/viewer.rs:1620-1626 | a disciplined run from a new viewer: three loads, a jump, an eviction and a failure leave the position past the history |
| `ViewerRuns.EvictionShowsWrongEntry` | crates/dustnet-client/src/viewer.rs:1749-1762 | a disciplined run from a new viewer: after jump, eviction and layout the current entry is not the page shown |
| `ViewerRuns.ReachStep` | crates/dustnet-client/src/viewer.rs:1264-1950 | one more answered event leads from a reached state to a reached state |
| `ViewerPressure.AnyLayoutCommits` | crates/dustnet-client/src/viewer.rs:1749-1762 | in every disciplined run the first owned layout of the page being shown ends the activation with its target as position, whichever request it answers; the activation's own request stays owned exactly when it was and the layout was another's, and its failure is then the error page |
| `ViewerPressure.ResizeDefeatsRollback` | crates/dustnet-client/src/viewer.rs:1749-1762 | for every activation: a resize presented meanwhile commits it, and its own failure is no longer rolled back |
| `ViewerPressure.RetryStaysCurrentIff` | crates/dustnet-client/src/viewer.rs:1038-1054 | a stored retry still belongs to the page showing after a step if and only if the step does not move to another page beside it |
| `ViewerPressure.RetryFollowsPage` | crates/dustnet-client/src/viewer.rs:1567-1604 | in every run without such a move a stored retry belongs to the page showing |
| `ViewerRuns.RetiredRetryIsEmitted` | crates/dustnet-client/src/viewer.rs:1211-1230 | a disciplined run from a new viewer: after a step back the parse of the retired page is asked for again |
| `ViewerDiscipline.TablesStayConsistent` | crates/dustnet-client/src/viewer.rs:1774-1833 | in every disciplined run active and pending subscriptions together never exceed 16, pending ids are distinct and outstanding, and none is a page request |
| `ViewerDiscipline.AssertedInsertsSucceed` | crates/dustnet-client/src/viewer.rs:1774-1809 | in such states the inserts the source asserts find a free slot |
| `ViewerDiscipline.AnsweringIsDisciplined` | crates/dustnet-client/src/viewer.rs:1367-1435 | answering emitted effects implies the discipline the ledger theorem asks for |
| `ViewerDiscipline.InitialTabled` | crates/dustnet-client/src/viewer.rs:876-900 | a new viewer satisfies the table invariant |
| `Governor.ReserveIsExact` | crates/dustnet-client/src/resource.rs:132-194 | a reservation is refused if and only if a limit over the live leases would be exceeded, and admitting it keeps every total exact |
| `Governor.ResizeIsExact` | crates/dustnet-client/src/resource.rs:248-296 | a resize is refused if and only if the other leases leave too little room, and admitting it keeps every total exact |
| `Governor.RefusalReports` | crates/dustnet-client/src/resource.rs:132-194 | which of the four limits a refused reservation reports, and that the amount it calls available is what the live leases leave |
| `Governor.ResizeReports` | crates/dustnet-client/src/resource.rs:248-296 | a refused resize reports what the other leases leave |
| `Governor.FirstOwnerIsAdmittedIff` | crates/dustnet-client/src/resource.rs:132-194 | what an unused governor admits in each of the eleven categories |
| `Governor.ShrinkIsAdmitted` | crates/dustnet-client/src/resource.rs:322-333 | shrinking a live lease is never refused |
| `Governor.UsageIsConserved` | crates/dustnet-client/src/resource.rs:132-348 | in every run of reservations, resizes and drops the units, counts and bytes are the sums over live leases and within every limit |
| `Governor.DrainedIsZero` | crates/dustnet-client/src/resource.rs:336-348 | once every lease is dropped nothing is charged |
| `Governor.DropUndoesReserve` | crates/dustnet-client/src/resource.rs:336-348 | dropping what was just reserved restores every total |
| `Governor.ResourceGovernor.ReserveWithCost` | crates/dustnet-client/src/resource.rs:132-194 | the refusal reported is the first limit exceeded and changes nothing; otherwise one live lease is added and the totals stay balanced |
| `Governor.BudgetLease.TryResizeWithCost` | crates/dustnet-client/src/resource.rs:248-296 | a refusal changes neither lease nor governor; otherwise exactly this lease changes |
| `Governor.BudgetLease.TryGrow` | crates/dustnet-client/src/resource.rs:300-309 | an exact reservation grows or stays as it was |
| `Governor.BudgetLease.ShrinkTo` | crates/dustnet-client/src/resource.rs:322-333 | an exact reservation becomes the smaller of the two amounts, without refusal |
| `Governor.BudgetLease.Release` | crates/dustnet-client/src/resource.rs:336-348 | exactly this lease leaves the ledger and the totals stay balanced |
| `GovernedSessions.GovernedSessionStore.ApplySet` | crates/dustnet-client/src/session_store.rs:137-185 | a refused Set leaves store, lease and totals unchanged; accepted if and only if the budget has room, the copies succeed and the store takes the token; the lease then equals the retained bytes |
| `GovernedSessions.GovernedSessionStore.ReconcileAfterShrink` | crates/dustnet-client/src/session_store.rs:199-212 | after a removal the lease equals the retained bytes, or is gone when nothing is retained |
| `GovernedSessions.GovernedSessionStore.ApplyClear` | crates/dustnet-client/src/session_store.rs:142-152 | a Clear always applies and the lease shrinks to the retained bytes |
| `GovernedSessions.GovernedSessionStore.ClearAll` | crates/dustnet-client/src/session_store.rs:193-197 | an emptied store holds no lease |
| `GovernedSessions.SessionsAreCharged` | crates/dustnet-client/src/session_store.rs:199-212 | the category and byte totals are the retained bytes plus what every other owner holds |
| `Sessions.ScopeMatchesIsPathMatch` | crates/dustnet-core/src/session.rs:307-315 | the rule is path-match of section 5.1.4 of RFC 6265, except for the root scope on a path that is not absolute |
| `Sessions.ScopesEndOnSegments` | crates/dustnet-core/src/session.rs:307-315 | a matching scope is the whole path or ends at a segment boundary |
| `Sessions.MatchesOfOneLength` | crates/dustnet-core/src/session.rs:211-222 | two different scopes of one length match one path if and only if one is the root and the other is its single first character |
| `Sessions.FindInSite` | crates/dustnet-core/src/session.rs:211-222 | the answer is an unexpired match of the greatest length, or there is none |
| `Sessions.MostSpecificIsUnique` | crates/dustnet-core/src/session.rs:211-222 | for every path, every other unexpired match of a site with absolute scopes is strictly shorter |
| `Sessions.LookupIgnoresOrder` | crates/dustnet-core/src/session.rs:211-222 | for every path the answer depends on the set of tokens of a site with absolute scopes and not on their order |
| `Sessions.ScopesStayAbsolute` | crates/dustnet-core/src/session.rs:343-416 | a store fed with absolute scopes holds absolute scopes only, over every run |
| `SessionDirectives.ParsedScopeIsAbsolute` | crates/dustnet-core/src/session.rs:109-136 | every directive the parser accepts has an absolute scope |
| `Sessions.StoreStaysBounded` | crates/dustnet-core/src/session.rs:343-416 | every run of directives and clears keeps distinct origins, no empty bucket, distinct scopes, at most 8 per site and 256 in all |
| `Sessions.SetIsLocal` | crates/dustnet-core/src/session.rs:229-249 | after a Set exactly the new token is added, the one of its scope replaced, and the oldest of a full site pushed out |
| `Sessions.RefusesIff` | crates/dustnet-core/src/session.rs:343-365 | a token is refused if and only if the store holds 256, none of its origin and scope, and its origin holds fewer than eight |
| `Sessions.LastEightStay` | crates/dustnet-core/src/session.rs:229-249 | tokens of new scopes are kept in the order they are set, the last eight of them |
| `Sessions.KnownScopeIsReplaced` | crates/dustnet-core/src/session.rs:229-240 | a token of a known scope takes that scope's place |
| `Sessions.ClearIsLocal` | crates/dustnet-core/src/session.rs:387-399 | after a Clear exactly the tokens of that origin and scope are gone |
| `Sessions.RetainHolds` | crates/dustnet-core/src/session.rs:403-412 | clearing by key removes exactly the selected buckets |
| `Sessions.SessionStore.ApplyDirective` | crates/dustnet-core/src/session.rs:343-400 | refused if and only if an allocation fails or the store is full and nothing makes way, and a refusal changes nothing |
| `SessionDirectives.DecimalLen` | crates/dustnet-core/src/session.rs:187-194 | the loop computes the length of the printed number |
| `SessionDirectives.DecimalRoundTrip` | crates/dustnet-core/src/session.rs:109-116 | parsing the printed form of every `u64` gives it back |
| `SessionDirectives.Serialize` | crates/dustnet-core/src/session.rs:62-106 | the emitted line, or the refusal; the reserved size is exactly the emitted length in bytes |
| `SessionDirectives.SetRoundTrip` | crates/dustnet-core/src/session.rs:109-126 | a printed Set is read back if and only if neither token nor scope holds a space |
| `SessionDirectives.ClearRoundTrip` | crates/dustnet-core/src/session.rs:128-136 | a printed Clear is read back if and only if its scope has no trailing white space |
| `SessionDirectives.BareTokenIsWholeSite` | crates/dustnet-core/src/session.rs:109-126 | a token alone is read as a token of the root scope without expiry |
| `SessionDirectives.FieldsAreRead` | crates/dustnet-core/src/session.rs:109-126 | token, scope and expiry are the fields between single spaces; an expiry that is no number is none |
| `SessionDirectives.ParseIsNumber` | crates/dustnet-core/src/session.rs:109-116 | an expiry is read if and only if it is a number below 2^64 in decimal digits after at most one plus sign |
| `SessionDirectives.ClearIsTrimmed` | crates/dustnet-core/src/session.rs:128-136 | blanks around the scope of a Clear are not part of it |
| `SessionDirectives.ValidScopeIff` | crates/dustnet-core/src/session.rs:296-305 | a scope is valid if and only if it is absolute, at most 1024 bytes, without control character, query, fragment or dot segment |
| `SessionDirectives.SpacedScopeIsMisread` | crates/dustnet-core/src/session.rs:296-305 | every valid scope with a space comes back cut at the space |
| `SessionDirectives.WireNamesAreProper` | crates/dustnet-core/src/protocol/message.rs:111-138 | the wire's two field names are among those the block round trip is proved for |
| `SessionDirectives.BlockRoundTrip` | crates/dustnet-core/src/protocol/message.rs:703-803 | every list of directives without separators or controls survives printing into and parsing from a metadata block, in order |
| `PendingRing.PendingUpdates.PushBack` | crates/dustnet-client/src/client.rs:178-203 | appends to the abstract queue, refused exactly when 64 updates or 8 MiB would be exceeded |
| `PendingRing.PendingUpdates.PopFront` | crates/dustnet-client/src/client.rs:205-219 | removes the head of the abstract queue; occupied slots stay exactly those from `head` on, wrapping |
| `PendingRing.PendingUpdates.RetireScope` | crates/dustnet-client/src/client.rs:221-234 | the rotation computes the order-preserving filter and no update put back is refused |
| `PendingRing.RetainIsExact` | crates/dustnet-client/src/client.rs:221-234 | the filter leaves nothing of the page and every other page's updates, in order |
| `PendingRing.RetainShrinks` | crates/dustnet-client/src/client.rs:221-234 | the filter never grows the queue in updates or bytes |
| `ResourceCaches.ResourceCache.Get` | crates/dustnet-client/src/client.rs:840-848 | a hit moves to the most recent place and everything else keeps its order |
| `ResourceCaches.ResourceCache.MakeRoom` | crates/dustnet-client/src/client.rs:879-914 | evicts the least number of oldest other entries that makes the resource fit; the error exit is unreachable |
| `ResourceCaches.ResourceCache.Reserve` | crates/dustnet-client/src/client.rs:920-948 | for any sequence of admissions the loop ends, and fails only when no other entry is left |
| `ResourceCaches.ResourceCache.Insert` | crates/dustnet-client/src/client.rs:850-965 | survivors are the old order less oldest entries of other keys, with the new key last; a failure keeps the entry of the same key; bounds hold throughout |
| `ResourceCaches.SurvivorsAreASuffix` | crates/dustnet-client/src/client.rs:879-948 | what survives is a suffix of the old order plus at most the entry being replaced |
| `ResourceCaches.DropKeepsKey` | crates/dustnet-client/src/client.rs:879-948 | eviction keeps keys distinct and never touches the entry being replaced |
| `ResourceCaches.InsertKeepsBounds` | crates/dustnet-client/src/client.rs:949-965 | a fitting insert leaves at most 32 entries and 8 MiB with distinct keys |
| `ResourceCaches.AloneFits` | crates/dustnet-client/src/client.rs:894-914 | with no other entry left an admissible resource always fits |
| `ResourceCaches.FitsIff` | crates/dustnet-client/src/client.rs:894-914 | a resource fits if and only if 32 entries and 8 MiB are kept with it in place of its key's entry |
| `ClientScopes.StepKeepsOwnership` | crates/dustnet-client/src/client.rs:1260-1318 | a step keeps all subscriptions and queued updates with the current page, regions distinct, if and only if it is not a retirement of the subscribed current page whose UNSUBSCRIBE times out |
| `ClientScopes.WorkBelongsToPage` | crates/dustnet-client/src/client.rs:1260-1318 | in every run without such a step all work carries the current scope and at most 16 subscriptions are active |
| `ClientScopes.PollStep` | crates/dustnet-client/src/client.rs:1963-2018 | every update a poll returns belongs to the current page |
| `ClientScopes.RetireIsExact` | crates/dustnet-client/src/client.rs:1285-1318 | of any client: the retired page has no work left if and only if the retirement does not leak, and another page's work is kept if and only if the tables are not cleared while it has some |
| `ClientScopes.RetireSparesOthers` | crates/dustnet-client/src/client.rs:1279-1284 | when all work is the current page's, a retirement touches no other page's |
| `ClientScopes.ActivationRepairs` | crates/dustnet-client/src/client.rs:1260-1278 | from any state, loading another page restores the ownership invariant |
| `ClientScopes.TimedOutRetirementLeaks` | crates/dustnet-client/src/client.rs:1834-1851 | a run from the start: load, subscribe, retire with a timeout; the subscription stays and a poll returns its update |
| `ClientScopes.NavigationIsCurrentIff` | crates/dustnet-client/src/client.rs:1508-1525 | loading a page makes it current if and only if the client is not bound to another origin that activation left alone |
| `ClientScopes.RetireThenLeaveOrigin` | crates/dustnet-client/src/client.rs:1404-1418 | a concrete run that reaches such a client |
| `ClientDelivery.ReceivedIsQueued` | crates/dustnet-client/src/client.rs:2067-2104 | an admitted update of a subscribed region is queued last under its subscription's owner if and only if the connection is up and 64 updates and 8 MiB are kept |
| `ClientDelivery.StrangerIsNotQueued` | crates/dustnet-client/src/client.rs:2090-2098 | an update of a region without subscription is never queued |
| `ClientDelivery.PollsDeliver` | crates/dustnet-client/src/client.rs:1963-1971 | polls return the queued updates of the current page in the order they came, one each, whatever is on the wire, and drop those of other pages |
| `ClientDelivery.EmptyPollReads` | crates/dustnet-client/src/client.rs:1972-2018 | with nothing queued a poll returns an admitted update of a subscribed region, and the end of the stream disconnects |
| `ClientDelivery.SubscribeAdds` | crates/dustnet-client/src/client.rs:1750-1830 | a subscription is added if and only if it is allowed, admitted and sent, and the others stay |
| `ClientDelivery.SubscribedUpdateArrives` | crates/dustnet-client/src/client.rs:1750-1830 | subscribe, receive during another request, poll: the update is returned under the subscription's owner |
| `ClientDelivery.AlwaysBound` | crates/dustnet-client/src/client.rs:1508-1525 | over every run a client with a page and an origin is bound to the page's own origin |
| `ClientDelivery.NavigateConnects` | crates/dustnet-client/src/client.rs:1508-1560 | loading a page leaves no earlier work, reuses a connection to the same origin as it is, and otherwise connects to the page's origin or is left disconnected |
| `ClientDelivery.ReconnectIs` | crates/dustnet-client/src/client.rs:1247-1259 | reconnecting keeps the subscriptions, drops the queue, and refuses another origin before anything changes |
| `ClientDelivery.FetchConnects` | crates/dustnet-client/src/client.rs:1875-1900 | a resource is fetched over the page's connection or a new one to the same origin, and the page's subscriptions stay |
| `ClientScopes.AtpClient.RetirePageWork` | crates/dustnet-client/src/client.rs:1285-1318 | the in-place tables equal `RetireWork` for every send outcome |
| `ClientScopes.AtpClient.ActivatePageScope` | crates/dustnet-client/src/client.rs:1260-1278 | the in-place tables equal `ActivateScope`, cleared whatever the send outcome |
| `ClientScopes.AtpClient.PollUpdate` | crates/dustnet-client/src/client.rs:1963-2018 | the in-place poll equals `PollOnce`, stale updates skipped |
| `ClientScopes.AtpClient.SubscribeTo` | crates/dustnet-client/src/client.rs:1750-1830 | stored exactly when the owner is current, the region new, a slot free and the send succeeds; an identical repeat succeeds without change |
| `LiveWake.StepKeepsInv` | crates/dustnet-server/src/live_watch.rs:555-607 | every atomic step of registry and connections keeps the wake invariant |
| `LiveWake.NoLostWake` | crates/dustnet-server/src/lib.rs:1157-1197 | in every interleaving an installed subscription is up to date, or a wake is queued, or a publish still owes it a signal, or a running flush will still visit it or is sending the latest generation |
| `LiveWake.QuietMeansCurrent` | crates/dustnet-server/src/lib.rs:731-733 | when registry and connection have nothing left to do the connection holds the latest generation of every subscription |
| `LiveProgress.PublishIsNew` | crates/dustnet-server/src/live_watch.rs:741-760 | from every reachable state a publish makes a generation nobody holds the latest and owes a signal to exactly the open wakes of the path, every subscriber among them; no connection and no other path changes |
| `LiveProgress.SignalsWake` | crates/dustnet-server/src/live_watch.rs:756-760 | the signals of a publish wake the connections it owes one, in order, and nobody else |
| `LiveProgress.PublishWakes` | crates/dustnet-server/src/live_watch.rs:752-760 | from every reachable state, after the owed signals every connection subscribed to the path has a wake and the registry is idle |
| `LiveProgress.PublishReaches` | crates/dustnet-server/src/lib.rs:1157-1197 | from every reachable state, once a subscribed connection has flushed with every send done each of its subscriptions holds the latest generation: the published one for the path, the unchanged one for every other |
| `LiveProgress.FlushCatchesUp` | crates/dustnet-server/src/lib.rs:1157-1197 | a flush brings every subscription of its connection to the latest generation, clears the wake and touches nothing else |
| `LiveProgress.DueVisitSends` | crates/dustnet-server/src/lib.rs:1163-1195 | a subscription that is behind is sent the latest generation and its baseline moves when the send is done and not before; a text too long to send is passed over |
| `LiveProgress.PhasesFollow` | crates/dustnet-server/src/lib.rs:731-760 | in every step a connection moves along its protocol: a baseline changes only in a flush, a flush begins only with a wake, a wake comes only from a signal owed to the connection |
| `LiveProgress.AttachSubscribes` | crates/dustnet-server/src/live_watch.rs:555-607 | a subscription starts at the path's latest generation, registers its wake, and installs a path once |
| `LiveProgress.AttachRefused` | crates/dustnet-server/src/lib.rs:674-689 | a subscription beyond sixteen, or one that is not admitted, ends its connection and changes nothing else |
| `LiveProgress.ReapIff` | crates/dustnet-server/src/live_watch.rs:519-538 | a path is let go if and only if the registry is idle and no connection receives it |
| `LiveProgress.LastToLeave` | crates/dustnet-server/src/live_watch.rs:519-538 | once its last subscriber has unsubscribed or ended the path is let go, and not while another one receives it |
| `LiveWake.AttachWakesItselfIff` | crates/dustnet-server/src/live_watch.rs:588-607 | an attach that publishes leaves a new wake for its own connection if and only if that connection was already registered for the path |
| `LiveWake.ReattachWakesItself` | crates/dustnet-server/src/live_watch.rs:588-607 | a run from the start in which a second attach leaves a wake for the generation it returns |
| `LiveDelta.SyncedIffNotSkipped` | crates/dustnet-server/src/lib.rs:1157-1197 | from ends that agree, a due generation keeps them in agreement if and only if its update is not too large to send |
| `LiveDelta.SyncedAfterFlushIff` | crates/dustnet-server/src/lib.rs:1157-1197 | from any ends: after a full text they agree, after a suffix if and only if they agreed before, after a skip only when the receiver already held the text |
| `LiveDelta.DeltaRefinesReplace` | crates/dustnet-server/src/lib.rs:1157-1197 | for every sequence of generations with none passed over the receiver holds exactly the last text sent, as in replace mode |
| `LiveDelta.DeltasNeverResync` | crates/dustnet-server/src/lib.rs:245-253 | once the ends disagree no number of suffixes brings them together |
| `LiveDelta.SkippedGenerationCorrupts` | crates/dustnet-server/src/lib.rs:1182-1190 | for every region name of at least two bytes two publishable texts leave the receiver with a suffix alone |
| `LiveDelta.ShortRegionIsSafe` | crates/dustnet-server/src/lib.rs:1182-1190 | with a region name of one byte no publishable text extends one that was passed over |
| `LiveDelta.FlushSubscriptions` | crates/dustnet-server/src/lib.rs:1157-1197 | the loop advances baselines in order and stops before the one whose send fails; exactly the due updates are sent |
| `LiveDelta.FittingTextIsSent` | crates/dustnet-server/src/lib.rs:1163-1195 | a due generation whose text fits an update of 1 MiB is sent, as a suffix exactly when it extends the baseline in delta mode, and a receiver in step then holds it |
| `LiveReconcile.StampMeansContent` | crates/dustnet-server/src/live_watch.rs:687-761 | with writes anywhere between stat and read, an entry stamped with the current stamp has published the current content, or the file is too large |
| `LiveReconcile.SweepConverges` | crates/dustnet-server/src/live_watch.rs:671-761 | after the last write one sweep whose read is admitted publishes the final content, from any reachable state |
| `LiveReconcile.RefusedReadIsRetried` | crates/dustnet-server/src/live_watch.rs:723-729 | a refused read leaves the entry so that the next sweep reads again |
| `LiveReconcile.LargeFileIsRemembered` | crates/dustnet-server/src/live_watch.rs:699-712 | a file too large to publish is remembered by its stamp and what was published stays |
| `LiveReconcile.SharedStampHidesWrite` | crates/dustnet-server/src/live_watch.rs:89-117 | two versions with one stamp hide a write, so distinct stamps are needed |
| `LiveReconcile.WatchedFile.Compare` | crates/dustnet-server/src/live_watch.rs:687-712 | a read follows exactly when the file is new and not too large; a large one is only remembered |
| `LiveReconcile.WatchedFile.Store` | crates/dustnet-server/src/live_watch.rs:741-755 | the stamp seen before the read is stored and an equal text is not published |
| `LiveReconcile.WatchedFile.RefreshIfChanged` | crates/dustnet-server/src/live_watch.rs:687-761 | with any writes between stat and read the entry becomes what the interleaved steps make of it |
| `LiveBudget.ChargedOnce` | crates/dustnet-server/src/lib.rs:88-190 | in every run the bytes used are one lease per path, per subscription and per distinct held generation plus the read in progress, and never exceed the limit |
| `LiveBudget.JoinCostsMetadataOnly` | crates/dustnet-server/src/lib.rs:1091-1139 | joining a watched path charges its metadata and no content |
| `LiveBudget.DrainedIsZero` | crates/dustnet-server/src/live_watch.rs:519-538 | once all subscribers are gone, reaping returns every byte |
| `LiveCharges.PublishCharges` | crates/dustnet-server/src/live_watch.rs:714-755 | a publish changes the bytes used by the text's size, less the read's lease, less the previous generation's lease exactly when nobody else holds it; the text stays charged by its size |
| `LiveCharges.ReadThenPublish` | crates/dustnet-server/src/live_watch.rs:714-755 | a read charges its peak and, once published, the text alone |
| `LiveCharges.ReadsRefusedIff` | crates/dustnet-server/src/live_watch.rs:714-735 | a read is refused if and only if its peak exceeds the limit, and one that is given up returns its lease |
| `LiveCharges.InstallCharges` | crates/dustnet-server/src/live_watch.rs:610-668 | watching a path charges its entry and an empty generation of its own, or is refused without change |
| `LiveCharges.FlushReturns` | crates/dustnet-server/src/lib.rs:1157-1197 | a flush returns the previous generation's lease if and only if nobody else holds it |
| `LiveCharges.LeaveReturns` | crates/dustnet-server/src/lib.rs:181-190 | a leaving subscription returns its metadata, and its generation's lease if it was the last holder |
| `LiveCharges.ReapReturns` | crates/dustnet-server/src/live_watch.rs:519-538 | a path nobody receives returns its entry's lease, and its generation's if it was the last holder |
| `LiveCharges.ChargedBySize` | crates/dustnet-server/src/live_watch.rs:714-755 | over every run the lease of each held generation, path and subscription is exactly the size it was published, installed or joined with |
| `LiveCharges.HeldContentIsCharged` | crates/dustnet-server/src/lib.rs:88-190 | so after every run what a path or a subscription holds is charged by its real size, and the limit bounds the sum |
| `LiveBudget.FreeIsSound` | crates/dustnet-server/src/lib.rs:82-86 | the empty books satisfy the invariant |
| `LiveBudget.SubscriptionBudget.Reserve` | crates/dustnet-server/src/lib.rs:88-115 | refused if and only if the live leases and the request exceed the limit; a refusal changes nothing |
| `LiveBudget.SubscriptionLease.TryResize` | crates/dustnet-server/src/lib.rs:144-160 | resized if and only if the other leases leave room |
| `LiveBudget.SubscriptionLease.ShrinkTo` | crates/dustnet-server/src/lib.rs:169-178 | shrinking releases exactly the difference |
| `LiveDirectories.CountsAddUp` | crates/dustnet-server/src/live_watch.rs:266-292 | until its last file goes a directory's count is the number of counted installs |
| `LiveDirectories.DirectoryReleasedIff` | crates/dustnet-server/src/live_watch.rs:519-538 | when the last file goes the watch ends if and only if at most one install was counted since the first |
| `LiveDirectories.TwoFilesLeaveTheirDirectory` | crates/dustnet-server/src/live_watch.rs:519-538 | a concrete run that leaves a directory watched with no file |
| `LiveDirectories.NeededIsWatched` | crates/dustnet-server/src/live_watch.rs:646-655 | while watches can be started a directory with a watched file is watched |
| `LiveDirectories.NotifyChangeSource.UnwatchDir` | crates/dustnet-server/src/live_watch.rs:294-305 | the count goes down by one and the directory is forgotten at zero |
| `LiveDirectories.WatchRegistry.Reap` | crates/dustnet-server/src/live_watch.rs:519-538 | reaping in any order is removing the files one after the other |
| `Aml.BadIff` | crates/dustnet-core/src/serialize.rs:103-108 | a stream is refused if and only if some tag or attribute name in it is not valid |
| `Aml.BadIsFirst` | crates/dustnet-core/src/serialize.rs:103-108 | the error names the first invalid name of the first token that has one, the tag's before its attributes' |
| `Aml.PushText` | crates/dustnet-core/src/serialize.rs:115-123 | the loop appends the text with both brackets doubled |
| `Aml.PushAttrValue` | crates/dustnet-core/src/serialize.rs:131-141 | the loop appends the value with its four escapes |
| `Aml.ToAml` | crates/dustnet-core/src/serialize.rs:176-212 | the loop writes the whole stream or reports the first invalid name |
| `Aml.NormalizeKeepsText` | crates/dustnet-core/src/serialize.rs:169-176 | normalising a stream does not change what is written |
| `AmlScanner.SanitizedIsPlain` | crates/dustnet-core/src/scanner/escape.rs:52-107 | sanitized text holds no control or deceptive character |
| `AmlScanner.SanitizeTwice` | crates/dustnet-core/src/scanner/escape.rs:52-107 | sanitizing twice is sanitizing once |
| `AmlControls.PiecesAreSeen` | crates/dustnet-core/src/scanner/escape.rs:52-251 | of a page in pieces exactly the plain characters and line ends come through in order: control sequences and control strings go whole, in either form, and nothing beyond their ends |
| `AmlControls.UnendedSequence` | crates/dustnet-core/src/scanner/escape.rs:203-214 | a control sequence that never ends takes the rest of the page |
| `AmlControls.UnendedString` | crates/dustnet-core/src/scanner/escape.rs:228-251 | a control string that never ends takes the rest of the page |
| `AmlSpelling.WrittenStreamScans` | crates/dustnet-core/src/scanner/mod.rs:257-297 | every spelling of a stream scans to its tokens: names in either case, values bare, quoted or absent, blanks wherever they are allowed |
| `AmlSpelling.WrittenPageScans` | crates/dustnet-core/src/scanner/mod.rs:229-270 | so does every page within the scanner's limits |
| `AmlSpelling.LoweredAt` | crates/dustnet-core/src/scanner/mod.rs:449-469 | a letter in upper case means the one in lower case and every other character itself |
| `AmlSpelling.EmitIsCanonical` | crates/dustnet-core/src/serialize.rs:176-212 | the serializer writes one of the spellings: one space before an attribute, every text quoted |
| `AmlRoundTrip.QuotedThen` | crates/dustnet-core/src/scanner/mod.rs:543-646 | a written attribute value is read back whatever characters it holds |
| `AmlRoundTrip.TextThen` | crates/dustnet-core/src/scanner/mod.rs:299-351 | written text is read back whatever characters it holds, up to the next tag |
| `AmlRoundTrip.DecodeUndoesEmit` | crates/dustnet-core/src/serialize.rs:169-212 | a left-to-right reader undoes the serializer on every stream with valid names up to normalisation, and refuses exactly those over a limit |
| `AmlRoundTrip.EmitIsInjective` | crates/dustnet-core/src/serialize.rs:176-212 | two streams are written alike if and only if they normalise alike, whatever their size |
| `AmlRoundTrip.RoundTrip` | crates/dustnet-core/src/serialize.rs:24-34 | the whole scanner gives the normalised stream back if and only if no text or value holds a control or deceptive character and the document is within the limits |
| `AmlRoundTrip.CleanRoundTrip` | crates/dustnet-core/src/serialize.rs:24-34 | a clean stream is read back or, over a limit, refused: never misread |
| `AmlRoundTrip.NormalizeIsClean` | crates/dustnet-core/src/serialize.rs:169-176 | normalising neither adds nor removes a character that is not plain |
| `AmlRoundTrip.RescanIsIdentity` | fuzz/fuzz_targets/fuzz_serialize.rs:54-77 | for every input that scans, writing and scanning again gives the same stream if and only if the written text is within the input limit |
| `AmlRoundTrip.LongTextIsRefused` | crates/dustnet-core/src/scanner/mod.rs:299-325 | a text longer than the scanner admits is written and then refused |
| `AmlRoundTrip.EscapeCharacterSwallowsTag` | crates/dustnet-core/src/scanner/escape.rs:74-76 | an escape character in a text removes the tag written after it: the scan is one text |
| `AmlRoundTrip.IntroducerMakesTag` | crates/dustnet-core/src/scanner/escape.rs:203-214 | for every valid name, a text of the control sequence introducer and the bracketed name scans as that tag |
| `Include.ResolvePage` | crates/dustnet-server/src/include.rs:101-145 | the pass returns the page untouched without the marker, refuses nested includes and invalid names, and otherwise writes the expanded stream |
| `IncludePages.PageIsFilled` | crates/dustnet-server/src/include.rs:110-145 | a page with the marker is served with each include tag replaced by the whole answer of the handler its first `name` names, every other token as authored and in order; refused as nested if and only if an answer holds an include, and for a name if and only if the result has an invalid one |
| `IncludePages.PageHasParts` | crates/dustnet-server/src/include.rs:116-141 | every token stream can be told apart into such parts |
| `IncludePages.OneIncludeIsFilled` | crates/dustnet-server/src/include.rs:116-141 | for one include: the whole answer stands where the tag stood, and nothing does for a tag that is nameless, unclaimed or closing |
| `IncludePages.NamesIff` | crates/dustnet-server/src/include.rs:72-83 | the handler named is the text of the first `name` attribute, if it is not empty |
| `Include.ExpandRemovesIncludes` | crates/dustnet-server/src/include.rs:116-141 | nothing that survives expansion is an include |
| `Include.ResolvedPageDecodes` | crates/dustnet-server/src/include.rs:110-145 | for every resolver, a resolved page scans to the authored stream with each include replaced, include-free, if and only if the expansion is clean and within the limits |
| `Include.PageIsExpandedIff` | crates/dustnet-server/src/include.rs:101-145 | a served page reads as the authored one with every include replaced if and only if it holds the marker and the expansion is clean and within the limits, or it lacks the marker and has no include |
| `Include.IncludeLeft` | crates/dustnet-server/src/include.rs:106-108 | without the marker an include is left exactly when one was authored; after a clean expansion none is |
| `Include.DirtyTextInjectsInclude` | crates/dustnet-server/src/include.rs:116-145 | a concrete handler whose text puts an include back into the page |
| `Include.SpacedIncludeIsMissed` | crates/dustnet-server/src/include.rs:106-108 | a concrete page with an include that is served unresolved |

## Left out

- Sockets, TLS, timers and `select!` plumbing: only the outcomes of sends, dials and reads appear, as inputs.
- Origins, URIs, regions, presentation actions and failure texts of the reducer: opaque values with equality; the reducer's own messages are an enumeration.
- A retained AML document of the reducer and its 16 MiB bound: one character per byte.
- Counters of the reducer beyond 2^64 ids: runs are assumed to stay below, as `CountersFit` says; only `TryInsertSucceedsIffFree` covers wrap-around.
- ViewerModels.ViewerModel.Reduce: the scalar fields of the reducer are grouped into two records, and each fallible copy of one event is one of four allocation outcomes.
- Live-region interleavings: `LiveWake`, `LiveReconcile` and the sharing part of `LiveBudget` are transition systems on values, so the registry's `HashMap` and the channels are not updated in place there.
- LiveReconcile.SweepConverges: one watched path at a time; dirty flags and settle timers only decide when a sweep happens.
- LiveBudget.ChargedOnce: an `Arc` still held by a frame being written counts as held by its subscription.
- Sessions.SessionStore.ApplyDirective: the allocations of one Set succeed or fail together, as one input.
- GovernedSessions.GovernedSessionStore.ApplyClear: that removing entries never raises the measured capacity is a precondition, because capacities belong to the allocator.
- Persistence of sessions to a file and the trust store: file input and output.
- AmlScanner errors: every refusal is `None`; kinds and offsets are not told apart.
- Scanner, parser and compositor state machines as objects: the scanner is a function of the remaining input.
- `std::fmt` output, tracing, user interface, configuration and test-only rejection hooks: they would only add easy members.
- Connection state machine, frame codec and the other message types: not part of this model.
