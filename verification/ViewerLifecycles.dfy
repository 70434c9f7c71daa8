/** Whole operations of the reducer, from the event that starts them to the event that ends them:
which effects they ask for, in which order and with which owner, and the state they leave. */
module ViewerLifecycles {
  import opened Wrappers
  import opened ViewerTypes
  import opened ViewerTables
  import opened ViewerHistory
  import opened ViewerStep
  import opened ViewerOwnership
  import opened ViewerPressure
  import opened ViewerMoves

  /** The owner the next request of a page will have. */
  function NextOwner(s: Viewer, scope: PageScope): Owner {
    Owner(scope, s.nextRequestId)
  }

  /** A page's state once it has taken the next request. */
  function Taken(s: Viewer): Viewer {
    s.(outstanding := s.outstanding + {s.nextRequestId}, nextRequestId := s.nextRequestId + 1)
  }

  lemma RequestIsNext(s: Viewer)
    requires Issued(s) && s.nextRequestId + 1 < U64 && |s.outstanding| < 64
    ensures Request(s) == Some((Taken(s), s.nextRequestId)) && Issued(Taken(s))
  {
    RequestAges(s);
  }

  /** A request that is taken and ended leaves only the counter behind. */
  lemma TakenAndEnded(s: Viewer)
    requires Issued(s)
    ensures DropRequest(Taken(s), s.nextRequestId) == s.(nextRequestId := s.nextRequestId + 1)
  {
    assert s.outstanding + {s.nextRequestId} - {s.nextRequestId} == s.outstanding;
  }

  // ---- loading a page ----

  /** What a page load leaves as it found it. */
  ghost predicate SameHistory(s: Viewer, s': Viewer) {
    s'.history == s.history && s'.position == s.position && s'.nextHistoryId == s.nextHistoryId
  }

  lemma LoadStarts(s: Viewer, uri: Uri, origin: Origin, kind: CommitKind, a: Alloc, out: Out)
    requires Issued(s) && CountersFit(s) && a.prepared && out == BeginNavigation(s, uri, origin, kind, a)
    ensures var o := Owner(PageScope(origin, s.generation + 1), s.nextRequestId);
            && Owns(out.s, o) && out.s.outstanding == {o.id} && out.s.currentUri == Some(uri)
            && out.s.phase == Connecting && out.s.connection == Dialing && out.s.historyCommit == kind
            && IsFreshPage(out.s) && out.s.pendingHistory.None? && out.s.pressureRetry.None? && SameHistory(s, out.s)
            && out.s.viewport == s.viewport && out.s.contentHeight == s.contentHeight
            && out.effects == (if s.scope.Some? then [RetirePageWork(s.scope.value)] else [])
                              + (if s.scope.Some? && s.scope.value.origin != origin then [Close] else [])
                              + [Connect(o), Fetch(o, uri)]
  {
    var scope := PageScope(origin, Succ(s.generation));
    RequestAges(Renewed(s, scope, uri, kind));
    assert {} + {s.nextRequestId} == {s.nextRequestId};
  }

  /** Which load each event starts: a redirect keeps the commit it replaces, a reload replaces the
      current entry, a form submits instead of fetching. */
  lemma LoadsStart(s: Viewer, uri: Uri, origin: Origin, path: string, formData: string, a: Alloc)
    ensures Step(s, Navigate(uri, origin), a) == BeginNavigation(s, uri, origin, Append, a)
    ensures Step(s, InitialNavigation(uri, origin), a) == BeginNavigation(s, uri, origin, Append, a)
    ensures Step(s, Redirect(uri, origin), a) == BeginNavigation(s, uri, origin, s.historyCommit, a)
    ensures s.scope.Some? && s.currentUri.Some? ==>
              Step(s, Reload, a) == BeginNavigation(s, s.currentUri.value, s.scope.value.origin, ReplaceCurrent, a)
    ensures s.scope.None? || s.currentUri.None? ==> Step(s, Reload, a) == Out(s, [])
  {
  }

  lemma FormIsSubmitted(s: Viewer, uri: Uri, origin: Origin, path: string, formData: string, a: Alloc)
    requires Issued(s) && CountersFit(s) && a.prepared
    ensures var load := BeginNavigation(s, uri, origin, Append, a);
            var o := Owner(PageScope(origin, s.generation + 1), s.nextRequestId);
            && load.effects != []
            && Step(s, FormSubmitted(uri, origin, path, formData), a)
               == Out(load.s, load.effects[..|load.effects| - 1] + [Submit(o, uri, path, formData)])
  {
    LoadStarts(s, uri, origin, Append, a, BeginNavigation(s, uri, origin, Append, a));
  }

  /** From a load that is connecting: the connection, the response, the parse, the layout and its
      activation ask for one another in this order and leave the page ready at its location. */
  lemma PageLoads(s0: Viewer, o: Owner, height: nat, a: Alloc,
                  out1: Out, out2: Out, out3: Out, out4: Out, out5: Out)
    requires Owns(s0, o) && s0.pendingHistory.None? && s0.reconnect.None?
    requires out1 == Step(s0, ConnectionMade(o), a)
    requires out2 == Step(out1.s, FetchCompleted(o), a)
    requires out3 == Step(out2.s, ParseCompleted(o), a)
    requires out4 == Step(out3.s, LayoutPrepared(o, height), a)
    requires out5 == Step(out4.s, LayoutActivated(o), a)
    ensures out1.s.connection == Connected && out1.s.phase == Fetching && out1.effects == []
    ensures out2.s.phase == Parsing && out2.effects == [Parse(o)]
    ensures out3.s.phase == Layout && out3.effects == [PrepareLayout(o)]
    ensures out4.effects == [ActivateLayout(o)]
    ensures out5.effects == [RenderTerminal]
    ensures out5.s == s0.(connection := Connected, phase := Ready, contentHeight := height,
                          outstanding := s0.outstanding - {o.id})
  {
    ConnectStage(s0, o, a, out1);
    PageStages(out1.s, o, height, a, out2, out3, out4);
    ReadyStage(out4.s, o, a, out5);
  }

  lemma ConnectStage(s: Viewer, o: Owner, a: Alloc, out: Out)
    requires Owns(s, o) && s.reconnect.None? && out == Step(s, ConnectionMade(o), a)
    ensures out == Out(s.(connection := Connected, phase := Fetching), [])
  {
  }

  lemma PageStages(s: Viewer, o: Owner, height: nat, a: Alloc, out2: Out, out3: Out, out4: Out)
    requires Owns(s, o) && out2 == Step(s, FetchCompleted(o), a) && out3 == Step(out2.s, ParseCompleted(o), a)
    requires out4 == Step(out3.s, LayoutPrepared(o, height), a)
    ensures out2 == Out(s.(phase := Parsing), [Parse(o)])
    ensures out3 == Out(s.(phase := Layout), [PrepareLayout(o)])
    ensures out4 == Out(s.(phase := Layout, contentHeight := height), [ActivateLayout(o)])
  {
    ResponseStage(s, o, a, out2);
    assert out3.s == s.(phase := Layout);
  }

  lemma ResponseStage(s: Viewer, o: Owner, a: Alloc, out: Out)
    requires Owns(s, o) && out == Step(s, FetchCompleted(o), a)
    ensures out == Out(s.(phase := Parsing), [Parse(o)])
  {
  }

  lemma ReadyStage(s: Viewer, o: Owner, a: Alloc, out: Out)
    requires Owns(s, o) && s.pendingHistory.None? && out == Step(s, LayoutActivated(o), a)
    ensures out == Out(s.(phase := Ready, outstanding := s.outstanding - {o.id}), [RenderTerminal])
  {
  }

  /** A failure of the page while no move is pending: its work is dropped and the error page shown. */
  lemma PageFails(s: Viewer, o: Owner, message: Message, a: Alloc)
    requires Owns(s, o) && s.pendingHistory.None?
    ensures var out := Step(s, FetchFailed(o, message), a);
            && out == Step(s, ParseFailed(o, message), a) == Step(s, LayoutFailed(o, message), a)
            && out.s.phase == Failed && out.s.connection == Disconnected && out.s.outstanding == {}
            && IsFreshPage(out.s.(focused := None)) && SameHistory(s, out.s)
            && out.s.scope == s.scope && out.s.currentUri == s.currentUri && out.s.pressureRetry == s.pressureRetry
            && out.effects == [RetirePageWork(o.scope), ActivateErrorPage(message), RenderTerminal]
  {
    FailuresAreOne(s, o, message, a);
    assert !RollsBack(s, o.scope);
  }

  lemma FailuresAreOne(s: Viewer, o: Owner, message: Message, a: Alloc)
    requires Owns(s, o)
    ensures Step(s, FetchFailed(o, message), a) == FailOwned(s, o, message)
    ensures Step(s, ParseFailed(o, message), a) == FailOwned(s, o, message)
    ensures Step(s, LayoutFailed(o, message), a) == FailOwned(s, o, message)
  {
  }

  // ---- committing a page ----

  /** The commit is to replace the current entry. */
  predicate Replaces(s: Viewer) {
    s.historyCommit.ReplaceCurrent? && s.position.Some? && s.position.value < |s.history|
  }

  /** The id a page is committed under: the current entry's when it is to be replaced, or a new one. */
  function CommitId(s: Viewer): HistoryId {
    if Replaces(s) then s.history[s.position.value].id else s.nextHistoryId
  }

  /** Admission and commit of a document: the page is relabelled, its artifact is admitted and installed
      under one id, and the history holds the document as its current entry. */
  lemma PageCommits(s: Viewer, o: Owner, uri: Uri, aml: string, out1: Out, out2: Out)
    requires Owns(s, o) && |aml| <= MAX_HISTORY_AML_BYTES && |s.history| <= MAX_HISTORY_ENTRIES
    requires out1 == Step(s, HistoryAdmissionRequested(o, uri, aml), ALL_PREPARED)
    requires out2 == Step(out1.s, HistoryCommitted(o, CommitId(s)), ALL_PREPARED)
    ensures out1.effects == [AdmitHistoryArtifact(o, CommitId(s), Replaces(s))]
    ensures out1.s.currentUri == Some(uri) && out1.s.history == s.history && Owns(out1.s, o)
    ensures CurrentIs(Commit(out2.s.history, out2.s.position, []), HistoryEntry(CommitId(s), o.scope, uri, aml))
    ensures out2.effects != [] && out2.effects[|out2.effects| - 1] == InstallHistoryArtifact(o, CommitId(s))
    ensures out2.s.historyCommit == Append && out2.s.pendingCommit.None?
  {
    AdmissionStage(s, o, uri, aml, out1);
    CommitStage(out1.s, PendingCommit(o, CommitId(s), uri, aml, s.historyCommit), out2);
  }

  lemma AdmissionStage(s: Viewer, o: Owner, uri: Uri, aml: string, out: Out)
    requires Owns(s, o) && |aml| <= MAX_HISTORY_AML_BYTES
    requires out == Step(s, HistoryAdmissionRequested(o, uri, aml), ALL_PREPARED)
    ensures out.effects == [AdmitHistoryArtifact(o, CommitId(s), Replaces(s))]
    ensures out.s == s.(currentUri := Some(uri),
                        pendingCommit := Some(PendingCommit(o, CommitId(s), uri, aml, s.historyCommit)))
  {
  }

  lemma CommitStage(s: Viewer, p: PendingCommit, out: Out)
    requires Owns(s, p.owner) && s.pendingCommit == Some(p) && |p.aml| <= MAX_HISTORY_AML_BYTES
    requires |s.history| <= MAX_HISTORY_ENTRIES && out == Step(s, HistoryCommitted(p.owner, p.id), ALL_PREPARED)
    ensures CurrentIs(Commit(out.s.history, out.s.position, []), HistoryEntry(p.id, p.owner.scope, p.uri, p.aml))
    ensures out.effects != [] && out.effects[|out.effects| - 1] == InstallHistoryArtifact(p.owner, p.id)
    ensures out.s.historyCommit == Append && out.s.pendingCommit.None?
  {
    assert out == CommitPending(s, p);
    CommitIsBounded(s.history, s.position, p.commit, HistoryEntry(p.id, p.owner.scope, p.uri, p.aml));
  }

  /** A commit that was not asked for changes nothing. */
  lemma StrayCommit(s: Viewer, o: Owner, id: HistoryId, a: Alloc)
    requires s.pendingCommit.None? || s.pendingCommit.value.owner != o || s.pendingCommit.value.id != id
    ensures Step(s, HistoryCommitted(o, id), a) == Out(s, [])
  {
  }

  /** Nothing is started, and nothing replaced, when its effects cannot be prepared. */
  lemma UnpreparedIsInert(s: Viewer, e: ViewerEvent, a: Alloc)
    requires !a.prepared && s.scope.Some? && (LoadsPage(e) || ShowsEntry(e) || StartsRequest(e))
    ensures Step(s, e, a) == Out(s, [])
  {
    if LoadsPage(e) {
      UnpreparedLoad(s, e, a);
    } else if StartsRequest(e) {
      UnpreparedWork(s, e, a);
    }
  }

  lemma UnpreparedLoad(s: Viewer, e: ViewerEvent, a: Alloc)
    requires !a.prepared && LoadsPage(e)
    ensures Step(s, e, a) == Out(s, [])
  {
  }

  lemma UnpreparedWork(s: Viewer, e: ViewerEvent, a: Alloc)
    requires !a.prepared && s.scope.Some? && StartsRequest(e)
    ensures Step(s, e, a) == Out(s, [])
  {
  }

  /** A document over 16 MiB, or one that cannot be copied, fails its page instead. */
  lemma AdmissionFails(s: Viewer, o: Owner, uri: Uri, aml: string, a: Alloc)
    requires Owns(s, o) && !(|aml| <= 16 * 1024 * 1024 && (a.relabelled || s.currentUri == Some(uri)) && a.retained && a.reserved)
    ensures Step(s, HistoryAdmissionRequested(o, uri, aml), a) ==
            if |aml| > 16 * 1024 * 1024 then FailOwned(s, o, HistoryEntryTooLarge)
            else if s.currentUri != Some(uri) && !a.relabelled then FailOwned(s, o, RelabelRefused)
            else FailOwned(s.(currentUri := Some(uri)), o,
                           if !a.retained then HistoryOwnerRefused else HistoryEffectsRefused)
  {
    assert s.currentUri == Some(uri) ==> s.(currentUri := Some(uri)) == s;
  }

  // ---- subscriptions ----

  /** A live region: nothing is applied before the subscription completes, every update after, and nothing
      once the page's subscriptions are retired. */
  lemma SubscriptionLives(s: Viewer, scope: PageScope, region: Region, a: Alloc, out1: Out, out2: Out, out3: Out)
    requires Issued(s) && CountersFit(s) && a.prepared && s.scope == Some(scope) && s.connection == Connected
    requires |s.subscriptions| == 16 && |s.pendingSubscriptions| == 16
    requires Count(s.subscriptions) + Count(s.pendingSubscriptions) < 16 && |s.outstanding| < 64
    requires forall i :: 0 <= i < 16 && s.subscriptions[i].Some? ==> s.subscriptions[i].value.0 < s.nextRequestId
    requires out1 == Step(s, SubscribeRequested(region), a)
    requires out2 == Step(out1.s, SubscriptionCompleted(NextOwner(s, scope), region), a)
    requires out3 == Step(out2.s, SubscriptionsRetired(scope), a)
    ensures out1.effects == [Subscribe(NextOwner(s, scope), region)] && Owns(out1.s, NextOwner(s, scope))
    ensures Step(out1.s, LiveUpdate(NextOwner(s, scope), region), a).effects == []
    ensures out2.effects == [] && !Owns(out2.s, NextOwner(s, scope))
    ensures Step(out2.s, LiveUpdate(NextOwner(s, scope), region), a)
            == Out(out2.s, [ApplyUpdate(NextOwner(s, scope), region)])
    ensures out3.effects == [RetireSubscriptions(scope)]
    ensures Step(out3.s, LiveUpdate(NextOwner(s, scope), region), a).effects == []
  {
    var o := NextOwner(s, scope);
    var x := (o.id, region);
    SubscribeStep(s, scope, region, a, out1);
    InsertedIsFound(s.pendingSubscriptions, x);
    InsertedIsFound(s.subscriptions, x);
    UpdateApplies(out1.s, o, region, a);
    CompleteStep(out1.s, o, region, a, out2);
    UpdateApplies(out2.s, o, region, a);
    RetireStep(out2.s, scope, a, out3);
    UpdateApplies(out3.s, o, region, a);
  }

  lemma InsertedIsFound(slots: SubscriptionSlots, x: (RequestId, Region))
    requires Count(slots) < |slots|
    ensures Some(x) in Insert(slots, x)
  {
    InsertCounts(slots, x);
  }

  lemma RetireStep(s: Viewer, scope: PageScope, a: Alloc, out: Out)
    requires s.scope == Some(scope) && out == Step(s, SubscriptionsRetired(scope), a)
    ensures out == Out(RetireAllSubscriptions(s), [RetireSubscriptions(scope)])
    ensures forall x :: Some(x) !in out.s.subscriptions
  {
  }

  /** An update is applied exactly when its subscription is active on the current page. */
  lemma UpdateApplies(s: Viewer, o: Owner, region: Region, a: Alloc)
    ensures Step(s, LiveUpdate(o, region), a)
            == Out(s, if s.scope == Some(o.scope) && Some((o.id, region)) in s.subscriptions
                      then [ApplyUpdate(o, region)] else [])
  {
  }

  lemma CompleteStep(s: Viewer, o: Owner, region: Region, a: Alloc, out: Out)
    requires Owns(s, o) && Some((o.id, region)) in s.pendingSubscriptions
    requires out == Step(s, SubscriptionCompleted(o, region), a)
    ensures out == Out(s.(outstanding := s.outstanding - {o.id},
                          pendingSubscriptions := RemoveExact(s.pendingSubscriptions, (o.id, region)),
                          subscriptions := Insert(s.subscriptions, (o.id, region))), [])
  {
  }

  lemma SubscribeStep(s: Viewer, scope: PageScope, region: Region, a: Alloc, out: Out)
    requires Issued(s) && CountersFit(s) && a.prepared && s.scope == Some(scope) && s.connection == Connected
    requires Count(s.subscriptions) + Count(s.pendingSubscriptions) < 16 && |s.outstanding| < 64
    requires out == Step(s, SubscribeRequested(region), a)
    ensures out.effects == [Subscribe(NextOwner(s, scope), region)]
    ensures out.s == Taken(s).(pendingSubscriptions := Insert(s.pendingSubscriptions, (s.nextRequestId, region)))
  {
    RequestIsNext(s);
  }

  /** A subscription is asked for exactly when the page is connected and a slot is free in both tables. */
  lemma SubscribesIff(s: Viewer, region: Region, a: Alloc)
    requires Issued(s) && CountersFit(s)
    ensures Step(s, SubscribeRequested(region), a).effects != [] <==>
            && s.connection == Connected && s.scope.Some? && a.prepared && |s.outstanding| < 64
            && Count(s.subscriptions) + Count(s.pendingSubscriptions) < 16
  {
    RequestAges(s);
  }

  /** Retiring the page's subscriptions ends the requests that wait for one and no other. */
  lemma RetirementSparesOthers(s: Viewer, scope: PageScope, a: Alloc, out: Out)
    requires s.scope == Some(scope) && out == Step(s, SubscriptionsRetired(scope), a)
    ensures forall id :: id in out.s.outstanding <==> id in s.outstanding && !HoldsRequest(s.pendingSubscriptions, id)
    ensures out.s == s.(outstanding := out.s.outstanding, subscriptions := Empty(16), pendingSubscriptions := Empty(16))
    ensures out.effects == [RetireSubscriptions(scope)]
  {
  }

  /** A subscription that fails gives its slot and its request back. */
  lemma SubscriptionFails(s: Viewer, o: Owner, a: Alloc, out: Out)
    requires Owns(s, o) && out == Step(s, SubscriptionFailed(o), a)
    ensures out.effects == [] && out.s.outstanding == s.outstanding - {o.id} && out.s.subscriptions == s.subscriptions
    ensures |out.s.pendingSubscriptions| == |s.pendingSubscriptions|
    ensures forall i :: 0 <= i < |s.pendingSubscriptions| ==>
              out.s.pendingSubscriptions[i] == if i == FindRequest(s.pendingSubscriptions, o.id) then None
                                               else s.pendingSubscriptions[i]
  {
  }

  // ---- work of the page ----

  /** A module: load, activate, render; its request ends with it. */
  lemma ModuleRuns(s: Viewer, scope: PageScope, path: string, a: Alloc, out1: Out, out2: Out, out3: Out)
    requires Issued(s) && CountersFit(s) && a.prepared && s.scope == Some(scope) && |s.outstanding| < 64
    requires out1 == Step(s, WasmRequested(path), a)
    requires out2 == Step(out1.s, WasmPrepared(NextOwner(s, scope)), a)
    requires out3 == Step(out2.s, WasmActivated(NextOwner(s, scope)), a)
    ensures out1.effects == [LoadWasm(NextOwner(s, scope), path)]
    ensures out2.effects == [ActivateWasm(NextOwner(s, scope))]
    ensures out3.effects == [RenderTerminal] && out3.s == s.(nextRequestId := s.nextRequestId + 1)
  {
    ModuleStarts(s, scope, path, a, out1);
    ModulePrepares(out1.s, NextOwner(s, scope), a, out2);
    ModuleActivates(out1.s, NextOwner(s, scope), a, out3);
    TakenAndEnded(s);
  }

  lemma ModuleStarts(s: Viewer, scope: PageScope, path: string, a: Alloc, out: Out)
    requires Issued(s) && CountersFit(s) && a.prepared && s.scope == Some(scope) && |s.outstanding| < 64
    requires out == Step(s, WasmRequested(path), a)
    ensures out == Out(Taken(s), [LoadWasm(NextOwner(s, scope), path)])
  {
    RequestIsNext(s);
  }

  lemma ModulePrepares(s: Viewer, o: Owner, a: Alloc, out: Out)
    requires Owns(s, o) && out == Step(s, WasmPrepared(o), a)
    ensures out == Out(s, [ActivateWasm(o)])
  {
  }

  lemma ModuleActivates(s: Viewer, o: Owner, a: Alloc, out: Out)
    requires Owns(s, o) && out == Step(s, WasmActivated(o), a)
    ensures out == Out(DropRequest(s, o.id), [RenderTerminal])
  {
  }

  /** A rejected module is rendered without. */
  lemma ModuleRejected(s: Viewer, o: Owner, a: Alloc)
    requires Owns(s, o)
    ensures Step(s, WasmRejected(o), a) == Out(s.(outstanding := s.outstanding - {o.id}), [RenderTerminal])
  {
  }

  /** One effect per path, under consecutive requests. */
  ghost predicate LoadsEach(effects: seq<ViewerEffect>, scope: PageScope, first: RequestId, paths: seq<string>) {
    && |effects| == |paths|
    && forall i :: 0 <= i < |paths| ==> effects[i] == LoadWasm(Owner(scope, first + i), paths[i])
  }

  function Ids(first: RequestId, n: nat): (ids: set<RequestId>)
    ensures forall id :: id in ids <==> first <= id < first + n
    decreases n
  {
    if n == 0 then {} else {first} + Ids(first + 1, n - 1)
  }

  /** The state once the next `n` requests are taken. */
  function TakenMany(s: Viewer, n: nat): Viewer {
    s.(outstanding := s.outstanding + Ids(s.nextRequestId, n), nextRequestId := s.nextRequestId + n)
  }

  lemma TakenManyMore(s: Viewer, n: nat)
    requires n > 0
    ensures TakenMany(Taken(s), n - 1) == TakenMany(s, n)
  {
    assert s.outstanding + {s.nextRequestId} + Ids(s.nextRequestId + 1, n - 1) == s.outstanding + Ids(s.nextRequestId, n);
  }

  lemma TakenNone(s: Viewer)
    ensures TakenMany(s, 0) == s
  {
    assert s.outstanding + Ids(s.nextRequestId, 0) == s.outstanding;
  }

  lemma LoadsNext(s: Viewer, m: Viewer, id: RequestId, scope: PageScope, paths: seq<string>)
    requires paths != [] && Request(s) == Some((m, id))
    ensures LoadModules(s, scope, paths).s == LoadModules(m, scope, paths[1..]).s
    ensures LoadModules(s, scope, paths).effects
            == [LoadWasm(Owner(scope, id), paths[0])] + LoadModules(m, scope, paths[1..]).effects
  {
  }

  lemma TakenOne(s: Viewer)
    requires Issued(s)
    ensures |Taken(s).outstanding| == |s.outstanding| + 1
  {
  }

  lemma LoadsFirst(effects: seq<ViewerEffect>, scope: PageScope, first: RequestId, paths: seq<string>)
    requires paths != [] && LoadsEach(effects, scope, first + 1, paths[1..])
    ensures LoadsEach([LoadWasm(Owner(scope, first), paths[0])] + effects, scope, first, paths)
  {
    assert forall i :: 0 < i < |paths| ==> paths[i] == paths[1..][i - 1];
  }

  ghost predicate LoadsAll(s: Viewer, scope: PageScope, paths: seq<string>, out: Out) {
    out.s == TakenMany(s, |paths|) && LoadsEach(out.effects, scope, s.nextRequestId, paths)
  }

  lemma LoadsOneMore(s: Viewer, scope: PageScope, paths: seq<string>, rest: Out, out: Out)
    requires paths != [] && LoadsAll(Taken(s), scope, paths[1..], rest)
    requires out == Out(rest.s, [LoadWasm(Owner(scope, s.nextRequestId), paths[0])] + rest.effects)
    ensures LoadsAll(s, scope, paths, out)
  {
    TakenManyMore(s, |paths|);
    LoadsFirst(rest.effects, scope, s.nextRequestId, paths);
  }

  lemma Room(s: Viewer, paths: seq<string>)
    requires Issued(s) && s.nextRequestId + |paths| < U64 && |paths| <= 64 - |s.outstanding| && paths != []
    ensures Request(s) == Some((Taken(s), s.nextRequestId))
    ensures Issued(Taken(s)) && Taken(s).nextRequestId + |paths[1..]| < U64
    ensures |paths[1..]| <= 64 - |Taken(s).outstanding|
  {
    RequestIsNext(s);
    TakenOne(s);
  }

  /** The modules a page depends on are asked for in order, each under the next request. */
  lemma {:induction false} ModulesLoadInOrder(s: Viewer, scope: PageScope, paths: seq<string>, out: Out)
    requires Issued(s) && s.nextRequestId + |paths| < U64 && |paths| <= 64 - |s.outstanding|
    requires out == LoadModules(s, scope, paths)
    ensures out.s == TakenMany(s, |paths|) && LoadsEach(out.effects, scope, s.nextRequestId, paths)
    decreases |paths|
  {
    if paths == [] {
      TakenNone(s);
    } else {
      Room(s, paths);
      var rest := LoadModules(Taken(s), scope, paths[1..]);
      LoadsNext(s, Taken(s), s.nextRequestId, scope, paths);
      ModulesLoadInOrder(Taken(s), scope, paths[1..], rest);
      LoadsOneMore(s, scope, paths, rest, out);
    }
  }

  /** All of them, or the page fails and none is asked for. */
  lemma DependenciesLoad(s: Viewer, o: Owner, paths: seq<string>, a: Alloc)
    requires Owns(s, o)
    ensures Step(s, WasmDependenciesDiscovered(o, paths), a) ==
            if |paths| <= 64 - |s.outstanding| && a.prepared && (a.retained || paths == [])
            then LoadModules(s, o.scope, paths)
            else FailOwned(s, o, if |paths| > 64 - |s.outstanding| then WasmBatchTooLarge
                                 else if !a.prepared then WasmBatchRefused else WasmOwnerRefused)
  {
  }

  /** A navigation deferred by the page is resumed or dropped; its request ends either way. */
  lemma DeferralEnds(s: Viewer, scope: PageScope, a: Alloc, out: Out)
    requires Issued(s) && CountersFit(s) && a.prepared && s.scope == Some(scope) && |s.outstanding| < 64
    requires out == Step(s, DeferredNavigationRequested, a)
    ensures out.effects == [DeferNavigation(NextOwner(s, scope))]
    ensures Step(out.s, DeferredNavigationCompleted(NextOwner(s, scope)), a)
            == Out(s.(nextRequestId := s.nextRequestId + 1), [ResumeNavigation(NextOwner(s, scope))])
    ensures Step(out.s, DeferredNavigationRejected(NextOwner(s, scope)), a)
            == Out(s.(nextRequestId := s.nextRequestId + 1), [])
  {
    DeferralStarts(s, scope, a, out);
    DeferralStops(out.s, NextOwner(s, scope), a);
    TakenAndEnded(s);
  }

  lemma DeferralStarts(s: Viewer, scope: PageScope, a: Alloc, out: Out)
    requires Issued(s) && CountersFit(s) && a.prepared && s.scope == Some(scope) && |s.outstanding| < 64
    requires out == Step(s, DeferredNavigationRequested, a)
    ensures out == Out(Taken(s), [DeferNavigation(NextOwner(s, scope))])
  {
    RequestIsNext(s);
  }

  lemma DeferralStops(s: Viewer, o: Owner, a: Alloc)
    requires Owns(s, o)
    ensures Step(s, DeferredNavigationCompleted(o), a) == Out(DropRequest(s, o.id), [ResumeNavigation(o)])
    ensures Step(s, DeferredNavigationRejected(o), a) == Out(DropRequest(s, o.id), [])
  {
  }

  /** A tick is asked for on a ready page, under a request, and on the start page, without one. */
  lemma TicksIff(s: Viewer, a: Alloc)
    requires Issued(s) && CountersFit(s)
    ensures Step(s, Timer, a).effects ==
            if s.scope.None? then (if s.phase == Ready || s.phase == Idle then [TickWasm(None)] else [])
            else if s.phase == Ready && a.prepared && |s.outstanding| < 64
            then [TickWasm(Some(NextOwner(s, s.scope.value)))] else []
  {
    RequestAges(s);
  }

  // ---- transport ----

  /** Losing the transport dials again under a request of its own; the page stays as it is. */
  lemma TransportReturns(s: Viewer, scope: PageScope, message: Message, a: Alloc, out: Out)
    requires Issued(s) && CountersFit(s) && a.prepared && s.scope == Some(scope) && |s.outstanding| < 64
    requires s.connection != Dialing && out == Step(s, TransportLost(scope.origin), a)
    ensures out.effects == [Connect(NextOwner(s, scope))] && out.s.connection == Dialing
    ensures Step(out.s, TransportLost(scope.origin), a) == Out(out.s, [])
    ensures Step(out.s, ConnectionMade(NextOwner(s, scope)), a)
            == Out(s.(connection := Connected, reconnect := None, nextRequestId := s.nextRequestId + 1), [])
    ensures Step(out.s, ConnectionFailed(NextOwner(s, scope), message), a)
            == Out(s.(connection := Disconnected, reconnect := None, nextRequestId := s.nextRequestId + 1), [RenderTerminal])
  {
    TransportLeaves(s, scope, a, out);
    LossIsNotRepeated(out.s, scope, a);
    ReconnectionEnds(out.s, NextOwner(s, scope), message, a);
    TakenAndEnded(s);
  }

  lemma TransportLeaves(s: Viewer, scope: PageScope, a: Alloc, out: Out)
    requires Issued(s) && CountersFit(s) && a.prepared && s.scope == Some(scope) && |s.outstanding| < 64
    requires s.connection != Dialing && out == Step(s, TransportLost(scope.origin), a)
    ensures out == Out(Taken(s).(connection := Dialing, reconnect := Some(s.nextRequestId)), [Connect(NextOwner(s, scope))])
  {
    RequestIsNext(s);
  }

  lemma LossIsNotRepeated(s: Viewer, scope: PageScope, a: Alloc)
    requires s.scope == Some(scope) && s.connection == Dialing
    ensures Step(s, TransportLost(scope.origin), a) == Out(s, [])
  {
  }

  lemma ReconnectionEnds(s: Viewer, o: Owner, message: Message, a: Alloc)
    requires Owns(s, o) && s.reconnect == Some(o.id)
    ensures Step(s, ConnectionMade(o), a) == Out(DropRequest(s, o.id).(connection := Connected, reconnect := None), [])
    ensures Step(s, ConnectionFailed(o, message), a)
            == Out(DropRequest(s, o.id).(connection := Disconnected, reconnect := None), [RenderTerminal])
  {
  }

  /** Another origin's transport is not this page's. */
  lemma OtherTransport(s: Viewer, origin: Origin, a: Alloc)
    requires s.scope.None? || s.scope.value.origin != origin
    ensures Step(s, TransportLost(origin), a) == Out(s, [])
  {
  }

  // ---- resizing ----

  /** A resize projects the page at its new size; a second one supersedes it. */
  lemma ResizeProjects(s: Viewer, scope: PageScope, width: nat, height: nat, content: nat, a: Alloc, out1: Out)
    requires Issued(s) && CountersFit(s) && a.prepared && s.scope == Some(scope) && |s.outstanding| < 64
    requires s.pendingResize.None? && out1 == Step(s, Resize(width, height), a)
    ensures var o := NextOwner(s, scope);
            && out1.effects == [PrepareResizeProjection(o, width, height)] && out1.s.viewport == (width, height)
            && Owns(out1.s, o) && out1.s.pendingResize == Some(PendingResize(o, width, height))
            && Step(out1.s, ResizeProjectionPrepared(o, content), a)
               == Out(out1.s.(pendingResize := None, contentHeight := content), [ActivateLayout(o)])
  {
    RequestAges(s);
  }

  lemma ResizeSupersedes(s: Viewer, p: PendingResize, width: nat, height: nat, a: Alloc, out: Out)
    requires a.prepared && s.scope.Some? && s.pendingResize == Some(p) && Issued(s) && CountersFit(s)
    requires p.owner.id < s.nextRequestId && out == Step(s, Resize(width, height), a)
    ensures p.owner.id !in out.s.outstanding && out.s.viewport == (width, height)
    ensures forall content :: Step(out.s, ResizeProjectionPrepared(p.owner, content), a) == Out(out.s, [])
  {
    var resized := Resized(s, width, height);
    DropAges(s, resized);
    RequestAges(resized);
  }

  // ---- memory pressure ----

  /** Lost memory: the work is stored, a resource is evicted, and the work is asked for again. */
  lemma PressureRecovers(s: Viewer, message: Message, retry: PressureRetry, a: Alloc, out: Out)
    requires retry.Page() == s.scope && !retry.RetryResizeProjection?
    requires out == Step(s, PresentationFailed(message, Some(retry)), a)
    ensures out == Out(s.(pressureRetry := Some(retry)), [EvictResource(message)])
    ensures Step(out.s, ResourceEvictionCompleted(message, true), a)
            == Out(s.(pressureRetry := None), [retry.IntoEffect(), RenderTerminal])
    ensures Step(out.s, ResourceEvictionCompleted(message, false), a) == Out(out.s, [EvictHistory(message)])
  {
    WorkIsStored(s, message, retry, a, out);
    WorkIsRetried(out.s, message, retry, a);
  }

  lemma WorkIsStored(s: Viewer, message: Message, retry: PressureRetry, a: Alloc, out: Out)
    requires retry.Page() == s.scope && !retry.RetryResizeProjection?
    requires out == Step(s, PresentationFailed(message, Some(retry)), a)
    ensures out == Out(s.(pressureRetry := Some(retry)), [EvictResource(message)])
  {
  }

  lemma WorkIsRetried(s: Viewer, message: Message, retry: PressureRetry, a: Alloc)
    requires s.pressureRetry == Some(retry)
    ensures Step(s, ResourceEvictionCompleted(message, true), a)
            == Out(s.(pressureRetry := None), [retry.IntoEffect(), RenderTerminal])
    ensures Step(s, ResourceEvictionCompleted(message, false), a) == Out(s, [EvictHistory(message)])
  {
    var again := retry.IntoEffect();
    assert RetryEffects(s.pressureRetry) == [again];
    assert [again] + [RenderTerminal] == [again, RenderTerminal];
  }

  /** How an effect that ran out of memory is stored; other effects are not retried. */
  function StoredAs(e: ViewerEffect): Option<PressureRetry> {
    match e
    case Parse(o) => Some(RetryParse(o))
    case PrepareLayout(o) => Some(RetryPrepareLayout(o))
    case AdmitHistoryArtifact(o, id, replacing) => Some(RetryHistoryArtifact(o, id, replacing))
    case PrepareResizeProjection(o, width, height) => Some(RetryResizeProjection(o, width, height))
    case TickWasm(tick) => Some(RetryTickWasm(tick))
    case ActivateCachedHistory(o, entry) => Some(RetryActivateCachedHistory(o, entry))
    case ApplyPresentationAction(page, action) => Some(RetryPresentation(page, action))
    case ApplyUpdate(o, region) => Some(RetryUpdate(o, region))
    case _ => None
  }

  /** The effect is work of the page now current, and no newer size has superseded it. */
  predicate IsCurrentWork(s: Viewer, e: ViewerEffect) {
    match e
    case TickWasm(tick) => s.scope == (if tick.Some? then Some(tick.value.scope) else None)
    case ApplyPresentationAction(page, _) => s.scope == page
    case PrepareResizeProjection(o, width, height) =>
      s.scope == Some(o.scope) && s.pendingResize == Some(PendingResize(o, width, height))
    case Parse(o) => s.scope == Some(o.scope)
    case PrepareLayout(o) => s.scope == Some(o.scope)
    case AdmitHistoryArtifact(o, _, _) => s.scope == Some(o.scope)
    case ActivateCachedHistory(o, _) => s.scope == Some(o.scope)
    case ApplyUpdate(o, _) => s.scope == Some(o.scope)
    case _ => false
  }

  lemma StoredEffect(s: Viewer, e: ViewerEffect)
    requires StoredAs(e).Some?
    ensures StoredAs(e).value.IntoEffect() == e
    ensures IsCurrentWork(s, e) <==>
            && StoredAs(e).value.Page() == s.scope
            && (StoredAs(e).value.RetryResizeProjection? ==>
                  s.pendingResize == Some(PendingResize(StoredAs(e).value.owner, StoredAs(e).value.width, StoredAs(e).value.height)))
  {
  }

  /** An effect of the current page that ran out of memory is asked for again, the very same, once a resource
      has been evicted; one of another page is not. */
  lemma LostEffectIsRepeated(s: Viewer, e: ViewerEffect, message: Message, a: Alloc, out: Out)
    requires StoredAs(e).Some? && out == Step(s, PresentationFailed(message, StoredAs(e)), a)
    ensures !IsCurrentWork(s, e) ==> out == Out(s, [])
    ensures IsCurrentWork(s, e) ==> out == Out(s.(pressureRetry := StoredAs(e)), [EvictResource(message)])
    ensures IsCurrentWork(s, e) ==>
              Step(out.s, ResourceEvictionCompleted(message, true), a) == Out(s.(pressureRetry := None), [e, RenderTerminal])
  {
    StoredEffect(s, e);
    PressureStores(s, message, StoredAs(e).value, a, out);
    if IsCurrentWork(s, e) {
      WorkIsRetried(out.s, message, StoredAs(e).value, a);
    }
  }

  lemma PressureStores(s: Viewer, message: Message, retry: PressureRetry, a: Alloc, out: Out)
    requires out == Step(s, PresentationFailed(message, Some(retry)), a)
    ensures out == if retry.Page() != s.scope
                      || (retry.RetryResizeProjection?
                          && s.pendingResize != Some(PendingResize(retry.owner, retry.width, retry.height)))
                   then Out(s, []) else Out(s.(pressureRetry := Some(retry)), [EvictResource(message)])
  {
  }

  /** Work of another page, and a projection that was superseded, are not stored. */
  lemma StaleWorkIsNotStored(s: Viewer, message: Message, retry: PressureRetry, a: Alloc)
    requires retry.Page() != s.scope
             || (retry.RetryResizeProjection?
                 && s.pendingResize != Some(PendingResize(retry.owner, retry.width, retry.height)))
    ensures Step(s, PresentationFailed(message, Some(retry)), a) == Out(s, [])
  {
  }

  /** History eviction releases the oldest entry that is neither current nor being shown: both stay. */
  lemma EvictionSparesShown(s: Viewer, message: Message, a: Alloc, i: nat, out: Out)
    requires DistinctIds(s.history) && InRange(s) && out == Step(s, HistoryEvictionRequested(message), a)
    requires i < |s.history| && s.position != Some(i)
    requires s.pendingHistory.Some? ==> s.pendingHistory.value.target != i
    requires forall j :: 0 <= j < i ==> s.position == Some(j)
                                        || (s.pendingHistory.Some? && s.pendingHistory.value.target == j)
    ensures out.s.history == s.history[..i] + s.history[i + 1..]
    ensures EntryIdAt(out.s.history, out.s.position) == EntryIdAt(s.history, s.position)
    ensures out.s.pressureRetry.None?
    ensures s.pressureRetry.Some? ==>
              out.effects == [ReleaseHistoryArtifact(s.history[i].id), s.pressureRetry.value.IntoEffect(), RenderTerminal]
    ensures s.pressureRetry.None? ==> out.effects == [ReleaseHistoryArtifact(s.history[i].id), RenderTerminal]
  {
    OldestUnshown(s, i);
    EvictsOldest(s, message, a, i, out);
    CurrentSurvives(s.history, s.position, i);
  }

  lemma EvictsOldest(s: Viewer, message: Message, a: Alloc, i: nat, out: Out)
    requires i < |s.history| && Evictable(s, 0) == i && out == Step(s, HistoryEvictionRequested(message), a)
    ensures out.s == s.(history := Without(s.history, i), position := ShiftDown(s.position, i), pressureRetry := None)
    ensures out.effects == [ReleaseHistoryArtifact(s.history[i].id)] + RetryEffects(s.pressureRetry) + [RenderTerminal]
  {
    EvictionIs(s, message, a, out);
  }

  lemma OldestUnshown(s: Viewer, i: nat)
    requires DistinctIds(s.history) && InRange(s) && i < |s.history| && s.position != Some(i)
    requires s.pendingHistory.Some? ==> s.pendingHistory.value.target != i
    requires forall j :: 0 <= j < i ==> s.position == Some(j)
                                        || (s.pendingHistory.Some? && s.pendingHistory.value.target == j)
    ensures Evictable(s, 0) == i
  {
    assert !Protected(s, s.history[i].id);
    forall j | 0 <= j < i
      ensures Protected(s, s.history[j].id)
    {
      if s.position == Some(j) {
        assert EntryIdAt(s.history, s.position) == Some(s.history[j].id);
      } else {
        assert EntryIdAt(s.history, Some(s.pendingHistory.value.target)) == Some(s.history[j].id);
      }
    }
  }

  lemma CurrentSurvives(h: History, position: Option<nat>, i: nat)
    requires i < |h| && position != Some(i) && (position.Some? ==> position.value < |h|)
    ensures EntryIdAt(Without(h, i), ShiftDown(position, i)) == EntryIdAt(h, position)
  {
    if position.Some? {
      var p := position.value;
      if i < p {
        assert Without(h, i)[p - 1] == h[p];
      } else {
        assert Without(h, i)[p] == h[p];
      }
    }
  }

  /** With nothing left to evict, stored page work fails its page; otherwise the error page is shown. */
  lemma NothingToEvict(s: Viewer, message: Message, a: Alloc)
    requires forall j :: 0 <= j < |s.history| ==> Protected(s, s.history[j].id)
    ensures var out := Step(s, HistoryEvictionRequested(message), a);
            if s.pressureRetry.Some? && s.pressureRetry.value.FailsWithItsOperation()
            then out == FailOwned(s.(pressureRetry := None), s.pressureRetry.value.owner, message)
            else if s.scope.Some? && !a.prepared then out == Out(s, [])
            else && out.s.phase == Failed && out.s.connection == Disconnected && out.s.outstanding == {}
                 && IsFreshPage(out.s.(pendingCommit := None)) && out.s.pressureRetry.None? && SameHistory(s, out.s)
                 && out.s.scope == s.scope && out.s.pendingCommit == s.pendingCommit
                 && out.effects == (if s.scope.Some? then [RetirePageWork(s.scope.value)] else [])
                                   + [ActivateErrorPage(message), RenderTerminal]
  {
    assert Evictable(s, 0) == |s.history|;
    EvictionIs(s, message, a, Step(s, HistoryEvictionRequested(message), a));
  }

  lemma EvictionIs(s: Viewer, message: Message, a: Alloc, out: Out)
    requires out == Step(s, HistoryEvictionRequested(message), a)
    ensures out == EvictForPressure(s, message, a)
  {
  }

  // ---- input and the end ----

  /** Input and focus of the current page are projected; a stale token does nothing. */
  lemma InputIsProjected(s: Viewer, token: PageScope, value: string, node: Option<NodeId>, a: Alloc)
    ensures Step(s, ViewerEvent.Input(token, value), a)
            == Out(s, if s.scope == Some(token) then [ProjectInput(token, value)] else [])
    ensures Step(s, FocusChanged(token, node), a)
            == if s.scope == Some(token) then Out(s.(focused := node), [ProjectFocus(token, node)]) else Out(s, [])
  {
  }

  lemma ActionsArePresented(s: Viewer, page: Option<PageScope>, action: Action, a: Alloc)
    ensures Step(s, PresentationActionRequested(page, action), a)
            == Out(s, if s.scope == page then [ApplyPresentationAction(page, action)] else [])
    ensures Step(s, PresentationRequested, a) == Out(s, [RenderTerminal])
  {
  }

  /** The error page and the shutdown leave no request, subscription or reconnection behind. */
  lemma WorkEnds(s: Viewer, height: nat, a: Alloc, e: ViewerEvent)
    requires e == ErrorPageActivated(height) || e == Shutdown
    ensures var out := Step(s, e, a);
            && out.s.outstanding == {} && out.s.subscriptions == Empty(16) && out.s.pendingSubscriptions == Empty(16)
            && out.s.reconnect.None? && SameHistory(s, out.s) && out.s.scope == s.scope
            && (forall o :: !Owns(out.s, o))
            && (e.Shutdown? ==> out.s.phase == ShuttingDown && out.effects == [Close, RestoreTerminal])
            && (e.ErrorPageActivated? ==> out.s.phase == Failed && out.s.contentHeight == height && out.effects == []
                                          && out.s.pendingCommit.None? && out.s.pendingResize.None?
                                          && out.s.pressureRetry.None?)
  {
    if e.Shutdown? {
      assert Step(s, e, a).effects == [Close, RestoreTerminal];
    } else {
      assert Step(s, e, a) == Out(ShowErrorPage(s, height), []);
    }
  }
}
