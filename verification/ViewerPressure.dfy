/** Where the reducer departs from its comments under memory pressure, resizing and
history moves, and exactly when it does not (viewer.rs, `HistoryEvictionRequested`,
`LayoutActivated`, `activate_history_entry` and the `PressureRetry` comment). */
module ViewerPressure {
  import opened Wrappers
  import opened ViewerTypes
  import opened ViewerTables
  import opened ViewerHistory
  import opened ViewerStep
  import opened ViewerOwnership
  import opened ViewerLedger
  import opened ViewerGenerations
  import opened ViewerRollback

  // ---- the history position stays in range ----

  predicate Within(i: Option<nat>, h: History) {
    i.Some? ==> i.value < |h|
  }

  predicate InRange(s: Viewer) {
    && Within(s.position, s.history)
    && (s.pendingHistory.Some? ==>
          && s.pendingHistory.value.target < |s.history|
          && Within(s.pendingHistory.value.previousPosition, s.history))
  }

  lemma EvictionStaysInRange(s: Viewer, message: Message, a: Alloc)
    requires InRange(s) && EvictsAbove(s)
    ensures InRange(EvictForPressure(s, message, a).s)
  {
    if Evictable(s, 0) == |s.history| && s.pressureRetry.Some? && s.pressureRetry.value.FailsWithItsOperation() {
      FailureStaysInRange(s.(pressureRetry := None), s.pressureRetry.value.owner, message);
    }
  }

  lemma FailureStaysInRange(s: Viewer, o: Owner, message: Message)
    requires InRange(s)
    ensures InRange(FailOwned(s, o, message).s)
  {
  }

  lemma CommitStaysInRange(s: Viewer, p: PendingCommit)
    requires s.pendingHistory.None? && |s.history| <= MAX_HISTORY_ENTRIES && |p.aml| <= MAX_HISTORY_AML_BYTES
    ensures InRange(CommitPending(s, p).s)
  {
    CommitIsBounded(s.history, s.position, p.commit, HistoryEntry(p.id, p.owner.scope, p.uri, p.aml));
  }

  lemma PlainCompletionStaysInRange(s: Viewer, e: ViewerEvent, a: Alloc)
    requires InRange(s) && Guard(e).Some? && !e.HistoryCommitted? && !e.WasmDependenciesDiscovered?
    ensures InRange(Complete(s, e, a).s)
  {
    if EndsItsRequest(e) {
      EndStaysInRange(s, e, a);
    } else if e.HistoryAdmissionRequested? {
      AdmissionStaysInRange(s, e.owner, e.uri, e.aml, a);
    } else {
      StageStaysInRange(s, e, a);
    }
  }

  lemma EndStaysInRange(s: Viewer, e: ViewerEvent, a: Alloc)
    requires InRange(s) && EndsItsRequest(e)
    ensures InRange(Complete(s, e, a).s)
  {
  }

  lemma AdmissionStaysInRange(s: Viewer, o: Owner, uri: Uri, aml: string, a: Alloc)
    requires InRange(s)
    ensures InRange(AdmitHistory(s, o, uri, aml, a).s)
  {
  }

  lemma StageStaysInRange(s: Viewer, e: ViewerEvent, a: Alloc)
    requires InRange(s) && Guard(e).Some? && !EndsItsRequest(e) && !e.HistoryAdmissionRequested?
    requires !e.HistoryCommitted? && !e.WasmDependenciesDiscovered?
    ensures InRange(Complete(s, e, a).s)
  {
  }

  lemma DiscoveryStaysInRange(s: Viewer, o: Owner, paths: seq<string>, a: Alloc)
    requires InRange(s)
    ensures InRange(DiscoverModules(s, o, paths, a).s)
  {
    LoadModulesQuiet(s, o.scope, paths);
  }

  lemma CompletionStaysInRange(s: Viewer, fetched: set<Owner>, e: ViewerEvent, a: Alloc)
    requires Kept(s, fetched) && InRange(s) && Guard(e).Some?
    ensures InRange(Complete(s, e, a).s)
  {
    if e.HistoryCommitted? {
      if s.pendingCommit.Some? { CommitStaysInRange(s, s.pendingCommit.value); }
    } else if e.WasmDependenciesDiscovered? {
      DiscoveryStaysInRange(s, e.owner, e.paths, a);
    } else {
      PlainCompletionStaysInRange(s, e, a);
    }
  }

  lemma ReactionStaysInRange(s: Viewer, e: ViewerEvent, a: Alloc)
    requires InRange(s) && Guard(e).None? && (e.HistoryEvictionRequested? ==> EvictsAbove(s))
    ensures InRange(React(s, e, a).s)
  {
    if e.HistoryEvictionRequested? {
      EvictionStaysInRange(s, e.message, a);
    } else if LoadsPage(e) {
      LoadStaysInRange(s, e, a);
    } else if ShowsEntry(e) {
      ShowStaysInRange(s, e, a);
    } else {
      OtherStaysInRange(s, e, a);
    }
  }

  lemma LoadStaysInRange(s: Viewer, e: ViewerEvent, a: Alloc)
    requires InRange(s) && LoadsPage(e)
    ensures InRange(React(s, e, a).s)
  {
  }

  lemma ShowStaysInRange(s: Viewer, e: ViewerEvent, a: Alloc)
    requires InRange(s) && ShowsEntry(e)
    ensures InRange(React(s, e, a).s)
  {
    if ActivationTarget(s, e).Some? {
      EntryStaysInRange(s, ActivationTarget(s, e).value, a);
    }
  }

  lemma EntryStaysInRange(s: Viewer, t: nat, a: Alloc)
    requires InRange(s)
    ensures InRange(ActivateHistoryEntry(s, t, a).s)
  {
    if t < |s.history| {
      var entry := s.history[t];
      var originChanged := s.scope.Some? && s.scope.value.origin != entry.scope.origin;
      var showing := Showing(s, t, PageScope(entry.scope.origin, Succ(s.generation)), originChanged);
      assert |showing.history| == |s.history|;
    }
  }

  lemma OtherStaysInRange(s: Viewer, e: ViewerEvent, a: Alloc)
    requires InRange(s) && Guard(e).None? && !LoadsPage(e) && !ShowsEntry(e) && !e.HistoryEvictionRequested?
    ensures InRange(React(s, e, a).s)
  {
  }

  ghost predicate EvictsAboveAt(r: Trace, j: nat) {
    j < |r.states| && j < |r.inputs| && (r.inputs[j].event.HistoryEvictionRequested? ==> EvictsAbove(r.states[j]))
  }

  lemma RunStepInRange(r: Trace, n: nat)
    requires Session(r) && n < |r.inputs| && EvictsAboveAt(r, n) && InRange(r.states[n])
    ensures InRange(r.states[n + 1])
  {
    assert StepAt(r, n);
    LedgerMirrorsHistory(r, n);
    var e, a := r.inputs[n].event, r.inputs[n].alloc;
    if Guard(e).None? {
      ReactionStaysInRange(r.states[n], e, a);
    } else {
      CompletionStaysInRange(r.states[n], Fetched(r, n), e, a);
    }
  }

  /** In every disciplined run whose evictions under a pending activation spare the
      entries below its target and its previous position, the history position and
      everything a rollback refers to stay in range. */
  lemma {:induction false} PositionStaysInRange(r: Trace, n: nat)
    requires Session(r) && n <= |r.inputs| && InRange(r.states[0])
    requires forall j :: 0 <= j < n ==> EvictsAboveAt(r, j)
    ensures InRange(r.states[n])
  {
    if n > 0 {
      PositionStaysInRange(r, n - 1);
      RunStepInRange(r, n - 1);
    }
  }

  // ---- eviction below the remembered positions breaks the rollback ----

  /** What an owned failure would restore right now. */
  function RestoredHistory(s: Viewer): History
    requires s.pendingHistory.Some?
  {
    RestoreEntryScope(s.history, s.pendingHistory.value)
  }

  /** A failure of the current page after one eviction restores what it would have
      restored before, minus the evicted entry, with the same entry current. */
  ghost predicate StillRestores(s: Viewer, s': Viewer, i: nat)
    requires s.pendingHistory.Some? && i < |s.history|
  {
    && s'.pendingHistory == s.pendingHistory
    && RestoredHistory(s') == Without(RestoredHistory(s), i)
    && EntryIdAt(RestoredHistory(s'), s'.pendingHistory.value.previousPosition)
       == EntryIdAt(RestoredHistory(s), s.pendingHistory.value.previousPosition)
  }

  lemma EvictionAboveRestores(s: Viewer, message: Message, a: Alloc)
    requires s.pendingHistory.Some? && InRange(s) && Evictable(s, 0) < |s.history| && EvictsAbove(s)
    ensures StillRestores(s, EvictForPressure(s, message, a).s, Evictable(s, 0))
  {
    var i := Evictable(s, 0);
    var s' := EvictForPressure(s, message, a).s;
    var p := s.pendingHistory.value;
    assert s'.history[p.target] == s.history[p.target];
    assert RestoredHistory(s') == Without(RestoredHistory(s), i);
  }

  lemma EvictionBelowDoesNot(s: Viewer, message: Message, a: Alloc)
    requires s.pendingHistory.Some? && InRange(s) && DistinctIds(s.history)
    requires s.position == s.pendingHistory.value.previousPosition
    requires s.history[s.pendingHistory.value.target].scope != s.pendingHistory.value.previousEntryScope
    requires Evictable(s, 0) < |s.history| && !EvictsAbove(s)
    ensures !StillRestores(s, EvictForPressure(s, message, a).s, Evictable(s, 0))
  {
    var i := Evictable(s, 0);
    var s' := EvictForPressure(s, message, a).s;
    var p := s.pendingHistory.value;
    assert !Protected(s, s.history[i].id);
    if i < p.target {
      assert Without(RestoredHistory(s), i)[p.target - 1].scope == p.previousEntryScope;
      assert s'.history[p.target - 1] == s.history[p.target];
      assert RestoredHistory(s')[p.target - 1] == s.history[p.target];
    } else {
      var q := p.previousPosition.value;
      assert i < q;
      assert RestoredHistory(s)[q].id == s.history[q].id;
      if q < |s'.history| {
        assert RestoredHistory(s')[q].id == s.history[q + 1].id;
      }
    }
  }

  lemma EvictionRestoresIff(s: Viewer, message: Message, a: Alloc)
    requires s.pendingHistory.Some? && InRange(s) && DistinctIds(s.history)
    requires s.position == s.pendingHistory.value.previousPosition
    requires s.history[s.pendingHistory.value.target].scope != s.pendingHistory.value.previousEntryScope
    requires Evictable(s, 0) < |s.history|
    ensures StillRestores(s, EvictForPressure(s, message, a).s, Evictable(s, 0)) <==> EvictsAbove(s)
  {
    if EvictsAbove(s) {
      EvictionAboveRestores(s, message, a);
    } else {
      EvictionBelowDoesNot(s, message, a);
    }
  }

  /** The entry `id` becomes the current one when the layout of `o` is activated in `s`. */
  predicate LayoutShows(s: Viewer, o: Owner, a: Alloc, id: HistoryId) {
    var after := Step(s, LayoutActivated(o), a).s;
    EntryIdAt(after.history, after.position) == Some(id)
  }

  /** Entry `t` keeps its place in the history when the entry removed lies above it, and only then. */
  lemma PlaceAfterRemoval(h: History, i: nat, t: nat)
    requires i < |h| && t < |h| && DistinctIds(h) && h[i].id != h[t].id
    ensures EntryIdAt(Without(h, i), Some(t)) == Some(h[t].id) <==> i > t
  {
    var kept := Without(h, i);
    if i < t && t < |kept| {
      assert kept[t] == h[t + 1];
    }
  }

  lemma LayoutAfterEviction(s: Viewer, after: Viewer, o: Owner, b: Alloc)
    requires s.pendingHistory.Some? && s.pendingHistory.value.target < |s.history| && DistinctIds(s.history)
    requires Evictable(s, 0) < |s.history| && Owns(after, o)
    requires after.pendingHistory == s.pendingHistory && after.history == Without(s.history, Evictable(s, 0))
    requires s.pendingHistory.value.targetGeneration == o.scope.generation
    ensures LayoutShows(after, o, b, s.history[s.pendingHistory.value.target].id)
            <==> Evictable(s, 0) > s.pendingHistory.value.target
  {
    var i, t := Evictable(s, 0), s.pendingHistory.value.target;
    assert !Protected(s, s.history[i].id);
    PlaceAfterRemoval(s.history, i, t);
  }

  /** A pending activation reached by a run: what it shows and remembers is in range and of two generations. */
  lemma PendingInRun(r: Trace, i: nat, t: nat, k: nat)
    requires Session(r) && InRange(r.states[0]) && GenerationsIssued(r.states[0])
    requires i < k <= |r.inputs| && ActivatesAt(r, i, t)
    requires forall j :: 0 <= j < i ==> EvictsAboveAt(r, j)
    requires forall j :: i < j < k ==> LeavesPendingAt(r, j)
    ensures InRange(r.states[k]) && DistinctIds(r.states[k].history)
    ensures r.states[k].pendingHistory == Some(Remembered(r.states[i], t))
    ensures r.states[k].scope == Some(NewScope(r.states[i], t)) && r.states[k].position == r.states[i].position
    ensures r.states[k].history[t].scope == NewScope(r.states[i], t) != r.states[i].history[t].scope
  {
    ShowingUntil(r, i, t, k);
    LedgerMirrorsHistory(r, k);
    RunGenerations(r, i);
    forall j | 0 <= j < k
      ensures EvictsAboveAt(r, j)
    {
      if j > i { assert LeavesPendingAt(r, j); }
    }
    PositionStaysInRange(r, k);
    ShownEntry(r.states[i], t, r.states[k], ReleasedBetween(r, i + 1, k));
  }

  lemma ShownEntry(s0: Viewer, t: nat, s: Viewer, gone: set<HistoryId>)
    requires StillShowing(s0, t, s, gone)
    ensures t < |s.history| && s.history[t] == Shown(s0, t)[t]
  {
    var shown := Shown(s0, t);
    assert forall j :: 0 <= j <= t ==> shown[j].id == s0.history[j].id;
    PrefixSurvives(shown, gone, t + 1);
    assert s.history[..t + 1] == shown[..t + 1];
    assert s.history[t] == s.history[..t + 1][t];
  }

  /** In every disciplined run, pressure that evicts an entry under a pending activation keeps the
      rollback exact if and only if that entry lies above target and previous position; and the
      layout of the page then makes the entry shown the current one if and only if the evicted
      entry lies above the target. */
  lemma EvictionKeepsRollbackIff(r: Trace, i: nat, t: nat, k: nat, o: Owner, a: Alloc)
    requires Session(r) && InRange(r.states[0]) && GenerationsIssued(r.states[0])
    requires i < k < |r.inputs| && ActivatesAt(r, i, t)
    requires forall j :: 0 <= j < i ==> EvictsAboveAt(r, j)
    requires forall j :: i < j < k ==> LeavesPendingAt(r, j)
    requires r.inputs[k].event.HistoryEvictionRequested? && Evictable(r.states[k], 0) < |r.states[k].history|
    ensures r.states[k].pendingHistory.Some? && t < |r.states[k].history|
    ensures StillRestores(r.states[k], r.states[k + 1], Evictable(r.states[k], 0)) <==> EvictsAbove(r.states[k])
    ensures Owns(r.states[k + 1], o) ==>
              (LayoutShows(r.states[k + 1], o, a, r.states[k].history[t].id) <==> Evictable(r.states[k], 0) > t)
  {
    PendingInRun(r, i, t, k);
    assert StepAt(r, k);
    var s, message, b := r.states[k], r.inputs[k].event.message, r.inputs[k].alloc;
    assert r.states[k + 1] == EvictForPressure(s, message, b).s;
    EvictionRestoresIff(s, message, b);
    if Owns(r.states[k + 1], o) {
      LayoutAfterEviction(s, r.states[k + 1], o, a);
    }
  }

  lemma InitialIsInRange(width: nat, height: nat)
    ensures InRange(Initial(width, height)) && GenerationsIssued(Initial(width, height))
  {
  }

  // ---- a resize commits a pending activation ----

  const ALL_PREPARED: Alloc := Alloc(true, true, true, true)

  /** The request that shows entry `t`. */
  function ActivationOwner(s: Viewer, t: nat): Owner
    requires t < |s.history|
  {
    Owner(NewScope(s, t), s.nextRequestId)
  }

  /** In every disciplined run the first layout activated for any request of the page that is being
      shown ends the activation and makes its target the position. The activation's own request stays
      owned exactly when it was owned and the layout was another request's; its failure is then no
      longer rolled back. */
  lemma AnyLayoutCommits(r: Trace, i: nat, t: nat, k: nat, o: Owner, message: Message, a: Alloc)
    requires Session(r) && i < k < |r.inputs| && ActivatesAt(r, i, t)
    requires forall j :: i < j < k ==> LeavesPendingAt(r, j)
    requires r.inputs[k].event == LayoutActivated(o) && Owns(r.states[k], o)
    ensures r.states[k + 1].pendingHistory.None? && r.states[k + 1].position == Some(t)
    ensures var activation := ActivationOwner(r.states[i], t);
            && (Owns(r.states[k + 1], activation) <==> Owns(r.states[k], activation) && o.id != activation.id)
            && (Owns(r.states[k + 1], activation) ==>
                  var failed := Step(r.states[k + 1], ParseFailed(activation, message), a).s;
                  failed.phase == Failed && failed.position == Some(t) && failed.scope == r.states[k + 1].scope)
  {
    ShowingUntil(r, i, t, k);
    assert StepAt(r, k);
    var activation := ActivationOwner(r.states[i], t);
    assert r.states[k + 1] == ActivatePage(r.states[k], o).s;
    if Owns(r.states[k + 1], activation) {
      FailureAfterCommit(r.states[k + 1], activation, message, a);
    }
  }

  /** A resize asks for its own request on the page being shown. */
  lemma ResizeStarts(s: Viewer, scope: PageScope)
    requires Issued(s) && s.nextRequestId + 1 < U64 && |s.outstanding| < MAX_OUTSTANDING_REQUESTS
    requires s.pendingResize.None? && s.scope == Some(scope)
    ensures var id := s.nextRequestId;
            Step(s, Resize(80, 24), ALL_PREPARED).s
            == s.(viewport := (80, 24), outstanding := s.outstanding + {id}, nextRequestId := id + 1,
                  pendingResize := Some(PendingResize(Owner(scope, id), 80, 24)))
  {
    RequestAges(Resized(s, 80, 24));
  }

  /** Presenting the resized projection of the pending generation commits the
      activation, while the activation's own request stays outstanding. */
  lemma ResizeCommits(s: Viewer, s': Viewer, s'': Viewer, activation: Owner, resize: Owner)
    requires Owns(s, activation) && Owns(s, resize) && activation.id != resize.id && RollsBack(s, resize.scope)
    requires s.pendingResize == Some(PendingResize(resize, 80, 24))
    requires s' == Step(s, ResizeProjectionPrepared(resize, 0), ALL_PREPARED).s
    requires s'' == Step(s', LayoutActivated(resize), ALL_PREPARED).s
    ensures Owns(s'', activation) && s''.pendingHistory.None? && s''.position == Some(s.pendingHistory.value.target)
  {
    assert s' == s.(pendingResize := None, contentHeight := 0);
  }

  /** Show entry `t`, resize, present the resized projection, then fail the
      activation itself: the failure is not rolled back and `t` stays the position. */
  lemma ResizeDefeatsRollback(
    s: Viewer, e: ViewerEvent, t: nat, activation: Owner, resize: Owner, message: Message,
    s1: Viewer, s2: Viewer, s3: Viewer, s4: Viewer)
    requires Issued(s) && CountersFit(s) && Activates(s, e, ALL_PREPARED, t)
    requires activation == Owner(NewScope(s, t), s.nextRequestId)
    requires resize == Owner(NewScope(s, t), s.nextRequestId + 1)
    requires s1 == Step(s, e, ALL_PREPARED).s
    requires s2 == Step(s1, Resize(80, 24), ALL_PREPARED).s
    requires s3 == Step(s2, ResizeProjectionPrepared(resize, 0), ALL_PREPARED).s
    requires s4 == Step(s3, LayoutActivated(resize), ALL_PREPARED).s
    ensures Fails(s4, ParseFailed(activation, message), ALL_PREPARED)
    ensures var s5 := Step(s4, ParseFailed(activation, message), ALL_PREPARED).s;
            s5.phase == Failed && s5.position == Some(t)
  {
    ActivationIssues(s, e, t);
    ResizeStarts(s1, NewScope(s, t));
    ResizeCommits(s2, s3, s4, activation, resize);
    FailureAfterCommit(s4, activation, message, ALL_PREPARED);
  }

  lemma ActivationIssues(s: Viewer, e: ViewerEvent, t: nat)
    requires Issued(s) && CountersFit(s) && Activates(s, e, ALL_PREPARED, t)
    ensures var s1 := Step(s, e, ALL_PREPARED).s;
            && Issued(s1) && s1.outstanding == {s.nextRequestId} && s1.nextRequestId == s.nextRequestId + 1
            && s1.pendingResize.None? && StillShowing(s, t, s1, {})
  {
    ActivationShows(s, e, ALL_PREPARED, t);
    var originChanged := s.scope.Some? && s.scope.value.origin != s.history[t].scope.origin;
    RequestAges(Showing(s, t, NewScope(s, t), originChanged));
  }

  lemma FailureAfterCommit(s: Viewer, o: Owner, message: Message, a: Alloc)
    requires Owns(s, o) && s.pendingHistory.None?
    ensures Fails(s, ParseFailed(o, message), a)
    ensures var s' := Step(s, ParseFailed(o, message), a).s;
            s'.phase == Failed && s'.position == s.position && s'.scope == s.scope
  {
  }

  // ---- a stored retry outlives its page ----

  /** The stored retry belongs to the page that is showing. */
  predicate RetryIsCurrent(s: Viewer) {
    s.pressureRetry.Some? ==> s.pressureRetry.value.Page() == s.scope
  }

  /** The event moves to another page without clearing a stored retry. */
  predicate MovesPageWithRetry(s: Viewer, e: ViewerEvent, a: Alloc) {
    && s.pressureRetry.Some?
    && (|| (ActivationTarget(s, e).Some? && Activates(s, e, a, ActivationTarget(s, e).value))
        || (Fails(s, e, a) && !e.HistoryEvictionRequested? && RollsBack(s, FailingOwner(s, e, a).value.scope))
        || (e.HistoryAdmissionRequested? && Owns(s, e.owner) && RollsBack(s, e.owner.scope)
            && (|e.aml| > MAX_HISTORY_AML_BYTES || (s.currentUri != Some(e.uri) && !a.relabelled)
                || !a.retained || !a.reserved)))
  }

  lemma FailureRetry(s: Viewer, o: Owner, message: Message)
    requires GenerationsIssued(s) && RetryIsCurrent(s) && Owns(s, o)
    ensures RetryIsCurrent(FailOwned(s, o, message).s) <==> !(s.pressureRetry.Some? && RollsBack(s, o.scope))
  {
  }

  lemma DiscoveryRetry(s: Viewer, o: Owner, paths: seq<string>, a: Alloc)
    requires GenerationsIssued(s) && RetryIsCurrent(s) && Owns(s, o)
    ensures RetryIsCurrent(DiscoverModules(s, o, paths, a).s)
            <==> !MovesPageWithRetry(s, WasmDependenciesDiscovered(o, paths), a)
  {
    LoadModulesQuiet(s, o.scope, paths);
    FailureRetry(s, o, WasmBatchTooLarge);
    FailureRetry(s, o, WasmBatchRefused);
    FailureRetry(s, o, WasmOwnerRefused);
  }

  lemma AdmissionRetry(s: Viewer, o: Owner, uri: Uri, aml: string, a: Alloc)
    requires GenerationsIssued(s) && RetryIsCurrent(s) && Owns(s, o)
    ensures RetryIsCurrent(AdmitHistory(s, o, uri, aml, a).s)
            <==> !MovesPageWithRetry(s, HistoryAdmissionRequested(o, uri, aml), a)
  {
    FailureRetry(s, o, HistoryEntryTooLarge);
    FailureRetry(s, o, RelabelRefused);
    FailureRetry(s.(currentUri := Some(uri)), o, HistoryOwnerRefused);
    FailureRetry(s.(currentUri := Some(uri)), o, HistoryEffectsRefused);
  }

  lemma FailingCompletionRetry(s: Viewer, e: ViewerEvent, a: Alloc)
    requires GenerationsIssued(s) && RetryIsCurrent(s) && Guard(e).Some? && Owns(s, Guard(e).value)
    requires e.FetchFailed? || e.ParseFailed? || e.LayoutFailed? || e.ConnectionFailed?
    ensures RetryIsCurrent(Complete(s, e, a).s) <==> !MovesPageWithRetry(s, e, a)
  {
    if e.ConnectionFailed? {
      FailureRetry(s.(connection := Disconnected), e.owner, e.message);
    } else {
      FailureRetry(s, e.owner, e.message);
    }
  }

  lemma PlainCompletionRetry(s: Viewer, e: ViewerEvent, a: Alloc)
    requires RetryIsCurrent(s) && Guard(e).Some?
    requires !e.FetchFailed? && !e.ParseFailed? && !e.LayoutFailed? && !e.ConnectionFailed?
    requires !e.WasmDependenciesDiscovered? && !e.HistoryAdmissionRequested?
    ensures RetryIsCurrent(Complete(s, e, a).s)
  {
  }

  lemma CompletionRetry(s: Viewer, e: ViewerEvent, a: Alloc)
    requires GenerationsIssued(s) && RetryIsCurrent(s) && Guard(e).Some? && Owns(s, Guard(e).value)
    ensures RetryIsCurrent(Complete(s, e, a).s) <==> !MovesPageWithRetry(s, e, a)
  {
    if e.WasmDependenciesDiscovered? {
      DiscoveryRetry(s, e.owner, e.paths, a);
    } else if e.HistoryAdmissionRequested? {
      AdmissionRetry(s, e.owner, e.uri, e.aml, a);
    } else if e.FetchFailed? || e.ParseFailed? || e.LayoutFailed? || e.ConnectionFailed? {
      FailingCompletionRetry(s, e, a);
    } else {
      PlainCompletionRetry(s, e, a);
    }
  }

  lemma PlainReactionRetry(s: Viewer, e: ViewerEvent, a: Alloc)
    requires RetryIsCurrent(s) && Guard(e).None? && ActivationTarget(s, e).None?
    ensures RetryIsCurrent(React(s, e, a).s)
  {
    if LoadsPage(e) {
      LoadRetry(s, e, a);
    } else if !ShowsEntry(e) {
      OtherRetry(s, e, a);
    }
  }

  lemma LoadRetry(s: Viewer, e: ViewerEvent, a: Alloc)
    requires RetryIsCurrent(s) && LoadsPage(e)
    ensures RetryIsCurrent(React(s, e, a).s)
  {
  }

  lemma OtherRetry(s: Viewer, e: ViewerEvent, a: Alloc)
    requires RetryIsCurrent(s) && Guard(e).None? && !LoadsPage(e) && !ShowsEntry(e)
    ensures RetryIsCurrent(React(s, e, a).s)
  {
    if StartsRequest(e) {
      StartRetry(s, e, a);
    } else if e.HistoryEvictionRequested? {
      EvictionRetry(s, e.message, a);
    } else {
      QuietRetry(s, e, a);
    }
  }

  lemma StartRetry(s: Viewer, e: ViewerEvent, a: Alloc)
    requires RetryIsCurrent(s) && StartsRequest(e)
    ensures RetryIsCurrent(React(s, e, a).s)
  {
  }

  lemma EvictionRetry(s: Viewer, message: Message, a: Alloc)
    requires RetryIsCurrent(s)
    ensures RetryIsCurrent(EvictForPressure(s, message, a).s)
  {
  }

  lemma QuietRetry(s: Viewer, e: ViewerEvent, a: Alloc)
    requires RetryIsCurrent(s) && (ProjectsPage(e) || DropsWork(e) || ReportsPressure(e)) && !e.HistoryEvictionRequested?
    ensures RetryIsCurrent(React(s, e, a).s)
  {
  }

  lemma ActivationRetry(s: Viewer, e: ViewerEvent, a: Alloc, t: nat)
    requires GenerationsIssued(s) && CountersFit(s) && Issued(s) && Activates(s, e, a, t)
    ensures ActivateHistoryEntry(s, t, a).s.pressureRetry == s.pressureRetry
    ensures ActivateHistoryEntry(s, t, a).s.scope != s.scope
  {
    ActivationShows(s, e, a, t);
  }

  /** Of the events no request guards, only a move through history shows another page beside a retry. */
  lemma OnlyMovesShow(s: Viewer, e: ViewerEvent, a: Alloc)
    requires Guard(e).None?
    ensures MovesPageWithRetry(s, e, a) <==>
            s.pressureRetry.Some? && ActivationTarget(s, e).Some? && Activates(s, e, a, ActivationTarget(s, e).value)
  {
  }

  lemma MoveRetry(s: Viewer, e: ViewerEvent, a: Alloc, t: nat)
    requires GenerationsIssued(s) && CountersFit(s) && RetryIsCurrent(s) && Issued(s)
    requires ActivationTarget(s, e) == Some(t)
    ensures RetryIsCurrent(ActivateHistoryEntry(s, t, a).s) <==> !(s.pressureRetry.Some? && Activates(s, e, a, t))
  {
    if Activates(s, e, a, t) { ActivationRetry(s, e, a, t); }
  }

  lemma ReactionRetry(s: Viewer, e: ViewerEvent, a: Alloc)
    requires GenerationsIssued(s) && CountersFit(s) && RetryIsCurrent(s) && Guard(e).None? && Issued(s)
    ensures RetryIsCurrent(React(s, e, a).s) <==> !MovesPageWithRetry(s, e, a)
  {
    OnlyMovesShow(s, e, a);
    if ActivationTarget(s, e).Some? {
      MoveRetry(s, e, a, ActivationTarget(s, e).value);
    } else {
      PlainReactionRetry(s, e, a);
    }
  }

  lemma UnownedRetry(s: Viewer, e: ViewerEvent, a: Alloc)
    requires Guard(e).Some? && !Owns(s, Guard(e).value)
    ensures !MovesPageWithRetry(s, e, a)
  {
  }

  /** A stored retry follows its page over every step except exactly those that show
      another page while one is stored: a move through history and its rollback. */
  lemma RetryStaysCurrentIff(s: Viewer, e: ViewerEvent, a: Alloc)
    requires GenerationsIssued(s) && CountersFit(s) && Issued(s) && RetryIsCurrent(s)
    ensures RetryIsCurrent(Step(s, e, a).s) <==> !MovesPageWithRetry(s, e, a)
  {
    if Guard(e).None? {
      ReactionRetry(s, e, a);
    } else if Owns(s, Guard(e).value) {
      CompletionRetry(s, e, a);
    } else {
      UnownedRetry(s, e, a);
    }
  }

  ghost predicate MovesPageWithRetryAt(r: Trace, j: nat) {
    j < |r.states| && j < |r.inputs| && MovesPageWithRetry(r.states[j], r.inputs[j].event, r.inputs[j].alloc)
  }

  lemma RunStepRetry(r: Trace, n: nat)
    requires Run(r) && n < |r.inputs| && GenerationsIssued(r.states[n]) && RetryIsCurrent(r.states[n])
    requires !MovesPageWithRetryAt(r, n)
    ensures GenerationsIssued(r.states[n + 1]) && RetryIsCurrent(r.states[n + 1])
  {
    assert StepAt(r, n);
    RunIssued(r, n);
    GenerationsStayIssued(r.states[n], r.inputs[n].event, r.inputs[n].alloc);
    RetryStaysCurrentIff(r.states[n], r.inputs[n].event, r.inputs[n].alloc);
  }

  /** In every run without such a move the stored retry belongs to the page showing. */
  lemma {:induction false} RetryFollowsPage(r: Trace, n: nat)
    requires Run(r) && n < |r.states| && GenerationsIssued(r.states[0]) && RetryIsCurrent(r.states[0])
    requires forall j :: 0 <= j < n ==> !MovesPageWithRetryAt(r, j)
    ensures GenerationsIssued(r.states[n]) && RetryIsCurrent(r.states[n])
  {
    if n > 0 {
      RetryFollowsPage(r, n - 1);
      RunStepRetry(r, n - 1);
    }
  }
}
