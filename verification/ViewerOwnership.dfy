/** Ownership of page work is never revived (viewer.rs, `request`, `owns` and the
guards of `reduce`). */
module ViewerOwnership {
  import opened Wrappers
  import opened ViewerTypes
  import opened ViewerTables
  import opened ViewerHistory
  import opened ViewerStep

  /** The outstanding ids fit their slots and were all issued before the next one. */
  ghost predicate Issued(s: Viewer) {
    && |s.outstanding| <= MAX_OUTSTANDING_REQUESTS
    && forall id :: id in s.outstanding ==> id < s.nextRequestId
  }

  /** How one state may follow another: ids become outstanding only when newly
      issued, and a change of page scope leaves no older id outstanding. */
  ghost predicate Ages(s: Viewer, s': Viewer) {
    && Issued(s')
    && s.nextRequestId <= s'.nextRequestId
    && (forall id :: id in s'.outstanding ==> id in s.outstanding || id >= s.nextRequestId)
    && (s'.scope != s.scope ==> forall id :: id in s'.outstanding ==> id >= s.nextRequestId)
  }

  lemma AgesTransitively(s: Viewer, m: Viewer, s': Viewer)
    requires Ages(s, m) && Ages(m, s')
    ensures Ages(s, s')
  {
  }

  /** A free slot yields exactly the next id. */
  lemma RequestAges(s: Viewer)
    requires Issued(s) && s.nextRequestId + 1 < U64
    ensures Request(s).Some? <==> |s.outstanding| < MAX_OUTSTANDING_REQUESTS
    ensures Request(s).Some? ==> Request(s).value.1 == s.nextRequestId && Ages(s, Request(s).value.0)
  {
    TryInsertSucceedsIffFree(s.outstanding, s.nextRequestId);
  }

  lemma {:induction false} LoadModulesAges(s: Viewer, scope: PageScope, paths: seq<string>)
    requires Issued(s) && s.nextRequestId + |paths| < U64
    ensures Ages(s, LoadModules(s, scope, paths).s)
    decreases |paths|
  {
    if paths != [] {
      RequestAges(s);
      if Request(s).Some? {
        var m := Request(s).value.0;
        LoadModulesAges(m, scope, paths[1..]);
        AgesTransitively(s, m, LoadModules(m, scope, paths[1..]).s);
      }
    }
  }

  /** Dropping requests ages a state. */
  lemma DropAges(s: Viewer, s': Viewer)
    requires Issued(s)
    requires s'.nextRequestId == s.nextRequestId && s'.outstanding <= s.outstanding
    requires s'.scope == s.scope || s'.outstanding == {}
    ensures Ages(s, s')
  {
    SubsetSize(s'.outstanding, s.outstanding);
  }

  lemma NavigationAges(s: Viewer, uri: Uri, origin: Origin, kind: CommitKind, a: Alloc)
    requires Issued(s) && CountersFit(s)
    ensures Ages(s, BeginNavigation(s, uri, origin, kind, a).s)
  {
    var renewed := Renewed(s, PageScope(origin, Succ(s.generation)), uri, kind);
    DropAges(s, renewed);
    RequestAges(renewed);
  }

  lemma ActivationAges(s: Viewer, index: nat, a: Alloc)
    requires Issued(s) && CountersFit(s)
    ensures Ages(s, ActivateHistoryEntry(s, index, a).s)
  {
    if index < |s.history| {
      var entry := s.history[index];
      var originChanged := s.scope.Some? && s.scope.value.origin != entry.scope.origin;
      var showing := Showing(s, index, PageScope(entry.scope.origin, Succ(s.generation)), originChanged);
      DropAges(s, showing);
      RequestAges(showing);
    }
  }

  lemma FailureAges(s: Viewer, o: Owner, message: Message)
    requires Issued(s)
    ensures Ages(s, FailOwned(s, o, message).s)
  {
  }

  lemma AdmissionAges(s: Viewer, o: Owner, uri: Uri, aml: string, a: Alloc)
    requires Issued(s)
    ensures Ages(s, AdmitHistory(s, o, uri, aml, a).s)
  {
    FailureAges(s, o, HistoryEntryTooLarge);
    FailureAges(s, o, RelabelRefused);
    FailureAges(s.(currentUri := Some(uri)), o, HistoryOwnerRefused);
    FailureAges(s.(currentUri := Some(uri)), o, HistoryEffectsRefused);
  }

  lemma ConnectFailedAges(s: Viewer, o: Owner, message: Message)
    requires Issued(s)
    ensures Ages(s, ConnectFailed(s, o, message).s)
  {
    if s.reconnect == Some(o.id) {
      DropAges(s, ConnectFailed(s, o, message).s);
    } else {
      FailureAges(s.(connection := Disconnected), o, message);
    }
  }

  lemma DiscoveryAges(s: Viewer, o: Owner, paths: seq<string>, a: Alloc)
    requires Issued(s) && CountersFit(s)
    ensures Ages(s, DiscoverModules(s, o, paths, a).s)
  {
    FailureAges(s, o, WasmBatchTooLarge);
    FailureAges(s, o, WasmBatchRefused);
    FailureAges(s, o, WasmOwnerRefused);
    if |paths| <= MAX_OUTSTANDING_REQUESTS {
      LoadModulesAges(s, o.scope, paths);
    }
  }

  lemma EndAges(s: Viewer, e: ViewerEvent, a: Alloc)
    requires Issued(s) && EndsItsRequest(e)
    ensures Ages(s, Complete(s, e, a).s)
  {
    DropAges(s, Complete(s, e, a).s);
  }

  lemma StageAges(s: Viewer, e: ViewerEvent, a: Alloc)
    requires Issued(s) && Guard(e).Some? && !EndsItsRequest(e) && !FailsPage(e)
    requires !e.ConnectionFailed? && !e.HistoryAdmissionRequested? && !e.WasmDependenciesDiscovered?
    ensures Ages(s, Complete(s, e, a).s)
  {
    DropAges(s, Complete(s, e, a).s);
  }

  lemma CompletionAges(s: Viewer, e: ViewerEvent, a: Alloc)
    requires Issued(s) && CountersFit(s) && Guard(e).Some?
    ensures Ages(s, Complete(s, e, a).s)
  {
    if e.ConnectionFailed? {
      ConnectFailedAges(s, e.owner, e.message);
    } else if e.HistoryAdmissionRequested? {
      AdmissionAges(s, e.owner, e.uri, e.aml, a);
    } else if FailsPage(e) {
      FailureAges(s, e.owner, e.message);
    } else if e.WasmDependenciesDiscovered? {
      DiscoveryAges(s, e.owner, e.paths, a);
    } else if EndsItsRequest(e) {
      EndAges(s, e, a);
    } else {
      StageAges(s, e, a);
    }
  }

  lemma LoadAges(s: Viewer, e: ViewerEvent, a: Alloc)
    requires Issued(s) && CountersFit(s) && LoadsPage(e)
    ensures Ages(s, React(s, e, a).s)
  {
    if e.Redirect? {
      NavigationAges(s, e.uri, e.origin, s.historyCommit, a);
    } else if e.Reload? {
      if s.currentUri.Some? && s.scope.Some? {
        NavigationAges(s, s.currentUri.value, s.scope.value.origin, ReplaceCurrent, a);
      }
    } else {
      NavigationAges(s, e.uri, e.origin, Append, a);
    }
  }

  lemma ResizeAges(s: Viewer, width: nat, height: nat, a: Alloc)
    requires Issued(s) && CountersFit(s)
    ensures Ages(s, ResizeTo(s, width, height, a).s)
  {
    var resized := Resized(s, width, height);
    DropAges(s, resized);
    RequestAges(resized);
  }

  lemma EvictionAges(s: Viewer, message: Message, a: Alloc)
    requires Issued(s)
    ensures Ages(s, EvictForPressure(s, message, a).s)
  {
    if s.pressureRetry.Some? && s.pressureRetry.value.FailsWithItsOperation() {
      FailureAges(s.(pressureRetry := None), s.pressureRetry.value.owner, message);
    }
  }

  lemma StartAges(s: Viewer, e: ViewerEvent, a: Alloc)
    requires Issued(s) && CountersFit(s) && StartsRequest(e) && !e.Resize?
    ensures Ages(s, React(s, e, a).s)
  {
    if e.Timer? {
      WorkAges(s, a, o => TickWasm(Some(o)));
    } else if e.WasmRequested? {
      WorkAges(s, a, o => LoadWasm(o, e.path));
    } else if e.DeferredNavigationRequested? {
      WorkAges(s, a, o => DeferNavigation(o));
    } else if e.SubscribeRequested? {
      SubscriptionAges(s, e.region, a);
    } else {
      TransportAges(s, a);
    }
  }

  lemma WorkAges(s: Viewer, a: Alloc, effect: Owner -> ViewerEffect)
    requires Issued(s) && CountersFit(s)
    ensures Ages(s, Start(s, a, effect).s)
  {
    RequestAges(s);
  }

  lemma SubscriptionAges(s: Viewer, region: Region, a: Alloc)
    requires Issued(s) && CountersFit(s)
    ensures Ages(s, StartSubscription(s, region, a).s)
  {
    RequestAges(s);
  }

  lemma TransportAges(s: Viewer, a: Alloc)
    requires Issued(s) && CountersFit(s)
    ensures Ages(s, LoseTransport(s, a).s)
  {
    RequestAges(s);
  }

  lemma DroppedAges(s: Viewer, e: ViewerEvent, a: Alloc)
    requires Issued(s) && DropsWork(e)
    ensures Ages(s, React(s, e, a).s)
  {
    DropAges(s, React(s, e, a).s);
  }

  lemma QuietAges(s: Viewer, e: ViewerEvent, a: Alloc)
    requires Issued(s) && (ProjectsPage(e) || ReportsPressure(e)) && !e.HistoryEvictionRequested?
    ensures Ages(s, React(s, e, a).s)
  {
  }

  lemma ReactionAges(s: Viewer, e: ViewerEvent, a: Alloc)
    requires Issued(s) && CountersFit(s) && Guard(e).None?
    ensures Ages(s, React(s, e, a).s)
  {
    if LoadsPage(e) {
      LoadAges(s, e, a);
    } else if ShowsEntry(e) {
      if ActivationTarget(s, e).Some? { ActivationAges(s, ActivationTarget(s, e).value, a); }
    } else if e.Resize? {
      ResizeAges(s, e.width, e.height, a);
    } else if StartsRequest(e) {
      StartAges(s, e, a);
    } else if e.HistoryEvictionRequested? {
      EvictionAges(s, e.message, a);
    } else if DropsWork(e) {
      DroppedAges(s, e, a);
    } else {
      QuietAges(s, e, a);
    }
  }

  /** Every event ages the state. */
  lemma StepAges(s: Viewer, e: ViewerEvent, a: Alloc)
    requires Issued(s) && CountersFit(s)
    ensures Ages(s, Step(s, e, a).s)
  {
    if Guard(e).None? {
      ReactionAges(s, e, a);
    } else if Owns(s, Guard(e).value) {
      CompletionAges(s, e, a);
    }
  }

  // ---- whole runs ----

  /** A run in which no counter wraps. */
  ghost predicate Run(r: Trace) {
    && IsRun(r)
    && (forall i :: 0 <= i < |r.states| ==> CountersFit(r.states[i]))
    && Issued(r.states[0])
  }

  lemma RunStepAges(r: Trace, i: nat)
    requires Run(r) && i < |r.inputs| && Issued(r.states[i])
    ensures Ages(r.states[i], r.states[i + 1])
  {
    assert StepAt(r, i);
    StepAges(r.states[i], r.inputs[i].event, r.inputs[i].alloc);
  }

  lemma {:induction false} RunIssued(r: Trace, i: nat)
    requires Run(r) && i < |r.states|
    ensures Issued(r.states[i])
  {
    if i > 0 {
      RunIssued(r, i - 1);
      RunStepAges(r, i - 1);
    }
  }

  lemma {:induction false} RunAges(r: Trace, i: nat, j: nat)
    requires Run(r) && i <= j < |r.states|
    ensures Issued(r.states[i]) && Ages(r.states[i], r.states[j])
    decreases j
  {
    RunIssued(r, i);
    if i < j {
      RunAges(r, i, j - 1);
      RunStepAges(r, j - 1);
      AgesTransitively(r.states[i], r.states[j - 1], r.states[j]);
    }
  }

  /** The ids input `i` of a run made outstanding. */
  ghost function IssuedBy(r: Trace, i: nat): set<RequestId>
    requires i + 1 < |r.states|
  {
    r.states[i + 1].outstanding - r.states[i].outstanding
  }

  /** Over every run no request id is issued twice. */
  lemma IssuedOnce(r: Trace, i: nat, j: nat)
    requires Run(r) && i < j < |r.inputs|
    ensures IssuedBy(r, i) !! IssuedBy(r, j)
  {
    RunAges(r, i, i + 1);
    RunAges(r, i + 1, j);
    RunAges(r, j, j + 1);
  }

  /** Over every run, an owner that stopped being owned is never owned again,
      even after a failed history activation brought an older scope back. */
  lemma {:induction false} NeverRevived(r: Trace, o: Owner, i: nat, j: nat, k: nat)
    requires Run(r) && i <= j <= k < |r.states|
    requires Owns(r.states[i], o) && !Owns(r.states[j], o)
    ensures !Owns(r.states[k], o)
    decreases k
  {
    RunAges(r, i, j);
    if j < k {
      NeverRevived(r, o, i, j, k - 1);
      RunAges(r, i, k - 1);
      RunAges(r, k - 1, k);
    }
  }

  /** Delivering a completion guarded by such an owner changes nothing and emits nothing. */
  lemma StaleCompletionsAreInert(r: Trace, e: ViewerEvent, a: Alloc, i: nat, j: nat, k: nat)
    requires Run(r) && i <= j <= k < |r.states|
    requires Guard(e).Some? && Owns(r.states[i], Guard(e).value) && !Owns(r.states[j], Guard(e).value)
    ensures Step(r.states[k], e, a) == Out(r.states[k], [])
  {
    NeverRevived(r, Guard(e).value, i, j, k);
  }
}
