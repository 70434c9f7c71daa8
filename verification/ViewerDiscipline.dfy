/** The subscription tables under a disciplined environment: every completion
answers an effect the reducer emitted (viewer.rs, `SubscriptionOwnership` and the
subscription arms of `reduce`). */
module ViewerDiscipline {
  import opened Wrappers
  import opened ViewerTypes
  import opened ViewerTables
  import opened ViewerHistory
  import opened ViewerStep
  import opened ViewerOwnership
  import opened ViewerLedger

  /** `retry` asks for the work of `f` again; a presentation action may be resumed by another one. */
  predicate Retries(retry: PressureRetry, f: ViewerEffect) {
    || f == retry.IntoEffect()
    || (retry.RetryPresentation? && f.ApplyPresentationAction? && f.page == retry.scope)
  }

  /** `e` completes, fails or retries the work `f` asked for. */
  predicate Answers(e: ViewerEvent, f: ViewerEffect) {
    match e
    case ConnectionMade(o) => f == Connect(o)
    case ConnectionFailed(o, _) => f == Connect(o)
    case FetchCompleted(o) => (f.Fetch? || f.Submit?) && f.owner == o
    case FetchFailed(o, _) => (f.Fetch? || f.Submit?) && f.owner == o
    case HistoryAdmissionRequested(o, _, _) => (f.Fetch? || f.Submit?) && f.owner == o
    case HistoryCommitted(o, id) => f.AdmitHistoryArtifact? && f.owner == o && f.id == id
    case ParseCompleted(o) => (f.Parse? || f.ActivateCachedHistory?) && f.owner == o
    case ParseFailed(o, _) => (f.Parse? || f.ActivateCachedHistory?) && f.owner == o
    case WasmDependenciesDiscovered(o, _) => (f.Parse? || f.ActivateCachedHistory?) && f.owner == o
    case LayoutPrepared(o, _) => (f.PrepareLayout? || f.InstallHistoryArtifact?) && f.owner == o
    case ResizeProjectionPrepared(o, _) => f.PrepareResizeProjection? && f.owner == o
    case LayoutActivated(o) => f == ActivateLayout(o)
    case LayoutFailed(o, _) =>
      (f.PrepareLayout? || f.ActivateLayout? || f.PrepareResizeProjection? || f.InstallHistoryArtifact?) && f.owner == o
    case WasmPrepared(o) => (f.LoadWasm? && f.owner == o) || f == TickWasm(Some(o))
    case WasmActivated(o) => f == ActivateWasm(o)
    case WasmRejected(o) => (f.LoadWasm? || f.ActivateWasm?) && f.owner == o
    case SubscriptionCompleted(o, region) => f == Subscribe(o, region)
    case SubscriptionFailed(o) => f.Subscribe? && f.owner == o
    case DeferredNavigationCompleted(o) => f == DeferNavigation(o)
    case DeferredNavigationRejected(o) => f == DeferNavigation(o)
    case PresentationFailed(_, retry) => retry.Some? && Retries(retry.value, f)
    case _ => false
  }

  /** Events that answer nothing are always possible; the others need their effect. */
  ghost predicate Answered(e: ViewerEvent, log: set<ViewerEffect>) {
    (Guard(e).Some? || (e.PresentationFailed? && e.retry.Some?)) ==> exists f :: f in log && Answers(e, f)
  }

  /** The request a non-subscription effect carries. */
  function PageRequest(f: ViewerEffect): Option<RequestId> {
    match f
    case Connect(o) => Some(o.id)
    case Fetch(o, _) => Some(o.id)
    case Submit(o, _, _, _) => Some(o.id)
    case Parse(o) => Some(o.id)
    case PrepareLayout(o) => Some(o.id)
    case PrepareResizeProjection(o, _, _) => Some(o.id)
    case AdmitHistoryArtifact(o, _, _) => Some(o.id)
    case InstallHistoryArtifact(o, _) => Some(o.id)
    case ActivateLayout(o) => Some(o.id)
    case LoadWasm(o, _) => Some(o.id)
    case ActivateWasm(o) => Some(o.id)
    case ActivateCachedHistory(o, _) => Some(o.id)
    case TickWasm(o) => if o.Some? then Some(o.value.id) else None
    case DeferNavigation(o) => Some(o.id)
    case ResumeNavigation(o) => Some(o.id)
    case _ => None
  }

  ghost predicate IsPageRequest(log: set<ViewerEffect>, id: RequestId) {
    exists f :: f in log && PageRequest(f) == Some(id)
  }

  ghost predicate IsSubscription(log: set<ViewerEffect>, id: RequestId) {
    exists f :: f in log && f.Subscribe? && f.owner.id == id
  }

  ghost predicate DistinctRequests(slots: SubscriptionSlots) {
    forall i, j :: 0 <= i < j < |slots| && slots[i].Some? && slots[j].Some? ==> slots[i].value.0 != slots[j].value.0
  }

  /** What the log of emitted effects says about request ids: none serves both
      as a page request and as a subscription, and all were issued. */
  ghost predicate Families(log: set<ViewerEffect>, next: RequestId) {
    && (forall f, g :: f in log && g in log && f.Subscribe? ==> PageRequest(g) != Some(f.owner.id))
    && (forall f :: f in log && f.Subscribe? ==> f.owner.id < next)
    && (forall f :: f in log && PageRequest(f).Some? ==> PageRequest(f).value < next)
  }

  /** A retry that carries a request was emitted as it stands. */
  ghost predicate WasAsked(retry: PressureRetry, log: set<ViewerEffect>) {
    retry.RetryPresentation? || retry.IntoEffect() in log
  }

  ghost predicate Tabled(s: Viewer, log: set<ViewerEffect>) {
    && |s.subscriptions| == MAX_ACTIVE_SUBSCRIPTIONS && |s.pendingSubscriptions| == MAX_ACTIVE_SUBSCRIPTIONS
    && Count(s.subscriptions) + Count(s.pendingSubscriptions) <= MAX_ACTIVE_SUBSCRIPTIONS
    && DistinctRequests(s.pendingSubscriptions)
    && (forall i :: 0 <= i < |s.pendingSubscriptions| && s.pendingSubscriptions[i].Some? ==>
          && s.pendingSubscriptions[i].value.0 in s.outstanding
          && IsSubscription(log, s.pendingSubscriptions[i].value.0))
    && Families(log, s.nextRequestId)
    && (s.pendingResize.Some? ==> IsPageRequest(log, s.pendingResize.value.owner.id))
    && (s.pressureRetry.Some? ==> WasAsked(s.pressureRetry.value, log))
  }

  ghost function Logged(log: set<ViewerEffect>, effects: seq<ViewerEffect>): set<ViewerEffect> {
    log + set f | f in effects
  }

  ghost predicate NoneHeld(slots: SubscriptionSlots) {
    |slots| == MAX_ACTIVE_SUBSCRIPTIONS && forall i :: 0 <= i < |slots| ==> slots[i].None?
  }

  /** The tables are kept as they are, or emptied. */
  ghost predicate SlotsKept(s: Viewer, s': Viewer) {
    || (&& s'.pendingSubscriptions == s.pendingSubscriptions && s'.subscriptions == s.subscriptions
        && forall i :: 0 <= i < |s.pendingSubscriptions| && s.pendingSubscriptions[i].Some?
                       && s.pendingSubscriptions[i].value.0 in s.outstanding ==>
             s.pendingSubscriptions[i].value.0 in s'.outstanding)
    || (NoneHeld(s'.pendingSubscriptions) && (s'.subscriptions == s.subscriptions || NoneHeld(s'.subscriptions)))
  }

  /** The effects start no subscription and carry known or newly issued page requests. */
  ghost predicate EffectsKnown(s: Viewer, log: set<ViewerEffect>, out: Out) {
    forall f :: f in out.effects ==>
      && !f.Subscribe?
      && (PageRequest(f).Some? ==>
            || IsPageRequest(log, PageRequest(f).value)
            || s.nextRequestId <= PageRequest(f).value < out.s.nextRequestId)
  }

  /** Work remembered for later was asked for. */
  ghost predicate PromisesKept(s: Viewer, log: set<ViewerEffect>, out: Out) {
    && (out.s.pendingResize.Some? ==>
          || out.s.pendingResize == s.pendingResize
          || PrepareResizeProjection(out.s.pendingResize.value.owner, out.s.pendingResize.value.width,
                                     out.s.pendingResize.value.height) in out.effects)
    && (out.s.pressureRetry.Some? ==>
          out.s.pressureRetry == s.pressureRetry || WasAsked(out.s.pressureRetry.value, log))
  }

  ghost predicate Orderly(s: Viewer, log: set<ViewerEffect>, out: Out) {
    && s.nextRequestId <= out.s.nextRequestId
    && SlotsKept(s, out.s) && EffectsKnown(s, log, out) && PromisesKept(s, log, out)
  }

  lemma FamiliesGrow(s: Viewer, log: set<ViewerEffect>, out: Out)
    requires Families(log, s.nextRequestId) && EffectsKnown(s, log, out) && s.nextRequestId <= out.s.nextRequestId
    ensures Families(Logged(log, out.effects), out.s.nextRequestId)
  {
    var log' := Logged(log, out.effects);
    forall f, g | f in log' && g in log' && f.Subscribe?
      ensures PageRequest(g) != Some(f.owner.id)
    {
      assert f in log;
    }
  }

  lemma OrderlyKeepsTables(s: Viewer, log: set<ViewerEffect>, out: Out)
    requires Tabled(s, log) && Orderly(s, log, out)
    ensures Tabled(out.s, Logged(log, out.effects))
  {
    FamiliesGrow(s, log, out);
    if NoneHeld(out.s.pendingSubscriptions) { CountEmpty(out.s.pendingSubscriptions); }
    if NoneHeld(out.s.subscriptions) { CountEmpty(out.s.subscriptions); }
    var log' := Logged(log, out.effects);
    assert log <= log';
    if out.s.pendingResize.Some? && out.s.pendingResize != s.pendingResize {
      var p := out.s.pendingResize.value;
      var f := PrepareResizeProjection(p.owner, p.width, p.height);
      assert f in log' && PageRequest(f) == Some(p.owner.id);
    } else if out.s.pendingResize.Some? {
      var f :| f in log && PageRequest(f) == Some(s.pendingResize.value.owner.id);
      assert f in log';
    }
    forall i | 0 <= i < |out.s.pendingSubscriptions| && out.s.pendingSubscriptions[i].Some?
      ensures IsSubscription(log', out.s.pendingSubscriptions[i].value.0)
    {
      var f :| f in log && f.Subscribe? && f.owner.id == s.pendingSubscriptions[i].value.0;
      assert f in log';
    }
  }

  /** A page request is never a pending subscription. */
  lemma PageRequestNotPending(s: Viewer, log: set<ViewerEffect>, id: RequestId)
    requires Tabled(s, log) && IsPageRequest(log, id)
    ensures forall i :: 0 <= i < |s.pendingSubscriptions| && s.pendingSubscriptions[i].Some? ==>
              s.pendingSubscriptions[i].value.0 != id
  {
    forall i | 0 <= i < |s.pendingSubscriptions| && s.pendingSubscriptions[i].Some?
      ensures s.pendingSubscriptions[i].value.0 != id
    {
      assert IsSubscription(log, s.pendingSubscriptions[i].value.0);
      var f :| f in log && f.Subscribe? && f.owner.id == s.pendingSubscriptions[i].value.0;
      var g :| g in log && PageRequest(g) == Some(id);
    }
  }

  // ---- events ----

  lemma AnsweredPageRequest(e: ViewerEvent, log: set<ViewerEffect>)
    requires Answered(e, log) && Guard(e).Some? && !e.SubscriptionCompleted? && !e.SubscriptionFailed?
    ensures IsPageRequest(log, Guard(e).value.id)
  {
    var f :| f in log && Answers(e, f);
    assert PageRequest(f) == Some(Guard(e).value.id);
  }

  lemma FailureOrderly(s: Viewer, log: set<ViewerEffect>, o: Owner, message: Message)
    ensures Orderly(s, log, FailOwned(s, o, message))
  {
  }

  lemma {:induction false} LoadModulesOrderly(s: Viewer, log: set<ViewerEffect>, scope: PageScope, paths: seq<string>)
    requires Issued(s) && s.nextRequestId + |paths| < U64
    ensures Orderly(s, log, LoadModules(s, scope, paths))
    decreases |paths|
  {
    LoadModulesQuiet(s, scope, paths);
    if paths != [] {
      RequestAges(s);
      if Request(s).Some? {
        LoadModulesOrderly(Request(s).value.0, log, scope, paths[1..]);
      }
    }
  }

  lemma DiscoveryOrderly(s: Viewer, log: set<ViewerEffect>, o: Owner, paths: seq<string>, a: Alloc)
    requires Issued(s) && CountersFit(s)
    ensures Orderly(s, log, DiscoverModules(s, o, paths, a))
  {
    if |paths| > MAX_OUTSTANDING_REQUESTS - |s.outstanding| {
      FailureOrderly(s, log, o, WasmBatchTooLarge);
    } else if !a.prepared {
      FailureOrderly(s, log, o, WasmBatchRefused);
    } else if !a.retained && paths != [] {
      FailureOrderly(s, log, o, WasmOwnerRefused);
    } else {
      LoadModulesOrderly(s, log, o.scope, paths);
    }
  }

  lemma AdmissionOrderly(s: Viewer, log: set<ViewerEffect>, o: Owner, uri: Uri, aml: string, a: Alloc)
    requires IsPageRequest(log, o.id)
    ensures Orderly(s, log, AdmitHistory(s, o, uri, aml, a))
  {
    FailureOrderly(s, log, o, HistoryEntryTooLarge);
    FailureOrderly(s, log, o, RelabelRefused);
    FailureOrderly(s.(currentUri := Some(uri)), log, o, HistoryOwnerRefused);
    FailureOrderly(s.(currentUri := Some(uri)), log, o, HistoryEffectsRefused);
  }

  lemma CommitOrderly(s: Viewer, log: set<ViewerEffect>, p: PendingCommit)
    requires IsPageRequest(log, p.owner.id)
    ensures Orderly(s, log, CommitPending(s, p))
  {
    var c := CommitEntry(s.history, s.position, p.commit, HistoryEntry(p.id, p.owner.scope, p.uri, p.aml));
    ReleasesShape(c.removed);
  }

  lemma ConnectFailedOrderly(s: Viewer, log: set<ViewerEffect>, o: Owner, message: Message)
    requires forall i :: 0 <= i < |s.pendingSubscriptions| && s.pendingSubscriptions[i].Some? ==>
               s.pendingSubscriptions[i].value.0 != o.id
    ensures Orderly(s, log, ConnectFailed(s, o, message))
  {
    FailureOrderly(s.(connection := Disconnected), log, o, message);
  }

  /** The request is not one a pending subscription waits for. */
  ghost predicate NotPending(s: Viewer, id: RequestId) {
    forall i :: 0 <= i < |s.pendingSubscriptions| && s.pendingSubscriptions[i].Some? ==>
      s.pendingSubscriptions[i].value.0 != id
  }

  lemma EndOrderly(s: Viewer, log: set<ViewerEffect>, e: ViewerEvent, a: Alloc)
    requires EndsItsRequest(e) && !e.SubscriptionCompleted? && !e.SubscriptionFailed?
    requires IsPageRequest(log, e.owner.id) && NotPending(s, e.owner.id)
    ensures Orderly(s, log, Complete(s, e, a))
  {
  }

  lemma StageOrderly(s: Viewer, log: set<ViewerEffect>, e: ViewerEvent, a: Alloc)
    requires Guard(e).Some? && !EndsItsRequest(e) && !FailsPage(e) && !e.WasmDependenciesDiscovered?
    requires !e.HistoryAdmissionRequested? && !e.HistoryCommitted? && !e.ConnectionFailed?
    requires IsPageRequest(log, e.owner.id) && NotPending(s, e.owner.id)
    ensures Orderly(s, log, Complete(s, e, a))
  {
  }

  lemma PageCompletionOrderly(s: Viewer, log: set<ViewerEffect>, e: ViewerEvent, a: Alloc)
    requires Tabled(s, log) && Issued(s) && CountersFit(s) && Answered(e, log) && Guard(e).Some?
    requires !e.SubscriptionCompleted? && !e.SubscriptionFailed?
    ensures Orderly(s, log, Complete(s, e, a))
  {
    AnsweredPageRequest(e, log);
    PageRequestNotPending(s, log, Guard(e).value.id);
    if e.WasmDependenciesDiscovered? {
      DiscoveryOrderly(s, log, e.owner, e.paths, a);
    } else if e.HistoryAdmissionRequested? {
      AdmissionOrderly(s, log, e.owner, e.uri, e.aml, a);
    } else if e.HistoryCommitted? {
      if s.pendingCommit.Some? && s.pendingCommit.value.owner == e.owner && s.pendingCommit.value.id == e.id {
        CommitOrderly(s, log, s.pendingCommit.value);
      }
    } else if e.ConnectionFailed? {
      ConnectFailedOrderly(s, log, e.owner, e.message);
    } else if FailsPage(e) {
      FailureOrderly(s, log, e.owner, e.message);
    } else if EndsItsRequest(e) {
      EndOrderly(s, log, e, a);
    } else {
      StageOrderly(s, log, e, a);
    }
  }

  lemma RetryKnown(s: Viewer, log: set<ViewerEffect>)
    requires Tabled(s, log)
    ensures RetryIsKnown(s, log)
  {
    if s.pressureRetry.Some? && !s.pressureRetry.value.RetryPresentation? {
      var f := s.pressureRetry.value.IntoEffect();
      assert f in log;
    }
  }

  /** The retry's effect, if it is one of the page's, was asked for before. */
  ghost predicate RetryIsKnown(s: Viewer, log: set<ViewerEffect>) {
    forall f :: f in RetryEffects(s.pressureRetry) ==>
      !f.Subscribe? && (PageRequest(f).Some? ==> IsPageRequest(log, PageRequest(f).value))
  }

  lemma EvictedOrderly(s: Viewer, log: set<ViewerEffect>, i: nat, position: Option<nat>, rest: seq<ViewerEffect>)
    requires i < |s.history|
    requires forall f :: f in rest ==> !f.Subscribe? && (PageRequest(f).Some? ==> IsPageRequest(log, PageRequest(f).value))
    ensures Orderly(s, log, Out(s.(history := Without(s.history, i), position := position, pressureRetry := None),
                                [ReleaseHistoryArtifact(s.history[i].id)] + rest + [RenderTerminal]))
  {
  }

  lemma DefeatOrderly(s: Viewer, log: set<ViewerEffect>, message: Message)
    ensures Orderly(s, log,
      Out(s.(pressureRetry := None, phase := Failed, connection := Disconnected, focused := None,
             subscriptions := NoSubscriptions(), pendingSubscriptions := NoSubscriptions(), outstanding := {},
             reconnect := None, pendingResize := None),
          RetireOld(s.scope, false) + [ActivateErrorPage(message), RenderTerminal]))
  {
  }

  lemma EvictionOrderly(s: Viewer, log: set<ViewerEffect>, message: Message, a: Alloc)
    requires RetryIsKnown(s, log)
    ensures Orderly(s, log, EvictForPressure(s, message, a))
  {
    var i := Evictable(s, 0);
    if i < |s.history| {
      EvictedOrderly(s, log, i, ShiftDown(s.position, i), RetryEffects(s.pressureRetry));
    } else if s.pressureRetry.Some? && s.pressureRetry.value.FailsWithItsOperation() {
      FailureOrderly(s.(pressureRetry := None), log, s.pressureRetry.value.owner, message);
      assert EvictForPressure(s, message, a)
             == FailOwned(s.(pressureRetry := None), s.pressureRetry.value.owner, message);
    } else if s.scope.Some? && !a.prepared {
      assert EvictForPressure(s, message, a) == Out(s, []);
    } else {
      DefeatOrderly(s, log, message);
    }
  }

  lemma NavigationOrderly(s: Viewer, log: set<ViewerEffect>, uri: Uri, origin: Origin, kind: CommitKind, a: Alloc)
    requires Issued(s) && CountersFit(s)
    ensures Orderly(s, log, BeginNavigation(s, uri, origin, kind, a))
  {
    var renewed := Renewed(s, PageScope(origin, Succ(s.generation)), uri, kind);
    DropAges(s, renewed);
    RequestAges(renewed);
  }

  lemma SubmissionOrderly(
    s: Viewer, log: set<ViewerEffect>, uri: Uri, origin: Origin, path: string, formData: string, a: Alloc)
    requires Issued(s) && CountersFit(s)
    ensures Orderly(s, log, SubmitForm(s, uri, origin, path, formData, a))
  {
    var load := BeginNavigation(s, uri, origin, Append, a);
    NavigationOrderly(s, log, uri, origin, Append, a);
    if load.effects != [] {
      assert load.effects[|load.effects| - 1] in load.effects;
    }
  }

  lemma ActivationOrderly(s: Viewer, log: set<ViewerEffect>, index: nat, a: Alloc)
    requires Issued(s) && CountersFit(s)
    ensures Orderly(s, log, ActivateHistoryEntry(s, index, a))
  {
    if index < |s.history| {
      var entry := s.history[index];
      var originChanged := s.scope.Some? && s.scope.value.origin != entry.scope.origin;
      var showing := Showing(s, index, PageScope(entry.scope.origin, Succ(s.generation)), originChanged);
      DropAges(s, showing);
      RequestAges(showing);
    }
  }

  lemma ResizeOrderly(s: Viewer, log: set<ViewerEffect>, width: nat, height: nat, a: Alloc)
    requires Tabled(s, log) && Issued(s) && CountersFit(s)
    ensures Orderly(s, log, ResizeTo(s, width, height, a))
  {
    if s.scope.Some? && a.prepared {
      var resized := Resized(s, width, height);
      SupersedeOrderly(s, log, width, height);
      DropAges(s, resized);
      RequestAges(resized);
      ProjectionStarts(s, log, resized, width, height, ResizeTo(s, width, height, a));
    }
  }

  /** Forgetting the superseded projection drops no request a subscription waits for. */
  lemma SupersedeOrderly(s: Viewer, log: set<ViewerEffect>, width: nat, height: nat)
    requires Tabled(s, log)
    ensures SlotsKept(s, Resized(s, width, height))
    ensures Resized(s, width, height).pressureRetry.Some? ==> Resized(s, width, height).pressureRetry == s.pressureRetry
    ensures Resized(s, width, height).pendingResize.None?
  {
    if s.pendingResize.Some? {
      PageRequestNotPending(s, log, s.pendingResize.value.owner.id);
    }
  }

  lemma ProjectionStarts(s: Viewer, log: set<ViewerEffect>, resized: Viewer, width: nat, height: nat, out: Out)
    requires SlotsKept(s, resized) && resized.pendingResize.None? && s.nextRequestId == resized.nextRequestId
    requires resized.subscriptions == s.subscriptions && resized.pendingSubscriptions == s.pendingSubscriptions
    requires resized.pressureRetry.Some? ==> resized.pressureRetry == s.pressureRetry
    requires s.scope.Some?
    requires Request(resized).Some? ==>
               && Ages(resized, Request(resized).value.0) && Request(resized).value.1 == resized.nextRequestId
               && Request(resized).value.0.nextRequestId == resized.nextRequestId + 1
    requires out == match Request(resized) {
                      case None => Out(resized, [])
                      case Some((s', id)) =>
                        Out(s'.(pendingResize := Some(PendingResize(Owner(s.scope.value, id), width, height))),
                            [PrepareResizeProjection(Owner(s.scope.value, id), width, height)])
                    }
    ensures Orderly(s, log, out)
  {
  }

  lemma AnsweredRetry(log: set<ViewerEffect>, message: Message, retry: Option<PressureRetry>)
    requires Answered(PresentationFailed(message, retry), log)
    ensures retry.Some? ==> WasAsked(retry.value, log)
  {
  }

  lemma PresentationOrderly(s: Viewer, log: set<ViewerEffect>, message: Message, retry: Option<PressureRetry>)
    requires retry.Some? ==> WasAsked(retry.value, log)
    ensures Orderly(s, log, PresentationLost(s, message, retry))
  {
  }

  /** Events that start one request of their own. */
  lemma WorkOrderly(s: Viewer, log: set<ViewerEffect>, e: ViewerEvent, a: Alloc)
    requires Issued(s) && CountersFit(s) && StartsRequest(e) && !e.SubscribeRequested? && !e.Resize?
    ensures Orderly(s, log, React(s, e, a))
  {
    if e.TransportLost? {
      ReconnectOrderly(s, log, a);
    } else if e.Timer? {
      TickOrderly(s, log, a);
    } else if e.WasmRequested? {
      StartOrderly(s, log, a, o => LoadWasm(o, e.path));
    } else {
      StartOrderly(s, log, a, o => DeferNavigation(o));
    }
  }

  lemma ReconnectOrderly(s: Viewer, log: set<ViewerEffect>, a: Alloc)
    requires Issued(s) && CountersFit(s)
    ensures Orderly(s, log, LoseTransport(s, a))
  {
    RequestAges(s);
  }

  lemma TickOrderly(s: Viewer, log: set<ViewerEffect>, a: Alloc)
    requires Issued(s) && CountersFit(s)
    ensures Orderly(s, log, Tick(s, a))
  {
    StartOrderly(s, log, a, o => TickWasm(Some(o)));
  }

  lemma StartOrderly(s: Viewer, log: set<ViewerEffect>, a: Alloc, effect: Owner -> ViewerEffect)
    requires Issued(s) && CountersFit(s)
    requires forall o :: !effect(o).Subscribe? && (PageRequest(effect(o)).Some? ==> PageRequest(effect(o)).value == o.id)
    ensures Orderly(s, log, Start(s, a, effect))
  {
    RequestAges(s);
  }

  lemma ProjectionOrderly(s: Viewer, log: set<ViewerEffect>, e: ViewerEvent, a: Alloc)
    requires ProjectsPage(e)
    ensures Orderly(s, log, React(s, e, a))
  {
  }

  lemma DropOrderly(s: Viewer, log: set<ViewerEffect>, e: ViewerEvent, a: Alloc)
    requires DropsWork(e)
    ensures Orderly(s, log, React(s, e, a))
  {
  }

  lemma ReliefOrderly(s: Viewer, log: set<ViewerEffect>, e: ViewerEvent, a: Alloc)
    requires RetryIsKnown(s, log) && e.ResourceEvictionCompleted?
    ensures Orderly(s, log, React(s, e, a))
  {
  }

  lemma LoadOrderly(s: Viewer, log: set<ViewerEffect>, e: ViewerEvent, a: Alloc)
    requires Issued(s) && CountersFit(s) && LoadsPage(e)
    ensures Orderly(s, log, React(s, e, a))
  {
    if e.InitialNavigation? || e.Navigate? {
      NavigationOrderly(s, log, e.uri, e.origin, Append, a);
    } else if e.Redirect? {
      NavigationOrderly(s, log, e.uri, e.origin, s.historyCommit, a);
    } else if e.FormSubmitted? {
      SubmissionOrderly(s, log, e.uri, e.origin, e.path, e.formData, a);
    } else if s.currentUri.Some? && s.scope.Some? {
      NavigationOrderly(s, log, s.currentUri.value, s.scope.value.origin, ReplaceCurrent, a);
    }
  }

  lemma MoveOrderly(s: Viewer, log: set<ViewerEffect>, e: ViewerEvent, a: Alloc)
    requires Issued(s) && CountersFit(s) && ShowsEntry(e)
    ensures Orderly(s, log, React(s, e, a))
  {
    if ActivationTarget(s, e).Some? {
      ActivationOrderly(s, log, ActivationTarget(s, e).value, a);
    }
  }

  lemma ReactionOrderly(s: Viewer, log: set<ViewerEffect>, e: ViewerEvent, a: Alloc)
    requires Tabled(s, log) && Issued(s) && CountersFit(s) && Guard(e).None? && Answered(e, log)
    requires !e.SubscribeRequested?
    ensures Orderly(s, log, React(s, e, a))
  {
    RetryKnown(s, log);
    if LoadsPage(e) {
      LoadOrderly(s, log, e, a);
    } else if ProjectsPage(e) {
      ProjectionOrderly(s, log, e, a);
    } else if DropsWork(e) {
      DropOrderly(s, log, e, a);
    } else if e.ResourceEvictionCompleted? {
      ReliefOrderly(s, log, e, a);
    } else if e.HistoryEvictionRequested? {
      EvictionOrderly(s, log, e.message, a);
    } else if e.PresentationFailed? {
      AnsweredRetry(log, e.message, e.retry);
      PresentationOrderly(s, log, e.message, e.retry);
    } else if e.Resize? {
      ResizeOrderly(s, log, e.width, e.height, a);
    } else if ShowsEntry(e) {
      MoveOrderly(s, log, e, a);
    } else {
      WorkOrderly(s, log, e, a);
    }
  }

  // ---- the three subscription arms ----

  lemma InsertHolds(slots: SubscriptionSlots, id: RequestId, region: Region)
    requires Count(slots) < |slots| && DistinctRequests(slots)
    requires forall i :: 0 <= i < |slots| && slots[i].Some? ==> slots[i].value.0 != id
    ensures DistinctRequests(Insert(slots, (id, region)))
    ensures forall i :: 0 <= i < |slots| && Insert(slots, (id, region))[i].Some? ==>
              Insert(slots, (id, region))[i] == slots[i] || Insert(slots, (id, region))[i].value.0 == id
  {
    CountFull(slots);
  }

  lemma SubscriptionStarts(s: Viewer, log: set<ViewerEffect>, region: Region, a: Alloc)
    requires Tabled(s, log) && Issued(s) && CountersFit(s)
    ensures var out := StartSubscription(s, region, a);
            Tabled(out.s, Logged(log, out.effects))
  {
    var out := StartSubscription(s, region, a);
    RequestAges(s);
    if out.effects == [] {
      assert Logged(log, out.effects) == log;
    } else {
      var id := s.nextRequestId;
      var f := out.effects[0];
      var log' := Logged(log, out.effects);
      assert log' == log + {f};
      InsertCounts(s.pendingSubscriptions, (id, region));
      InsertHolds(s.pendingSubscriptions, id, region);
      assert f in log' && f.Subscribe? && f.owner.id == id;
      LogGrows(log, log');
    }
  }

  /** What a log says of a request, a longer log says too. */
  lemma LogGrows(log: set<ViewerEffect>, log': set<ViewerEffect>)
    requires log <= log'
    ensures forall x :: IsSubscription(log, x) ==> IsSubscription(log', x)
    ensures forall x :: IsPageRequest(log, x) ==> IsPageRequest(log', x)
  {
    forall x: RequestId | IsSubscription(log, x)
      ensures IsSubscription(log', x)
    {
      var g :| g in log && g.Subscribe? && g.owner.id == x;
      assert g in log';
    }
    forall x: RequestId | IsPageRequest(log, x)
      ensures IsPageRequest(log', x)
    {
      var g :| g in log && PageRequest(g) == Some(x);
      assert g in log';
    }
  }

  lemma SlotCleared(slots: SubscriptionSlots, i: nat, id: RequestId)
    requires DistinctRequests(slots) && i < |slots| && slots[i].Some? && slots[i].value.0 == id
    ensures DistinctRequests(slots[i := None])
    ensures forall j :: 0 <= j < |slots| && slots[i := None][j].Some? ==>
              slots[i := None][j] == slots[j] && slots[j].value.0 != id
  {
  }

  lemma SubscriptionCompletes(s: Viewer, log: set<ViewerEffect>, o: Owner, region: Region)
    requires Tabled(s, log) && Some((o.id, region)) in s.pendingSubscriptions
    ensures Tabled(CompleteSubscription(s, o, region).s, log)
  {
    InsertCounts(s.subscriptions, (o.id, region));
    RemoveExactCounts(s.pendingSubscriptions, (o.id, region));
    SlotCleared(s.pendingSubscriptions, Find(s.pendingSubscriptions, Some((o.id, region))), o.id);
  }

  lemma SubscriptionFails(s: Viewer, log: set<ViewerEffect>, o: Owner)
    requires Tabled(s, log)
    ensures Tabled(DropRequest(s, o.id).(pendingSubscriptions := RemoveRequest(s.pendingSubscriptions, o.id)), log)
  {
    RemoveRequestCounts(s.pendingSubscriptions, o.id);
    var i := FindRequest(s.pendingSubscriptions, o.id);
    if i < |s.pendingSubscriptions| {
      SlotCleared(s.pendingSubscriptions, i, o.id);
    }
  }

  lemma StepKeepsTables(s: Viewer, log: set<ViewerEffect>, e: ViewerEvent, a: Alloc)
    requires Tabled(s, log) && Issued(s) && CountersFit(s) && Answered(e, log)
    ensures var out := Step(s, e, a);
            Tabled(out.s, Logged(log, out.effects))
  {
    if Guard(e).None? {
      ReactionKeepsTables(s, log, e, a, Step(s, e, a));
    } else {
      CompletionKeepsTables(s, log, e, a, Step(s, e, a));
    }
  }

  lemma ReactionKeepsTables(s: Viewer, log: set<ViewerEffect>, e: ViewerEvent, a: Alloc, out: Out)
    requires Tabled(s, log) && Issued(s) && CountersFit(s) && Answered(e, log)
    requires Guard(e).None? && out == React(s, e, a)
    ensures Tabled(out.s, Logged(log, out.effects))
  {
    if e.SubscribeRequested? {
      SubscriptionStarts(s, log, e.region, a);
    } else {
      ReactionOrderly(s, log, e, a);
      OrderlyKeepsTables(s, log, out);
    }
  }

  lemma CompletionKeepsTables(s: Viewer, log: set<ViewerEffect>, e: ViewerEvent, a: Alloc, out: Out)
    requires Tabled(s, log) && Issued(s) && CountersFit(s) && Answered(e, log) && Guard(e).Some?
    requires out == if Owns(s, Guard(e).value) then Complete(s, e, a) else Out(s, [])
    ensures Tabled(out.s, Logged(log, out.effects))
  {
    if !Owns(s, Guard(e).value) {
      assert Logged(log, out.effects) == log;
    } else if e.SubscriptionCompleted? {
      assert Logged(log, out.effects) == log;
      if Some((e.owner.id, e.region)) in s.pendingSubscriptions {
        SubscriptionCompletes(s, log, e.owner, e.region);
      }
    } else if e.SubscriptionFailed? {
      assert Logged(log, out.effects) == log;
      SubscriptionFails(s, log, e.owner);
    } else {
      PageCompletionOrderly(s, log, e, a);
      OrderlyKeepsTables(s, log, out);
    }
  }

  // ---- whole runs ----

  /** The effects emitted by a run's first `n` inputs, as a set. */
  ghost function Log(r: Trace, n: nat): set<ViewerEffect>
    requires n <= |r.effects|
  {
    if n == 0 then {} else Logged(Log(r, n - 1), r.effects[n - 1])
  }

  ghost predicate AnsweredAt(r: Trace, i: nat) {
    i < |r.inputs| && i <= |r.effects| && Answered(r.inputs[i].event, Log(r, i))
  }

  /** Every completion of the run answers an effect emitted before it. */
  ghost predicate AnsweringRun(r: Trace) {
    Run(r) && forall i :: 0 <= i < |r.inputs| ==> AnsweredAt(r, i)
  }

  lemma RunStepTables(r: Trace, n: nat)
    requires AnsweringRun(r) && n < |r.inputs| && Tabled(r.states[n], Log(r, n))
    ensures Tabled(r.states[n + 1], Log(r, n + 1))
  {
    assert StepAt(r, n);
    assert AnsweredAt(r, n);
    RunIssued(r, n);
    StepKeepsTables(r.states[n], Log(r, n), r.inputs[n].event, r.inputs[n].alloc);
  }

  /** In every disciplined run the active and pending subscriptions together never
      exceed 16 and every pending subscription's request is outstanding. */
  lemma {:induction false} TablesStayConsistent(r: Trace, n: nat)
    requires AnsweringRun(r) && n < |r.states| && Tabled(r.states[0], {})
    ensures Tabled(r.states[n], Log(r, n))
  {
    if n > 0 {
      TablesStayConsistent(r, n - 1);
      RunStepTables(r, n - 1);
    }
  }

  lemma InitialTabled(width: nat, height: nat)
    ensures Tabled(Initial(width, height), {})
  {
    CountEmpty(Initial(width, height).subscriptions);
  }

  /** So the inserts the source asserts always find a free slot. */
  lemma AssertedInsertsSucceed(s: Viewer, log: set<ViewerEffect>, o: Owner, region: Region)
    requires Tabled(s, log)
    ensures Count(s.subscriptions) + Count(s.pendingSubscriptions) < MAX_ACTIVE_SUBSCRIPTIONS ==>
              Count(Insert(s.pendingSubscriptions, (o.id, region))) == Count(s.pendingSubscriptions) + 1
    ensures Some((o.id, region)) in s.pendingSubscriptions ==>
              Count(Insert(s.subscriptions, (o.id, region))) == Count(s.subscriptions) + 1
  {
    InsertCounts(s.pendingSubscriptions, (o.id, region));
    InsertCounts(s.subscriptions, (o.id, region));
    RemoveExactCounts(s.pendingSubscriptions, (o.id, region));
  }

  lemma LogHoldsEmitted(r: Trace, n: nat)
    requires n <= |r.effects|
    ensures forall f :: f in Log(r, n) <==> f in Emitted(r, n)
  {
    if n > 0 {
      LogHoldsEmitted(r, n - 1);
    }
  }

  /** Answering effects implies the discipline the artifact ledger asks for. */
  lemma AnsweringIsDisciplined(r: Trace)
    requires AnsweringRun(r)
    ensures DisciplinedRun(r)
  {
    forall i | 0 <= i < |r.inputs|
      ensures Disciplined(r.inputs[i].event, Fetched(r, i))
    {
      assert AnsweredAt(r, i);
      var e := r.inputs[i].event;
      if e.HistoryAdmissionRequested? {
        var f :| f in Log(r, i) && Answers(e, f);
        LogHoldsEmitted(r, i);
        var k :| 0 <= k < |Emitted(r, i)| && Emitted(r, i)[k] == f;
      }
    }
  }
}
