/** The viewer reducer as a transition function (viewer.rs, `ViewerModel::reduce`).

`Step` gives the state and the effects of one event. The outstanding requests
are a set of ids here; `ViewerModel` keeps them in the source's 64 slots. */
module ViewerStep {
  import opened Wrappers
  import opened ViewerTypes
  import opened ViewerTables
  import opened ViewerHistory

  datatype Viewer = Viewer(
    phase: Phase,
    scope: Option<PageScope>,
    currentUri: Option<Uri>,
    connection: Connection,
    viewport: (nat, nat),
    contentHeight: nat,
    history: History,
    position: Option<nat>,
    focused: Option<NodeId>,
    subscriptions: SubscriptionSlots,
    outstanding: set<RequestId>,
    pendingSubscriptions: SubscriptionSlots,
    generation: nat,
    nextRequestId: RequestId,
    nextHistoryId: HistoryId,
    reconnect: Option<RequestId>,
    historyCommit: CommitKind,
    pendingHistory: Option<PendingActivation>,
    pendingCommit: Option<PendingCommit>,
    pendingResize: Option<PendingResize>,
    pressureRetry: Option<PressureRetry>)

  datatype Out = Out(s: Viewer, effects: seq<ViewerEffect>)

  function Initial(width: nat, height: nat): Viewer {
    Viewer(Idle, None, None, Disconnected, (width, height), 0, [], None, None,
           Empty(MAX_ACTIVE_SUBSCRIPTIONS), {}, Empty(MAX_ACTIVE_SUBSCRIPTIONS),
           0, 1, 1, None, Append, None, None, None, None)
  }

  predicate Owns(s: Viewer, o: Owner) {
    s.scope == Some(o.scope) && o.id in s.outstanding
  }

  function NoSubscriptions(): SubscriptionSlots {
    Empty(MAX_ACTIVE_SUBSCRIPTIONS)
  }

  /** Reserve a request slot and advance the counter; `None` when all 64 are taken. */
  function Request(s: Viewer): Option<(Viewer, RequestId)> {
    match TryInsert(s.outstanding, s.nextRequestId)
    case None => None
    case Some(id) => Some((s.(outstanding := s.outstanding + {id}, nextRequestId := Succ(id)), id))
  }

  function RetireOld(scope: Option<PageScope>, originChanged: bool): seq<ViewerEffect> {
    (if scope.Some? then [RetirePageWork(scope.value)] else []) + (if originChanged then [Close] else [])
  }

  /** The page state a navigation replaces before it asks for its request id. */
  function Renewed(s: Viewer, scope: PageScope, uri: Uri, kind: CommitKind): Viewer {
    s.(generation := scope.generation, scope := Some(scope), currentUri := Some(uri), phase := Connecting,
       connection := Dialing, focused := None, subscriptions := NoSubscriptions(),
       pendingSubscriptions := NoSubscriptions(), outstanding := {}, reconnect := None, historyCommit := kind,
       pendingHistory := None, pendingCommit := None, pendingResize := None, pressureRetry := None)
  }

  function BeginNavigation(s: Viewer, uri: Uri, origin: Origin, kind: CommitKind, a: Alloc): Out {
    if !a.prepared then Out(s, [])
    else
      var originChanged := s.scope.Some? && s.scope.value.origin != origin;
      var scope := PageScope(origin, Succ(s.generation));
      var renewed := Renewed(s, scope, uri, kind);
      match Request(renewed)
      case None => Out(renewed, [])
      case Some((s', id)) =>
        Out(s', RetireOld(s.scope, originChanged) + [Connect(Owner(scope, id)), Fetch(Owner(scope, id), uri)])
  }

  function SubmitForm(s: Viewer, uri: Uri, origin: Origin, path: string, formData: string, a: Alloc): Out {
    var out := BeginNavigation(s, uri, origin, Append, a);
    if out.effects != [] && out.effects[|out.effects| - 1].Fetch?
    then Out(out.s, out.effects[..|out.effects| - 1]
                    + [Submit(out.effects[|out.effects| - 1].owner, uri, path, formData)])
    else Out(out.s, if out.effects == [] then [] else out.effects[..|out.effects| - 1])
  }

  /** A pending history activation is undone by a failure of its own generation. */
  predicate RollsBack(s: Viewer, scope: PageScope) {
    s.pendingHistory.Some? && s.pendingHistory.value.targetGeneration == scope.generation
  }

  function RestoreEntryScope(h: History, p: PendingActivation): History {
    if p.target < |h| then h[p.target := h[p.target].(scope := p.previousEntryScope)] else h
  }

  function FailOwned(s: Viewer, o: Owner, message: Message): Out {
    if !Owns(s, o) then Out(s, [])
    else if RollsBack(s, o.scope) then
      var p := s.pendingHistory.value;
      Out(s.(pendingHistory := None, history := RestoreEntryScope(s.history, p), position := p.previousPosition,
             scope := p.previousScope, currentUri := p.previousUri, phase := p.previousPhase,
             connection := p.previousConnection, outstanding := {}, pendingSubscriptions := NoSubscriptions(),
             reconnect := None),
          [RetirePageWork(o.scope), RenderTerminal])
    else
      Out(s.(phase := Failed, connection := Disconnected, outstanding := {}, reconnect := None,
             subscriptions := NoSubscriptions(), pendingSubscriptions := NoSubscriptions(),
             pendingCommit := None, pendingResize := None),
          [RetirePageWork(o.scope), ActivateErrorPage(message), RenderTerminal])
  }

  /** The state that shows history entry `index` under a new generation. */
  function Showing(s: Viewer, index: nat, scope: PageScope, originChanged: bool): Viewer
    requires index < |s.history|
  {
    s.(generation := scope.generation, scope := Some(scope), currentUri := Some(s.history[index].uri),
       history := s.history[index := s.history[index].(scope := scope)], phase := Parsing,
       connection := if originChanged then Disconnected else s.connection, focused := None,
       subscriptions := NoSubscriptions(), pendingSubscriptions := NoSubscriptions(), outstanding := {},
       reconnect := None, pendingCommit := None, pendingResize := None)
  }

  function ActivateHistoryEntry(s: Viewer, index: nat, a: Alloc): Out {
    if index >= |s.history| || !a.prepared then Out(s, [])
    else
      var entry := s.history[index];
      var originChanged := s.scope.Some? && s.scope.value.origin != entry.scope.origin;
      var scope := PageScope(entry.scope.origin, Succ(s.generation));
      var showing := Showing(s, index, scope, originChanged);
      match Request(showing)
      case None => Out(showing, [])
      case Some((s', id)) =>
        Out(s'.(pendingHistory := Some(PendingActivation(index, scope.generation, entry.scope, s.position,
                                                         s.scope, s.currentUri, s.phase, s.connection))),
            RetireOld(s.scope, originChanged) + [ActivateCachedHistory(Owner(scope, id), entry.(scope := scope))])
  }


  /** The history entry an event asks to show, if it is one of the four that do. */
  function ActivationTarget(s: Viewer, e: ViewerEvent): Option<nat> {
    match e
    case Back => if s.position.Some? && s.position.value > 0 then Some(s.position.value - 1) else None
    case Forward => if s.position.Some? then Some(s.position.value + 1) else None
    case RestoreCurrentEntry => s.position
    case JumpToHistory(i) => if s.position == Some(i) then None else Some(i)
    case _ => None
  }

  function DropRequest(s: Viewer, id: RequestId): Viewer {
    s.(outstanding := s.outstanding - {id})
  }

  function Reconnected(s: Viewer, o: Owner): Out {
    var s := s.(connection := Connected);
    if s.reconnect == Some(o.id) then Out(DropRequest(s, o.id).(reconnect := None), [])
    else Out(s.(phase := Fetching), [])
  }

  function ConnectFailed(s: Viewer, o: Owner, message: Message): Out {
    var s := s.(connection := Disconnected);
    if s.reconnect == Some(o.id) then Out(DropRequest(s, o.id).(reconnect := None), [RenderTerminal])
    else FailOwned(s, o, message)
  }

  function Replaceable(s: Viewer): Option<HistoryId> {
    if s.historyCommit.ReplaceCurrent? && s.position.Some? && s.position.value < |s.history|
    then Some(s.history[s.position.value].id) else None
  }

  function AdmitHistory(s: Viewer, o: Owner, uri: Uri, aml: string, a: Alloc): Out {
    if |aml| > MAX_HISTORY_AML_BYTES then FailOwned(s, o, HistoryEntryTooLarge)
    else if s.currentUri != Some(uri) && !a.relabelled then
      FailOwned(s, o, RelabelRefused)
    else
      var s := s.(currentUri := Some(uri));
      if !a.retained then FailOwned(s, o, HistoryOwnerRefused)
      else if !a.reserved then FailOwned(s, o, HistoryEffectsRefused)
      else
        var target := Replaceable(s);
        var id := if target.Some? then target.value else s.nextHistoryId;
        Out(s.(pendingCommit := Some(PendingCommit(o, id, uri, aml, s.historyCommit))),
            [AdmitHistoryArtifact(o, id, target.Some?)])
  }

  function CommitPending(s: Viewer, p: PendingCommit): Out {
    var c := CommitEntry(s.history, s.position, p.commit, HistoryEntry(p.id, p.owner.scope, p.uri, p.aml));
    var overwrites := ReplaceSlot(s.history, s.position, p.commit, p.id).Some?;
    Out(s.(pendingCommit := None, history := c.history, position := c.position, historyCommit := Append,
           nextHistoryId := if overwrites then s.nextHistoryId else Succ(s.nextHistoryId)),
        Releases(c.removed) + [InstallHistoryArtifact(p.owner, p.id)])
  }

  function ShowErrorPage(s: Viewer, contentHeight: nat): Viewer {
    s.(phase := Failed, contentHeight := contentHeight, focused := None, subscriptions := NoSubscriptions(),
       pendingSubscriptions := NoSubscriptions(), outstanding := {}, reconnect := None, pressureRetry := None,
       pendingCommit := None, pendingResize := None)
  }

  function PresentationLost(s: Viewer, message: Message, retry: Option<PressureRetry>): Out {
    if retry.Some? && retry.value.Page() != s.scope then Out(s, [])
    else if retry.Some? && retry.value.RetryResizeProjection?
            && s.pendingResize != Some(PendingResize(retry.value.owner, retry.value.width, retry.value.height))
    then Out(s, [])
    else Out(s.(pressureRetry := retry), [EvictResource(message)])
  }

  function RetryEffects(retry: Option<PressureRetry>): seq<ViewerEffect> {
    if retry.Some? then [retry.value.IntoEffect()] else []
  }

  function EntryIdAt(h: History, i: Option<nat>): Option<HistoryId> {
    if i.Some? && i.value < |h| then Some(h[i.value].id) else None
  }

  predicate Protected(s: Viewer, id: HistoryId) {
    || Some(id) == EntryIdAt(s.history, s.position)
    || (s.pendingHistory.Some? && Some(id) == EntryIdAt(s.history, Some(s.pendingHistory.value.target)))
  }

  /** Index of the oldest entry pressure may evict, or the history's length. */
  function Evictable(s: Viewer, from: nat): (i: nat)
    requires from <= |s.history|
    ensures from <= i <= |s.history|
    ensures i < |s.history| ==> !Protected(s, s.history[i].id)
    ensures forall j :: from <= j < i ==> Protected(s, s.history[j].id)
    decreases |s.history| - from
  {
    if from == |s.history| || !Protected(s, s.history[from].id) then from else Evictable(s, from + 1)
  }

  function EvictForPressure(s: Viewer, message: Message, a: Alloc): Out {
    var i := Evictable(s, 0);
    if i < |s.history| then
      Out(s.(history := Without(s.history, i), position := ShiftDown(s.position, i), pressureRetry := None),
          [ReleaseHistoryArtifact(s.history[i].id)] + RetryEffects(s.pressureRetry) + [RenderTerminal])
    else if s.pressureRetry.Some? && s.pressureRetry.value.FailsWithItsOperation() then
      FailOwned(s.(pressureRetry := None), s.pressureRetry.value.owner, message)
    else if s.scope.Some? && !a.prepared then Out(s, [])
    else
      Out(s.(pressureRetry := None, phase := Failed, connection := Disconnected, focused := None,
             subscriptions := NoSubscriptions(), pendingSubscriptions := NoSubscriptions(), outstanding := {},
             reconnect := None, pendingResize := None),
          RetireOld(s.scope, false) + [ActivateErrorPage(message), RenderTerminal])
  }

  /** One request per authored module, as long as slots last. */
  function LoadModules(s: Viewer, scope: PageScope, paths: seq<string>): Out
    decreases |paths|
  {
    if paths == [] then Out(s, [])
    else
      match Request(s)
      case None => Out(s, [])
      case Some((s', id)) =>
        var rest := LoadModules(s', scope, paths[1..]);
        Out(rest.s, [LoadWasm(Owner(scope, id), paths[0])] + rest.effects)
  }

  function DiscoverModules(s: Viewer, o: Owner, paths: seq<string>, a: Alloc): Out {
    if |paths| > MAX_OUTSTANDING_REQUESTS - |s.outstanding| then
      FailOwned(s, o, WasmBatchTooLarge)
    else if !a.prepared then FailOwned(s, o, WasmBatchRefused)
    else if !a.retained && paths != [] then FailOwned(s, o, WasmOwnerRefused)
    else LoadModules(s, o.scope, paths)
  }

  function ActivatePage(s: Viewer, o: Owner): Out {
    var committed := RollsBack(s, o.scope);
    Out(DropRequest(s, o.id).(
          phase := Ready,
          pendingHistory := if committed then None else s.pendingHistory,
          position := if committed then Some(s.pendingHistory.value.target) else s.position),
        [RenderTerminal])
  }

  /** Work the current page starts: a request slot and one effect carrying its owner. */
  function Start(s: Viewer, a: Alloc, effect: Owner -> ViewerEffect): Out {
    if s.scope.None? || !a.prepared then Out(s, [])
    else
      match Request(s)
      case None => Out(s, [])
      case Some((s', id)) => Out(s', [effect(Owner(s.scope.value, id))])
  }

  function StartSubscription(s: Viewer, region: Region, a: Alloc): Out {
    if s.connection != Connected
       || Count(s.subscriptions) + Count(s.pendingSubscriptions) >= MAX_ACTIVE_SUBSCRIPTIONS
       || s.scope.None? || !a.prepared
    then Out(s, [])
    else
      match Request(s)
      case None => Out(s, [])
      case Some((s', id)) =>
        Out(s'.(pendingSubscriptions := Insert(s.pendingSubscriptions, (id, region))),
            [Subscribe(Owner(s.scope.value, id), region)])
  }

  function CompleteSubscription(s: Viewer, o: Owner, region: Region): Out {
    if Some((o.id, region)) !in s.pendingSubscriptions then Out(s, [])
    else
      Out(DropRequest(s, o.id).(
            pendingSubscriptions := RemoveExact(s.pendingSubscriptions, (o.id, region)),
            subscriptions := Insert(s.subscriptions, (o.id, region))), [])
  }

  function RetireAllSubscriptions(s: Viewer): Viewer {
    s.(subscriptions := NoSubscriptions(), pendingSubscriptions := NoSubscriptions(),
       outstanding := set id | id in s.outstanding && !HoldsRequest(s.pendingSubscriptions, id))
  }

  /** The state a resize leaves before it asks for a slot: the projection it supersedes is forgotten. */
  function Resized(s: Viewer, width: nat, height: nat): Viewer {
    if s.pendingResize.None? then s.(viewport := (width, height))
    else
      var superseded := s.pendingResize.value.owner;
      DropRequest(s, superseded.id).(
        viewport := (width, height), pendingResize := None,
        pressureRetry := if s.pressureRetry.Some? && s.pressureRetry.value.RetryResizeProjection?
                            && s.pressureRetry.value.owner == superseded
                         then None else s.pressureRetry)
  }

  function ResizeTo(s: Viewer, width: nat, height: nat, a: Alloc): Out {
    if s.scope.None? then Out(s.(viewport := (width, height)), [])
    else if !a.prepared then Out(s, [])
    else
      var resized := Resized(s, width, height);
      match Request(resized)
      case None => Out(resized, [])
      case Some((s', id)) =>
        var o := Owner(s.scope.value, id);
        Out(s'.(pendingResize := Some(PendingResize(o, width, height))), [PrepareResizeProjection(o, width, height)])
  }

  function Tick(s: Viewer, a: Alloc): Out {
    if s.scope.None? then Out(s, [TickWasm(None)])
    else Start(s, a, o => TickWasm(Some(o)))
  }

  function LoseTransport(s: Viewer, a: Alloc): Out {
    if s.connection == Dialing || s.scope.None? || !a.prepared then Out(s, [])
    else
      match Request(s)
      case None => Out(s, [])
      case Some((s', id)) =>
        Out(s'.(connection := Dialing, reconnect := Some(id)), [Connect(Owner(s.scope.value, id))])
  }

  /** Events guarded by ownership of the operation they complete. */
  function Guard(e: ViewerEvent): Option<Owner> {
    match e
    case ConnectionMade(o) => Some(o)
    case ConnectionFailed(o, _) => Some(o)
    case FetchCompleted(o) => Some(o)
    case HistoryCommitted(o, _) => Some(o)
    case HistoryAdmissionRequested(o, _, _) => Some(o)
    case FetchFailed(o, _) => Some(o)
    case ParseCompleted(o) => Some(o)
    case WasmDependenciesDiscovered(o, _) => Some(o)
    case ParseFailed(o, _) => Some(o)
    case LayoutPrepared(o, _) => Some(o)
    case ResizeProjectionPrepared(o, _) => Some(o)
    case LayoutActivated(o) => Some(o)
    case LayoutFailed(o, _) => Some(o)
    case WasmPrepared(o) => Some(o)
    case WasmActivated(o) => Some(o)
    case WasmRejected(o) => Some(o)
    case SubscriptionCompleted(o, _) => Some(o)
    case SubscriptionFailed(o) => Some(o)
    case DeferredNavigationCompleted(o) => Some(o)
    case DeferredNavigationRejected(o) => Some(o)
    case _ => None
  }

  /** What an owned completion does. */
  function Complete(s: Viewer, e: ViewerEvent, a: Alloc): Out
    requires Guard(e).Some?
  {
    match e
    case ConnectionMade(o) => Reconnected(s, o)
    case ConnectionFailed(o, message) => ConnectFailed(s, o, message)
    case FetchCompleted(o) => Out(s.(phase := Parsing), [Parse(o)])
    case HistoryCommitted(o, id) =>
      if s.pendingCommit.Some? && s.pendingCommit.value.owner == o && s.pendingCommit.value.id == id
      then CommitPending(s, s.pendingCommit.value) else Out(s, [])
    case HistoryAdmissionRequested(o, uri, aml) => AdmitHistory(s, o, uri, aml, a)
    case FetchFailed(o, message) => FailOwned(s, o, message)
    case ParseFailed(o, message) => FailOwned(s, o, message)
    case LayoutFailed(o, message) => FailOwned(s, o, message)
    case ParseCompleted(o) => Out(s.(phase := Layout), [PrepareLayout(o)])
    case WasmDependenciesDiscovered(o, paths) => DiscoverModules(s, o, paths, a)
    case LayoutPrepared(o, height) => Out(s.(contentHeight := height), [ActivateLayout(o)])
    case ResizeProjectionPrepared(o, height) =>
      if s.pendingResize.Some? && s.pendingResize.value.owner == o
      then Out(s.(pendingResize := None, contentHeight := height), [ActivateLayout(o)]) else Out(s, [])
    case LayoutActivated(o) => ActivatePage(s, o)
    case WasmPrepared(o) => Out(s, [ActivateWasm(o)])
    case WasmActivated(o) => Out(DropRequest(s, o.id), [RenderTerminal])
    case WasmRejected(o) => Out(DropRequest(s, o.id), [RenderTerminal])
    case SubscriptionCompleted(o, region) => CompleteSubscription(s, o, region)
    case SubscriptionFailed(o) =>
      Out(DropRequest(s, o.id).(pendingSubscriptions := RemoveRequest(s.pendingSubscriptions, o.id)), [])
    case DeferredNavigationCompleted(o) => Out(DropRequest(s, o.id), [ResumeNavigation(o)])
    case DeferredNavigationRejected(o) => Out(DropRequest(s, o.id), [])
  }

  /** What an unguarded event does: navigation, local input and page-scoped notices. */
  function React(s: Viewer, e: ViewerEvent, a: Alloc): Out
    requires Guard(e).None?
  {
    match e
    case InitialNavigation(uri, origin) => BeginNavigation(s, uri, origin, Append, a)
    case Navigate(uri, origin) => BeginNavigation(s, uri, origin, Append, a)
    case Redirect(uri, origin) => BeginNavigation(s, uri, origin, s.historyCommit, a)
    case Reload =>
      if s.currentUri.None? || s.scope.None? then Out(s, [])
      else BeginNavigation(s, s.currentUri.value, s.scope.value.origin, ReplaceCurrent, a)
    case Back => Activate(s, e, a)
    case Forward => Activate(s, e, a)
    case RestoreCurrentEntry => Activate(s, e, a)
    case JumpToHistory(_) => Activate(s, e, a)
    case FormSubmitted(uri, origin, path, formData) => SubmitForm(s, uri, origin, path, formData, a)
    case Input(token, value) => Out(s, if s.scope == Some(token) then [ProjectInput(token, value)] else [])
    case FocusChanged(token, focused) =>
      if s.scope == Some(token) then Out(s.(focused := focused), [ProjectFocus(token, focused)]) else Out(s, [])
    case Resize(width, height) => ResizeTo(s, width, height, a)
    case PresentationRequested => Out(s, [RenderTerminal])
    case PresentationActionRequested(page, action) =>
      Out(s, if s.scope == page then [ApplyPresentationAction(page, action)] else [])
    case Timer =>
      if s.phase == Ready || (s.phase == Idle && s.scope.None?) then Tick(s, a) else Out(s, [])
    case ErrorPageActivated(height) => Out(ShowErrorPage(s, height), [])
    case PresentationFailed(message, retry) => PresentationLost(s, message, retry)
    case ResourceEvictionCompleted(message, evicted) =>
      if evicted then Out(s.(pressureRetry := None), RetryEffects(s.pressureRetry) + [RenderTerminal])
      else Out(s, [EvictHistory(message)])
    case HistoryEvictionRequested(message) => EvictForPressure(s, message, a)
    case WasmRequested(path) => Start(s, a, o => LoadWasm(o, path))
    case SubscribeRequested(region) => StartSubscription(s, region, a)
    case DeferredNavigationRequested => Start(s, a, o => DeferNavigation(o))
    case SubscriptionsRetired(scope) =>
      if s.scope == Some(scope) then Out(RetireAllSubscriptions(s), [RetireSubscriptions(scope)]) else Out(s, [])
    case LiveUpdate(o, region) =>
      Out(s, if s.scope == Some(o.scope) && Some((o.id, region)) in s.subscriptions
             then [ApplyUpdate(o, region)] else [])
    case TransportLost(origin) =>
      if s.scope.Some? && s.scope.value.origin == origin then LoseTransport(s, a) else Out(s, [])
    case Shutdown =>
      Out(s.(phase := ShuttingDown, subscriptions := NoSubscriptions(), pendingSubscriptions := NoSubscriptions(),
             outstanding := {}, reconnect := None), [Close, RestoreTerminal])
  }

  function Activate(s: Viewer, e: ViewerEvent, a: Alloc): Out {
    var target := ActivationTarget(s, e);
    if target.None? then Out(s, []) else ActivateHistoryEntry(s, target.value, a)
  }

  /** Reduce one event. A completion whose operation is not owned is ignored. */
  function Step(s: Viewer, e: ViewerEvent, a: Alloc): Out {
    var guard := Guard(e);
    if guard.None? then React(s, e, a)
    else if Owns(s, guard.value) then Complete(s, e, a)
    else Out(s, [])
  }

  // ---- kinds of events ----

  predicate LoadsPage(e: ViewerEvent) {
    e.InitialNavigation? || e.Navigate? || e.Redirect? || e.Reload? || e.FormSubmitted?
  }

  predicate ShowsEntry(e: ViewerEvent) {
    e.Back? || e.Forward? || e.RestoreCurrentEntry? || e.JumpToHistory?
  }

  /** Events that may ask for a request of the current page. */
  predicate StartsRequest(e: ViewerEvent) {
    || e.Timer? || e.WasmRequested? || e.DeferredNavigationRequested? || e.TransportLost? || e.SubscribeRequested?
    || e.Resize?
  }

  /** Input, focus and updates of the current page. */
  predicate ProjectsPage(e: ViewerEvent) {
    || e.Input? || e.FocusChanged? || e.PresentationRequested? || e.PresentationActionRequested? || e.LiveUpdate?
  }

  /** Events that drop requests. */
  predicate DropsWork(e: ViewerEvent) {
    e.ErrorPageActivated? || e.SubscriptionsRetired? || e.Shutdown?
  }

  predicate ReportsPressure(e: ViewerEvent) {
    e.PresentationFailed? || e.ResourceEvictionCompleted? || e.HistoryEvictionRequested?
  }

  /** Completions that end their own request. */
  predicate EndsItsRequest(e: ViewerEvent) {
    || e.WasmActivated? || e.WasmRejected? || e.SubscriptionCompleted? || e.SubscriptionFailed?
    || e.DeferredNavigationCompleted? || e.DeferredNavigationRejected? || e.LayoutActivated?
  }

  predicate FailsPage(e: ViewerEvent) {
    e.FetchFailed? || e.ParseFailed? || e.LayoutFailed?
  }

  // ---- runs ----

  datatype Input = Input(event: ViewerEvent, alloc: Alloc)

  /** A run: `states[0]` is the start; input `i` leads from `states[i]` to
      `states[i + 1]` and emits `effects[i]`. */
  datatype Trace = Trace(states: seq<Viewer>, inputs: seq<Input>, effects: seq<seq<ViewerEffect>>)

  ghost predicate StepAt(r: Trace, i: nat) {
    && i + 1 < |r.states| && i < |r.inputs| && i < |r.effects|
    && Out(r.states[i + 1], r.effects[i]) == Step(r.states[i], r.inputs[i].event, r.inputs[i].alloc)
  }

  ghost predicate IsRun(r: Trace) {
    && |r.states| == |r.inputs| + 1 && |r.effects| == |r.inputs|
    && forall i :: 0 <= i < |r.inputs| ==> StepAt(r, i)
  }

  /** Fewer than 2^64 ids of each kind have been issued, with room for one more event. */
  predicate CountersFit(s: Viewer) {
    && s.nextRequestId + MAX_OUTSTANDING_REQUESTS < U64
    && s.generation + 1 < U64
    && s.nextHistoryId + 1 < U64
  }
}
