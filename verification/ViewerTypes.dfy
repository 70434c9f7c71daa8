/** Values exchanged with the viewer reducer: identities, events and effects.

Origins, URIs, authored paths and presentation actions are opaque values with
equality. A retained AML document is a string with one character per byte. */
module ViewerTypes {
  import opened Wrappers

  type RequestId = nat
  type HistoryId = nat
  type Origin = nat
  type Uri = nat
  type Region = nat
  type NodeId = nat
  type Action = nat

  const MAX_HISTORY_ENTRIES: nat := 128
  const MAX_HISTORY_AML_BYTES: nat := 16 * 1024 * 1024
  const MAX_OUTSTANDING_REQUESTS: nat := 64
  const MAX_ACTIVE_SUBSCRIPTIONS: nat := 16

  /** What a failure says: a report of the runtime, or one of the reducer's own. */
  datatype Message =
    | Reported(text: nat)
    | HistoryEntryTooLarge
    | RelabelRefused
    | HistoryOwnerRefused
    | HistoryEffectsRefused
    | WasmBatchTooLarge
    | WasmBatchRefused
    | WasmOwnerRefused

  datatype PageScope = PageScope(origin: Origin, generation: nat)

  datatype Owner = Owner(scope: PageScope, id: RequestId)

  datatype Phase = Idle | Connecting | Fetching | Parsing | Layout | Ready | Failed | ShuttingDown

  datatype Connection = Disconnected | Dialing | Connected

  datatype CommitKind = Append | ReplaceCurrent

  datatype HistoryEntry = HistoryEntry(id: HistoryId, scope: PageScope, uri: Uri, aml: string)

  datatype PendingActivation = PendingActivation(
    target: nat,
    targetGeneration: nat,
    previousEntryScope: PageScope,
    previousPosition: Option<nat>,
    previousScope: Option<PageScope>,
    previousUri: Option<Uri>,
    previousPhase: Phase,
    previousConnection: Connection)

  datatype PendingCommit = PendingCommit(owner: Owner, id: HistoryId, uri: Uri, aml: string, commit: CommitKind)

  datatype PendingResize = PendingResize(owner: Owner, width: nat, height: nat)

  datatype PressureRetry =
    | RetryParse(owner: Owner)
    | RetryPrepareLayout(owner: Owner)
    | RetryHistoryArtifact(owner: Owner, id: HistoryId, replacing: bool)
    | RetryResizeProjection(owner: Owner, width: nat, height: nat)
    | RetryTickWasm(tick: Option<Owner>)
    | RetryActivateCachedHistory(owner: Owner, entry: HistoryEntry)
    | RetryPresentation(scope: Option<PageScope>, action: Action)
    | RetryUpdate(owner: Owner, region: Region)
  {
    function IntoEffect(): ViewerEffect {
      match this
      case RetryParse(o) => Parse(o)
      case RetryPrepareLayout(o) => PrepareLayout(o)
      case RetryHistoryArtifact(o, id, replacing) => AdmitHistoryArtifact(o, id, replacing)
      case RetryResizeProjection(o, w, h) => PrepareResizeProjection(o, w, h)
      case RetryTickWasm(o) => TickWasm(o)
      case RetryActivateCachedHistory(o, e) => ActivateCachedHistory(o, e)
      case RetryPresentation(sc, a) => ApplyPresentationAction(sc, a)
      case RetryUpdate(o, r) => ApplyUpdate(o, r)
    }

    /** The page the retained work belongs to; `None` is the scopeless start page. */
    function Page(): Option<PageScope> {
      match this
      case RetryTickWasm(o) => if o.Some? then Some(o.value.scope) else None
      case RetryPresentation(sc, _) => sc
      case _ => Some(owner.scope)
    }

    /** Retries whose operation fails when no history entry is left to evict. */
    predicate FailsWithItsOperation() {
      RetryParse? || RetryPrepareLayout? || RetryHistoryArtifact? || RetryActivateCachedHistory?
    }
  }

  datatype ViewerEvent =
    | InitialNavigation(uri: Uri, origin: Origin)
    | Navigate(uri: Uri, origin: Origin)
    | Redirect(uri: Uri, origin: Origin)
    | Reload
    | Back
    | Forward
    | RestoreCurrentEntry
    | JumpToHistory(index: nat)
    | FormSubmitted(uri: Uri, origin: Origin, path: string, formData: string)
    | Input(token: PageScope, value: string)
    | FocusChanged(token: PageScope, focused: Option<NodeId>)
    | Resize(width: nat, height: nat)
    | PresentationRequested
    | PresentationActionRequested(page: Option<PageScope>, action: Action)
    | Timer
    | ConnectionMade(owner: Owner)
    | ConnectionFailed(owner: Owner, message: Message)
    | FetchCompleted(owner: Owner)
    | HistoryCommitted(owner: Owner, id: HistoryId)
    | HistoryAdmissionRequested(owner: Owner, uri: Uri, aml: string)
    | FetchFailed(owner: Owner, message: Message)
    | ParseCompleted(owner: Owner)
    | WasmDependenciesDiscovered(owner: Owner, paths: seq<string>)
    | ParseFailed(owner: Owner, message: Message)
    | LayoutPrepared(owner: Owner, contentHeight: nat)
    | ResizeProjectionPrepared(owner: Owner, contentHeight: nat)
    | LayoutActivated(owner: Owner)
    | LayoutFailed(owner: Owner, message: Message)
    | ErrorPageActivated(contentHeight: nat)
    | PresentationFailed(message: Message, retry: Option<PressureRetry>)
    | ResourceEvictionCompleted(message: Message, evicted: bool)
    | HistoryEvictionRequested(message: Message)
    | WasmRequested(path: string)
    | WasmPrepared(owner: Owner)
    | WasmActivated(owner: Owner)
    | WasmRejected(owner: Owner)
    | SubscriptionCompleted(owner: Owner, region: Region)
    | SubscriptionFailed(owner: Owner)
    | SubscribeRequested(region: Region)
    | DeferredNavigationRequested
    | DeferredNavigationCompleted(owner: Owner)
    | DeferredNavigationRejected(owner: Owner)
    | SubscriptionsRetired(scope: PageScope)
    | LiveUpdate(owner: Owner, region: Region)
    | TransportLost(origin: Origin)
    | Shutdown

  datatype ViewerEffect =
    | Connect(owner: Owner)
    | Close
    | Fetch(owner: Owner, uri: Uri)
    | Submit(owner: Owner, uri: Uri, path: string, formData: string)
    | Subscribe(owner: Owner, region: Region)
    | Parse(owner: Owner)
    | PrepareLayout(owner: Owner)
    | PrepareResizeProjection(owner: Owner, width: nat, height: nat)
    | AdmitHistoryArtifact(owner: Owner, id: HistoryId, replacing: bool)
    | InstallHistoryArtifact(owner: Owner, id: HistoryId)
    | ActivateLayout(owner: Owner)
    | LoadWasm(owner: Owner, path: string)
    | ActivateWasm(owner: Owner)
    | ActivateCachedHistory(owner: Owner, entry: HistoryEntry)
    | TickWasm(tick: Option<Owner>)
    | ApplyUpdate(owner: Owner, region: Region)
    | ProjectInput(token: PageScope, value: string)
    | ProjectFocus(token: PageScope, focused: Option<NodeId>)
    | ApplyPresentationAction(page: Option<PageScope>, action: Action)
    | RetireSubscriptions(scope: PageScope)
    | DeferNavigation(owner: Owner)
    | ResumeNavigation(owner: Owner)
    | RenderTerminal
    | EvictResource(message: Message)
    | EvictHistory(message: Message)
    | ReleaseHistoryArtifact(id: HistoryId)
    | RetirePageWork(scope: PageScope)
    | ActivateErrorPage(message: Message)
    | RestoreTerminal

  /** Which fallible preparations succeed while one event is reduced: the copies
      made before any mutation, the copy of a relabelled location, the owner
      copies retained afterwards and the space reserved for later effects. */
  datatype Alloc = Alloc(prepared: bool, relabelled: bool, retained: bool, reserved: bool)
}
