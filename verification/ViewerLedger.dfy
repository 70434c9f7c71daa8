/** The renderer's artifact ledger mirrors the history: in every disciplined run
the emitted releases and installs, folded in order, never release an absent
artifact, never install a present one, and leave exactly the ids in history
(viewer.rs, `HistoryAdmissionRequested`, `HistoryCommitted` and
`HistoryEvictionRequested`). */
module ViewerLedger {
  import opened Wrappers
  import opened ViewerTypes
  import opened ViewerTables
  import opened ViewerHistory
  import opened ViewerStep
  import opened ViewerOwnership

  ghost function IdSet(h: History): (ids: set<HistoryId>)
    ensures forall id :: id in ids <==> id in Ids(h)
  {
    set i | 0 <= i < |h| :: h[i].id
  }

  /** The artifacts a renderer holds after `effects`; `None` once one is misused. */
  function Ledger(held: set<HistoryId>, effects: seq<ViewerEffect>): Option<set<HistoryId>>
    decreases |effects|
  {
    if effects == [] then Some(held)
    else
      match effects[0]
      case ReleaseHistoryArtifact(id) => if id in held then Ledger(held - {id}, effects[1..]) else None
      case InstallHistoryArtifact(_, id) => if id !in held then Ledger(held + {id}, effects[1..]) else None
      case _ => Ledger(held, effects[1..])
  }

  ghost predicate TouchesNoArtifact(effects: seq<ViewerEffect>) {
    forall i :: 0 <= i < |effects| ==> !effects[i].ReleaseHistoryArtifact? && !effects[i].InstallHistoryArtifact?
  }

  lemma {:induction false} LedgerIgnores(held: set<HistoryId>, effects: seq<ViewerEffect>)
    requires TouchesNoArtifact(effects)
    ensures Ledger(held, effects) == Some(held)
    decreases |effects|
  {
    if effects != [] {
      LedgerIgnores(held, effects[1..]);
    }
  }

  lemma {:induction false} LedgerConcat(held: set<HistoryId>, a: seq<ViewerEffect>, b: seq<ViewerEffect>)
    requires Ledger(held, a).Some?
    ensures Ledger(held, a + b) == Ledger(Ledger(held, a).value, b)
    decreases |a|
  {
    if a == [] {
      assert a + b == b;
    } else {
      assert (a + b)[1..] == a[1..] + b;
      match a[0] {
        case ReleaseHistoryArtifact(id) => LedgerConcat(held - {id}, a[1..], b);
        case InstallHistoryArtifact(_, id) => LedgerConcat(held + {id}, a[1..], b);
        case _ => LedgerConcat(held, a[1..], b);
      }
    }
  }

  ghost function Gone(removed: seq<HistoryId>): set<HistoryId> {
    set id | id in removed
  }

  lemma {:induction false} LedgerReleases(held: set<HistoryId>, removed: seq<HistoryId>)
    requires Gone(removed) <= held
    ensures Ledger(held, Releases(removed)) == Some(held - Gone(removed))
  {
    if removed == [] {
      assert held - Gone(removed) == held;
    } else {
      var rest := removed[..|removed| - 1];
      var last := removed[|removed| - 1];
      assert removed == rest + [last];
      assert Gone(removed) == Gone(rest) + {last};
      LedgerReleases(held, rest);
      ReleasesShape(rest);
      if last in rest {
        assert ReleaseHistoryArtifact(last) in Releases(rest);
        assert Gone(removed) == Gone(rest);
      } else {
        assert ReleaseHistoryArtifact(last) !in Releases(rest);
        LedgerConcat(held, Releases(rest), [ReleaseHistoryArtifact(last)]);
        assert held - Gone(removed) == held - Gone(rest) - {last};
      }
    }
  }

  // ---- the invariant of a disciplined run ----

  /** Owners the runtime received in a `Fetch` or `Submit`. */
  ghost function FetchOwners(effects: seq<ViewerEffect>): set<Owner> {
    set i | 0 <= i < |effects| && (effects[i].Fetch? || effects[i].Submit?) :: effects[i].owner
  }

  /** A page asks for history admission only for an owner it received in `Fetch` or `Submit`. */
  ghost predicate Disciplined(e: ViewerEvent, fetched: set<Owner>) {
    e.HistoryAdmissionRequested? ==> e.owner in fetched
  }

  /** A pending commit brings a new id, or replaces the entry that is still current. */
  ghost predicate CommitTargetValid(s: Viewer, p: PendingCommit) {
    || p.id == s.nextHistoryId
    || (p.commit.ReplaceCurrent? && EntryIdAt(s.history, s.position) == Some(p.id))
  }

  ghost predicate Kept(s: Viewer, fetched: set<Owner>) {
    && Issued(s)
    && |s.history| <= MAX_HISTORY_ENTRIES
    && DistinctIds(s.history)
    && (forall i :: 0 <= i < |s.history| ==> s.history[i].id < s.nextHistoryId)
    && (s.pendingCommit.Some? ==>
          && s.pendingHistory.None?
          && |s.pendingCommit.value.aml| <= MAX_HISTORY_AML_BYTES
          && CommitTargetValid(s, s.pendingCommit.value))
    && (forall o :: o in fetched ==> o.id < s.nextRequestId)
    && (s.pendingHistory.Some? ==> forall o :: o in fetched ==> !Owns(s, o))
  }

  /** One step from a kept state: the ledger follows the history and the invariant holds on. */
  ghost predicate Follows(s: Viewer, fetched: set<Owner>, out: Out) {
    && Ledger(IdSet(s.history), out.effects) == Some(IdSet(out.s.history))
    && Kept(out.s, fetched + FetchOwners(out.effects))
  }

  ghost predicate NoFetch(effects: seq<ViewerEffect>) {
    forall i :: 0 <= i < |effects| ==> !effects[i].Fetch? && !effects[i].Submit?
  }

  lemma SameIds(h: History, h': History)
    requires Ids(h) == Ids(h')
    ensures IdSet(h) == IdSet(h')
    ensures forall i :: 0 <= i < |h| ==> h[i].id == h'[i].id
  {
    assert forall i :: 0 <= i < |h| ==> Ids(h)[i] == h[i].id && Ids(h')[i] == h'[i].id;
  }

  /** A step that neither commits, admits, evicts nor starts a page load. */
  ghost predicate Uneventful(s: Viewer, out: Out) {
    && Ids(s.history) == Ids(out.s.history) && s.nextHistoryId == out.s.nextHistoryId
    && TouchesNoArtifact(out.effects) && NoFetch(out.effects)
    && (out.s.pendingCommit.None?
        || (out.s.pendingCommit == s.pendingCommit && out.s.position == s.position
            && out.s.pendingHistory == s.pendingHistory))
    && (out.s.pendingHistory.None? || out.s.pendingHistory == s.pendingHistory
        || forall id :: id in out.s.outstanding ==> id >= s.nextRequestId)
  }

  lemma QuietFollows(s: Viewer, fetched: set<Owner>, out: Out)
    requires Kept(s, fetched) && Ages(s, out.s) && Uneventful(s, out)
    ensures Follows(s, fetched, out)
  {
    SameIds(s.history, out.s.history);
    LedgerIgnores(IdSet(s.history), out.effects);
    NothingFetched(fetched, out.effects);
  }

  lemma NothingFetched(fetched: set<Owner>, effects: seq<ViewerEffect>)
    requires NoFetch(effects)
    ensures fetched + FetchOwners(effects) == fetched
  {
    assert FetchOwners(effects) == {};
  }

  lemma NavigationFollows(s: Viewer, fetched: set<Owner>, uri: Uri, origin: Origin, kind: CommitKind, a: Alloc)
    requires Kept(s, fetched) && CountersFit(s)
    ensures Follows(s, fetched, BeginNavigation(s, uri, origin, kind, a))
  {
    var out := BeginNavigation(s, uri, origin, kind, a);
    NavigationAges(s, uri, origin, kind, a);
    var scope := PageScope(origin, Succ(s.generation));
    var renewed := Renewed(s, scope, uri, kind);
    DropAges(s, renewed);
    RequestAges(renewed);
    LedgerIgnores(IdSet(s.history), out.effects);
    assert forall o :: o in FetchOwners(out.effects) ==> o.id < out.s.nextRequestId;
  }

  lemma SubmissionFollows(
    s: Viewer, fetched: set<Owner>, uri: Uri, origin: Origin, path: string, formData: string, a: Alloc)
    requires Kept(s, fetched) && CountersFit(s)
    ensures Follows(s, fetched, SubmitForm(s, uri, origin, path, formData, a))
  {
    NavigationFollows(s, fetched, uri, origin, Append, a);
    var load := BeginNavigation(s, uri, origin, Append, a);
    var out := SubmitForm(s, uri, origin, path, formData, a);
    LedgerIgnores(IdSet(s.history), out.effects);
    if load.effects != [] {
      var last := |load.effects| - 1;
      assert FetchOwners(out.effects) <= FetchOwners(load.effects) by {
        assert load.effects[last].owner in FetchOwners(load.effects);
      }
    }
  }

  lemma ActivationFollows(s: Viewer, fetched: set<Owner>, index: nat, a: Alloc)
    requires Kept(s, fetched) && CountersFit(s)
    ensures Follows(s, fetched, ActivateHistoryEntry(s, index, a))
  {
    var out := ActivateHistoryEntry(s, index, a);
    ActivationAges(s, index, a);
    if index < |s.history| && a.prepared {
      var entry := s.history[index];
      var originChanged := s.scope.Some? && s.scope.value.origin != entry.scope.origin;
      var showing := Showing(s, index, PageScope(entry.scope.origin, Succ(s.generation)), originChanged);
      DropAges(s, showing);
      RequestAges(showing);
    }
    QuietFollows(s, fetched, out);
  }

  lemma FailureFollows(s: Viewer, fetched: set<Owner>, o: Owner, message: Message)
    requires Kept(s, fetched)
    ensures Follows(s, fetched, FailOwned(s, o, message))
  {
    FailureAges(s, o, message);
    QuietFollows(s, fetched, FailOwned(s, o, message));
  }

  /** The same page under another location is kept alike. */
  lemma RelabelFollows(s: Viewer, fetched: set<Owner>, uri: Uri, o: Owner, message: Message)
    requires Kept(s, fetched)
    ensures Follows(s, fetched, FailOwned(s.(currentUri := Some(uri)), o, message))
  {
    FailureFollows(s.(currentUri := Some(uri)), fetched, o, message);
  }

  lemma AdmittedFollows(s: Viewer, fetched: set<Owner>, p: PendingCommit, effect: ViewerEffect)
    requires Kept(s, fetched) && s.pendingHistory.None?
    requires |p.aml| <= MAX_HISTORY_AML_BYTES && CommitTargetValid(s, p)
    requires effect.AdmitHistoryArtifact?
    ensures Follows(s, fetched, Out(s.(currentUri := Some(p.uri), pendingCommit := Some(p)), [effect]))
  {
    LedgerIgnores(IdSet(s.history), [effect]);
    NothingFetched(fetched, [effect]);
  }

  lemma AdmissionFollows(s: Viewer, fetched: set<Owner>, o: Owner, uri: Uri, aml: string, a: Alloc)
    requires Kept(s, fetched) && Owns(s, o) && o in fetched
    ensures Follows(s, fetched, AdmitHistory(s, o, uri, aml, a))
  {
    if |aml| > MAX_HISTORY_AML_BYTES {
      FailureFollows(s, fetched, o, HistoryEntryTooLarge);
    } else if s.currentUri != Some(uri) && !a.relabelled {
      FailureFollows(s, fetched, o, RelabelRefused);
    } else if !a.retained {
      RelabelFollows(s, fetched, uri, o, HistoryOwnerRefused);
    } else if !a.reserved {
      RelabelFollows(s, fetched, uri, o, HistoryEffectsRefused);
    } else {
      var target := Replaceable(s);
      var id := if target.Some? then target.value else s.nextHistoryId;
      AdmittedFollows(s, fetched, PendingCommit(o, id, uri, aml, s.historyCommit),
                      AdmitHistoryArtifact(o, id, target.Some?));
    }
  }

  /** What conservation says about one id. */
  lemma OneIdAccounted(h: History, kept: History, removed: seq<HistoryId>, id: HistoryId, x: HistoryId)
    requires DistinctIds(h) && id in Ids(kept) && (id in Ids(h) ==> id in removed)
    requires IdBag(kept) + multiset(removed) == IdBag(h) + multiset{id}
    ensures IdBag(kept)[x] <= 1
    ensures x in removed ==> x in Ids(h)
    ensures x != id ==> (x in Ids(kept) <==> x in Ids(h) && x !in removed)
  {
    DistinctThenBag(h, x);
    DistinctThenBag(h, id);
    assert (IdBag(kept) + multiset(removed))[x] == IdBag(kept)[x] + multiset(removed)[x];
    assert IdBag(kept)[id] > 0;
    assert id in Ids(h) ==> multiset(removed)[id] > 0;
  }

  lemma AllIdsAccounted(h: History, kept: History, removed: seq<HistoryId>, id: HistoryId)
    requires DistinctIds(h) && id in Ids(kept) && (id in Ids(h) ==> id in removed)
    requires IdBag(kept) + multiset(removed) == IdBag(h) + multiset{id}
    ensures DistinctIds(kept)
    ensures Gone(removed) <= IdSet(h)
    ensures id !in IdSet(h) - Gone(removed)
    ensures IdSet(kept) == IdSet(h) - Gone(removed) + {id}
  {
    forall x
      ensures IdBag(kept)[x] <= 1
      ensures x in removed ==> x in Ids(h)
      ensures x != id ==> (x in Ids(kept) <==> x in Ids(h) && x !in removed)
    {
      OneIdAccounted(h, kept, removed, id, x);
    }
    BagThenDistinct(kept);
  }

  /** A commit keeps the old ids that were not removed, and adds its own. */
  lemma CommittedIds(h: History, position: Option<nat>, commit: CommitKind, entry: HistoryEntry)
    requires |h| <= MAX_HISTORY_ENTRIES && DistinctIds(h) && |entry.aml| <= MAX_HISTORY_AML_BYTES
    requires entry.id in Ids(h) ==> ReplaceSlot(h, position, commit, entry.id).Some?
    ensures var c := CommitEntry(h, position, commit, entry);
            && DistinctIds(c.history)
            && Gone(c.removed) <= IdSet(h)
            && entry.id !in IdSet(h) - Gone(c.removed)
            && IdSet(c.history) == IdSet(h) - Gone(c.removed) + {entry.id}
  {
    var c := CommitEntry(h, position, commit, entry);
    CommitIsBounded(h, position, commit, entry);
    var placed := Place(h, position, commit, entry);
    EvictConserves(placed);
    if entry.id in Ids(h) {
      assert placed.removed[0] == entry.id;
      assert c.removed[0] == entry.id;
    }
    assert Ids(c.history)[c.position.value] == entry.id;
    AllIdsAccounted(h, c.history, c.removed, entry.id);
  }

  lemma {:induction false} EvictedFrom(c: Commit, bound: nat)
    requires forall i :: 0 <= i < |c.history| ==> c.history[i].id < bound
    ensures forall i :: 0 <= i < |Evict(c).history| ==> Evict(c).history[i].id < bound
    decreases |c.history|
  {
    if OverBudget(c.history) {
      var i := Victim(c.position);
      EvictedFrom(Commit(Without(c.history, i), ShiftDown(c.position, i), c.removed + [c.history[i].id]), bound);
    }
  }

  lemma CommitLedger(held: set<HistoryId>, removed: seq<HistoryId>, o: Owner, id: HistoryId)
    requires Gone(removed) <= held && id !in held - Gone(removed)
    ensures Ledger(held, Releases(removed) + [InstallHistoryArtifact(o, id)]) == Some(held - Gone(removed) + {id})
    ensures NoFetch(Releases(removed) + [InstallHistoryArtifact(o, id)])
  {
    var install := [InstallHistoryArtifact(o, id)];
    LedgerReleases(held, removed);
    LedgerConcat(held, Releases(removed), install);
    assert install[1..] == [];
    ReleasesShape(removed);
    var r := Releases(removed);
    assert forall i :: 0 <= i < |r| ==> r[i] in r;
  }

  lemma PlacedBelow(h: History, position: Option<nat>, commit: CommitKind, entry: HistoryEntry, bound: nat)
    requires entry.id < bound && forall i :: 0 <= i < |h| ==> h[i].id < bound
    ensures var c := Place(h, position, commit, entry);
            forall i :: 0 <= i < |c.history| ==> c.history[i].id < bound
  {
  }

  lemma CommitFollows(s: Viewer, fetched: set<Owner>, p: PendingCommit)
    requires Kept(s, fetched) && s.pendingCommit == Some(p) && CountersFit(s)
    ensures Follows(s, fetched, CommitPending(s, p))
  {
    var entry := HistoryEntry(p.id, p.owner.scope, p.uri, p.aml);
    var out := CommitPending(s, p);
    CommitIsBounded(s.history, s.position, p.commit, entry);
    assert entry.id in Ids(s.history) ==> ReplaceSlot(s.history, s.position, p.commit, entry.id).Some?;
    CommittedIds(s.history, s.position, p.commit, entry);
    PlacedBelow(s.history, s.position, p.commit, entry, out.s.nextHistoryId);
    EvictedFrom(Place(s.history, s.position, p.commit, entry), out.s.nextHistoryId);
    CommitLedger(IdSet(s.history), CommitEntry(s.history, s.position, p.commit, entry).removed, p.owner, p.id);
    NothingFetched(fetched, out.effects);
  }

  lemma WithoutIds(h: History, i: nat)
    requires i < |h| && DistinctIds(h)
    ensures IdSet(Without(h, i)) == IdSet(h) - {h[i].id} && h[i].id in IdSet(h)
    ensures DistinctIds(Without(h, i))
  {
    var w := Without(h, i);
    assert forall j :: 0 <= j < |w| ==> w[j] == if j < i then h[j] else h[j + 1];
    forall j | 0 <= j < |h| && j != i
      ensures h[j].id in IdSet(w)
    {
      assert w[if j < i then j else j - 1] == h[j];
    }
  }

  lemma EvictedFollows(s: Viewer, fetched: set<Owner>, i: nat, rest: seq<ViewerEffect>)
    requires Kept(s, fetched) && i < |s.history| && !Protected(s, s.history[i].id)
    requires TouchesNoArtifact(rest) && NoFetch(rest)
    ensures Follows(s, fetched, Out(s.(history := Without(s.history, i), position := ShiftDown(s.position, i),
                                       pressureRetry := None),
                                    [ReleaseHistoryArtifact(s.history[i].id)] + rest))
  {
    var effects := [ReleaseHistoryArtifact(s.history[i].id)] + rest;
    WithoutIds(s.history, i);
    assert effects[1..] == rest;
    LedgerIgnores(IdSet(s.history) - {s.history[i].id}, rest);
    NothingFetched(fetched, effects);
  }

  lemma EvictionFollows(s: Viewer, fetched: set<Owner>, message: Message, a: Alloc)
    requires Kept(s, fetched)
    ensures Follows(s, fetched, EvictForPressure(s, message, a))
  {
    var out := EvictForPressure(s, message, a);
    var i := Evictable(s, 0);
    if i < |s.history| {
      var rest := RetryEffects(s.pressureRetry) + [RenderTerminal];
      assert out.effects == [ReleaseHistoryArtifact(s.history[i].id)] + rest;
      EvictedFollows(s, fetched, i, rest);
    } else if s.pressureRetry.Some? && s.pressureRetry.value.FailsWithItsOperation() {
      FailureFollows(s.(pressureRetry := None), fetched, s.pressureRetry.value.owner, message);
    } else {
      GivenUpFollows(s, fetched, message, a, out);
    }
  }

  lemma GivenUpFollows(s: Viewer, fetched: set<Owner>, message: Message, a: Alloc, out: Out)
    requires Kept(s, fetched) && out == EvictForPressure(s, message, a) && Evictable(s, 0) == |s.history|
    requires !(s.pressureRetry.Some? && s.pressureRetry.value.FailsWithItsOperation())
    ensures Follows(s, fetched, out)
  {
    QuietFollows(s, fetched, out);
  }

  lemma {:induction false} LoadModulesQuiet(s: Viewer, scope: PageScope, paths: seq<string>)
    ensures var out := LoadModules(s, scope, paths);
            && TouchesNoArtifact(out.effects) && NoFetch(out.effects)
            && out.s == s.(outstanding := out.s.outstanding, nextRequestId := out.s.nextRequestId)
    decreases |paths|
  {
    if paths != [] && Request(s).Some? {
      LoadModulesQuiet(Request(s).value.0, scope, paths[1..]);
    }
  }

  lemma DiscoveryFollows(s: Viewer, fetched: set<Owner>, o: Owner, paths: seq<string>, a: Alloc)
    requires Kept(s, fetched) && CountersFit(s)
    ensures Follows(s, fetched, DiscoverModules(s, o, paths, a))
  {
    if |paths| > MAX_OUTSTANDING_REQUESTS - |s.outstanding| {
      FailureFollows(s, fetched, o, WasmBatchTooLarge);
    } else if !a.prepared {
      FailureFollows(s, fetched, o, WasmBatchRefused);
    } else if !a.retained && paths != [] {
      FailureFollows(s, fetched, o, WasmOwnerRefused);
    } else {
      LoadModulesAges(s, o.scope, paths);
      LoadModulesQuiet(s, o.scope, paths);
      QuietFollows(s, fetched, LoadModules(s, o.scope, paths));
    }
  }

  /** Completions other than admissions, commits and dependency batches are uneventful. */
  lemma CompletionUneventful(s: Viewer, e: ViewerEvent, a: Alloc)
    requires Guard(e).Some? && (s.pendingCommit.Some? ==> s.pendingHistory.None?)
    requires !e.HistoryCommitted? && !e.HistoryAdmissionRequested? && !e.WasmDependenciesDiscovered?
    ensures Uneventful(s, Complete(s, e, a))
  {
    if EndsItsRequest(e) {
      EndUneventful(s, e, a);
    } else if FailsPage(e) {
      FailureUneventful(s, e.owner, e.message);
    } else if e.ConnectionFailed? {
      FailureUneventful(s.(connection := Disconnected), e.owner, e.message);
    } else {
      StageUneventful(s, e, a);
    }
  }

  lemma EndUneventful(s: Viewer, e: ViewerEvent, a: Alloc)
    requires EndsItsRequest(e) && (s.pendingCommit.Some? ==> s.pendingHistory.None?)
    ensures Uneventful(s, Complete(s, e, a))
  {
  }

  lemma StageUneventful(s: Viewer, e: ViewerEvent, a: Alloc)
    requires Guard(e).Some? && !EndsItsRequest(e) && (s.pendingCommit.Some? ==> s.pendingHistory.None?)
    requires !e.HistoryCommitted? && !e.HistoryAdmissionRequested? && !e.WasmDependenciesDiscovered?
    requires !FailsPage(e) && !e.ConnectionFailed?
    ensures Uneventful(s, Complete(s, e, a))
  {
  }

  lemma FailureUneventful(s: Viewer, o: Owner, message: Message)
    requires s.pendingCommit.Some? ==> s.pendingHistory.None?
    ensures Uneventful(s, FailOwned(s, o, message))
  {
  }

  lemma CompletionFollows(s: Viewer, fetched: set<Owner>, e: ViewerEvent, a: Alloc)
    requires Kept(s, fetched) && CountersFit(s) && Disciplined(e, fetched)
    requires Guard(e).Some? && Owns(s, Guard(e).value)
    ensures Follows(s, fetched, Complete(s, e, a))
  {
    if e.HistoryCommitted? {
      if s.pendingCommit.Some? && s.pendingCommit.value.owner == e.owner && s.pendingCommit.value.id == e.id {
        CommitFollows(s, fetched, s.pendingCommit.value);
      } else {
        QuietFollows(s, fetched, Out(s, []));
      }
    } else if e.HistoryAdmissionRequested? {
      AdmissionFollows(s, fetched, e.owner, e.uri, e.aml, a);
    } else if e.WasmDependenciesDiscovered? {
      DiscoveryFollows(s, fetched, e.owner, e.paths, a);
    } else {
      CompletionAges(s, e, a);
      CompletionUneventful(s, e, a);
      QuietFollows(s, fetched, Complete(s, e, a));
    }
  }

  /** Events that start or evict nothing are uneventful. */
  lemma ReactionUneventful(s: Viewer, e: ViewerEvent, a: Alloc)
    requires Guard(e).None? && ActivationTarget(s, e).None?
    requires !e.InitialNavigation? && !e.Navigate? && !e.Redirect? && !e.Reload? && !e.FormSubmitted?
    requires !e.HistoryEvictionRequested?
    ensures Uneventful(s, React(s, e, a))
  {
    if StartsRequest(e) {
      StartUneventful(s, e, a);
    } else if ProjectsPage(e) {
      ProjectionUneventful(s, e, a);
    } else if DropsWork(e) {
      DropUneventful(s, e, a);
    } else if ReportsPressure(e) {
      PressureUneventful(s, e, a);
    }
  }

  lemma StartUneventful(s: Viewer, e: ViewerEvent, a: Alloc)
    requires StartsRequest(e)
    ensures Uneventful(s, React(s, e, a))
  {
  }

  lemma ProjectionUneventful(s: Viewer, e: ViewerEvent, a: Alloc)
    requires ProjectsPage(e)
    ensures Uneventful(s, React(s, e, a))
  {
  }

  lemma DropUneventful(s: Viewer, e: ViewerEvent, a: Alloc)
    requires DropsWork(e)
    ensures Uneventful(s, React(s, e, a))
  {
  }

  lemma PressureUneventful(s: Viewer, e: ViewerEvent, a: Alloc)
    requires ReportsPressure(e) && !e.HistoryEvictionRequested?
    ensures Uneventful(s, React(s, e, a))
  {
  }

  lemma LoadFollows(s: Viewer, fetched: set<Owner>, e: ViewerEvent, a: Alloc)
    requires Kept(s, fetched) && CountersFit(s) && LoadsPage(e)
    ensures Follows(s, fetched, React(s, e, a))
  {
    if e.Redirect? {
      NavigationFollows(s, fetched, e.uri, e.origin, s.historyCommit, a);
    } else if e.Reload? {
      if s.currentUri.Some? && s.scope.Some? {
        NavigationFollows(s, fetched, s.currentUri.value, s.scope.value.origin, ReplaceCurrent, a);
      } else {
        QuietFollows(s, fetched, Out(s, []));
      }
    } else if e.FormSubmitted? {
      SubmissionFollows(s, fetched, e.uri, e.origin, e.path, e.formData, a);
    } else {
      NavigationFollows(s, fetched, e.uri, e.origin, Append, a);
    }
  }

  lemma ReactionFollows(s: Viewer, fetched: set<Owner>, e: ViewerEvent, a: Alloc)
    requires Kept(s, fetched) && CountersFit(s) && Guard(e).None?
    ensures Follows(s, fetched, React(s, e, a))
  {
    if LoadsPage(e) {
      LoadFollows(s, fetched, e, a);
    } else if e.HistoryEvictionRequested? {
      EvictionFollows(s, fetched, e.message, a);
    } else {
      OtherFollows(s, fetched, e, a);
    }
  }

  lemma OtherFollows(s: Viewer, fetched: set<Owner>, e: ViewerEvent, a: Alloc)
    requires Kept(s, fetched) && CountersFit(s) && Guard(e).None? && !LoadsPage(e) && !e.HistoryEvictionRequested?
    ensures Follows(s, fetched, React(s, e, a))
  {
    if ActivationTarget(s, e).Some? {
      ActivationFollows(s, fetched, ActivationTarget(s, e).value, a);
    } else {
      QuietReactionFollows(s, fetched, e, a, React(s, e, a));
    }
  }

  lemma QuietReactionFollows(s: Viewer, fetched: set<Owner>, e: ViewerEvent, a: Alloc, out: Out)
    requires Kept(s, fetched) && CountersFit(s) && Guard(e).None? && ActivationTarget(s, e).None?
    requires !LoadsPage(e) && !e.HistoryEvictionRequested? && out == React(s, e, a)
    ensures Follows(s, fetched, out)
  {
    ReactionAges(s, e, a);
    ReactionUneventful(s, e, a);
    QuietFollows(s, fetched, out);
  }

  lemma StepFollows(s: Viewer, fetched: set<Owner>, e: ViewerEvent, a: Alloc)
    requires Kept(s, fetched) && CountersFit(s) && Disciplined(e, fetched)
    ensures Follows(s, fetched, Step(s, e, a))
  {
    if Guard(e).None? {
      ReactionFollows(s, fetched, e, a);
    } else if Owns(s, Guard(e).value) {
      CompletionFollows(s, fetched, e, a);
    } else {
      QuietFollows(s, fetched, Out(s, []));
    }
  }

  // ---- whole runs ----

  /** All effects emitted by a run's first `n` inputs, in order. */
  ghost function Emitted(r: Trace, n: nat): seq<ViewerEffect>
    requires n <= |r.effects|
  {
    if n == 0 then [] else Emitted(r, n - 1) + r.effects[n - 1]
  }

  /** The owners a page load was requested for by a run's first `n` inputs. */
  ghost function Fetched(r: Trace, n: nat): set<Owner>
    requires n <= |r.effects|
  {
    FetchOwners(Emitted(r, n))
  }

  /** A run whose admissions answer the fetches it emitted. */
  ghost predicate DisciplinedRun(r: Trace) {
    && Run(r)
    && (forall i :: 0 <= i < |r.inputs| ==> Disciplined(r.inputs[i].event, Fetched(r, i)))
  }

  /** A disciplined run from a viewer without history. */
  ghost predicate Session(r: Trace) {
    DisciplinedRun(r) && Kept(r.states[0], {}) && r.states[0].history == []
  }

  lemma FetchOwnersConcat(a: seq<ViewerEffect>, b: seq<ViewerEffect>)
    ensures FetchOwners(a + b) == FetchOwners(a) + FetchOwners(b)
  {
    var ab := a + b;
    forall o | o in FetchOwners(ab)
      ensures o in FetchOwners(a) + FetchOwners(b)
    {
      var i :| 0 <= i < |ab| && (ab[i].Fetch? || ab[i].Submit?) && ab[i].owner == o;
      if i < |a| { assert a[i] == ab[i]; } else { assert b[i - |a|] == ab[i]; }
    }
    forall o | o in FetchOwners(b)
      ensures o in FetchOwners(ab)
    {
      var i :| 0 <= i < |b| && (b[i].Fetch? || b[i].Submit?) && b[i].owner == o;
      assert ab[|a| + i] == b[i];
    }
    forall o | o in FetchOwners(a)
      ensures o in FetchOwners(ab)
    {
      var i :| 0 <= i < |a| && (a[i].Fetch? || a[i].Submit?) && a[i].owner == o;
      assert ab[i] == a[i];
    }
  }

  lemma RunStepFollows(r: Trace, n: nat)
    requires DisciplinedRun(r) && n < |r.inputs| && Kept(r.states[n], Fetched(r, n))
    ensures Ledger(IdSet(r.states[n].history), r.effects[n]) == Some(IdSet(r.states[n + 1].history))
    ensures Kept(r.states[n + 1], Fetched(r, n + 1))
  {
    assert StepAt(r, n);
    StepFollows(r.states[n], Fetched(r, n), r.inputs[n].event, r.inputs[n].alloc);
    FetchOwnersConcat(Emitted(r, n), r.effects[n]);
  }

  /** In every disciplined run the ledger folded over all emitted effects is
      defined and holds exactly the ids in history, which are distinct. */
  lemma {:induction false} LedgerMirrorsHistory(r: Trace, n: nat)
    requires Session(r) && n <= |r.inputs|
    ensures Ledger({}, Emitted(r, n)) == Some(IdSet(r.states[n].history))
    ensures DistinctIds(r.states[n].history)
    ensures Kept(r.states[n], Fetched(r, n))
  {
    if n == 0 {
      assert Fetched(r, 0) == {};
      assert IdSet(r.states[0].history) == {};
    } else {
      LedgerMirrorsHistory(r, n - 1);
      RunStepFollows(r, n - 1);
      LedgerConcat({}, Emitted(r, n - 1), r.effects[n - 1]);
    }
  }

  /** A new viewer starts such a run. */
  lemma InitialIsKept(width: nat, height: nat)
    ensures Kept(Initial(width, height), {}) && CountersFit(Initial(width, height))
  {
  }

  /** A commit's effects are its releases, all distinct, followed by its one install. */
  lemma CommitReleasesFirst(s: Viewer, p: PendingCommit)
    ensures var effects := CommitPending(s, p).effects;
            && effects != []
            && effects[|effects| - 1] == InstallHistoryArtifact(p.owner, p.id)
            && (forall i :: 0 <= i < |effects| - 1 ==> effects[i].ReleaseHistoryArtifact?)
            && (forall i, j :: 0 <= i < j < |effects| - 1 ==> effects[i] != effects[j])
  {
    var c := CommitEntry(s.history, s.position, p.commit, HistoryEntry(p.id, p.owner.scope, p.uri, p.aml));
    ReleasesShape(c.removed);
    var r := Releases(c.removed);
    assert forall i :: 0 <= i < |r| ==> r[i] in r && CommitPending(s, p).effects[i] == r[i];
  }
}
