/** Generations of page scopes (viewer.rs, `generation` and the scopes that carry one): every scope in
use, shown or remembered, carries a generation issued so far. */
module ViewerGenerations {
  import opened Wrappers
  import opened ViewerTypes
  import opened ViewerHistory
  import opened ViewerStep
  import opened ViewerOwnership
  import opened ViewerLedger

  ghost predicate EntriesIssued(h: History, generation: nat) {
    forall i :: 0 <= i < |h| ==> h[i].scope.generation <= generation
  }

  /** Scopes in use carry generations issued so far; a pending activation shows a
      generation newer than the one it remembers. */
  ghost predicate GenerationsIssued(s: Viewer) {
    && (s.scope.Some? ==> s.scope.value.generation <= s.generation)
    && EntriesIssued(s.history, s.generation)
    && (s.pendingHistory.Some? ==>
          && s.pendingHistory.value.targetGeneration <= s.generation
          && s.pendingHistory.value.previousEntryScope.generation <= s.generation
          && (s.pendingHistory.value.previousScope.Some? ==>
                s.pendingHistory.value.previousScope.value.generation < s.pendingHistory.value.targetGeneration))
  }

  /** The page, the history and what an activation remembers stay as they are, or it is forgotten. */
  ghost predicate KeepsPages(s: Viewer, s': Viewer) {
    && s'.generation == s.generation && s'.scope == s.scope && s'.history == s.history
    && (s'.pendingHistory == s.pendingHistory || s'.pendingHistory.None?)
  }

  lemma KeptGenerations(s: Viewer, s': Viewer)
    requires GenerationsIssued(s) && KeepsPages(s, s')
    ensures GenerationsIssued(s')
  {
  }

  // ---- events that keep the pages ----

  lemma StartKeepsPages(s: Viewer, e: ViewerEvent, a: Alloc)
    requires StartsRequest(e)
    ensures KeepsPages(s, React(s, e, a).s)
  {
  }

  lemma ProjectionKeepsPages(s: Viewer, e: ViewerEvent, a: Alloc)
    requires ProjectsPage(e)
    ensures KeepsPages(s, React(s, e, a).s)
  {
  }

  lemma DropKeepsPages(s: Viewer, e: ViewerEvent, a: Alloc)
    requires DropsWork(e)
    ensures KeepsPages(s, React(s, e, a).s)
  {
  }

  lemma PressureKeepsPages(s: Viewer, e: ViewerEvent, a: Alloc)
    requires ReportsPressure(e) && !e.HistoryEvictionRequested?
    ensures KeepsPages(s, React(s, e, a).s)
  {
  }

  lemma EndKeepsPages(s: Viewer, e: ViewerEvent, a: Alloc)
    requires EndsItsRequest(e)
    ensures KeepsPages(s, Complete(s, e, a).s)
  {
  }

  lemma StageKeepsPages(s: Viewer, e: ViewerEvent, a: Alloc)
    requires Guard(e).Some? && !EndsItsRequest(e) && !FailsPage(e) && !e.ConnectionFailed?
    requires !e.WasmDependenciesDiscovered? && !e.HistoryAdmissionRequested? && !e.HistoryCommitted?
    ensures KeepsPages(s, Complete(s, e, a).s)
  {
  }

  // ---- events that change them ----

  lemma FailureGenerations(s: Viewer, o: Owner, message: Message)
    requires GenerationsIssued(s)
    ensures GenerationsIssued(FailOwned(s, o, message).s)
  {
  }

  lemma AdmissionGenerations(s: Viewer, o: Owner, uri: Uri, aml: string, a: Alloc)
    requires GenerationsIssued(s)
    ensures GenerationsIssued(AdmitHistory(s, o, uri, aml, a).s)
  {
    var relabelled := s.(currentUri := Some(uri));
    KeptGenerations(s, relabelled);
    FailureGenerations(s, o, HistoryEntryTooLarge);
    FailureGenerations(s, o, RelabelRefused);
    FailureGenerations(relabelled, o, HistoryOwnerRefused);
    FailureGenerations(relabelled, o, HistoryEffectsRefused);
  }

  lemma DiscoveryGenerations(s: Viewer, o: Owner, paths: seq<string>, a: Alloc)
    requires GenerationsIssued(s)
    ensures GenerationsIssued(DiscoverModules(s, o, paths, a).s)
  {
    LoadModulesQuiet(s, o.scope, paths);
    FailureGenerations(s, o, WasmBatchTooLarge);
    FailureGenerations(s, o, WasmBatchRefused);
    FailureGenerations(s, o, WasmOwnerRefused);
  }

  lemma {:induction false} EvictedIssued(c: Commit, generation: nat)
    requires EntriesIssued(c.history, generation)
    ensures EntriesIssued(Evict(c).history, generation)
    decreases |c.history|
  {
    if OverBudget(c.history) {
      var i := Victim(c.position);
      EvictedIssued(Commit(Without(c.history, i), ShiftDown(c.position, i), c.removed + [c.history[i].id]), generation);
    }
  }

  lemma PlacedIssued(h: History, position: Option<nat>, commit: CommitKind, entry: HistoryEntry, generation: nat)
    requires EntriesIssued(h, generation) && entry.scope.generation <= generation
    ensures EntriesIssued(Place(h, position, commit, entry).history, generation)
  {
  }

  lemma CommitGenerations(s: Viewer, p: PendingCommit)
    requires GenerationsIssued(s) && s.scope == Some(p.owner.scope)
    ensures GenerationsIssued(CommitPending(s, p).s)
  {
    var entry := HistoryEntry(p.id, p.owner.scope, p.uri, p.aml);
    PlacedIssued(s.history, s.position, p.commit, entry, s.generation);
    EvictedIssued(Place(s.history, s.position, p.commit, entry), s.generation);
  }

  lemma CompletionGenerations(s: Viewer, e: ViewerEvent, a: Alloc)
    requires GenerationsIssued(s) && Guard(e).Some? && Owns(s, Guard(e).value)
    ensures GenerationsIssued(Complete(s, e, a).s)
  {
    if e.WasmDependenciesDiscovered? {
      DiscoveryGenerations(s, e.owner, e.paths, a);
    } else if e.HistoryAdmissionRequested? {
      AdmissionGenerations(s, e.owner, e.uri, e.aml, a);
    } else if FailsPage(e) {
      FailureGenerations(s, e.owner, e.message);
    } else if e.ConnectionFailed? {
      ConnectFailedGenerations(s, e.owner, e.message);
    } else if e.HistoryCommitted? {
      if s.pendingCommit.Some? && s.pendingCommit.value.owner == e.owner && s.pendingCommit.value.id == e.id {
        CommitGenerations(s, s.pendingCommit.value);
      }
    } else {
      PlainCompletionGenerations(s, e, a);
    }
  }

  lemma ConnectFailedGenerations(s: Viewer, o: Owner, message: Message)
    requires GenerationsIssued(s)
    ensures GenerationsIssued(ConnectFailed(s, o, message).s)
  {
    var lost := s.(connection := Disconnected);
    KeptGenerations(s, lost);
    FailureGenerations(lost, o, message);
  }

  lemma PlainCompletionGenerations(s: Viewer, e: ViewerEvent, a: Alloc)
    requires GenerationsIssued(s) && Guard(e).Some? && !FailsPage(e) && !e.ConnectionFailed?
    requires !e.WasmDependenciesDiscovered? && !e.HistoryAdmissionRequested? && !e.HistoryCommitted?
    ensures GenerationsIssued(Complete(s, e, a).s)
  {
    if EndsItsRequest(e) {
      EndKeepsPages(s, e, a);
    } else {
      StageKeepsPages(s, e, a);
    }
    KeptGenerations(s, Complete(s, e, a).s);
  }

  lemma NavigationGenerations(s: Viewer, uri: Uri, origin: Origin, kind: CommitKind, a: Alloc)
    requires GenerationsIssued(s) && CountersFit(s)
    ensures GenerationsIssued(BeginNavigation(s, uri, origin, kind, a).s)
  {
  }

  lemma LoadGenerations(s: Viewer, e: ViewerEvent, a: Alloc)
    requires GenerationsIssued(s) && CountersFit(s) && LoadsPage(e)
    ensures GenerationsIssued(React(s, e, a).s)
  {
    if e.Redirect? {
      NavigationGenerations(s, e.uri, e.origin, s.historyCommit, a);
    } else if e.Reload? {
      if s.currentUri.Some? && s.scope.Some? {
        NavigationGenerations(s, s.currentUri.value, s.scope.value.origin, ReplaceCurrent, a);
      }
    } else {
      NavigationGenerations(s, e.uri, e.origin, Append, a);
    }
  }

  lemma ShowGenerations(s: Viewer, t: nat, a: Alloc)
    requires GenerationsIssued(s) && CountersFit(s)
    ensures GenerationsIssued(ActivateHistoryEntry(s, t, a).s)
  {
  }

  lemma EvictionGenerations(s: Viewer, message: Message, a: Alloc)
    requires GenerationsIssued(s)
    ensures GenerationsIssued(EvictForPressure(s, message, a).s)
  {
    if s.pressureRetry.Some? && s.pressureRetry.value.FailsWithItsOperation() {
      KeptGenerations(s, s.(pressureRetry := None));
      FailureGenerations(s.(pressureRetry := None), s.pressureRetry.value.owner, message);
    }
  }

  lemma ReactionGenerations(s: Viewer, e: ViewerEvent, a: Alloc)
    requires GenerationsIssued(s) && CountersFit(s) && Guard(e).None?
    ensures GenerationsIssued(React(s, e, a).s)
  {
    if LoadsPage(e) {
      LoadGenerations(s, e, a);
    } else if ShowsEntry(e) {
      if ActivationTarget(s, e).Some? { ShowGenerations(s, ActivationTarget(s, e).value, a); }
    } else if e.HistoryEvictionRequested? {
      EvictionGenerations(s, e.message, a);
    } else {
      OtherGenerations(s, e, a);
    }
  }

  lemma OtherGenerations(s: Viewer, e: ViewerEvent, a: Alloc)
    requires GenerationsIssued(s) && Guard(e).None? && !LoadsPage(e) && !ShowsEntry(e) && !e.HistoryEvictionRequested?
    ensures GenerationsIssued(React(s, e, a).s)
  {
    if StartsRequest(e) {
      StartKeepsPages(s, e, a);
    } else if ProjectsPage(e) {
      ProjectionKeepsPages(s, e, a);
    } else if DropsWork(e) {
      DropKeepsPages(s, e, a);
    } else {
      PressureKeepsPages(s, e, a);
    }
    KeptGenerations(s, React(s, e, a).s);
  }

  /** Every event keeps generations within those issued. */
  lemma GenerationsStayIssued(s: Viewer, e: ViewerEvent, a: Alloc)
    requires GenerationsIssued(s) && CountersFit(s)
    ensures GenerationsIssued(Step(s, e, a).s)
  {
    if Guard(e).None? {
      ReactionGenerations(s, e, a);
    } else if Owns(s, Guard(e).value) {
      CompletionGenerations(s, e, a);
    }
  }

  /** Over every run no scope in use is newer than the last generation issued. */
  lemma {:induction false} RunGenerations(r: Trace, n: nat)
    requires Run(r) && n < |r.states| && GenerationsIssued(r.states[0])
    ensures GenerationsIssued(r.states[n])
  {
    if n > 0 {
      RunGenerations(r, n - 1);
      assert StepAt(r, n - 1);
      GenerationsStayIssued(r.states[n - 1], r.inputs[n - 1].event, r.inputs[n - 1].alloc);
    }
  }
}
