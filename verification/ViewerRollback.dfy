/** A failed history activation is undone exactly (viewer.rs, `activate_history_entry`
and `fail_owned_operation`), and where pressure eviction or a resize prevents it. */
module ViewerRollback {
  import opened Wrappers
  import opened ViewerTypes
  import opened ViewerTables
  import opened ViewerHistory
  import opened ViewerStep
  import opened ViewerOwnership
  import opened ViewerLedger

  // ---- what an activation remembers ----

  /** `e` shows history entry `t` of `s`. */
  predicate Activates(s: Viewer, e: ViewerEvent, a: Alloc, t: nat) {
    ActivationTarget(s, e) == Some(t) && t < |s.history| && a.prepared
  }

  function NewScope(s: Viewer, t: nat): PageScope
    requires t < |s.history|
  {
    PageScope(s.history[t].scope.origin, Succ(s.generation))
  }

  function Remembered(s: Viewer, t: nat): PendingActivation
    requires t < |s.history|
  {
    PendingActivation(t, Succ(s.generation), s.history[t].scope, s.position, s.scope, s.currentUri, s.phase,
                      s.connection)
  }

  /** The history with entry `t` shown under the new generation. */
  function Shown(s: Viewer, t: nat): History
    requires t < |s.history|
  {
    s.history[t := s.history[t].(scope := NewScope(s, t))]
  }

  /** The entries whose ids are not in `gone`, in order. */
  ghost function Surviving(h: History, gone: set<HistoryId>): History {
    if h == [] then []
    else
      var rest := Surviving(h[..|h| - 1], gone);
      if h[|h| - 1].id in gone then rest else rest + [h[|h| - 1]]
  }

  ghost function Released(effects: seq<ViewerEffect>): set<HistoryId> {
    set e | e in effects && e.ReleaseHistoryArtifact? :: e.id
  }

  lemma {:induction false} NothingGone(h: History)
    ensures Surviving(h, {}) == h
  {
    if h != [] {
      NothingGone(h[..|h| - 1]);
    }
  }

  /** Entries up to index `m` survive in place when none of them is gone. */
  lemma {:induction false} PrefixSurvives(h: History, gone: set<HistoryId>, m: nat)
    requires m <= |h| && forall j :: 0 <= j < m ==> h[j].id !in gone
    ensures |Surviving(h, gone)| >= m && Surviving(h, gone)[..m] == h[..m]
    decreases |h|
  {
    if |h| > m {
      PrefixSurvives(h[..|h| - 1], gone, m);
    } else if m > 0 {
      PrefixSurvives(h[..m - 1], gone, m - 1);
      assert h[..m] == h[..m - 1] + [h[m - 1]];
      assert Surviving(h, gone) == Surviving(h[..m - 1], gone) + [h[m - 1]];
      assert |Surviving(h[..m - 1], gone)| == m - 1 by { SurvivingSize(h[..m - 1], gone); }
    }
  }

  lemma {:induction false} SurvivingSize(h: History, gone: set<HistoryId>)
    ensures |Surviving(h, gone)| <= |h|
    ensures forall i :: 0 <= i < |Surviving(h, gone)| ==> Surviving(h, gone)[i] in h && Surviving(h, gone)[i].id !in gone
  {
    if h != [] {
      SurvivingSize(h[..|h| - 1], gone);
      assert h == h[..|h| - 1] + [h[|h| - 1]];
    }
  }

  /** Changing the scope of a surviving entry commutes with dropping others. */
  lemma {:induction false} SurvivingUpdate(h: History, gone: set<HistoryId>, t: nat, scope: PageScope)
    requires t < |h| && forall j :: 0 <= j <= t ==> h[j].id !in gone
    ensures t < |Surviving(h, gone)|
    ensures Surviving(h[t := h[t].(scope := scope)], gone)
            == Surviving(h, gone)[t := Surviving(h, gone)[t].(scope := scope)]
    decreases |h|
  {
    var h' := h[t := h[t].(scope := scope)];
    var init := h[..|h| - 1];
    PrefixSurvives(h, gone, t + 1);
    if t == |h| - 1 {
      assert h'[..|h| - 1] == init;
      PrefixSurvives(init, gone, t);
      SurvivingSize(init, gone);
      assert |Surviving(init, gone)| == t;
    } else {
      SurvivingUpdate(init, gone, t, scope);
      assert h'[..|h| - 1] == init[t := init[t].(scope := scope)];
    }
  }

  /** Removing one entry by index or by id is the same when ids are distinct. */
  lemma {:induction false} SurvivingWithout(h: History, gone: set<HistoryId>, i: nat)
    requires i < |Surviving(h, gone)| && DistinctIds(h)
    ensures Without(Surviving(h, gone), i) == Surviving(h, gone + {Surviving(h, gone)[i].id})
    decreases |h|
  {
    var init := h[..|h| - 1];
    var kept := Surviving(init, gone);
    var last := h[|h| - 1];
    var id := Surviving(h, gone)[i].id;
    if last.id in gone {
      SurvivingWithout(init, gone, i);
    } else if i < |kept| {
      SurvivingWithout(init, gone, i);
      SurvivingSize(init, gone);
      assert last.id != id;
      assert Without(kept + [last], i) == Without(kept, i) + [last];
    } else {
      assert id == last.id;
      SurvivingDistinct(init, gone, id);
      assert Without(kept + [last], i) == kept;
    }
  }

  lemma {:induction false} SurvivingDistinct(h: History, gone: set<HistoryId>, id: HistoryId)
    requires forall i :: 0 <= i < |h| ==> h[i].id != id
    ensures Surviving(h, gone + {id}) == Surviving(h, gone)
  {
    if h != [] {
      SurvivingDistinct(h[..|h| - 1], gone, id);
    }
  }

  // ---- while the activation is pending ----

  /** `s` still shows entry `t` of `s0`, with the entries in `gone` evicted since. */
  ghost predicate StillShowing(s0: Viewer, t: nat, s: Viewer, gone: set<HistoryId>) {
    && t < |s0.history|
    && s.pendingHistory == Some(Remembered(s0, t))
    && s.scope == Some(NewScope(s0, t))
    && s.position == s0.position
    && s.pendingCommit.None?
    && s.history == Surviving(Shown(s0, t), gone)
    && (forall j :: 0 <= j <= t ==> s0.history[j].id !in gone)
    && (s0.position.Some? ==> forall j :: 0 <= j <= s0.position.value && j < |s0.history| ==> s0.history[j].id !in gone)
  }

  /** Page loads and moves through history. */
  predicate Navigates(e: ViewerEvent) {
    || e.InitialNavigation? || e.Navigate? || e.Redirect? || e.Reload? || e.FormSubmitted?
    || e.Back? || e.Forward? || e.RestoreCurrentEntry? || e.JumpToHistory?
  }

  /** The entry pressure would evict lies above everything a rollback refers to. */
  predicate EvictsAbove(s: Viewer) {
    var i := Evictable(s, 0);
    i < |s.history| && s.pendingHistory.Some? ==>
      && i > s.pendingHistory.value.target
      && (s.pendingHistory.value.previousPosition.Some? ==> i > s.pendingHistory.value.previousPosition.value)
  }

  /** The owner an event fails, if failing is what it does. */
  function FailingOwner(s: Viewer, e: ViewerEvent, a: Alloc): Option<Owner> {
    match e
    case FetchFailed(o, _) => Some(o)
    case ParseFailed(o, _) => Some(o)
    case LayoutFailed(o, _) => Some(o)
    case ConnectionFailed(o, _) => if s.reconnect == Some(o.id) then None else Some(o)
    case WasmDependenciesDiscovered(o, paths) =>
      if |paths| > MAX_OUTSTANDING_REQUESTS - |s.outstanding| || !a.prepared || (!a.retained && paths != [])
      then Some(o) else None
    case HistoryEvictionRequested(_) =>
      if Evictable(s, 0) == |s.history| && s.pressureRetry.Some? && s.pressureRetry.value.FailsWithItsOperation()
      then Some(s.pressureRetry.value.owner) else None
    case _ => None
  }

  predicate Fails(s: Viewer, e: ViewerEvent, a: Alloc) {
    FailingOwner(s, e, a).Some? && Owns(s, FailingOwner(s, e, a).value)
  }

  /** Events that leave a pending activation pending. */
  predicate LeavesPending(s: Viewer, e: ViewerEvent, a: Alloc) {
    && !Navigates(e)
    && !(e.LayoutActivated? && Owns(s, e.owner))
    && !Fails(s, e, a)
    && (e.HistoryEvictionRequested? ==> EvictsAbove(s))
  }

  lemma ActivationShows(s: Viewer, e: ViewerEvent, a: Alloc, t: nat)
    requires Activates(s, e, a, t) && Issued(s) && CountersFit(s)
    ensures StillShowing(s, t, Step(s, e, a).s, {})
    ensures Step(s, e, a).s == ActivateHistoryEntry(s, t, a).s
  {
    EntryShows(s, t, a);
  }

  lemma EntryShows(s: Viewer, t: nat, a: Alloc)
    requires t < |s.history| && a.prepared && Issued(s) && CountersFit(s)
    ensures StillShowing(s, t, ActivateHistoryEntry(s, t, a).s, {})
  {
    NothingGone(Shown(s, t));
    var originChanged := s.scope.Some? && s.scope.value.origin != s.history[t].scope.origin;
    var showing := Showing(s, t, NewScope(s, t), originChanged);
    DropAges(s, showing);
    RequestAges(showing);
  }

  /** What every other event keeps of a pending activation. */
  ghost predicate KeepsActivation(s: Viewer, s': Viewer) {
    && s'.pendingHistory == s.pendingHistory && s'.scope == s.scope && s'.position == s.position
    && s'.history == s.history && s'.pendingCommit.None?
  }

  lemma CompletionKeepsActivation(s: Viewer, e: ViewerEvent, a: Alloc)
    requires Guard(e).Some? && Owns(s, Guard(e).value) && s.pendingCommit.None? && LeavesPending(s, e, a)
    requires !e.HistoryAdmissionRequested?
    ensures KeepsActivation(s, Complete(s, e, a).s)
  {
    if e.WasmDependenciesDiscovered? {
      LoadModulesQuiet(s, e.owner.scope, e.paths);
    } else if EndsItsRequest(e) {
      EndKeepsActivation(s, e, a);
    }
  }

  lemma EndKeepsActivation(s: Viewer, e: ViewerEvent, a: Alloc)
    requires EndsItsRequest(e) && !e.LayoutActivated? && s.pendingCommit.None?
    ensures KeepsActivation(s, Complete(s, e, a).s)
  {
  }

  lemma ReactionKeepsActivation(s: Viewer, e: ViewerEvent, a: Alloc)
    requires Guard(e).None? && s.pendingCommit.None? && LeavesPending(s, e, a)
    requires !e.HistoryEvictionRequested?
    ensures KeepsActivation(s, React(s, e, a).s)
  {
  }

  lemma ReactionReleasesNothing(s: Viewer, e: ViewerEvent, a: Alloc)
    requires Guard(e).None? && !e.HistoryEvictionRequested? && !Navigates(e)
    ensures Released(React(s, e, a).effects) == {}
  {
    ReactionUneventful(s, e, a);
  }

  lemma CompletionReleasesNothing(s: Viewer, e: ViewerEvent, a: Alloc)
    requires Guard(e).Some? && s.pendingCommit.None? && !e.HistoryAdmissionRequested?
    ensures Released(Complete(s, e, a).effects) == {}
  {
    if e.WasmDependenciesDiscovered? {
      LoadModulesQuiet(s, e.owner.scope, e.paths);
    } else if !e.HistoryCommitted? {
      CompletionUneventful(s, e, a);
    }
  }

  /** Evicting an entry above both remembered positions spares everything below them. */
  lemma EvictingAbove(s0: Viewer, t: nat, gone: set<HistoryId>, i: nat, m: nat)
    requires t < |s0.history| && DistinctIds(s0.history) && m < i < |Surviving(Shown(s0, t), gone)|
    requires forall j :: 0 <= j <= m && j < |s0.history| ==> s0.history[j].id !in gone
    ensures var gone' := gone + {Surviving(Shown(s0, t), gone)[i].id};
            forall j :: 0 <= j <= m && j < |s0.history| ==> s0.history[j].id !in gone'
  {
    var shown := Shown(s0, t);
    assert forall j :: 0 <= j < |shown| ==> shown[j].id == s0.history[j].id;
    OnlyAbove(shown, gone, i, m);
  }

  lemma EvictedKeepsShowing(s0: Viewer, t: nat, s: Viewer, gone: set<HistoryId>, i: nat, s': Viewer)
    requires StillShowing(s0, t, s, gone) && DistinctIds(s0.history)
    requires t < i < |s.history| && (s0.position.Some? ==> i > s0.position.value)
    requires s' == s.(history := Without(s.history, i), position := ShiftDown(s.position, i), pressureRetry := None)
    ensures StillShowing(s0, t, s', gone + {s.history[i].id})
  {
    var shown := Shown(s0, t);
    assert forall j :: 0 <= j < |shown| ==> shown[j].id == s0.history[j].id;
    SurvivingWithout(shown, gone, i);
    EvictingAbove(s0, t, gone, i, t);
    if s0.position.Some? { EvictingAbove(s0, t, gone, i, s0.position.value); }
  }

  lemma ReleasedConcat(a: seq<ViewerEffect>, b: seq<ViewerEffect>)
    ensures Released(a + b) == Released(a) + Released(b)
  {
    assert forall e :: e in a + b <==> e in a || e in b;
  }

  lemma EvictionReleases(s: Viewer, message: Message, a: Alloc)
    ensures var i := Evictable(s, 0);
            Released(EvictForPressure(s, message, a).effects) == if i < |s.history| then {s.history[i].id} else {}
  {
    var i := Evictable(s, 0);
    if i < |s.history| {
      var release := [ReleaseHistoryArtifact(s.history[i].id)];
      assert Released(release) == {s.history[i].id} by { assert release[0] in release; }
      ReleasedConcat(release, RetryEffects(s.pressureRetry));
      ReleasedConcat(release + RetryEffects(s.pressureRetry), [RenderTerminal]);
    }
  }

  lemma UnownedFailure(s: Viewer, o: Owner, message: Message)
    requires !Owns(s, o)
    ensures FailOwned(s, o, message) == Out(s, [])
  {
  }

  /** With nothing to evict and no failure to report, the activation stays as it is. */
  lemma DefeatKeepsShowing(s: Viewer, message: Message, a: Alloc)
    requires Evictable(s, 0) == |s.history| && !Fails(s, HistoryEvictionRequested(message), a)
    requires s.pendingCommit.None?
    ensures KeepsActivation(s, EvictForPressure(s, message, a).s)
  {
    if s.pressureRetry.Some? && s.pressureRetry.value.FailsWithItsOperation() {
      UnownedFailure(s.(pressureRetry := None), s.pressureRetry.value.owner, message);
    }
  }

  lemma EvictionKeepsShowing(s0: Viewer, t: nat, s: Viewer, gone: set<HistoryId>, message: Message, a: Alloc)
    requires StillShowing(s0, t, s, gone) && DistinctIds(s0.history)
    requires LeavesPending(s, HistoryEvictionRequested(message), a)
    ensures var out := EvictForPressure(s, message, a);
            StillShowing(s0, t, out.s, gone + Released(out.effects))
  {
    var out := EvictForPressure(s, message, a);
    EvictionReleases(s, message, a);
    if Evictable(s, 0) < |s.history| {
      EvictedKeepsShowing(s0, t, s, gone, Evictable(s, 0), out.s);
    } else {
      assert gone + Released(out.effects) == gone;
      DefeatKeepsShowing(s, message, a);
    }
  }

  /** An entry that survives at an index above `m` is not one of the first `m + 1`. */
  lemma OnlyAbove(h: History, gone: set<HistoryId>, i: nat, m: nat)
    requires DistinctIds(h) && m < i < |Surviving(h, gone)|
    requires forall j :: 0 <= j <= m && j < |h| ==> h[j].id !in gone
    ensures forall j :: 0 <= j <= m && j < |h| ==> h[j].id != Surviving(h, gone)[i].id
  {
    SurvivingSize(h, gone);
    PrefixSurvives(h, gone, m + 1);
    SurvivingKeepsDistinct(h, gone);
    forall j | 0 <= j <= m && j < |h|
      ensures h[j].id != Surviving(h, gone)[i].id
    {
      assert Surviving(h, gone)[..m + 1][j] == h[..m + 1][j];
    }
  }

  lemma {:induction false} SurvivingKeepsDistinct(h: History, gone: set<HistoryId>)
    requires DistinctIds(h)
    ensures DistinctIds(Surviving(h, gone))
  {
    if h != [] {
      SurvivingKeepsDistinct(h[..|h| - 1], gone);
      SurvivingSize(h[..|h| - 1], gone);
    }
  }

  lemma StepKeepsShowing(
    s0: Viewer, t: nat, s: Viewer, gone: set<HistoryId>, fetched: set<Owner>, e: ViewerEvent, a: Alloc)
    requires StillShowing(s0, t, s, gone) && DistinctIds(s0.history)
    requires Kept(s, fetched) && Disciplined(e, fetched) && LeavesPending(s, e, a)
    ensures var out := Step(s, e, a);
            StillShowing(s0, t, out.s, gone + Released(out.effects))
  {
    var out := Step(s, e, a);
    if e.HistoryEvictionRequested? {
      EvictionKeepsShowing(s0, t, s, gone, e.message, a);
    } else if Guard(e).None? {
      ReactionKeepsActivation(s, e, a);
      ReactionReleasesNothing(s, e, a);
      assert gone + Released(out.effects) == gone;
    } else if Owns(s, Guard(e).value) {
      assert !e.HistoryAdmissionRequested?;
      CompletionKeepsActivation(s, e, a);
      CompletionReleasesNothing(s, e, a);
      assert gone + Released(out.effects) == gone;
    } else {
      assert Released(out.effects) == {};
      assert gone + Released(out.effects) == gone;
    }
  }

  /** What the failure of a shown entry leaves: everything of `s0` but the evicted entries. */
  ghost predicate RolledBack(s0: Viewer, s: Viewer, gone: set<HistoryId>) {
    && s.history == Surviving(s0.history, gone)
    && s.position == s0.position
    && s.scope == s0.scope
    && s.currentUri == s0.currentUri
    && s.phase == s0.phase
    && s.connection == s0.connection
    && s.pendingHistory.None?
  }

  lemma FailureRestores(s0: Viewer, t: nat, s: Viewer, gone: set<HistoryId>, o: Owner, message: Message)
    requires StillShowing(s0, t, s, gone) && Owns(s, o)
    ensures RolledBack(s0, FailOwned(s, o, message).s, gone)
  {
    var shown := Shown(s0, t);
    SurvivingUpdate(s0.history, gone, t, NewScope(s0, t));
    var kept := Surviving(s0.history, gone);
    PrefixSurvives(s0.history, gone, t + 1);
    assert kept[t] == kept[..t + 1][t] == s0.history[t];
    assert RestoreEntryScope(s.history, Remembered(s0, t)) == kept;
  }

  lemma FailureStepRestores(s0: Viewer, t: nat, s: Viewer, gone: set<HistoryId>, e: ViewerEvent, a: Alloc)
    requires StillShowing(s0, t, s, gone) && Fails(s, e, a)
    ensures RolledBack(s0, Step(s, e, a).s, gone)
  {
    var o := FailingOwner(s, e, a).value;
    if e.ConnectionFailed? {
      FailureRestores(s0, t, s.(connection := Disconnected), gone, o, e.message);
    } else if e.WasmDependenciesDiscovered? {
      FailureRestores(s0, t, s, gone, o, WasmBatchTooLarge);
      FailureRestores(s0, t, s, gone, o, WasmBatchRefused);
      FailureRestores(s0, t, s, gone, o, WasmOwnerRefused);
    } else if e.HistoryEvictionRequested? {
      FailureRestores(s0, t, s.(pressureRetry := None), gone, o, e.message);
    } else {
      FailureRestores(s0, t, s, gone, o, e.message);
    }
  }

  // ---- whole runs ----

  /** The ids released by inputs `first` up to `last` of a run. */
  ghost function ReleasedBetween(r: Trace, first: nat, last: nat): set<HistoryId>
    requires first <= last <= |r.effects|
    decreases last
  {
    if first == last then {} else ReleasedBetween(r, first, last - 1) + Released(r.effects[last - 1])
  }

  /** Input `j` leaves a pending activation pending. */
  ghost predicate LeavesPendingAt(r: Trace, j: nat) {
    j < |r.states| && j < |r.inputs| && LeavesPending(r.states[j], r.inputs[j].event, r.inputs[j].alloc)
  }

  /** Input `i` shows history entry `t`. */
  ghost predicate ActivatesAt(r: Trace, i: nat, t: nat) {
    i < |r.states| && i < |r.inputs| && Activates(r.states[i], r.inputs[i].event, r.inputs[i].alloc, t)
  }

  lemma RunStepShowing(r: Trace, i: nat, t: nat, k: nat, gone: set<HistoryId>)
    requires Session(r) && i < k < |r.inputs| && StillShowing(r.states[i], t, r.states[k], gone)
    requires LeavesPendingAt(r, k)
    ensures StillShowing(r.states[i], t, r.states[k + 1], gone + Released(r.effects[k]))
  {
    LedgerMirrorsHistory(r, i);
    LedgerMirrorsHistory(r, k);
    assert StepAt(r, k);
    StepKeepsShowing(r.states[i], t, r.states[k], gone, Fetched(r, k), r.inputs[k].event, r.inputs[k].alloc);
  }

  lemma RunStartShowing(r: Trace, i: nat, t: nat)
    requires Session(r) && i < |r.inputs| && ActivatesAt(r, i, t)
    ensures StillShowing(r.states[i], t, r.states[i + 1], {})
  {
    RunIssued(r, i);
    assert StepAt(r, i);
    ActivationShows(r.states[i], r.inputs[i].event, r.inputs[i].alloc, t);
  }

  lemma ShowingOneMore(r: Trace, i: nat, t: nat, k: nat)
    requires Session(r) && i < k < |r.inputs| && LeavesPendingAt(r, k)
    requires StillShowing(r.states[i], t, r.states[k], ReleasedBetween(r, i + 1, k))
    ensures StillShowing(r.states[i], t, r.states[k + 1], ReleasedBetween(r, i + 1, k + 1))
  {
    RunStepShowing(r, i, t, k, ReleasedBetween(r, i + 1, k));
  }

  lemma {:induction false} ShowingUntil(r: Trace, i: nat, t: nat, k: nat)
    requires Session(r) && i < k <= |r.inputs| && ActivatesAt(r, i, t)
    requires forall j :: i < j < k ==> LeavesPendingAt(r, j)
    ensures StillShowing(r.states[i], t, r.states[k], ReleasedBetween(r, i + 1, k))
    decreases k
  {
    if k == i + 1 {
      RunStartShowing(r, i, t);
    } else {
      ShowingUntil(r, i, t, k - 1);
      ShowingOneMore(r, i, t, k - 1);
    }
  }

  /** In every disciplined run, Back, Forward, a jump or a restore followed by any
      events that leave it pending and then by an owned failure brings back the
      history (but for entries evicted meanwhile), the position, the scope, the
      location, the phase and the connection the activation started from. */
  lemma RollbackIsExact(r: Trace, i: nat, t: nat, k: nat)
    requires Session(r) && i < k < |r.inputs| && ActivatesAt(r, i, t)
    requires forall j :: i < j < k ==> LeavesPendingAt(r, j)
    requires Fails(r.states[k], r.inputs[k].event, r.inputs[k].alloc)
    ensures RolledBack(r.states[i], r.states[k + 1], ReleasedBetween(r, i + 1, k))
  {
    ShowingUntil(r, i, t, k);
    assert StepAt(r, k);
    FailureStepRestores(r.states[i], t, r.states[k], ReleasedBetween(r, i + 1, k),
                        r.inputs[k].event, r.inputs[k].alloc);
  }
}
