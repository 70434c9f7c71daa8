/** What a move through history shows (viewer.rs, `Back`, `Forward`, `RestoreCurrentEntry`,
`JumpToHistory` and `activate_history_entry`), in terms of the position and the history alone. */
module ViewerMoves {
  import opened Wrappers
  import opened ViewerTypes
  import opened ViewerTables
  import opened ViewerHistory
  import opened ViewerStep
  import opened ViewerOwnership
  import opened ViewerLedger
  import opened ViewerRollback
  import opened ViewerPressure

  /** The last effect asks for the cached document of entry `t` under the page now current. */
  predicate AsksFor(s: Viewer, t: nat, out: Out)
    requires t < |s.history|
  {
    && out.effects != [] && out.effects[|out.effects| - 1].ActivateCachedHistory?
    && var asked := out.effects[|out.effects| - 1];
    && asked.entry.id == s.history[t].id && asked.entry.uri == s.history[t].uri && asked.entry.aml == s.history[t].aml
    && asked.entry.scope == asked.owner.scope
    && out.s.scope == Some(asked.owner.scope) && Owns(out.s, asked.owner)
  }

  /** A page with no focus, no subscription, no reconnection and nothing pending of the page before it. */
  predicate IsFreshPage(s: Viewer) {
    && s.focused.None? && s.reconnect.None? && s.pendingCommit.None? && s.pendingResize.None?
    && s.subscriptions == Empty(16) && s.pendingSubscriptions == Empty(16)
  }

  /** Entry `t` is being shown: under a new generation of its own origin, with the place it came from
      remembered, nothing else of the history changed and the old page's work retired first. */
  predicate Shows(s: Viewer, t: nat, out: Out)
    requires t < |s.history|
  {
    && AsksFor(s, t, out)
    && out.s.scope == Some(PageScope(s.history[t].scope.origin, s.generation + 1))
    && out.s.generation == s.generation + 1 && out.s.currentUri == Some(s.history[t].uri)
    && out.s.phase == Parsing && out.s.position == s.position
    && |out.s.history| == |s.history|
    && (forall j :: 0 <= j < |s.history| && j != t ==> out.s.history[j] == s.history[j])
    && out.s.history[t] == s.history[t].(scope := out.s.scope.value)
    && out.s.pendingHistory.Some? && out.s.pendingHistory.value.target == t
    && out.s.pendingHistory.value.previousPosition == s.position
    && IsFreshPage(out.s) && out.s.outstanding == {s.nextRequestId}
    && out.s.connection == (if s.scope.Some? && s.scope.value.origin != s.history[t].scope.origin then Disconnected
                            else s.connection)
    && (s.scope.Some? ==> out.effects[0] == RetirePageWork(s.scope.value))
    && (Close in out.effects <==> s.scope.Some? && s.scope.value.origin != s.history[t].scope.origin)
  }

  lemma EntryIsShown(s: Viewer, t: nat, a: Alloc)
    requires Issued(s) && CountersFit(s) && a.prepared && t < |s.history|
    ensures Shows(s, t, ActivateHistoryEntry(s, t, a))
  {
    var entry := s.history[t];
    var originChanged := s.scope.Some? && s.scope.value.origin != entry.scope.origin;
    RequestAges(Showing(s, t, PageScope(entry.scope.origin, Succ(s.generation)), originChanged));
    assert {} + {s.nextRequestId} == {s.nextRequestId};
  }

  /** Back shows the entry before the current one, if there is one. */
  lemma BackShows(s: Viewer, a: Alloc)
    requires Issued(s) && CountersFit(s)
    ensures if a.prepared && s.position.Some? && 0 < s.position.value <= |s.history|
            then Shows(s, s.position.value - 1, Step(s, Back, a)) else Step(s, Back, a) == Out(s, [])
  {
    if a.prepared && s.position.Some? && 0 < s.position.value <= |s.history| {
      EntryIsShown(s, s.position.value - 1, a);
    }
  }

  /** Forward shows the entry after the current one, if there is one. */
  lemma ForwardShows(s: Viewer, a: Alloc)
    requires Issued(s) && CountersFit(s)
    ensures if a.prepared && s.position.Some? && s.position.value + 1 < |s.history|
            then Shows(s, s.position.value + 1, Step(s, Forward, a)) else Step(s, Forward, a) == Out(s, [])
  {
    if a.prepared && s.position.Some? && s.position.value + 1 < |s.history| {
      EntryIsShown(s, s.position.value + 1, a);
    }
  }

  /** Restoring shows the current entry again, if there is one. */
  lemma RestoreShows(s: Viewer, a: Alloc)
    requires Issued(s) && CountersFit(s)
    ensures if a.prepared && s.position.Some? && s.position.value < |s.history|
            then Shows(s, s.position.value, Step(s, RestoreCurrentEntry, a))
            else Step(s, RestoreCurrentEntry, a) == Out(s, [])
  {
    if a.prepared && s.position.Some? && s.position.value < |s.history| {
      EntryIsShown(s, s.position.value, a);
    }
  }

  /** A jump shows the entry it names, unless it is the current one or does not exist. */
  lemma JumpShows(s: Viewer, i: nat, a: Alloc)
    requires Issued(s) && CountersFit(s)
    ensures if a.prepared && i < |s.history| && s.position != Some(i)
            then Shows(s, i, Step(s, JumpToHistory(i), a)) else Step(s, JumpToHistory(i), a) == Out(s, [])
  {
    if a.prepared && i < |s.history| && s.position != Some(i) {
      EntryIsShown(s, i, a);
    }
  }

  // ---- over runs ----

  /** What was entry `t` of `s` is the current entry of `s'`, and no move is pending. */
  ghost predicate Lands(s: Viewer, s': Viewer, t: nat) {
    && t < |s.history| && s'.position == Some(t) && t < |s'.history| && s'.history[t].id == s.history[t].id
    && s'.pendingHistory.None?
  }

  lemma MoveLands(r: Trace, i: nat, t: nat, k: nat, o: Owner)
    requires Session(r) && i < k < |r.inputs| && ActivatesAt(r, i, t)
    requires forall j :: i < j < k ==> LeavesPendingAt(r, j)
    requires r.inputs[k].event == LayoutActivated(o) && Owns(r.states[k], o)
    ensures Lands(r.states[i], r.states[k + 1], t)
  {
    AnyLayoutCommits(r, i, t, k, o, Reported(0), ALL_PREPARED);
    ShowingUntil(r, i, t, k);
    ShownEntry(r.states[i], t, r.states[k], ReleasedBetween(r, i + 1, k));
    assert StepAt(r, k);
    assert r.states[k + 1].history == r.states[k].history;
  }

  /** In every disciplined run, Back and then its page's layout land one entry further back, whatever
      else happens in between that leaves it pending. */
  lemma BackLands(r: Trace, i: nat, k: nat, o: Owner)
    requires Session(r) && i < k < |r.inputs| && r.inputs[i].event == Back && r.inputs[i].alloc.prepared
    requires r.states[i].position.Some? && 0 < r.states[i].position.value <= |r.states[i].history|
    requires forall j :: i < j < k ==> LeavesPendingAt(r, j)
    requires r.inputs[k].event == LayoutActivated(o) && Owns(r.states[k], o)
    ensures Lands(r.states[i], r.states[k + 1], r.states[i].position.value - 1)
  {
    MoveLands(r, i, r.states[i].position.value - 1, k, o);
  }

  /** And Forward one entry further on. */
  lemma ForwardLands(r: Trace, i: nat, k: nat, o: Owner)
    requires Session(r) && i < k < |r.inputs| && r.inputs[i].event == Forward && r.inputs[i].alloc.prepared
    requires r.states[i].position.Some? && r.states[i].position.value + 1 < |r.states[i].history|
    requires forall j :: i < j < k ==> LeavesPendingAt(r, j)
    requires r.inputs[k].event == LayoutActivated(o) && Owns(r.states[k], o)
    ensures Lands(r.states[i], r.states[k + 1], r.states[i].position.value + 1)
  {
    MoveLands(r, i, r.states[i].position.value + 1, k, o);
  }

  /** A shown entry whose layout is activated at once. */
  lemma ShownThenLaidOut(s: Viewer, t: nat, out: Out, o: Owner, a: Alloc, s': Viewer)
    requires t < |s.history| && Shows(s, t, out) && o == out.effects[|out.effects| - 1].owner
    requires out.s.pendingHistory.value.targetGeneration == o.scope.generation
    requires s' == Step(out.s, LayoutActivated(o), a).s
    ensures s'.position == Some(t) && Ids(s'.history) == Ids(s.history) && s'.phase == Ready && s'.pendingHistory.None?
    ensures s'.scope == Some(o.scope) && s'.generation == s.generation + 1 && s'.nextRequestId == out.s.nextRequestId
    ensures s'.outstanding == out.s.outstanding - {o.id}
  {
  }

  /** What a move and the layout it asked for leave. */
  ghost predicate Settled(s: Viewer, s': Viewer, t: nat) {
    Issued(s') && s'.position == Some(t) && Ids(s'.history) == Ids(s.history)
  }

  predicate AsksForEntry(out: Out) {
    out.effects != [] && out.effects[|out.effects| - 1].ActivateCachedHistory?
  }

  /** The state once the layout of the entry asked for is activated. */
  function AfterOwnLayout(out: Out, a: Alloc): Viewer {
    if AsksForEntry(out) then Step(out.s, LayoutActivated(out.effects[|out.effects| - 1].owner), a).s else out.s
  }

  lemma MoveSettles(s: Viewer, t: nat, a: Alloc, out: Out)
    requires t < |s.history| && Shows(s, t, out) && Ages(s, out.s)
    requires out.s.pendingHistory.value.targetGeneration == s.generation + 1
    ensures Settled(s, AfterOwnLayout(out, a), t)
  {
    var s' := AfterOwnLayout(out, a);
    ShownThenLaidOut(s, t, out, out.effects[|out.effects| - 1].owner, a, s');
    SubsetSize(s'.outstanding, out.s.outstanding);
  }

  lemma BackSettles(s: Viewer, a: Alloc, out: Out)
    requires Issued(s) && CountersFit(s) && a.prepared && s.position.Some? && 0 < s.position.value <= |s.history|
    requires out == Step(s, Back, a)
    ensures Settled(s, AfterOwnLayout(out, a), s.position.value - 1)
  {
    BackShows(s, a);
    StepAges(s, Back, a);
    ShownGeneration(s, s.position.value - 1, Back, a, out);
    MoveSettles(s, s.position.value - 1, a, out);
  }

  lemma ForwardSettles(s: Viewer, a: Alloc, out: Out)
    requires Issued(s) && CountersFit(s) && a.prepared && s.position.Some? && s.position.value + 1 < |s.history|
    requires out == Step(s, Forward, a)
    ensures Settled(s, AfterOwnLayout(out, a), s.position.value + 1)
  {
    ForwardShows(s, a);
    StepAges(s, Forward, a);
    ShownGeneration(s, s.position.value + 1, Forward, a, out);
    MoveSettles(s, s.position.value + 1, a, out);
  }

  /** Back, its layout, Forward and its layout bring back the position and leave the entries. */
  lemma BackThenForward(s: Viewer, a: Alloc, out1: Out, s1: Viewer, out2: Out, s2: Viewer)
    requires Issued(s) && CountersFit(s) && CountersFit(s1) && a.prepared
    requires s.position.Some? && 0 < s.position.value < |s.history|
    requires out1 == Step(s, Back, a) && s1 == AfterOwnLayout(out1, a)
    requires out2 == Step(s1, Forward, a) && s2 == AfterOwnLayout(out2, a)
    ensures s1.position == Some(s.position.value - 1)
    ensures s2.position == s.position && Ids(s2.history) == Ids(s.history)
  {
    BackSettles(s, a, out1);
    assert |Ids(s1.history)| == |Ids(s.history)|;
    ForwardSettles(s1, a, out2);
  }

  lemma ShownGeneration(s: Viewer, t: nat, e: ViewerEvent, a: Alloc, out: Out)
    requires Issued(s) && CountersFit(s) && Activates(s, e, a, t) && ShowsEntry(e) && out == Step(s, e, a)
    ensures out.s.pendingHistory.Some? && out.s.pendingHistory.value.targetGeneration == s.generation + 1
  {
    ActivationShows(s, e, a, t);
  }
}
