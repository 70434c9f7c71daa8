/** The viewer model in the source's own form: fields and fixed slot arrays updated in
place, one method per transition. Each method is proved to compute the
corresponding function of `ViewerStep`. */
module ViewerModels {
  import opened Wrappers
  import opened ViewerTypes
  import opened ViewerTables
  import opened ViewerHistory
  import opened ViewerStep

  // ---- slot tables ----

  /** Requests in 64 slots (viewer.rs, `OutstandingRequests`). */
  class OutstandingRequests {
    const entries: array<Option<RequestId>>
    ghost var ids: set<RequestId>

    ghost predicate Valid()
      reads this, entries
    {
      entries.Length == MAX_OUTSTANDING_REQUESTS && Distinct(entries[..]) && ids == Held(entries[..])
    }

    constructor ()
      ensures Valid() && ids == {} && fresh(entries)
    {
      entries := new Option<RequestId>[MAX_OUTSTANDING_REQUESTS](i => None);
      ids := {};
      new;
      NoneHeld(entries[..]);
    }

    method Contains(id: RequestId) returns (found: bool)
      requires Valid()
      ensures found <==> id in ids
    {
      found := false;
      for i := 0 to entries.Length
        invariant found <==> Some(id) in entries[..i]
      {
        assert entries[..i + 1] == entries[..i] + [entries[i]];
        if entries[i] == Some(id) { found := true; }
      }
      assert entries[..entries.Length] == entries[..];
    }

    /** Find a free slot, then probe ids from `first` on until one is new. */
    method InsertFrom(first: RequestId) returns (id: Option<RequestId>)
      requires Valid()
      modifies this, entries
      ensures Valid() && id == TryInsert(old(ids), first)
      ensures ids == old(ids) + (if id.Some? then {id.value} else {})
    {
      ghost var before := entries[..];
      CountHeld(before);
      CountFull(before);
      var slot := 0;
      while slot < entries.Length && entries[slot].Some?
        invariant 0 <= slot <= entries.Length && forall j :: 0 <= j < slot ==> entries[j].Some?
      {
        slot := slot + 1;
      }
      if slot == entries.Length {
        return None;
      }
      var candidate := first;
      var tries := 0;
      while tries < MAX_OUTSTANDING_REQUESTS
        invariant 0 <= tries <= MAX_OUTSTANDING_REQUESTS && Valid() && entries[..] == before && ids == old(ids)
        invariant FirstFree(ids, candidate, MAX_OUTSTANDING_REQUESTS - tries)
                  == FirstFree(ids, first, MAX_OUTSTANDING_REQUESTS)
      {
        var taken := Contains(candidate);
        if !taken {
          InsertedRequest(before, slot, candidate);
          entries[slot] := Some(candidate);
          ids := ids + {candidate};
          return Some(candidate);
        }
        candidate := Succ(candidate);
        tries := tries + 1;
      }
      id := None;
    }

    method Remove(id: RequestId)
      requires Valid()
      modifies this, entries
      ensures Valid() && ids == old(ids) - {id}
    {
      ghost var before := entries[..];
      RemovedRequest(before, id);
      var i := 0;
      while i < entries.Length && entries[i] != Some(id)
        invariant 0 <= i <= entries.Length && forall j :: 0 <= j < i ==> entries[j] != Some(id)
      {
        i := i + 1;
      }
      assert Find(before, Some(id)) == i;
      if i < entries.Length {
        entries[i] := None;
      }
      ids := ids - {id};
    }

    /** Keep the requests that `pending` does not hold. */
    method RetainUnless(pending: SubscriptionOwnership)
      requires Valid() && pending.Valid()
      modifies this, entries
      ensures Valid() && ids == set id | id in old(ids) && !HoldsRequest(pending.slots, id)
    {
      ghost var before := entries[..];
      for i := 0 to entries.Length
        invariant forall j :: i <= j < entries.Length ==> entries[j] == before[j]
        invariant forall j :: 0 <= j < i ==>
                    entries[j] == if before[j].Some? && HoldsRequest(pending.slots, before[j].value)
                                  then None else before[j]
      {
        if entries[i].Some? {
          var waits := pending.ContainsRequest(entries[i].value);
          if waits { entries[i] := None; }
        }
      }
      RetainedRequests(before, entries[..], pending.slots);
      ids := Held(entries[..]);
    }

    method Clear()
      requires Valid()
      modifies this, entries
      ensures Valid() && ids == {}
    {
      for i := 0 to entries.Length
        invariant forall j :: 0 <= j < i ==> entries[j].None?
      {
        entries[i] := None;
      }
      NoneHeld(entries[..]);
      ids := {};
    }

    method Available() returns (n: nat)
      requires Valid()
      ensures n == MAX_OUTSTANDING_REQUESTS - |ids|
    {
      CountHeld(entries[..]);
      var taken := 0;
      var i := entries.Length;
      while i > 0
        invariant 0 <= i <= entries.Length && taken == Count(entries[i..])
      {
        i := i - 1;
        assert entries[i..][1..] == entries[i + 1..];
        if entries[i].Some? { taken := taken + 1; }
      }
      assert entries[0..] == entries[..];
      n := MAX_OUTSTANDING_REQUESTS - taken;
    }
  }

  /** Subscriptions in 16 slots (viewer.rs, `SubscriptionOwnership`). */
  class SubscriptionOwnership {
    const entries: array<Option<(RequestId, Region)>>
    ghost var slots: SubscriptionSlots

    ghost predicate Valid()
      reads this, entries
    {
      entries.Length == MAX_ACTIVE_SUBSCRIPTIONS && slots == entries[..]
    }

    constructor ()
      ensures Valid() && slots == NoSubscriptions() && fresh(entries)
    {
      entries := new Option<(RequestId, Region)>[MAX_ACTIVE_SUBSCRIPTIONS](i => None);
      new;
      slots := entries[..];
    }

    method Len() returns (n: nat)
      requires Valid()
      ensures n == Count(slots)
    {
      n := 0;
      var i := entries.Length;
      while i > 0
        invariant 0 <= i <= entries.Length && n == Count(entries[i..])
      {
        i := i - 1;
        assert entries[i..][1..] == entries[i + 1..];
        if entries[i].Some? { n := n + 1; }
      }
      assert entries[0..] == entries[..];
    }

    /** Store the subscription in the first free slot. */
    method Add(id: RequestId, region: Region) returns (inserted: bool)
      requires Valid()
      modifies this, entries
      ensures Valid() && slots == Insert(old(slots), (id, region))
      ensures inserted <==> Count(old(slots)) < MAX_ACTIVE_SUBSCRIPTIONS
    {
      ghost var before := entries[..];
      var i := 0;
      while i < entries.Length && entries[i].Some?
        invariant 0 <= i <= entries.Length && forall j :: 0 <= j < i ==> entries[j].Some?
      {
        i := i + 1;
      }
      CountFull(before);
      assert Find(before, None) == i;
      inserted := i < entries.Length;
      if inserted {
        entries[i] := Some((id, region));
      }
      slots := entries[..];
    }

    method Contains(id: RequestId, region: Region) returns (found: bool)
      requires Valid()
      ensures found <==> Some((id, region)) in slots
    {
      found := false;
      for i := 0 to entries.Length
        invariant found <==> Some((id, region)) in entries[..i]
      {
        assert entries[..i + 1] == entries[..i] + [entries[i]];
        if entries[i] == Some((id, region)) { found := true; }
      }
      assert entries[..entries.Length] == entries[..];
    }

    method Take(id: RequestId, region: Region) returns (removed: bool)
      requires Valid()
      modifies this, entries
      ensures Valid() && slots == RemoveExact(old(slots), (id, region))
      ensures removed <==> Some((id, region)) in old(slots)
    {
      ghost var before := entries[..];
      var i := 0;
      while i < entries.Length && entries[i] != Some((id, region))
        invariant 0 <= i <= entries.Length && forall j :: 0 <= j < i ==> entries[j] != Some((id, region))
      {
        i := i + 1;
      }
      assert Find(before, Some((id, region))) == i;
      removed := i < entries.Length;
      if removed {
        assert before[i] == Some((id, region));
        entries[i] := None;
      }
      slots := entries[..];
    }

    method TakeRequest(id: RequestId) returns (removed: bool)
      requires Valid()
      modifies this, entries
      ensures Valid() && slots == RemoveRequest(old(slots), id)
      ensures removed <==> HoldsRequest(old(slots), id)
    {
      ghost var before := entries[..];
      var i := 0;
      while i < entries.Length && !(entries[i].Some? && entries[i].value.0 == id)
        invariant 0 <= i <= entries.Length && forall j :: 0 <= j < i ==> !(entries[j].Some? && entries[j].value.0 == id)
      {
        i := i + 1;
      }
      assert FindRequest(before, id) == i;
      removed := i < entries.Length;
      if removed {
        assert before[i].Some? && before[i].value.0 == id;
        entries[i] := None;
      }
      slots := entries[..];
    }

    method ContainsRequest(id: RequestId) returns (found: bool)
      requires Valid()
      ensures found <==> HoldsRequest(slots, id)
    {
      found := false;
      for i := 0 to entries.Length
        invariant found <==> exists j :: 0 <= j < i && entries[j].Some? && entries[j].value.0 == id
      {
        if entries[i].Some? && entries[i].value.0 == id { found := true; }
      }
    }

    method Clear()
      requires Valid()
      modifies this, entries
      ensures Valid() && slots == NoSubscriptions()
    {
      for i := 0 to entries.Length
        invariant forall j :: 0 <= j < i ==> entries[j].None?
      {
        entries[i] := None;
      }
      slots := entries[..];
    }
  }

  lemma InsertedRequest(before: Slots<RequestId>, slot: nat, id: RequestId)
    requires slot < |before| && before[slot].None? && Some(id) !in before && Distinct(before)
    ensures Distinct(before[slot := Some(id)])
    ensures Held(before[slot := Some(id)]) == Held(before) + {id}
  {
    var after := before[slot := Some(id)];
    assert after[slot] == Some(id);
    forall x | x in Held(before)
      ensures x in Held(after)
    {
      var i :| 0 <= i < |before| && before[i] == Some(x);
      assert after[i] == Some(x);
    }
  }

  lemma RemovedRequest(before: Slots<RequestId>, id: RequestId)
    requires Distinct(before)
    ensures Distinct(RemoveExact(before, id))
    ensures Held(RemoveExact(before, id)) == Held(before) - {id}
  {
    var after := RemoveExact(before, id);
    forall x | x in Held(before) && x != id
      ensures x in Held(after)
    {
      var i :| 0 <= i < |before| && before[i] == Some(x);
      assert after[i] == Some(x);
    }
  }

  lemma NoneHeld(slots: Slots<RequestId>)
    requires forall i :: 0 <= i < |slots| ==> slots[i].None?
    ensures Held(slots) == {} && Distinct(slots)
  {
  }

  lemma RetainedRequests(before: Slots<RequestId>, after: Slots<RequestId>, pending: SubscriptionSlots)
    requires Distinct(before) && |after| == |before|
    requires forall j :: 0 <= j < |before| ==>
               after[j] == if before[j].Some? && HoldsRequest(pending, before[j].value) then None else before[j]
    ensures Distinct(after)
    ensures Held(after) == set id | id in Held(before) && !HoldsRequest(pending, id)
  {
    forall id | id in Held(before) && !HoldsRequest(pending, id)
      ensures id in Held(after)
    {
      var i :| 0 <= i < |before| && before[i] == Some(id);
      assert after[i] == Some(id);
    }
  }

  /** The fields of the current page. */
  datatype Page = Page(
    phase: Phase,
    scope: Option<PageScope>,
    uri: Option<Uri>,
    connection: Connection,
    viewport: (nat, nat),
    contentHeight: nat,
    focused: Option<NodeId>,
    reconnect: Option<RequestId>)

  /** The fields that remember work in progress. */
  datatype Pending = Pending(
    kind: CommitKind,
    activation: Option<PendingActivation>,
    commit: Option<PendingCommit>,
    resize: Option<PendingResize>,
    retry: Option<PressureRetry>)

  /** The model of viewer.rs. */
  class ViewerModel {
    var page: Page
    var history: History
    var position: Option<nat>
    const subscriptions: SubscriptionOwnership
    const outstanding: OutstandingRequests
    const pendingSubscriptions: SubscriptionOwnership
    var generation: nat
    var nextRequestId: RequestId
    var nextHistoryId: HistoryId
    var pending: Pending

    /** The tables and their slots. */
    ghost const Tables: set<object> :=
      {subscriptions, subscriptions.entries, outstanding, outstanding.entries,
       pendingSubscriptions, pendingSubscriptions.entries}

    ghost predicate Valid()
      reads this, Tables
    {
      && subscriptions.Valid() && outstanding.Valid() && pendingSubscriptions.Valid()
      && subscriptions != pendingSubscriptions && subscriptions.entries != pendingSubscriptions.entries
      && nextRequestId < U64
      && |history| <= MAX_HISTORY_ENTRIES
      && (pending.commit.Some? ==> |pending.commit.value.aml| <= MAX_HISTORY_AML_BYTES)
    }

    /** The state as a value. */
    ghost function View(): Viewer
      reads this, Tables
    {
      Viewer(page.phase, page.scope, page.uri, page.connection, page.viewport, page.contentHeight, history, position,
             page.focused, subscriptions.slots, outstanding.ids, pendingSubscriptions.slots, generation,
             nextRequestId, nextHistoryId, page.reconnect, pending.kind, pending.activation, pending.commit,
             pending.resize, pending.retry)
    }

    constructor (width: nat, height: nat)
      ensures Valid() && View() == Initial(width, height) && fresh(Tables)
    {
      page := Page(Idle, None, None, Disconnected, (width, height), 0, None, None);
      history, position := [], None;
      var active := new SubscriptionOwnership();
      var requests := new OutstandingRequests();
      var waiting := new SubscriptionOwnership();
      subscriptions, outstanding, pendingSubscriptions := active, requests, waiting;
      generation, nextRequestId, nextHistoryId := 0, 1, 1;
      pending := Pending(Append, None, None, None, None);
    }

    // ---- ownership ----

    method NewRequest() returns (id: Option<RequestId>)
      requires Valid()
      modifies this`nextRequestId, outstanding, outstanding.entries
      ensures Valid()
      ensures match Request(old(View())) {
                case None => id.None? && View() == old(View())
                case Some((s, issued)) => id == Some(issued) && View() == s
              }
    {
      id := outstanding.InsertFrom(nextRequestId);
      if id.Some? {
        nextRequestId := Succ(id.value);
      }
    }

    method OwnsOperation(o: Owner) returns (owned: bool)
      requires Valid()
      ensures owned <==> Owns(View(), o)
    {
      var held := outstanding.Contains(o.id);
      owned := page.scope == Some(o.scope) && held;
    }

    method Release(id: RequestId)
      requires Valid()
      modifies outstanding, outstanding.entries
      ensures Valid() && View() == DropRequest(old(View()), id)
    {
      outstanding.Remove(id);
    }

    /** Empty all three tables. */
    method ClearWork()
      requires Valid()
      modifies Tables
      ensures Valid()
      ensures View() == old(View()).(subscriptions := NoSubscriptions(), pendingSubscriptions := NoSubscriptions(),
                                     outstanding := {})
    {
      subscriptions.Clear();
      pendingSubscriptions.Clear();
      outstanding.Clear();
    }

    // ---- navigation ----

    method Renew(newScope: PageScope, uri: Uri, kind: CommitKind)
      requires Valid()
      modifies this, Tables
      ensures Valid() && View() == Renewed(old(View()), newScope, uri, kind)
    {
      ClearWork();
      generation := newScope.generation;
      page := page.(scope := Some(newScope), uri := Some(uri), phase := Connecting, connection := Dialing,
                    focused := None, reconnect := None);
      pending := Pending(kind, None, None, None, None);
    }

    method Navigate(uri: Uri, origin: Origin, kind: CommitKind, a: Alloc) returns (effects: seq<ViewerEffect>)
      requires Valid()
      modifies this, Tables
      ensures Valid() && Out(View(), effects) == BeginNavigation(old(View()), uri, origin, kind, a)
    {
      effects := [];
      if !a.prepared {
        return;
      }
      var originChanged := page.scope.Some? && page.scope.value.origin != origin;
      var previous := page.scope;
      var newScope := PageScope(origin, Succ(generation));
      Renew(newScope, uri, kind);
      var id := NewRequest();
      if id.None? {
        return;
      }
      effects := RetireOld(previous, originChanged)
                 + [Connect(Owner(newScope, id.value)), Fetch(Owner(newScope, id.value), uri)];
    }

    method Submit(uri: Uri, origin: Origin, path: string, formData: string, a: Alloc)
      returns (effects: seq<ViewerEffect>)
      requires Valid()
      modifies this, Tables
      ensures Valid() && Out(View(), effects) == SubmitForm(old(View()), uri, origin, path, formData, a)
    {
      effects := Navigate(uri, origin, Append, a);
      if effects != [] {
        var last := effects[|effects| - 1];
        effects := effects[..|effects| - 1];
        if last.Fetch? {
          effects := effects + [ViewerEffect.Submit(last.owner, uri, path, formData)];
        }
      }
    }

    method Show(index: nat, newScope: PageScope, originChanged: bool)
      requires Valid() && index < |history|
      modifies this, Tables
      ensures Valid() && View() == Showing(old(View()), index, newScope, originChanged)
    {
      ClearWork();
      generation := newScope.generation;
      page := page.(scope := Some(newScope), uri := Some(history[index].uri), phase := Parsing, focused := None,
                    connection := if originChanged then Disconnected else page.connection, reconnect := None);
      history := history[index := history[index].(scope := newScope)];
      pending := pending.(commit := None, resize := None);
    }

    method ShowEntry(index: nat, a: Alloc) returns (effects: seq<ViewerEffect>)
      requires Valid()
      modifies this, Tables
      ensures Valid() && Out(View(), effects) == ActivateHistoryEntry(old(View()), index, a)
    {
      effects := [];
      if index >= |history| || !a.prepared {
        return;
      }
      var entry := history[index];
      var originChanged := page.scope.Some? && page.scope.value.origin != entry.scope.origin;
      var newScope := PageScope(entry.scope.origin, Succ(generation));
      var previous := PendingActivation(index, newScope.generation, entry.scope, position, page.scope, page.uri,
                                        page.phase, page.connection);
      Show(index, newScope, originChanged);
      var id := NewRequest();
      if id.None? {
        return;
      }
      pending := pending.(activation := Some(previous));
      effects := RetireOld(previous.previousScope, originChanged)
                 + [ActivateCachedHistory(Owner(newScope, id.value), entry.(scope := newScope))];
    }

    method RollBack(p: PendingActivation)
      requires Valid() && pending.activation == Some(p)
      modifies this, Tables
      ensures Valid()
      ensures View() == old(View()).(
                pendingHistory := None, history := RestoreEntryScope(old(history), p), position := p.previousPosition,
                scope := p.previousScope, currentUri := p.previousUri, phase := p.previousPhase,
                connection := p.previousConnection, outstanding := {}, pendingSubscriptions := NoSubscriptions(),
                reconnect := None)
    {
      outstanding.Clear();
      pendingSubscriptions.Clear();
      if p.target < |history| {
        history := history[p.target := history[p.target].(scope := p.previousEntryScope)];
      }
      position := p.previousPosition;
      pending := pending.(activation := None);
      page := page.(scope := p.previousScope, uri := p.previousUri, phase := p.previousPhase,
                    connection := p.previousConnection, reconnect := None);
    }

    method Fail(o: Owner, message: Message) returns (effects: seq<ViewerEffect>)
      requires Valid()
      modifies this, Tables
      ensures Valid() && Out(View(), effects) == FailOwned(old(View()), o, message)
    {
      effects := [];
      var owned := OwnsOperation(o);
      if !owned {
        return;
      }
      if pending.activation.Some? && pending.activation.value.targetGeneration == o.scope.generation {
        RollBack(pending.activation.value);
        return [RetirePageWork(o.scope), RenderTerminal];
      }
      ClearWork();
      page := page.(phase := Failed, connection := Disconnected, reconnect := None);
      pending := pending.(commit := None, resize := None);
      effects := [RetirePageWork(o.scope), ActivateErrorPage(message), RenderTerminal];
    }

    // ---- history ----

    method Admit(o: Owner, uri: Uri, aml: string, a: Alloc) returns (effects: seq<ViewerEffect>)
      requires Valid()
      modifies this, Tables
      ensures Valid() && Out(View(), effects) == AdmitHistory(old(View()), o, uri, aml, a)
    {
      if |aml| > MAX_HISTORY_AML_BYTES {
        effects := Fail(o, HistoryEntryTooLarge);
        return;
      }
      if page.uri != Some(uri) {
        if !a.relabelled {
          effects := Fail(o, RelabelRefused);
          return;
        }
        page := page.(uri := Some(uri));
      }
      assert View() == old(View()).(currentUri := Some(uri));
      var id, replacing := nextHistoryId, false;
      if pending.kind.ReplaceCurrent? && position.Some? && position.value < |history| {
        id, replacing := history[position.value].id, true;
      }
      if !a.retained {
        effects := Fail(o, HistoryOwnerRefused);
        return;
      }
      if !a.reserved {
        effects := Fail(o, HistoryEffectsRefused);
        return;
      }
      pending := pending.(commit := Some(PendingCommit(o, id, uri, aml, pending.kind)));
      effects := [AdmitHistoryArtifact(o, id, replacing)];
    }

    /** Put the admitted entry in its place. Neither the list of removed ids nor the
        history ever outgrows its 128 places. */
    method PlaceEntry(p: PendingCommit, entry: HistoryEntry) returns (removed: seq<HistoryId>)
      requires Valid() && entry.id == p.id
      modifies this`history, this`position, this`nextHistoryId
      ensures Valid()
      ensures Commit(history, position, removed) == Place(old(history), old(position), p.commit, entry)
      ensures nextHistoryId == if ReplaceSlot(old(history), old(position), p.commit, p.id).Some?
                               then old(nextHistoryId) else Succ(old(nextHistoryId))
    {
      if p.commit.ReplaceCurrent? && position.Some? && position.value < |history|
         && history[position.value].id == p.id {
        history := history[position.value := entry];
        return [p.id];
      }
      var keep := if position.None? then 0
                  else if position.value + 1 <= |history| then position.value + 1 else |history|;
      removed := Ids(history[keep..]);
      history := history[..keep];
      if |history| == MAX_HISTORY_ENTRIES {
        assert |removed| < MAX_HISTORY_ENTRIES;
        removed := removed + [history[0].id];
        history := history[1..];
        if position.Some? {
          position := Some(if position.value > 0 then position.value - 1 else 0);
        }
      }
      nextHistoryId := Succ(nextHistoryId);
      assert |history| < MAX_HISTORY_ENTRIES;
      history := history + [entry];
      position := Some(|history| - 1);
    }

    /** Drop old entries until the history fits its byte budget. */
    method DropOld(removedSoFar: seq<HistoryId>) returns (removed: seq<HistoryId>)
      requires Valid() && |history| + |removedSoFar| <= MAX_HISTORY_ENTRIES + 1
      modifies this`history, this`position
      ensures Valid()
      ensures Commit(history, position, removed) == Evict(Commit(old(history), old(position), removedSoFar))
    {
      removed := removedSoFar;
      var retained := TotalBytes();
      while |history| > 1 && (|history| > MAX_HISTORY_ENTRIES || retained > MAX_HISTORY_AML_BYTES)
        invariant |history| <= MAX_HISTORY_ENTRIES && retained == Bytes(history)
        invariant |history| + |removed| <= MAX_HISTORY_ENTRIES + 1
        invariant Evict(Commit(history, position, removed)) == Evict(Commit(old(history), old(position), removedSoFar))
        decreases |history|
      {
        var i := if position == Some(0) then 1 else 0;
        BytesWithout(history, i);
        retained := retained - |history[i].aml|;
        assert |removed| < MAX_HISTORY_ENTRIES;
        removed := removed + [history[i].id];
        history := history[..i] + history[i + 1..];
        if position.Some? && i < position.value {
          position := Some(position.value - 1);
        }
      }
    }

    method TotalBytes() returns (n: nat)
      ensures n == Bytes(history)
    {
      n := 0;
      var i := |history|;
      while i > 0
        invariant 0 <= i <= |history| && n == Bytes(history[i..])
      {
        i := i - 1;
        assert history[i..][1..] == history[i + 1..];
        n := n + |history[i].aml|;
      }
      assert history[0..] == history;
    }

    method CommitHistory(p: PendingCommit) returns (effects: seq<ViewerEffect>)
      requires Valid() && pending.commit == Some(p)
      modifies this
      ensures Valid() && Out(View(), effects) == CommitPending(old(View()), p)
    {
      var entry := HistoryEntry(p.id, p.owner.scope, p.uri, p.aml);
      PlaceConserves(history, position, p.commit, entry);
      pending := pending.(commit := None, kind := Append);
      var removed := PlaceEntry(p, entry);
      removed := DropOld(removed);
      effects := ReleaseAll(removed);
      effects := effects + [InstallHistoryArtifact(p.owner, p.id)];
    }

    /** One release per distinct id. */
    method ReleaseAll(removed: seq<HistoryId>) returns (effects: seq<ViewerEffect>)
      ensures effects == Releases(removed)
    {
      effects := [];
      for k := 0 to |removed|
        invariant effects == Releases(removed[..k])
      {
        assert removed[..k + 1][..k] == removed[..k];
        var release := ReleaseHistoryArtifact(removed[k]);
        if release !in effects {
          effects := effects + [release];
        }
      }
      assert removed[..|removed|] == removed;
    }

    /** Index of the oldest entry that is neither current nor being activated. */
    method FindEvictable() returns (i: nat)
      ensures i == Evictable(View(), 0)
    {
      var current := EntryIdAt(history, position);
      var target := if pending.activation.Some? then EntryIdAt(history, Some(pending.activation.value.target)) else None;
      i := 0;
      while i < |history| && (Some(history[i].id) == current || Some(history[i].id) == target)
        invariant 0 <= i <= |history| && Evictable(View(), i) == Evictable(View(), 0)
      {
        i := i + 1;
      }
    }

    method EvictEntry(i: nat) returns (effects: seq<ViewerEffect>)
      requires Valid() && i < |history|
      modifies this`history, this`position, this`pending
      ensures Valid()
      ensures View() == old(View()).(history := Without(old(history), i), position := ShiftDown(old(position), i),
                                     pressureRetry := None)
      ensures effects == [ReleaseHistoryArtifact(old(history)[i].id)] + RetryEffects(old(pending).retry)
                         + [RenderTerminal]
    {
      effects := [ReleaseHistoryArtifact(history[i].id)];
      history := history[..i] + history[i + 1..];
      if position.Some? && i < position.value {
        position := Some(position.value - 1);
      }
      if pending.retry.Some? {
        effects := effects + [pending.retry.value.IntoEffect()];
        pending := pending.(retry := None);
      }
      effects := effects + [RenderTerminal];
    }

    method EvictHistory(message: Message, a: Alloc) returns (effects: seq<ViewerEffect>)
      requires Valid()
      modifies this, Tables
      ensures Valid() && Out(View(), effects) == EvictForPressure(old(View()), message, a)
    {
      var i := FindEvictable();
      if i < |history| {
        effects := EvictEntry(i);
        return;
      }
      if pending.retry.Some? && pending.retry.value.FailsWithItsOperation() {
        var o := pending.retry.value.owner;
        pending := pending.(retry := None);
        effects := Fail(o, message);
        return;
      }
      if page.scope.Some? && !a.prepared {
        return [];
      }
      GiveUp();
      effects := RetireOld(page.scope, false) + [ActivateErrorPage(message), RenderTerminal];
    }

    /** Nothing is left to evict: drop the page's work. */
    method GiveUp()
      requires Valid()
      modifies this`page, this`pending, Tables
      ensures Valid()
      ensures View() == old(View()).(pressureRetry := None, phase := Failed, connection := Disconnected,
                                     focused := None, subscriptions := NoSubscriptions(),
                                     pendingSubscriptions := NoSubscriptions(), outstanding := {},
                                     reconnect := None, pendingResize := None)
    {
      ClearWork();
      page := page.(phase := Failed, connection := Disconnected, focused := None, reconnect := None);
      pending := pending.(retry := None, resize := None);
    }

    // ---- page work ----

    /** One request per authored module, as long as slots last. */
    method LoadAll(scope: PageScope, paths: seq<string>) returns (effects: seq<ViewerEffect>)
      requires Valid()
      modifies this`nextRequestId, outstanding, outstanding.entries
      ensures Valid() && Out(View(), effects) == LoadModules(old(View()), scope, paths)
    {
      effects := [];
      var k := 0;
      LoadsStart(View(), scope, paths);
      while k < |paths|
        invariant 0 <= k <= |paths| && Valid()
        invariant Loads(old(View()), View(), scope, paths, k, effects)
      {
        LoadsStep(old(View()), View(), scope, paths, k, effects);
        var id := NewRequest();
        if id.None? {
          return;
        }
        effects := effects + [LoadWasm(Owner(scope, id.value), paths[k])];
        k := k + 1;
      }
      LoadsEnd(old(View()), View(), scope, paths, effects);
    }

    method Discover(o: Owner, paths: seq<string>, a: Alloc) returns (effects: seq<ViewerEffect>)
      requires Valid()
      modifies this, Tables
      ensures Valid() && Out(View(), effects) == DiscoverModules(old(View()), o, paths, a)
    {
      var available := outstanding.Available();
      if |paths| > available {
        effects := Fail(o, WasmBatchTooLarge);
      } else if !a.prepared {
        effects := Fail(o, WasmBatchRefused);
      } else if !a.retained && paths != [] {
        effects := Fail(o, WasmOwnerRefused);
      } else {
        effects := LoadAll(o.scope, paths);
      }
    }

    method PresentPage(o: Owner) returns (effects: seq<ViewerEffect>)
      requires Valid()
      modifies this, outstanding, outstanding.entries
      ensures Valid() && Out(View(), effects) == ActivatePage(old(View()), o)
    {
      page := page.(phase := Ready);
      if pending.activation.Some? && pending.activation.value.targetGeneration == o.scope.generation {
        position := Some(pending.activation.value.target);
        pending := pending.(activation := None);
      }
      Release(o.id);
      effects := [RenderTerminal];
    }

    method RequestSubscription(region: Region, a: Alloc) returns (effects: seq<ViewerEffect>)
      requires Valid()
      modifies this, Tables
      ensures Valid() && Out(View(), effects) == StartSubscription(old(View()), region, a)
    {
      effects := [];
      if page.connection != Connected {
        return;
      }
      var active := subscriptions.Len();
      var waiting := pendingSubscriptions.Len();
      if active + waiting >= MAX_ACTIVE_SUBSCRIPTIONS || page.scope.None? || !a.prepared {
        return;
      }
      var id := NewRequest();
      if id.None? {
        return;
      }
      var inserted := pendingSubscriptions.Add(id.value, region);
      assert inserted;
      effects := [Subscribe(Owner(page.scope.value, id.value), region)];
    }

    method FinishSubscription(o: Owner, region: Region)
      requires Valid()
      modifies Tables
      ensures Valid() && View() == CompleteSubscription(old(View()), o, region).s
    {
      var found := pendingSubscriptions.Take(o.id, region);
      if !found {
        return;
      }
      var _ := subscriptions.Add(o.id, region);
      Release(o.id);
    }

    method ForgetSubscription(id: RequestId)
      requires Valid()
      modifies Tables
      ensures Valid()
      ensures View() == DropRequest(old(View()), id).(
                          pendingSubscriptions := RemoveRequest(old(View()).pendingSubscriptions, id))
    {
      var _ := pendingSubscriptions.TakeRequest(id);
      Release(id);
    }

    /** Forget every subscription and the requests still waiting for one. */
    method RetireSubscriptionWork()
      requires Valid()
      modifies Tables
      ensures Valid() && View() == RetireAllSubscriptions(old(View()))
    {
      subscriptions.Clear();
      outstanding.RetainUnless(pendingSubscriptions);
      pendingSubscriptions.Clear();
    }

    /** Record the size and forget the projection it supersedes. */
    method Supersede(width: nat, height: nat)
      requires Valid()
      modifies this, outstanding, outstanding.entries
      ensures Valid() && View() == Resized(old(View()), width, height)
    {
      if pending.resize.Some? {
        var superseded := pending.resize.value.owner;
        Release(superseded.id);
        pending := pending.(resize := None);
        if pending.retry.Some? && pending.retry.value.RetryResizeProjection?
           && pending.retry.value.owner == superseded {
          pending := pending.(retry := None);
        }
      }
      page := page.(viewport := (width, height));
    }

    method ResizeViewport(width: nat, height: nat, a: Alloc) returns (effects: seq<ViewerEffect>)
      requires Valid()
      modifies this, outstanding, outstanding.entries
      ensures Valid() && Out(View(), effects) == ResizeTo(old(View()), width, height, a)
    {
      effects := [];
      if page.scope.None? {
        page := page.(viewport := (width, height));
      } else if a.prepared {
        Supersede(width, height);
        var id := NewRequest();
        if id.Some? {
          var o := Owner(page.scope.value, id.value);
          pending := pending.(resize := Some(PendingResize(o, width, height)));
          effects := [PrepareResizeProjection(o, width, height)];
        }
      }
    }

    /** Start one request of the current page; `None` when there is no page or no slot. */
    method StartWork(a: Alloc) returns (o: Option<Owner>)
      requires Valid()
      modifies this`nextRequestId, outstanding, outstanding.entries
      ensures Valid()
      ensures forall effect: Owner -> ViewerEffect {:trigger Start(old(View()), a, effect)} ::
                Out(View(), if o.Some? then [effect(o.value)] else []) == Start(old(View()), a, effect)
    {
      o := None;
      if page.scope.None? || !a.prepared {
        return;
      }
      var id := NewRequest();
      if id.Some? {
        o := Some(Owner(page.scope.value, id.value));
      }
    }

    method Reconnect(a: Alloc) returns (effects: seq<ViewerEffect>)
      requires Valid()
      modifies this, outstanding, outstanding.entries
      ensures Valid() && Out(View(), effects) == LoseTransport(old(View()), a)
    {
      effects := [];
      if page.connection == Dialing || page.scope.None? || !a.prepared {
        return;
      }
      var id := NewRequest();
      if id.Some? {
        page := page.(connection := Dialing, reconnect := Some(id.value));
        effects := [Connect(Owner(page.scope.value, id.value))];
      }
    }

    // ---- events ----

    method FinishConnection(o: Owner, made: bool, message: Message) returns (effects: seq<ViewerEffect>)
      requires Valid()
      modifies this, Tables
      ensures Valid()
      ensures Out(View(), effects) == if made then Reconnected(old(View()), o)
                                      else ConnectFailed(old(View()), o, message)
    {
      effects := [];
      page := page.(connection := if made then Connected else Disconnected);
      if page.reconnect == Some(o.id) {
        page := page.(reconnect := None);
        Release(o.id);
        effects := if made then [] else [RenderTerminal];
      } else if made {
        page := page.(phase := Fetching);
      } else {
        effects := Fail(o, message);
      }
    }

    /** An owned completion that ends its own request. */
    method FinishRequest(e: ViewerEvent, a: Alloc) returns (effects: seq<ViewerEffect>)
      requires Valid() && EndsItsRequest(e)
      modifies this, Tables
      ensures Valid() && Out(View(), effects) == Complete(old(View()), e, a)
    {
      if e.SubscriptionCompleted? {
        FinishSubscription(e.owner, e.region);
        return [];
      }
      if e.LayoutActivated? {
        effects := PresentPage(e.owner);
        return;
      }
      if e.SubscriptionFailed? {
        ForgetSubscription(e.owner.id);
        return [];
      }
      Release(e.owner.id);
      effects := if e.WasmActivated? || e.WasmRejected? then [RenderTerminal]
                 else if e.DeferredNavigationCompleted? then [ResumeNavigation(e.owner)] else [];
    }

    /** Completions with several outcomes. */
    predicate HasOutcomes(e: ViewerEvent) {
      || e.ConnectionMade? || e.ConnectionFailed? || e.HistoryCommitted? || e.HistoryAdmissionRequested?
      || e.WasmDependenciesDiscovered?
    }

    method FinishOutcome(e: ViewerEvent, a: Alloc) returns (effects: seq<ViewerEffect>)
      requires Valid() && HasOutcomes(e)
      modifies this, Tables
      ensures Valid() && Out(View(), effects) == Complete(old(View()), e, a)
    {
      effects := [];
      match e
      case ConnectionMade(o) => effects := FinishConnection(o, true, Reported(0));
      case ConnectionFailed(o, message) => effects := FinishConnection(o, false, message);
      case HistoryCommitted(o, id) =>
        if pending.commit.Some? && pending.commit.value.owner == o && pending.commit.value.id == id {
          effects := CommitHistory(pending.commit.value);
        }
      case HistoryAdmissionRequested(o, uri, aml) => effects := Admit(o, uri, aml, a);
      case WasmDependenciesDiscovered(o, paths) => effects := Discover(o, paths, a);
    }

    /** An owned completion that moves the page to its next stage. */
    method FinishStage(e: ViewerEvent, a: Alloc) returns (effects: seq<ViewerEffect>)
      requires Valid() && Guard(e).Some? && !EndsItsRequest(e) && !FailsPage(e) && !HasOutcomes(e)
      modifies this, Tables
      ensures Valid() && Out(View(), effects) == Complete(old(View()), e, a)
    {
      effects := [];
      match e
      case FetchCompleted(o) =>
        page := page.(phase := Parsing);
        effects := [Parse(o)];
      case ParseCompleted(o) =>
        page := page.(phase := Layout);
        effects := [PrepareLayout(o)];
      case LayoutPrepared(o, height) =>
        page := page.(contentHeight := height);
        effects := [ActivateLayout(o)];
      case ResizeProjectionPrepared(o, height) =>
        if pending.resize.Some? && pending.resize.value.owner == o {
          pending := pending.(resize := None);
          page := page.(contentHeight := height);
          effects := [ActivateLayout(o)];
        }
      case WasmPrepared(o) => effects := [ActivateWasm(o)];
    }

    /** An owned completion. */
    method Finish(e: ViewerEvent, a: Alloc) returns (effects: seq<ViewerEffect>)
      requires Valid() && Guard(e).Some?
      modifies this, Tables
      ensures Valid() && Out(View(), effects) == Complete(old(View()), e, a)
    {
      if EndsItsRequest(e) {
        effects := FinishRequest(e, a);
      } else if FailsPage(e) {
        effects := Fail(e.owner, e.message);
      } else if HasOutcomes(e) {
        effects := FinishOutcome(e, a);
      } else {
        effects := FinishStage(e, a);
      }
    }

    /** Page loads. */
    method RespondByLoading(e: ViewerEvent, a: Alloc) returns (effects: seq<ViewerEffect>)
      requires Valid() && LoadsPage(e)
      modifies this, Tables
      ensures Valid() && Out(View(), effects) == React(old(View()), e, a)
    {
      effects := [];
      match e
      case InitialNavigation(uri, origin) => effects := Navigate(uri, origin, Append, a);
      case Navigate(uri, origin) => effects := Navigate(uri, origin, Append, a);
      case Redirect(uri, origin) => effects := Navigate(uri, origin, pending.kind, a);
      case FormSubmitted(uri, origin, path, formData) => effects := Submit(uri, origin, path, formData, a);
      case Reload =>
        if page.uri.Some? && page.scope.Some? {
          effects := Navigate(page.uri.value, page.scope.value.origin, ReplaceCurrent, a);
        }
    }

    /** Moves through history. */
    method RespondByMoving(e: ViewerEvent, a: Alloc) returns (effects: seq<ViewerEffect>)
      requires Valid() && ShowsEntry(e)
      modifies this, Tables
      ensures Valid() && Out(View(), effects) == React(old(View()), e, a)
    {
      effects := [];
      match e
      case Back =>
        if position.Some? && position.value > 0 { effects := ShowEntry(position.value - 1, a); }
      case Forward =>
        if position.Some? { effects := ShowEntry(position.value + 1, a); }
      case RestoreCurrentEntry =>
        if position.Some? { effects := ShowEntry(position.value, a); }
      case JumpToHistory(index) =>
        if position != Some(index) { effects := ShowEntry(index, a); }
    }

    /** Events that start a request of the current page. */
    method RespondByWorking(e: ViewerEvent, a: Alloc) returns (effects: seq<ViewerEffect>)
      requires Valid() && (e.Timer? || e.WasmRequested? || e.DeferredNavigationRequested?)
      modifies this, Tables
      ensures Valid() && Out(View(), effects) == React(old(View()), e, a)
    {
      effects := [];
      if e.Timer? {
        if page.phase == Ready || (page.phase == Idle && page.scope.None?) {
          effects := TickPage(a);
        }
        return;
      }
      var o := StartWork(a);
      if o.Some? {
        effects := [if e.WasmRequested? then LoadWasm(o.value, e.path) else DeferNavigation(o.value)];
      }
    }

    method TickPage(a: Alloc) returns (effects: seq<ViewerEffect>)
      requires Valid()
      modifies this, Tables
      ensures Valid() && Out(View(), effects) == Tick(old(View()), a)
    {
      if page.scope.None? {
        return [TickWasm(None)];
      }
      var o := StartWork(a);
      effects := if o.Some? then [TickWasm(o)] else [];
    }

    /** Reports of lost memory and released entries. */
    method RespondToPressure(e: ViewerEvent, a: Alloc) returns (effects: seq<ViewerEffect>)
      requires Valid() && ReportsPressure(e) && !e.HistoryEvictionRequested?
      modifies this, Tables
      ensures Valid() && Out(View(), effects) == React(old(View()), e, a)
    {
      effects := [];
      match e
      case PresentationFailed(message, retry) =>
        if retry.Some? && retry.value.Page() != page.scope {
          return;
        }
        if retry.Some? && retry.value.RetryResizeProjection?
           && pending.resize != Some(PendingResize(retry.value.owner, retry.value.width, retry.value.height)) {
          return;
        }
        pending := pending.(retry := retry);
        effects := [EvictResource(message)];
      case ResourceEvictionCompleted(message, evicted) =>
        if evicted {
          if pending.retry.Some? {
            effects := [pending.retry.value.IntoEffect()];
            pending := pending.(retry := None);
          }
          effects := effects + [RenderTerminal];
        } else {
          effects := [ViewerEffect.EvictHistory(message)];
        }
    }

    /** Input, focus and updates of the current page. */
    method RespondByProjecting(e: ViewerEvent, a: Alloc) returns (effects: seq<ViewerEffect>)
      requires Valid() && ProjectsPage(e)
      modifies this`page
      ensures Valid() && Out(View(), effects) == React(old(View()), e, a)
    {
      effects := [];
      match e
      case Input(token, value) =>
        if page.scope == Some(token) { effects := [ProjectInput(token, value)]; }
      case FocusChanged(token, node) =>
        if page.scope == Some(token) {
          page := page.(focused := node);
          effects := [ProjectFocus(token, node)];
        }
      case PresentationRequested => effects := [RenderTerminal];
      case PresentationActionRequested(shown, action) =>
        if page.scope == shown { effects := [ApplyPresentationAction(shown, action)]; }
      case LiveUpdate(o, region) =>
        var known := subscriptions.Contains(o.id, region);
        if page.scope == Some(o.scope) && known { effects := [ApplyUpdate(o, region)]; }
    }

    /** Any other event no request guards. */
    method RespondOnPage(e: ViewerEvent, a: Alloc) returns (effects: seq<ViewerEffect>)
      requires Valid() && Guard(e).None? && !LoadsPage(e) && !ShowsEntry(e) && !ProjectsPage(e)
      requires !e.Timer? && !e.WasmRequested? && !e.DeferredNavigationRequested?
      requires !ReportsPressure(e)
      modifies this, Tables
      ensures Valid() && Out(View(), effects) == React(old(View()), e, a)
    {
      effects := [];
      match e
      case Resize(width, height) => effects := ResizeViewport(width, height, a);
      case ErrorPageActivated(height) =>
        ClearWork();
        page := page.(phase := Failed, contentHeight := height, focused := None, reconnect := None);
        pending := pending.(retry := None, commit := None, resize := None);
      case SubscribeRequested(region) => effects := RequestSubscription(region, a);
      case SubscriptionsRetired(token) =>
        if page.scope == Some(token) {
          RetireSubscriptionWork();
          effects := [RetireSubscriptions(token)];
        }
      case TransportLost(origin) =>
        if page.scope.Some? && page.scope.value.origin == origin { effects := Reconnect(a); }
      case Shutdown =>
        ClearWork();
        page := page.(phase := ShuttingDown, reconnect := None);
        effects := [Close, RestoreTerminal];
    }

    /** An event no request guards. */
    method Respond(e: ViewerEvent, a: Alloc) returns (effects: seq<ViewerEffect>)
      requires Valid() && Guard(e).None?
      modifies this, Tables
      ensures Valid() && Out(View(), effects) == React(old(View()), e, a)
    {
      if LoadsPage(e) {
        effects := RespondByLoading(e, a);
      } else if ShowsEntry(e) {
        effects := RespondByMoving(e, a);
      } else if ProjectsPage(e) {
        effects := RespondByProjecting(e, a);
      } else if e.Timer? || e.WasmRequested? || e.DeferredNavigationRequested? {
        effects := RespondByWorking(e, a);
      } else if e.HistoryEvictionRequested? {
        effects := EvictHistory(e.message, a);
      } else if ReportsPressure(e) {
        effects := RespondToPressure(e, a);
      } else {
        effects := RespondOnPage(e, a);
      }
    }

    /** Reduce one event: the state and effects are exactly those of `Step`. */
    method Reduce(e: ViewerEvent, a: Alloc) returns (effects: seq<ViewerEffect>)
      requires Valid()
      modifies this, Tables
      ensures Valid() && Out(View(), effects) == Step(old(View()), e, a)
    {
      var guard := Guard(e);
      if guard.None? {
        effects := Respond(e, a);
      } else {
        var owned := OwnsOperation(guard.value);
        effects := [];
        if owned {
          effects := Finish(e, a);
        }
      }
    }
  }

  /** From `start`, the first `k` modules have led to `s` and `effects`. */
  ghost predicate Loads(start: Viewer, s: Viewer, scope: PageScope, paths: seq<string>, k: nat,
                        effects: seq<ViewerEffect>)
    requires k <= |paths|
  {
    var rest := LoadModules(s, scope, paths[k..]);
    LoadModules(start, scope, paths) == Out(rest.s, effects + rest.effects)
  }

  lemma LoadsStart(s: Viewer, scope: PageScope, paths: seq<string>)
    ensures Loads(s, s, scope, paths, 0, [])
  {
    assert paths[0..] == paths;
  }

  lemma LoadsStep(start: Viewer, s: Viewer, scope: PageScope, paths: seq<string>, k: nat, effects: seq<ViewerEffect>)
    requires k < |paths| && Loads(start, s, scope, paths, k, effects)
    ensures Request(s).None? ==> Out(s, effects) == LoadModules(start, scope, paths)
    ensures Request(s).Some? ==>
              Loads(start, Request(s).value.0, scope, paths, k + 1,
                    effects + [LoadWasm(Owner(scope, Request(s).value.1), paths[k])])
  {
    assert paths[k..][1..] == paths[k + 1..];
  }

  lemma LoadsEnd(start: Viewer, s: Viewer, scope: PageScope, paths: seq<string>, effects: seq<ViewerEffect>)
    requires Loads(start, s, scope, paths, |paths|, effects)
    ensures Out(s, effects) == LoadModules(start, scope, paths)
  {
  }

  lemma BytesWithout(h: History, i: nat)
    requires i < |h|
    ensures Bytes(h) == Bytes(Without(h, i)) + |h[i].aml|
  {
    if i == 0 {
      assert Without(h, 0) == h[1..];
    } else {
      BytesWithout(h[1..], i - 1);
      assert Without(h, i) == [h[0]] + Without(h[1..], i - 1);
      assert Without(h, i)[1..] == Without(h[1..], i - 1);
    }
  }
}
