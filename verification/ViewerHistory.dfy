/** Committing a page to the bounded history (viewer.rs, `HistoryCommitted`). */
module ViewerHistory {
  import opened Wrappers
  import opened ViewerTypes

  type History = seq<HistoryEntry>

  /** What a commit leaves behind: the history, the position of the current
      entry and the ids it dropped, in the order it dropped them. */
  datatype Commit = Commit(history: History, position: Option<nat>, removed: seq<HistoryId>)

  function Bytes(h: History): nat {
    if h == [] then 0 else |h[0].aml| + Bytes(h[1..])
  }

  function Ids(h: History): (ids: seq<HistoryId>)
    ensures |ids| == |h|
    ensures forall i :: 0 <= i < |h| ==> ids[i] == h[i].id
  {
    seq(|h|, i requires 0 <= i < |h| => h[i].id)
  }

  function Without(h: History, i: nat): History
    requires i < |h|
  {
    h[..i] + h[i + 1..]
  }

  predicate OverBudget(h: History) {
    |h| > 1 && (|h| > MAX_HISTORY_ENTRIES || Bytes(h) > MAX_HISTORY_AML_BYTES)
  }

  /** The entry evicted next: the oldest one that is not the current entry. */
  function Victim(position: Option<nat>): nat {
    if position == Some(0) then 1 else 0
  }

  function ShiftDown(position: Option<nat>, removedIndex: nat): Option<nat> {
    if position.Some? && removedIndex < position.value then Some(position.value - 1) else position
  }

  /** Drop old entries until the history fits. */
  function Evict(c: Commit): Commit
    decreases |c.history|
  {
    if !OverBudget(c.history) then c
    else
      var i := Victim(c.position);
      Evict(Commit(Without(c.history, i), ShiftDown(c.position, i), c.removed + [c.history[i].id]))
  }

  /** The slot a replacing commit may overwrite. */
  function ReplaceSlot(h: History, position: Option<nat>, commit: CommitKind, id: HistoryId): Option<nat> {
    if commit.ReplaceCurrent? && position.Some? && position.value < |h| && h[position.value].id == id
    then position else None
  }

  /** Forget everything after the current entry; without one, forget everything. */
  function Truncate(h: History, position: Option<nat>): Commit {
    var keep := if position.None? then 0 else if position.value + 1 <= |h| then position.value + 1 else |h|;
    Commit(h[..keep], position, Ids(h[keep..]))
  }

  /** Make room for one more entry in a full history. */
  function MakeRoom(c: Commit): Commit {
    if |c.history| == MAX_HISTORY_ENTRIES
    then Commit(c.history[1..],
                if c.position.Some? then Some(if c.position.value > 0 then c.position.value - 1 else 0) else None,
                c.removed + [c.history[0].id])
    else c
  }

  /** Store `entry` as the current one, before the byte limit is applied. */
  function Place(h: History, position: Option<nat>, commit: CommitKind, entry: HistoryEntry): Commit {
    match ReplaceSlot(h, position, commit, entry.id)
    case Some(p) => Commit(h[p := entry], position, [entry.id])
    case None =>
      var room := MakeRoom(Truncate(h, position));
      Commit(room.history + [entry], Some(|room.history|), room.removed)
  }

  function CommitEntry(h: History, position: Option<nat>, commit: CommitKind, entry: HistoryEntry): Commit {
    Evict(Place(h, position, commit, entry))
  }

  /** One release per distinct id, in order. */
  function Releases(ids: seq<HistoryId>): (effects: seq<ViewerEffect>) {
    if ids == [] then []
    else
      var before := Releases(ids[..|ids| - 1]);
      var release := ReleaseHistoryArtifact(ids[|ids| - 1]);
      if release in before then before else before + [release]
  }

  // ---- what a commit guarantees ----

  ghost predicate DistinctIds(h: History) {
    forall i, j :: 0 <= i < j < |h| ==> h[i].id != h[j].id
  }

  /** Multiset of the entries' ids. */
  ghost function IdBag(h: History): multiset<HistoryId> {
    multiset(Ids(h))
  }

  /** `entry` sits at the current position. */
  ghost predicate CurrentIs(c: Commit, entry: HistoryEntry) {
    c.position.Some? && c.position.value < |c.history| && c.history[c.position.value] == entry
  }

  lemma IdsConcat(a: History, b: History)
    ensures Ids(a + b) == Ids(a) + Ids(b)
  {
  }

  lemma WithoutBag(h: History, i: nat)
    requires i < |h|
    ensures IdBag(Without(h, i)) + multiset{h[i].id} == IdBag(h)
  {
    IdsConcat(h[..i], h[i + 1..]);
    assert Ids(h) == Ids(h[..i]) + [h[i].id] + Ids(h[i + 1..]);
  }

  lemma {:induction false} EvictKeepsCurrent(c: Commit, entry: HistoryEntry)
    requires CurrentIs(c, entry)
    ensures CurrentIs(Evict(c), entry)
    decreases |c.history|
  {
    if OverBudget(c.history) {
      var i := Victim(c.position);
      EvictKeepsCurrent(Commit(Without(c.history, i), ShiftDown(c.position, i), c.removed + [c.history[i].id]), entry);
    }
  }

  /** Ids are neither invented nor lost: kept plus removed is constant. */
  lemma {:induction false} EvictConserves(c: Commit)
    ensures Accounted(Evict(c)) == Accounted(c)
    ensures |Evict(c).history| + |Evict(c).removed| == |c.history| + |c.removed|
    ensures c.history != [] ==> Evict(c).history != []
    ensures c.removed <= Evict(c).removed
    decreases |c.history|
  {
    if OverBudget(c.history) {
      var i := Victim(c.position);
      var next := Commit(Without(c.history, i), ShiftDown(c.position, i), c.removed + [c.history[i].id]);
      WithoutBag(c.history, i);
      EvictConserves(next);
      assert c.removed <= next.removed;
    }
  }

  lemma {:induction false} EvictFits(c: Commit)
    ensures !OverBudget(Evict(c).history)
    decreases |c.history|
  {
    if OverBudget(c.history) {
      var i := Victim(c.position);
      EvictFits(Commit(Without(c.history, i), ShiftDown(c.position, i), c.removed + [c.history[i].id]));
    }
  }

  /** Eviction is lazy: the history as it stood before the last removal did not fit. */
  lemma {:induction false} EvictIsLazy(c: Commit) returns (before: Commit)
    requires OverBudget(c.history)
    ensures OverBudget(before.history)
    ensures Evict(c) == Commit(Without(before.history, Victim(before.position)),
                               ShiftDown(before.position, Victim(before.position)),
                               before.removed + [before.history[Victim(before.position)].id])
    decreases |c.history|
  {
    var i := Victim(c.position);
    var next := Commit(Without(c.history, i), ShiftDown(c.position, i), c.removed + [c.history[i].id]);
    if OverBudget(next.history) {
      before := EvictIsLazy(next);
    } else {
      before := c;
    }
  }

  /** Kept plus removed ids, the quantity every stage of a commit preserves. */
  ghost function Accounted(c: Commit): multiset<HistoryId> {
    IdBag(c.history) + multiset(c.removed)
  }

  lemma TruncateConserves(h: History, position: Option<nat>)
    ensures Accounted(Truncate(h, position)) == IdBag(h)
    ensures |Truncate(h, position).history| + |Truncate(h, position).removed| == |h|
  {
    var t := Truncate(h, position);
    IdsConcat(t.history, h[|t.history|..]);
    assert h == t.history + h[|t.history|..];
  }

  lemma MakeRoomConserves(c: Commit)
    requires |c.history| <= MAX_HISTORY_ENTRIES
    ensures Accounted(MakeRoom(c)) == Accounted(c)
    ensures |MakeRoom(c).history| + |MakeRoom(c).removed| == |c.history| + |c.removed|
    ensures |MakeRoom(c).history| < MAX_HISTORY_ENTRIES
  {
    if |c.history| == MAX_HISTORY_ENTRIES {
      assert c.history[1..] == Without(c.history, 0);
      WithoutBag(c.history, 0);
    }
  }

  lemma ReplaceConserves(h: History, p: nat, entry: HistoryEntry)
    requires p < |h| && h[p].id == entry.id
    ensures Ids(h[p := entry]) == Ids(h)
  {
  }

  lemma AppendConserves(c: Commit, entry: HistoryEntry)
    ensures Accounted(Commit(c.history + [entry], Some(|c.history|), c.removed)) == Accounted(c) + multiset{entry.id}
  {
    IdsConcat(c.history, [entry]);
    assert Ids([entry]) == [entry.id];
  }

  lemma PlaceConserves(h: History, position: Option<nat>, commit: CommitKind, entry: HistoryEntry)
    requires |h| <= MAX_HISTORY_ENTRIES
    ensures var c := Place(h, position, commit, entry);
            && CurrentIs(c, entry)
            && 1 <= |c.history| <= MAX_HISTORY_ENTRIES
            && Accounted(c) == IdBag(h) + multiset{entry.id}
            && |c.history| + |c.removed| == |h| + 1
  {
    match ReplaceSlot(h, position, commit, entry.id) {
      case Some(p) =>
        ReplaceConserves(h, p, entry);
      case None =>
        var t := Truncate(h, position);
        TruncateConserves(h, position);
        var room := MakeRoom(t);
        MakeRoomConserves(t);
        AppendConserves(room, entry);
    }
  }

  /** Committing an admitted page leaves 1 to 128 entries of at most 16 MiB in
      total with the committed page current; the old ids and the new one are
      exactly the kept ids plus the removed ones; at most 128 ids are removed,
      so neither the removed list nor the 129 reserved effects overflow. */
  lemma CommitIsBounded(h: History, position: Option<nat>, commit: CommitKind, entry: HistoryEntry)
    requires |h| <= MAX_HISTORY_ENTRIES
    requires |entry.aml| <= MAX_HISTORY_AML_BYTES
    ensures var c := CommitEntry(h, position, commit, entry);
            && 1 <= |c.history| <= MAX_HISTORY_ENTRIES
            && Bytes(c.history) <= MAX_HISTORY_AML_BYTES
            && CurrentIs(c, entry)
            && Accounted(c) == IdBag(h) + multiset{entry.id}
            && |c.removed| <= MAX_HISTORY_ENTRIES
            && |Releases(c.removed)| <= MAX_HISTORY_ENTRIES
  {
    var p := Place(h, position, commit, entry);
    PlaceConserves(h, position, commit, entry);
    EvictKeepsCurrent(p, entry);
    EvictConserves(p);
    EvictFits(p);
    var c := Evict(p);
    if |c.history| == 1 {
      assert c.history[1..] == [];
      assert Bytes(c.history) == |entry.aml|;
    }
    ReleasesShape(c.removed);
  }

  lemma {:induction false} ReleasesShape(ids: seq<HistoryId>)
    ensures |Releases(ids)| <= |ids|
    ensures forall e :: e in Releases(ids) <==> e.ReleaseHistoryArtifact? && e.id in ids
    ensures forall i, j :: 0 <= i < j < |Releases(ids)| ==> Releases(ids)[i] != Releases(ids)[j]
  {
    if ids != [] {
      var rest := ids[..|ids| - 1];
      ReleasesShape(rest);
      assert ids == rest + [ids[|ids| - 1]];
    }
  }

  lemma BagToIds(h: History, id: HistoryId)
    ensures IdBag(h)[id] > 0 <==> exists i :: 0 <= i < |h| && h[i].id == id
  {
    if IdBag(h)[id] > 0 {
      assert id in Ids(h);
      var i :| 0 <= i < |h| && Ids(h)[i] == id;
    }
    if i :| 0 <= i < |h| && h[i].id == id {
      assert Ids(h)[i] == id;
    }
  }

  lemma {:induction false} DistinctThenBag(h: History, id: HistoryId)
    requires DistinctIds(h)
    ensures IdBag(h)[id] <= 1
  {
    if h != [] {
      DistinctTail(h);
      DistinctThenBag(h[1..], id);
      IdBagStep(h);
    }
  }

  lemma IdBagStep(h: History)
    requires h != []
    ensures IdBag(h) == multiset{h[0].id} + IdBag(h[1..])
  {
    assert Ids(h) == [h[0].id] + Ids(h[1..]);
  }

  lemma DistinctTail(h: History)
    requires h != [] && DistinctIds(h)
    ensures DistinctIds(h[1..]) && IdBag(h[1..])[h[0].id] == 0
  {
    var rest := h[1..];
    assert forall i :: 0 <= i < |rest| ==> rest[i] == h[i + 1];
    BagToIds(rest, h[0].id);
  }

  lemma BagThenDistinct(h: History)
    requires forall id :: IdBag(h)[id] <= 1
    ensures DistinctIds(h)
  {
    forall i, j | 0 <= i < j < |h|
      ensures h[i].id != h[j].id
    {
      WithoutBag(h, j);
      assert Without(h, j)[i] == h[i];
      BagToIds(Without(h, j), h[i].id);
      assert IdBag(h)[h[i].id] <= 1;
    }
  }
}
