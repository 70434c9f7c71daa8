/** What a commit leaves in the history, in terms of the history before it (viewer.rs,
`HistoryCommitted`): which entries stay, in which order, and which go. */
module ViewerCommits {
  import opened Wrappers
  import opened ViewerTypes
  import opened ViewerHistory

  /** More than one entry, and either too many of them or too many bytes. */
  predicate Oversized(h: History) {
    |h| > 1 && (|h| > 128 || Bytes(h) > 16 * 1024 * 1024)
  }

  /** The bytes of a history are those of its entries. */
  lemma {:induction false} BytesAppend(a: History, b: History)
    ensures Bytes(a + b) == Bytes(a) + Bytes(b)
  {
    if a == [] {
      assert a + b == b;
    } else {
      BytesAppend(a[1..], b);
      assert (a + b)[1..] == a[1..] + b;
    }
  }

  lemma BytesOne(e: HistoryEntry)
    ensures Bytes([e]) == |e.aml|
  {
    assert [e][1..] == [];
  }

  // ---- eviction ----

  /** The history without its `n` oldest entries other than the one at `p`. */
  function Remaining(h: History, p: nat, n: nat): History
    requires p < |h| && n < |h|
  {
    if n <= p then h[n..] else [h[p]] + h[n + 1..]
  }

  /** Those `n` entries, oldest first. */
  function Oldest(h: History, p: nat, n: nat): History
    requires p < |h| && n < |h|
  {
    if n <= p then h[..n] else h[..p] + h[p + 1..n + 1]
  }

  lemma RemainingAfterFirst(h: History, p: nat, m: nat)
    requires 0 < p < |h| && m + 1 < |h|
    ensures Remaining(h[1..], p - 1, m) == Remaining(h, p, m + 1)
    ensures Oldest(h, p, m + 1) == [h[0]] + Oldest(h[1..], p - 1, m)
  {
    var rest := h[1..];
    if m < p {
      assert rest[m..] == h[m + 1..];
      assert h[..m + 1] == [h[0]] + rest[..m];
    } else {
      assert rest[p - 1] == h[p] && rest[m + 1..] == h[m + 2..];
      assert h[..p] == [h[0]] + rest[..p - 1];
      assert rest[p..m + 1] == h[p + 1..m + 2];
    }
  }

  lemma RemainingAfterSecond(h: History, m: nat, rest: History)
    requires m + 1 < |h| && rest == [h[0]] + h[2..]
    ensures Remaining(rest, 0, m) == Remaining(h, 0, m + 1)
    ensures Oldest(h, 0, m + 1) == [h[1]] + Oldest(rest, 0, m)
  {
    assert rest[1..] == h[2..];
    assert rest[m + 1..] == h[m + 2..];
    assert rest[1..m + 1] == h[2..m + 2];
    assert h[1..m + 2] == [h[1]] + h[2..m + 2];
    assert h[..0] == [] && rest[..0] == [];
    if m == 0 {
      assert rest[0..] == rest;
    }
  }

  lemma RemainingStep(h: History, p: nat, m: nat, i: nat, rest: History, q: nat)
    requires p < |h| && m + 1 < |h| && i == (if p == 0 then 1 else 0) && rest == Without(h, i)
    requires q == if p == 0 then 0 else p - 1
    ensures Remaining(rest, q, m) == Remaining(h, p, m + 1)
    ensures Oldest(h, p, m + 1) == [h[i]] + Oldest(rest, q, m)
  {
    if p > 0 {
      assert rest == h[1..];
      RemainingAfterFirst(h, p, m);
    } else {
      assert rest == [h[0]] + h[2..];
      RemainingAfterSecond(h, m, rest);
    }
  }

  /** What eviction of the `n` oldest other entries leaves. */
  function Evicted(c: Commit, p: nat, n: nat): Commit
    requires p < |c.history| && n < |c.history|
  {
    Commit(Remaining(c.history, p, n), Some(if n <= p then p - n else 0), c.removed + Ids(Oldest(c.history, p, n)))
  }

  lemma EvictedNone(c: Commit, p: nat)
    requires c.position == Some(p) && p < |c.history|
    ensures Evicted(c, p, 0) == c
  {
    assert c.history[0..] == c.history && c.history[..0] == [];
    assert Ids([]) == [];
    assert c.removed + [] == c.removed;
  }

  lemma EvictedStep(c: Commit, p: nat, next: Commit, q: nat, k: nat)
    requires c.position == Some(p) && p < |c.history| && k + 1 < |c.history|
    requires q == if p == 0 then 0 else p - 1
    requires next == OneFewer(c, p)
    ensures Evicted(next, q, k) == Evicted(c, p, k + 1)
    ensures Remaining(next.history, q, k) == Remaining(c.history, p, k + 1)
  {
    var i := if p == 0 then 1 else 0;
    RemainingStep(c.history, p, k, i, next.history, q);
    EvictedIds(c.removed, c.history[i], Oldest(next.history, q, k));
  }

  /** The commit with one entry fewer: the oldest other than the current one at `p`. */
  function OneFewer(c: Commit, p: nat): Commit
    requires |c.history| > 1
  {
    var i := if p == 0 then 1 else 0;
    Commit(Without(c.history, i), Some(if p == 0 then 0 else p - 1), c.removed + [c.history[i].id])
  }

  lemma EvictsOne(c: Commit, p: nat)
    requires c.position == Some(p) && p < |c.history| && Oversized(c.history)
    ensures Evict(c) == Evict(OneFewer(c, p))
  {
  }

  /** Eviction removes the oldest entries other than the current one, and no more than the bounds need. */
  lemma {:induction false} EvictIs(c: Commit, p: nat) returns (n: nat)
    requires c.position == Some(p) && p < |c.history|
    ensures n < |c.history| && Evict(c) == Evicted(c, p, n)
    ensures !Oversized(Remaining(c.history, p, n))
    ensures forall m :: 0 <= m < n ==> Oversized(Remaining(c.history, p, m))
    decreases |c.history|, 1
  {
    if !Oversized(c.history) {
      n := 0;
      EvictedNone(c, p);
    } else {
      n := EvictIsStep(c, p);
    }
  }

  lemma {:induction false} EvictIsStep(c: Commit, p: nat) returns (n: nat)
    requires c.position == Some(p) && p < |c.history| && Oversized(c.history)
    ensures n < |c.history| && Evict(c) == Evicted(c, p, n)
    ensures !Oversized(Remaining(c.history, p, n))
    ensures forall m :: 0 <= m < n ==> Oversized(Remaining(c.history, p, m))
    decreases |c.history|, 0
  {
    var q := if p == 0 then 0 else p - 1;
    var next := OneFewer(c, p);
    EvictsOne(c, p);
    assert |next.history| < |c.history| && q < |next.history|;
    var k := EvictIs(next, q);
    n := k + 1;
    EvictedStep(c, p, next, q, k);
    NeededStep(c, p, next, q, k);
  }

  lemma NeededStep(c: Commit, p: nat, next: Commit, q: nat, k: nat)
    requires c.position == Some(p) && p < |c.history| && k + 1 < |c.history| && Oversized(c.history)
    requires q == if p == 0 then 0 else p - 1
    requires next == OneFewer(c, p)
    requires forall m :: 0 <= m < k ==> Oversized(Remaining(next.history, q, m))
    ensures forall m :: 0 <= m < k + 1 ==> Oversized(Remaining(c.history, p, m))
  {
    EvictedNone(c, p);
    forall m | 0 <= m < k + 1
      ensures Oversized(Remaining(c.history, p, m))
    {
      if m > 0 { EvictedStep(c, p, next, q, m - 1); }
    }
  }

  lemma EvictedIds(removed: seq<HistoryId>, first: HistoryEntry, others: History)
    ensures removed + Ids([first] + others) == removed + [first.id] + Ids(others)
  {
    IdsConcat([first], others);
    assert Ids([first]) == [first.id];
  }

  // ---- appending ----

  /** How many entries stay when everything after the current one is forgotten. */
  function Kept(h: History, position: Option<nat>): (k: nat)
    ensures k <= |h|
  {
    if position.None? then 0 else if position.value < |h| then position.value + 1 else |h|
  }

  /** A page committed as a new one: the entries after the current one go, then the oldest ones as the
      bounds need; what is left keeps its order, with the new page last and current. */
  lemma AppendKeeps(h: History, position: Option<nat>, entry: HistoryEntry) returns (n: nat)
    requires |h| <= 128
    ensures n <= Kept(h, position)
    ensures CommitEntry(h, position, Append, entry) == Appended(h, n, Kept(h, position), entry)
    ensures !Oversized(h[n..Kept(h, position)] + [entry])
    ensures forall m :: 0 <= m < n ==> Oversized(h[m..Kept(h, position)] + [entry])
  {
    var first := if Kept(h, position) == 128 then 1 else 0;
    PlacedIs(h, position, entry, first);
    n := PlacedKeeps(h, Kept(h, position), entry, first);
  }

  /** What an append leaves when the first `n` entries go. */
  function Appended(h: History, n: nat, k: nat, entry: HistoryEntry): Commit
    requires n <= k <= |h|
  {
    Commit(h[n..k] + [entry], Some(k - n), Ids(h[k..]) + Ids(h[..n]))
  }

  lemma AppendedParts(h: History, first: nat, n: nat, k: nat, entry: HistoryEntry)
    requires first <= n <= k <= |h|
    ensures (h[first..k] + [entry])[n - first..] == h[n..k] + [entry]
    ensures (h[first..k] + [entry])[..n - first] == h[first..n]
  {
  }

  lemma IdsSplit(h: History, first: nat, n: nat)
    requires first <= n <= |h|
    ensures Ids(h[..n]) == Ids(h[..first]) + Ids(h[first..n])
  {
    var whole, left, right := Ids(h[..n]), Ids(h[..first]), Ids(h[first..n]);
    assert forall i :: 0 <= i < n ==> whole[i] == h[i].id;
    assert forall i :: 0 <= i < first ==> left[i] == h[i].id;
    assert forall i :: 0 <= i < n - first ==> right[i] == h[first + i].id;
  }

  lemma Regroup(a: seq<HistoryId>, b: seq<HistoryId>, c: seq<HistoryId>)
    ensures a + b + c == a + (b + c)
  {
  }

  lemma AppendedIds(h: History, first: nat, n: nat, before: seq<HistoryId>)
    requires first <= n <= |h|
    ensures before + Ids(h[..first]) + Ids(h[first..n]) == before + Ids(h[..n])
  {
    IdsSplit(h, first, n);
    Regroup(before, Ids(h[..first]), Ids(h[first..n]));
  }

  lemma AppendedSlices(h: History, first: nat, n: nat, k: nat, entry: HistoryEntry)
    requires first <= n <= k <= |h|
    ensures Evicted(Appended(h, first, k, entry), k - first, n - first) == Appended(h, n, k, entry)
    ensures Remaining(h[first..k] + [entry], k - first, n - first) == h[n..k] + [entry]
  {
    AppendedParts(h, first, n, k, entry);
    AppendedIds(h, first, n, Ids(h[k..]));
  }

  /** One entry goes before the bounds are applied when 128 are kept. */
  lemma PlacedKeeps(h: History, k: nat, entry: HistoryEntry, first: nat) returns (n: nat)
    requires k <= |h| <= 128 && first == (if k == 128 then 1 else 0)
    ensures n <= k && Evict(Appended(h, first, k, entry)) == Appended(h, n, k, entry)
    ensures !Oversized(h[n..k] + [entry])
    ensures forall m :: 0 <= m < n ==> Oversized(h[m..k] + [entry])
  {
    var e := EvictIs(Appended(h, first, k, entry), k - first);
    n := first + e;
    AppendedSlices(h, first, n, k, entry);
    forall m | 0 <= m < n
      ensures Oversized(h[m..k] + [entry])
    {
      if m >= first {
        AppendedSlices(h, first, m, k, entry);
      }
    }
  }

  lemma PlacedIs(h: History, position: Option<nat>, entry: HistoryEntry, first: nat)
    requires |h| <= 128 && first == (if Kept(h, position) == 128 then 1 else 0)
    ensures Place(h, position, Append, entry) == Appended(h, first, Kept(h, position), entry)
  {
    var k := Kept(h, position);
    assert h[0..k] == h[..k];
    assert Ids(h[..0]) == [];
    assert Ids(h[k..]) + [] == Ids(h[k..]);
    if k == 128 {
      assert h[..k][1..] == h[1..k];
      assert Ids(h[..1]) == [h[0].id];
    }
  }

  /** Every entry after the current one is released, and none before it unless the bounds need it. */
  lemma ForwardEntriesGo(h: History, p: nat, entry: HistoryEntry)
    requires |h| <= 128 && p < |h|
    ensures var c := CommitEntry(h, Some(p), Append, entry);
            && (forall j :: p < j < |h| ==> h[j].id in c.removed)
            && (!Oversized(h[..p + 1] + [entry]) ==> c.history == h[..p + 1] + [entry] && c.removed == Ids(h[p + 1..]))
  {
    var n := AppendKeeps(h, Some(p), entry);
    forall j | p < j < |h|
      ensures h[j].id in CommitEntry(h, Some(p), Append, entry).removed
    {
      assert Ids(h[p + 1..])[j - p - 1] == h[j].id;
    }
    if !Oversized(h[..p + 1] + [entry]) {
      assert h[0..p + 1] == h[..p + 1];
      assert n == 0;
      assert Ids(h[..0]) == [];
    }
  }

  // ---- replacing ----

  /** A page committed in place of the current one: it takes that entry's place, and the oldest other
      entries go as the bounds need. */
  lemma ReplaceKeeps(h: History, p: nat, entry: HistoryEntry) returns (n: nat)
    requires p < |h| && h[p].id == entry.id
    ensures n < |h|
    ensures CommitEntry(h, Some(p), ReplaceCurrent, entry)
            == Commit(Remaining(h[p := entry], p, n), Some(if n <= p then p - n else 0),
                      [entry.id] + Ids(Oldest(h, p, n)))
    ensures !Oversized(Remaining(h[p := entry], p, n))
    ensures var replaced := h[p := entry]; forall m :: 0 <= m < n ==> Oversized(Remaining(replaced, p, m))
  {
    var placed := Commit(h[p := entry], Some(p), [entry.id]);
    n := EvictIs(placed, p);
    assert Oldest(h[p := entry], p, n) == Oldest(h, p, n);
  }

  /** Without an entry of that id at the position, a replacement is an append. */
  lemma StrayReplacementAppends(h: History, position: Option<nat>, entry: HistoryEntry)
    requires position.None? || position.value >= |h| || h[position.value].id != entry.id
    ensures CommitEntry(h, position, ReplaceCurrent, entry) == CommitEntry(h, position, Append, entry)
  {
  }
}
