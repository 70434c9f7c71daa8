/** The reducer's fixed slot tables (viewer.rs, `OutstandingRequests` and
`SubscriptionOwnership`): 64 request slots and two tables of 16 subscriptions,
filled and cleared in place. */
module ViewerTables {
  import opened Wrappers
  import opened ViewerTypes

  type Slots<T> = seq<Option<T>>

  // ---- request ids as a set ----

  /** The first id from `candidate` on, wrapping, that `ids` does not hold. */
  function FirstFree(ids: set<RequestId>, candidate: RequestId, tries: nat): Option<RequestId>
    decreases tries
  {
    if tries == 0 then None
    else if candidate !in ids then Some(candidate)
    else FirstFree(ids, Succ(candidate), tries - 1)
  }

  function TryInsert(ids: set<RequestId>, candidate: RequestId): Option<RequestId> {
    if |ids| >= MAX_OUTSTANDING_REQUESTS then None
    else FirstFree(ids, candidate, MAX_OUTSTANDING_REQUESTS)
  }

  /** The `n` ids tried from `candidate` on. */
  function Tried(candidate: RequestId, n: nat): (ids: set<RequestId>)
    decreases n
  {
    if n == 0 then {} else {candidate} + Tried(Succ(candidate), n - 1)
  }

  lemma {:induction false} TriedAre(candidate: RequestId, n: nat, x: RequestId)
    requires candidate < U64 && n <= U64
    ensures x in Tried(candidate, n) <==> x < U64 && (x - candidate) % U64 < n
    decreases n
  {
    if n > 0 {
      TriedAre(Succ(candidate), n - 1, x);
      if x < U64 {
        assert (x - candidate) % U64 == if x >= candidate then x - candidate else x - candidate + U64;
        var c := Succ(candidate);
        assert c == if candidate + 1 == U64 then 0 else candidate + 1;
        assert (x - c) % U64 == if x >= c then x - c else x - c + U64;
      }
    }
  }

  lemma {:induction false} TriedCount(candidate: RequestId, n: nat)
    requires candidate < U64 && n <= U64
    ensures |Tried(candidate, n)| == n
    decreases n
  {
    if n > 0 {
      TriedCount(Succ(candidate), n - 1);
      TriedAre(Succ(candidate), n - 1, candidate);
      var c := Succ(candidate);
      assert (candidate - c) % U64 == U64 - 1;
    }
  }

  lemma {:induction false} FirstFreeFails(ids: set<RequestId>, candidate: RequestId, tries: nat)
    ensures FirstFree(ids, candidate, tries).None? <==> Tried(candidate, tries) <= ids
    decreases tries
  {
    if tries > 0 {
      FirstFreeFails(ids, Succ(candidate), tries - 1);
      assert Tried(candidate, tries) == {candidate} + Tried(Succ(candidate), tries - 1);
    }
  }

  lemma {:induction false} FirstFreeIsFree(ids: set<RequestId>, candidate: RequestId, tries: nat)
    requires candidate < U64
    ensures FirstFree(ids, candidate, tries).Some? ==>
              FirstFree(ids, candidate, tries).value !in ids && FirstFree(ids, candidate, tries).value < U64
    decreases tries
  {
    if tries > 0 {
      FirstFreeIsFree(ids, Succ(candidate), tries - 1);
    }
  }

  lemma SubsetSize<T>(a: set<T>, b: set<T>)
    requires a <= b
    ensures |a| <= |b|
  {
    assert b == a + (b - a);
  }

  /** Pigeonhole: an id is found exactly when a slot is free, even when the
      counter wraps past the largest `u64`; it is new and it is in range. */
  lemma TryInsertSucceedsIffFree(ids: set<RequestId>, candidate: RequestId)
    requires candidate < U64
    ensures TryInsert(ids, candidate).Some? <==> |ids| < MAX_OUTSTANDING_REQUESTS
    ensures TryInsert(ids, candidate).Some? ==>
              TryInsert(ids, candidate).value !in ids && TryInsert(ids, candidate).value < U64
  {
    if |ids| < MAX_OUTSTANDING_REQUESTS {
      FirstFreeFails(ids, candidate, MAX_OUTSTANDING_REQUESTS);
      TriedCount(candidate, MAX_OUTSTANDING_REQUESTS);
      if Tried(candidate, MAX_OUTSTANDING_REQUESTS) <= ids {
        SubsetSize(Tried(candidate, MAX_OUTSTANDING_REQUESTS), ids);
      }
      FirstFreeIsFree(ids, candidate, MAX_OUTSTANDING_REQUESTS);
    }
  }

  /** The ids held by a slot table. */
  function Held(slots: Slots<RequestId>): (held: set<RequestId>)
    ensures forall x :: x in held <==> Some(x) in slots
  {
    set i | 0 <= i < |slots| && slots[i].Some? :: slots[i].value
  }

  /** Occupied slots. */
  function Count<T>(slots: Slots<T>): (n: nat)
    ensures n <= |slots|
  {
    if slots == [] then 0 else (if slots[0].Some? then 1 else 0) + Count(slots[1..])
  }

  ghost predicate Distinct<T>(slots: Slots<T>) {
    forall i, j :: 0 <= i < j < |slots| && slots[i].Some? ==> slots[i] != slots[j]
  }

  lemma {:induction false} CountUpdate<T>(slots: Slots<T>, i: nat, v: Option<T>)
    requires i < |slots|
    ensures Count(slots[i := v]) ==
            Count(slots) - (if slots[i].Some? then 1 else 0) + (if v.Some? then 1 else 0)
  {
    if i == 0 {
      assert slots[0 := v][1..] == slots[1..];
    } else {
      CountUpdate(slots[1..], i - 1, v);
      assert slots[i := v][1..] == slots[1..][i - 1 := v];
    }
  }

  lemma {:induction false} CountFull<T>(slots: Slots<T>)
    ensures Count(slots) == |slots| <==> forall i :: 0 <= i < |slots| ==> slots[i].Some?
  {
    if slots != [] {
      CountFull(slots[1..]);
      if Count(slots) == |slots| {
        assert forall i :: 0 <= i < |slots| ==> slots[i] == (if i == 0 then slots[0] else slots[1..][i - 1]);
      }
    }
  }

  /** Holding one slot more. */
  lemma HeldStep(slots: Slots<RequestId>)
    requires slots != [] && Distinct(slots)
    ensures Distinct(slots[1..])
    ensures slots[0].Some? ==> slots[0].value !in Held(slots[1..])
    ensures Held(slots) == Held(slots[1..]) + (if slots[0].Some? then {slots[0].value} else {})
  {
    var rest := slots[1..];
    assert forall i :: 0 <= i < |rest| ==> rest[i] == slots[i + 1];
    assert slots == [slots[0]] + rest;
  }

  lemma {:induction false} CountHeld(slots: Slots<RequestId>)
    requires Distinct(slots)
    ensures |Held(slots)| == Count(slots)
  {
    if slots != [] {
      HeldStep(slots);
      CountHeld(slots[1..]);
    }
  }

  // ---- subscription slots ----

  type SubscriptionSlots = Slots<(RequestId, Region)>

  /** Index of the first slot equal to `x`, or the table's length. */
  function Find<T(==)>(slots: Slots<T>, x: Option<T>): (i: nat)
    ensures i <= |slots|
    ensures i < |slots| ==> slots[i] == x
    ensures forall j :: 0 <= j < i ==> slots[j] != x
  {
    if slots == [] || slots[0] == x then 0
    else
      var k := Find(slots[1..], x);
      assert forall j :: 0 < j < 1 + k ==> slots[j] == slots[1..][j - 1];
      1 + k
  }

  function Insert<T(==)>(slots: Slots<T>, x: T): Slots<T> {
    var i := Find(slots, None);
    if i < |slots| then slots[i := Some(x)] else slots
  }

  function RemoveExact<T(==)>(slots: Slots<T>, x: T): Slots<T> {
    var i := Find(slots, Some(x));
    if i < |slots| then slots[i := None] else slots
  }

  predicate HoldsRequest(slots: SubscriptionSlots, id: RequestId) {
    exists i :: 0 <= i < |slots| && slots[i].Some? && slots[i].value.0 == id
  }

  function FindRequest(slots: SubscriptionSlots, id: RequestId): (i: nat)
    ensures i <= |slots|
    ensures i < |slots| ==> slots[i].Some? && slots[i].value.0 == id
    ensures forall j :: 0 <= j < i ==> !(slots[j].Some? && slots[j].value.0 == id)
  {
    if slots == [] || (slots[0].Some? && slots[0].value.0 == id) then 0
    else
      var k := FindRequest(slots[1..], id);
      assert forall j :: 0 < j < 1 + k ==> slots[j] == slots[1..][j - 1];
      1 + k
  }

  function RemoveRequest(slots: SubscriptionSlots, id: RequestId): SubscriptionSlots {
    var i := FindRequest(slots, id);
    if i < |slots| then slots[i := None] else slots
  }

  function Empty<T>(n: nat): (slots: Slots<T>)
    ensures |slots| == n && forall i :: 0 <= i < n ==> slots[i].None?
  {
    seq(n, i => None)
  }

  lemma {:induction false} CountEmpty<T>(slots: Slots<T>)
    requires forall i :: 0 <= i < |slots| ==> slots[i].None?
    ensures Count(slots) == 0
  {
    if slots != [] {
      CountEmpty(slots[1..]);
    }
  }

  /** Inserting succeeds exactly when the table is not full, and occupies one slot. */
  lemma InsertCounts<T>(slots: Slots<T>, x: T)
    ensures |Insert(slots, x)| == |slots|
    ensures Count(slots) < |slots| ==> Count(Insert(slots, x)) == Count(slots) + 1 && Some(x) in Insert(slots, x)
    ensures Count(slots) == |slots| ==> Insert(slots, x) == slots
  {
    var i := Find(slots, None);
    CountFull(slots);
    if i < |slots| {
      CountUpdate(slots, i, Some(x));
      assert Insert(slots, x)[i] == Some(x);
    }
  }

  lemma RemoveExactCounts<T>(slots: Slots<T>, x: T)
    ensures |RemoveExact(slots, x)| == |slots|
    ensures Count(RemoveExact(slots, x)) == Count(slots) - (if Some(x) in slots then 1 else 0)
  {
    var i := Find(slots, Some(x));
    if i < |slots| {
      CountUpdate(slots, i, None);
    }
  }

  lemma RemoveRequestCounts(slots: SubscriptionSlots, id: RequestId)
    ensures |RemoveRequest(slots, id)| == |slots|
    ensures Count(RemoveRequest(slots, id)) <= Count(slots)
  {
    var i := FindRequest(slots, id);
    if i < |slots| {
      CountUpdate(slots, i, None);
    }
  }
}
