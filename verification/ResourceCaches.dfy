/** The client's resource cache (client.rs, `ResourceCache`): least recently used first, at
most 32 entries and 8 MiB, under a budget shared with every other owner.

An evicted resource may still be held elsewhere, so an eviction need not free any
budget: whether each reservation is admitted is an arbitrary input. */
module ResourceCaches {
  import opened Wrappers

  const MAX_RESOURCE_CACHE: nat := 32
  const MAX_RESOURCE_CACHE_BYTES: nat := 8 * 1024 * 1024

  datatype CacheKey = CacheKey(origin: nat, path: string)

  /** A cached resource: its identity and its length in bytes. */
  datatype CacheEntry = CacheEntry(key: CacheKey, resource: nat, size: nat)

  type Entries = seq<CacheEntry>

  datatype CacheError = ResourceTooLarge(size: nat) | KeyRefused | ResourceExhausted

  function Bytes(es: Entries): nat {
    if es == [] then 0 else es[0].size + Bytes(es[1..])
  }

  /** Index of the entry with this key, or the length. */
  function Position(es: Entries, key: CacheKey): (i: nat)
    ensures i <= |es|
    ensures i < |es| ==> es[i].key == key
    ensures forall j :: 0 <= j < i ==> es[j].key != key
  {
    if es == [] || es[0].key == key then 0
    else
      var k := Position(es[1..], key);
      assert forall j :: 0 < j < 1 + k ==> es[j] == es[1..][j - 1];
      1 + k
  }

  ghost predicate DistinctKeys(es: Entries) {
    forall i, j :: 0 <= i < j < |es| ==> es[i].key != es[j].key
  }

  ghost predicate CacheOk(es: Entries) {
    DistinctKeys(es) && |es| <= MAX_RESOURCE_CACHE && Bytes(es) <= MAX_RESOURCE_CACHE_BYTES
  }

  function RemoveAt(es: Entries, i: nat): Entries
    requires i < |es|
  {
    es[..i] + es[i + 1..]
  }

  /** The entries other than the one with this key. */
  function Without(es: Entries, key: CacheKey): Entries {
    var i := Position(es, key);
    if i < |es| then RemoveAt(es, i) else es
  }

  function Size(es: Entries, key: CacheKey): nat {
    var i := Position(es, key);
    if i < |es| then es[i].size else 0
  }

  /** The cache once `n` of its oldest entries other than `key` are gone. */
  function DropOldest(es: Entries, key: CacheKey, n: nat): Entries
    decreases |es|
  {
    if es == [] || n == 0 then es
    else if es[0].key == key then [es[0]] + DropOldest(es[1..], key, n)
    else DropOldest(es[1..], key, n - 1)
  }

  /** Replacing `key` by a resource of this size keeps both bounds. */
  predicate Fits(es: Entries, key: CacheKey, size: nat) {
    && |Without(es, key)| + 1 <= MAX_RESOURCE_CACHE
    && Bytes(Without(es, key)) + size <= MAX_RESOURCE_CACHE_BYTES
  }

  /** The next entry to go: the oldest one with another key. */
  function Victim(es: Entries, key: CacheKey): nat {
    if es != [] && es[0].key == key then 1 else 0
  }

  // ---- eviction ----

  lemma {:induction false} BytesRemove(es: Entries, i: nat)
    requires i < |es|
    ensures Bytes(RemoveAt(es, i)) == Bytes(es) - es[i].size
  {
    if i == 0 {
      assert RemoveAt(es, 0) == es[1..];
    } else {
      BytesRemove(es[1..], i - 1);
      assert RemoveAt(es, i) == [es[0]] + RemoveAt(es[1..], i - 1);
      assert RemoveAt(es, i)[1..] == RemoveAt(es[1..], i - 1);
    }
  }

  lemma {:induction false} BytesAppend(es: Entries, e: CacheEntry)
    ensures Bytes(es + [e]) == Bytes(es) + e.size
  {
    if es != [] {
      BytesAppend(es[1..], e);
      assert (es + [e])[1..] == es[1..] + [e];
    }
  }

  lemma BytesWithout(es: Entries, key: CacheKey)
    ensures Bytes(Without(es, key)) == Bytes(es) - Size(es, key)
    ensures |Without(es, key)| == |es| - (if Position(es, key) < |es| then 1 else 0)
  {
    var i := Position(es, key);
    if i < |es| {
      BytesRemove(es, i);
    }
  }

  lemma RemoveKeepsDistinct(es: Entries, i: nat)
    requires DistinctKeys(es) && i < |es|
    ensures DistinctKeys(RemoveAt(es, i))
  {
    var after := RemoveAt(es, i);
    assert forall j :: 0 <= j < |after| ==> after[j] == es[if j < i then j else j + 1];
  }

  lemma WithoutIsAbsent(es: Entries, key: CacheKey)
    requires DistinctKeys(es)
    ensures DistinctKeys(Without(es, key)) && forall j :: 0 <= j < |Without(es, key)| ==> Without(es, key)[j].key != key
  {
    var i := Position(es, key);
    if i < |es| {
      RemoveKeepsDistinct(es, i);
      var after := RemoveAt(es, i);
      assert forall j :: 0 <= j < |after| ==> after[j] == es[if j < i then j else j + 1];
    }
  }

  /** Evicting one entry is dropping one more of the oldest. */
  lemma {:induction false} EvictIsDrop(es: Entries, key: CacheKey)
    requires DistinctKeys(es) && Victim(es, key) < |es|
    ensures RemoveAt(es, Victim(es, key)) == DropOldest(es, key, 1)
    ensures Position(es, key) == |es| || Position(es, key) != Victim(es, key)
  {
    if es[0].key == key {
      assert es[1..][0].key != key;
      assert DropOldest(es[1..], key, 1) == es[1..][1..] == es[2..];
    }
  }

  lemma {:induction false} DropAdds(es: Entries, key: CacheKey, n: nat)
    ensures DropOldest(DropOldest(es, key, n), key, 1) == DropOldest(es, key, n + 1)
    decreases |es|
  {
    if es != [] && n > 0 {
      if es[0].key == key {
        DropAdds(es[1..], key, n);
        var inner := DropOldest(es[1..], key, n);
        assert ([es[0]] + inner)[1..] == inner;
      } else {
        DropAdds(es[1..], key, n - 1);
      }
    }
  }

  lemma {:induction false} DropIsBounded(es: Entries, key: CacheKey, n: nat)
    ensures |DropOldest(es, key, n)| <= |es| && Bytes(DropOldest(es, key, n)) <= Bytes(es)
    decreases |es|
  {
    if es != [] && n > 0 {
      DropIsBounded(es[1..], key, if es[0].key == key then n else n - 1);
      if es[0].key == key {
        var inner := DropOldest(es[1..], key, n);
        assert ([es[0]] + inner)[1..] == inner;
      }
    }
  }

  /** What survives is the old order minus a prefix, of which only the matching entry stays. */
  lemma {:induction false} SurvivorsAreASuffix(es: Entries, key: CacheKey, n: nat) returns (k: nat)
    requires DistinctKeys(es)
    ensures k <= |es|
    ensures DropOldest(es, key, n) ==
            (if Position(es, key) < k then [es[Position(es, key)]] else []) + es[k..]
    decreases |es|
  {
    if es == [] || n == 0 {
      k := 0;
    } else {
      var rest := es[1..];
      assert forall j :: 0 <= j < |rest| ==> rest[j] == es[j + 1];
      var m := SurvivorsAreASuffix(rest, key, if es[0].key == key then n else n - 1);
      k := m + 1;
      assert rest[m..] == es[k..];
      if es[0].key == key {
        assert Position(rest, key) == |rest|;
      } else {
        assert Position(es, key) == Position(rest, key) + 1;
      }
    }
  }

  lemma {:induction false} DropIsSubset(es: Entries, key: CacheKey, n: nat, e: CacheEntry)
    ensures e in DropOldest(es, key, n) ==> e in es
    ensures e in es && e.key == key ==> e in DropOldest(es, key, n)
    decreases |es|
  {
    if es != [] && n > 0 {
      DropIsSubset(es[1..], key, if es[0].key == key then n else n - 1, e);
      assert es == [es[0]] + es[1..];
    }
  }

  /** Dropping old entries never touches the entry being replaced. */
  lemma {:induction false} DropKeepsKey(es: Entries, key: CacheKey, n: nat)
    requires DistinctKeys(es)
    ensures DistinctKeys(DropOldest(es, key, n))
    ensures Position(es, key) < |es| ==> es[Position(es, key)] in DropOldest(es, key, n)
    decreases |es|
  {
    if Position(es, key) < |es| {
      DropIsSubset(es, key, n, es[Position(es, key)]);
    }
    if es != [] && n > 0 {
      var rest := es[1..];
      assert forall j :: 0 <= j < |rest| ==> rest[j] == es[j + 1];
      DropKeepsKey(rest, key, if es[0].key == key then n else n - 1);
      if es[0].key == key {
        var inner := DropOldest(rest, key, n);
        forall j | 0 <= j < |inner|
          ensures inner[j].key != key
        {
          DropIsSubset(rest, key, n, inner[j]);
        }
      }
    }
  }

  /** With no other entry left, a resource within the byte bound fits. */
  lemma AloneFits(es: Entries, key: CacheKey, size: nat)
    requires size <= MAX_RESOURCE_CACHE_BYTES && Victim(es, key) >= |es|
    ensures Fits(es, key, size)
  {
    if es != [] {
      assert Without(es, key) == [];
    }
  }

  /** A successful insert keeps the cache's bounds and leaves the new key last. */
  lemma InsertKeepsBounds(es: Entries, e: CacheEntry)
    requires CacheOk(es) && Fits(es, e.key, e.size)
    ensures CacheOk(Without(es, e.key) + [e])
  {
    WithoutIsAbsent(es, e.key);
    BytesAppend(Without(es, e.key), e);
  }

  /** A resource fits exactly when the cache keeps both bounds with it in place of its key's entry. */
  lemma FitsIff(es: Entries, e: CacheEntry)
    requires DistinctKeys(es)
    ensures Fits(es, e.key, e.size) <==> CacheOk(Without(es, e.key) + [e])
    ensures Fits(es, e.key, e.size) <==> |Without(es, e.key)| < 32 && Bytes(Without(es, e.key)) + e.size <= 8 * 1024 * 1024
    ensures forall other :: other in Without(es, e.key) <==> other in es && other.key != e.key
  {
    WithoutIsAbsent(es, e.key);
    BytesAppend(Without(es, e.key), e);
    forall other
      ensures other in Without(es, e.key) <==> other in es && other.key != e.key
    {
      WithoutHolds(es, e.key, other);
    }
  }

  lemma WithoutHolds(es: Entries, key: CacheKey, other: CacheEntry)
    requires DistinctKeys(es)
    ensures other in Without(es, key) <==> other in es && other.key != key
  {
    WithoutIsAbsent(es, key);
    var i := Position(es, key);
    if i < |es| {
      assert es == es[..i] + [es[i]] + es[i + 1..];
    }
  }

  /** Eviction keeps what fits fitting. */
  lemma DropKeepsFit(es: Entries, key: CacheKey, size: nat)
    requires DistinctKeys(es) && Victim(es, key) < |es| && Fits(es, key, size)
    ensures Fits(RemoveAt(es, Victim(es, key)), key, size)
  {
    var v := Victim(es, key);
    EvictIsDrop(es, key);
    BytesWithout(es, key);
    BytesWithout(RemoveAt(es, v), key);
    BytesRemove(es, v);
    RemoveKeepsPosition(es, key);
  }

  lemma RemoveKeepsPosition(es: Entries, key: CacheKey)
    requires DistinctKeys(es) && Victim(es, key) < |es|
    ensures var after := RemoveAt(es, Victim(es, key));
            && (Position(es, key) < |es| <==> Position(after, key) < |after|)
            && Size(after, key) == Size(es, key)
  {
    var after := RemoveAt(es, Victim(es, key));
    if es[0].key == key {
      assert after[0] == es[0];
    } else {
      assert after == es[1..];
      assert Position(es, key) == 1 + Position(es[1..], key);
    }
  }

  // ---- the cache in place ----

  class ResourceCache {
    var entries: Entries
    var bytes: nat

    ghost predicate Valid()
      reads this
    {
      CacheOk(entries) && bytes == Bytes(entries)
    }

    constructor ()
      ensures Valid() && entries == []
    {
      entries, bytes := [], 0;
    }

    method Find(key: CacheKey) returns (i: nat)
      ensures i == Position(entries, key)
    {
      i := 0;
      while i < |entries| && entries[i].key != key
        invariant 0 <= i <= |entries| && forall j :: 0 <= j < i ==> entries[j].key != key
      {
        i := i + 1;
      }
    }

    /** Look a resource up and make it the most recently used. */
    method Get(key: CacheKey) returns (r: Option<CacheEntry>)
      requires Valid()
      modifies this
      ensures Valid()
      ensures Position(old(entries), key) == |old(entries)| ==> r.None? && entries == old(entries)
      ensures Position(old(entries), key) < |old(entries)| ==>
                r == Some(old(entries)[Position(old(entries), key)])
                && entries == Without(old(entries), key) + [r.value]
    {
      var i := Find(key);
      if i == |entries| {
        return None;
      }
      var entry := entries[i];
      BytesWithout(entries, key);
      InsertKeepsBounds(entries, entry);
      BytesAppend(RemoveAt(entries, i), entry);
      entries := RemoveAt(entries, i) + [entry];
      r := Some(entry);
    }

    /** Evict the oldest entry with another key. */
    method Evict(key: CacheKey)
      requires Valid() && Victim(entries, key) < |entries|
      modifies this
      ensures Valid() && entries == DropOldest(old(entries), key, 1)
      ensures forall size :: Fits(old(entries), key, size) ==> Fits(entries, key, size)
    {
      var index := if entries[0].key == key then 1 else 0;
      EvictIsDrop(entries, key);
      BytesRemove(entries, index);
      RemoveKeepsDistinct(entries, index);
      forall size | Fits(entries, key, size)
        ensures Fits(RemoveAt(entries, index), key, size)
      {
        DropKeepsFit(entries, key, size);
      }
      bytes := bytes - entries[index].size;
      entries := RemoveAt(entries, index);
    }

    /** Evict until a resource of this size fits; there is always something left to evict. */
    method MakeRoom(key: CacheKey, size: nat) returns (ghost evicted: nat)
      requires Valid() && size <= MAX_RESOURCE_CACHE_BYTES
      modifies this
      ensures Valid() && Fits(entries, key, size)
      ensures entries == DropOldest(old(entries), key, evicted)
      ensures forall m :: 0 <= m < evicted ==> !Fits(DropOldest(old(entries), key, m), key, size)
    {
      evicted := 0;
      while true
        invariant Valid() && entries == DropOldest(old(entries), key, evicted)
        invariant forall m :: 0 <= m < evicted ==> !Fits(DropOldest(old(entries), key, m), key, size)
        decreases |entries|
      {
        var matching := Find(key);
        BytesWithout(entries, key);
        var oldLen := if matching < |entries| then entries[matching].size else 0;
        var countAfter := |entries| - (if matching < |entries| then 1 else 0) + 1;
        if countAfter <= MAX_RESOURCE_CACHE && bytes - oldLen + size <= MAX_RESOURCE_CACHE_BYTES {
          return;
        }
        if Victim(entries, key) >= |entries| {
          AloneFits(entries, key, size);
        }
        assert Victim(entries, key) < |entries|;
        DropAdds(old(entries), key, evicted);
        ghost var before := |entries|;
        EvictIsDrop(entries, key);
        Evict(key);
        evicted := evicted + 1;
      }
    }

    /** Evict until the budget admits the resource. Attempt `k` is admitted when `admits(k)`. */
    method Reserve(key: CacheKey, ghost size: nat, admits: nat -> bool) returns (ok: bool, ghost attempts: nat)
      requires Valid() && Fits(entries, key, size)
      modifies this
      ensures Valid() && Fits(entries, key, size)
      ensures entries == DropOldest(old(entries), key, attempts)
      ensures forall k :: 0 <= k < attempts ==> !admits(k)
      ensures ok ==> admits(attempts)
      ensures !ok ==> !admits(attempts) && Victim(entries, key) >= |entries|
    {
      attempts := 0;
      var n := 0;
      while true
        invariant n == attempts && Valid() && Fits(entries, key, size)
        invariant entries == DropOldest(old(entries), key, n)
        invariant forall k :: 0 <= k < n ==> !admits(k)
        decreases |entries|
      {
        if admits(n) {
          return true, attempts;
        }
        var other := if entries != [] && entries[0].key == key then 1 else 0;
        if other >= |entries| {
          return false, attempts;
        }
        DropAdds(old(entries), key, n);
        EvictIsDrop(entries, key);
        Evict(key);
        n, attempts := n + 1, attempts + 1;
      }
    }

    /** Insert or replace a resource. Whatever the outcome, the survivors are the old
        order less some of the oldest entries with other keys; a failure keeps the
        entry being replaced. */
    method Insert(e: CacheEntry, keyAdmitted: bool, costKnown: bool, admits: nat -> bool, stored: bool)
      returns (r: Result<(), CacheError>, ghost evicted: nat)
      requires Valid()
      modifies this
      ensures Valid()
      ensures entries == if r.Ok? then Without(DropOldest(old(entries), e.key, evicted), e.key) + [e]
                         else DropOldest(old(entries), e.key, evicted)
      ensures r.Ok? ==> e.size <= MAX_RESOURCE_CACHE_BYTES && keyAdmitted && costKnown && stored
                        && exists k :: 0 <= k <= evicted && admits(k)
      ensures e.size > MAX_RESOURCE_CACHE_BYTES || !keyAdmitted ==> r.Err? && evicted == 0
      ensures e.size <= MAX_RESOURCE_CACHE_BYTES && keyAdmitted && costKnown && stored && admits(0) ==>
                r.Ok? && forall m :: 0 <= m < evicted ==> !Fits(DropOldest(old(entries), e.key, m), e.key, e.size)
    {
      evicted := 0;
      if e.size > MAX_RESOURCE_CACHE_BYTES {
        return Err(ResourceTooLarge(e.size)), 0;
      }
      if !keyAdmitted {
        return Err(KeyRefused), 0;
      }
      evicted := MakeRoom(e.key, e.size);
      if !costKnown {
        return Err(ResourceExhausted), evicted;
      }
      var ok, attempts := Reserve(e.key, e.size, admits);
      DropsAdd(old(entries), e.key, evicted, attempts);
      evicted := evicted + attempts;
      if !ok {
        return Err(ResourceTooLarge(e.size)), evicted;
      }
      if !stored {
        return Err(ResourceExhausted), evicted;
      }
      Append(e);
      r := Ok(());
    }

    /** Put the new entry last, in place of the one it replaces. */
    method Append(e: CacheEntry)
      requires Valid() && Fits(entries, e.key, e.size)
      modifies this
      ensures Valid() && entries == Without(old(entries), e.key) + [e]
    {
      var i := Find(e.key);
      BytesWithout(entries, e.key);
      InsertKeepsBounds(entries, e);
      BytesAppend(Without(entries, e.key), e);
      if i < |entries| {
        bytes := bytes - entries[i].size;
        entries := RemoveAt(entries, i);
      }
      bytes := bytes + e.size;
      entries := entries + [e];
    }

    method EvictOldest() returns (evicted: bool)
      requires Valid()
      modifies this
      ensures Valid() && evicted == (old(entries) != [])
      ensures entries == if evicted then old(entries)[1..] else []
    {
      if entries == [] {
        return false;
      }
      bytes := Minus(bytes, entries[0].size);
      entries := entries[1..];
      evicted := true;
    }
  }

  lemma {:induction false} DropsAdd(es: Entries, key: CacheKey, n: nat, m: nat)
    ensures DropOldest(DropOldest(es, key, n), key, m) == DropOldest(es, key, n + m)
    decreases m
  {
    if m > 0 {
      DropsAdd(es, key, n, m - 1);
      DropAdds(DropOldest(es, key, n), key, m - 1);
      DropAdds(es, key, n + m - 1);
    }
  }
}
