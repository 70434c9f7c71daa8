/** The server's subscription budget (lib.rs, `SubscriptionBudget`, and live_watch.rs).

Watched paths, subscriptions and published generations each hold one lease. A
generation's lease lives with its shared text, so it is charged once however many
subscriptions hold it, and returned when the last of them lets go. */
module LiveBudget {
  import opened Wrappers

  // ---- sums of leases ----

  /** An order on keys is not needed: a sum may be taken in any order. */
  ghost function Sum(m: map<nat, nat>): nat
    decreases |m|
  {
    if m == map[] then 0
    else
      var k :| k in m;
      assert |m - {k}| < |m| by { RemoveShrinks(m, k); }
      m[k] + Sum(m - {k})
  }

  lemma RemoveShrinks(m: map<nat, nat>, k: nat)
    requires k in m
    ensures |m - {k}| == |m| - 1
  {
    assert (m - {k}).Keys == m.Keys - {k};
    assert |m.Keys - {k}| == |m.Keys| - 1;
    assert |m| == |m.Keys| && |m - {k}| == |(m - {k}).Keys|;
  }

  lemma {:induction false} SumRemove(m: map<nat, nat>, k: nat)
    requires k in m
    ensures Sum(m) == m[k] + Sum(m - {k})
    decreases |m|
  {
    var j :| j in m && Sum(m) == m[j] + Sum(m - {j});
    if j != k {
      RemoveShrinks(m, j);
      RemoveShrinks(m, k);
      SumRemove(m - {j}, k);
      SumRemove(m - {k}, j);
      assert m - {j} - {k} == m - {k} - {j};
    }
  }

  lemma SumInsert(m: map<nat, nat>, k: nat, n: nat)
    requires k !in m
    ensures Sum(m[k := n]) == Sum(m) + n
  {
    SumRemove(m[k := n], k);
    assert m[k := n] - {k} == m;
  }

  // ---- one lease ----

  class SubscriptionBudget {
    var used: nat
    const limit: nat
    ghost var leases: map<nat, nat>
    ghost var nextKey: nat

    ghost predicate Valid()
      reads this
    {
      used == Sum(leases) <= limit && forall k :: k in leases ==> k < nextKey
    }

    constructor (max: nat)
      ensures Valid() && limit == max && leases == map[] && used == 0
    {
      used, limit, leases, nextKey := 0, max, map[], 0;
    }

    /** Refused exactly when the live leases and the request exceed the limit; a refusal changes nothing. */
    method Reserve(requested: nat) returns (r: Option<SubscriptionLease>)
      requires Valid()
      modifies this
      ensures Valid()
      ensures r.Some? <==> Sum(old(leases)) + requested <= limit
      ensures r.None? ==> used == old(used) && leases == old(leases)
      ensures r.Some? ==> fresh(r.value) && r.value.budget == this && r.value.amount == requested
                          && r.value.key !in old(leases) && leases == old(leases)[r.value.key := requested]
    {
      var next := used + requested;
      if next > limit {
        return None;
      }
      SumInsert(leases, nextKey, requested);
      used := next;
      leases := leases[nextKey := requested];
      var lease := new SubscriptionLease(this, requested, nextKey);
      nextKey := nextKey + 1;
      r := Some(lease);
    }
  }

  class SubscriptionLease {
    const budget: SubscriptionBudget
    var amount: nat
    ghost const key: nat

    constructor (b: SubscriptionBudget, n: nat, ghost k: nat)
      ensures budget == b && amount == n && key == k
    {
      budget, amount, key := b, n, k;
    }

    ghost predicate Live()
      reads this, budget
    {
      key in budget.leases && budget.leases[key] == amount
    }

    method TryResize(requested: nat) returns (ok: bool)
      requires budget.Valid() && Live()
      modifies this, budget
      ensures budget.Valid() && Live()
      ensures ok <==> Sum(old(budget.leases) - {key}) + requested <= budget.limit
      ensures amount == if ok then requested else old(amount)
      ensures budget.leases == old(budget.leases)[key := amount]
      ensures !ok ==> budget.used == old(budget.used)
    {
      SumRemove(budget.leases, key);
      var next := Minus(budget.used, amount) + requested;
      if next > budget.limit {
        return false;
      }
      SumReplace(budget.leases, key, requested);
      budget.used, amount := next, requested;
      budget.leases := budget.leases[key := requested];
      ok := true;
    }

    method EnsureAtLeast(requested: nat) returns (ok: bool)
      requires budget.Valid() && Live()
      modifies this, budget
      ensures budget.Valid() && Live()
      ensures ok ==> amount >= requested
      ensures amount == if ok && requested > old(amount) then requested else old(amount)
      ensures budget.leases == old(budget.leases)[key := amount]
    {
      ok := true;
      if requested > amount {
        ok := TryResize(requested);
      }
    }

    /** Shrinking is never refused. */
    method ShrinkTo(requested: nat)
      requires budget.Valid() && Live() && requested <= amount
      modifies this, budget
      ensures budget.Valid() && Live() && amount == requested
      ensures budget.leases == old(budget.leases)[key := amount]
    {
      SumRemove(budget.leases, key);
      SumReplace(budget.leases, key, requested);
      budget.used := budget.used - (amount - requested);
      amount := requested;
      budget.leases := budget.leases[key := requested];
    }

    method Release()
      requires budget.Valid() && Live()
      modifies budget
      ensures budget.Valid() && budget.leases == old(budget.leases) - {key}
    {
      SumRemove(budget.leases, key);
      budget.used := Minus(budget.used, amount);
      budget.leases := budget.leases - {key};
    }
  }

  lemma SumReplace(m: map<nat, nat>, k: nat, n: nat)
    requires k in m
    ensures Sum(m[k := n]) == Sum(m - {k}) + n
  {
    assert m[k := n] == (m - {k})[k := n];
    SumInsert(m - {k}, k, n);
  }

  // ---- who holds which generation ----

  type Path = nat
  type SubId = nat
  type Gen = nat

  datatype Watched = Watched(latest: Gen)
  datatype Holder = Holder(path: Path, baseline: Gen)

  /** The books of the live-region service: the leases of entries, of subscriptions and of live
      generations, and the scratch lease of the read in progress, if any. */
  datatype Books = Books(
    used: nat,
    reading: Option<Path>,
    scratch: nat,
    entries: map<Path, Watched>,
    entryLeases: map<nat, nat>,
    holders: map<SubId, Holder>,
    metadata: map<nat, nat>,
    texts: map<nat, nat>,
    nextGen: Gen)

  predicate Wanted(b: Books, g: Gen) {
    || (exists p :: p in b.entries && b.entries[p].latest == g)
    || (exists s :: s in b.holders && b.holders[s].baseline == g)
  }

  /** Every total is a sum over distinct owners, and a generation has a lease exactly while
      someone holds it. */
  ghost predicate Exact(b: Books) {
    && b.used == Sum(b.entryLeases) + Sum(b.metadata) + Sum(b.texts) + b.scratch
    && (b.reading.Some? ==> b.reading.value in b.entries) && (b.reading.None? ==> b.scratch == 0)
    && b.entryLeases.Keys == b.entries.Keys && b.metadata.Keys == b.holders.Keys
    && (forall g :: g in b.texts <==> Wanted(b, g))
    && (forall s :: s in b.holders ==> b.holders[s].path in b.entries)
    && (forall g :: g in b.texts ==> g < b.nextGen)
  }

  /** Let go of a generation nobody holds any more. */
  ghost function Settle(b: Books, g: Gen): Books {
    if g in b.texts && !Wanted(b, g) then b.(texts := b.texts - {g}, used := Minus(b.used, b.texts[g])) else b
  }

  datatype Action =
    | Install(path: Path, bytes: nat)
    | Read(path: Path, peak: nat)
    | Grow(peak: nat)
    | Publish(bytes: nat)
    | Abandon
    | Join(sub: SubId, path: Path, bytes: nat)
    | Flush(sub: SubId)
    | Leave(sub: SubId)
    | Reap(path: Path)

  function Free(): Books {
    Books(0, None, 0, map[], map[], map[], map[], map[], 0)
  }

  /** Watch a path: its entry is charged, its empty first generation is charged nothing. */
  ghost function Installed(b: Books, p: Path, bytes: nat): Books {
    b.(used := b.used + bytes, entries := b.entries[p := Watched(b.nextGen)], entryLeases := b.entryLeases[p := bytes],
       texts := b.texts[b.nextGen := 0], nextGen := b.nextGen + 1)
  }

  ghost function Joined(b: Books, s: SubId, p: Path, bytes: nat): Books
    requires p in b.entries
  {
    b.(used := b.used + bytes, holders := b.holders[s := Holder(p, b.entries[p].latest)],
       metadata := b.metadata[s := bytes])
  }

  /** The read's scratch lease shrinks to the text and becomes the new generation's. */
  ghost function Renewed(b: Books, p: Path, bytes: nat): Books
    requires p in b.entries && bytes <= b.scratch && b.scratch <= b.used
  {
    b.(used := b.used - (b.scratch - bytes), reading := None, scratch := 0,
       entries := b.entries[p := Watched(b.nextGen)], texts := b.texts[b.nextGen := bytes], nextGen := b.nextGen + 1)
  }

  ghost function Published(b: Books, p: Path, bytes: nat): Books
    requires p in b.entries && bytes <= b.scratch && b.scratch <= b.used
  {
    Settle(Renewed(b, p, bytes), b.entries[p].latest)
  }

  ghost function Flushed(b: Books, s: SubId): Books
    requires s in b.holders && b.holders[s].path in b.entries
  {
    Settle(b.(holders := b.holders[s := b.holders[s].(baseline := b.entries[b.holders[s].path].latest)]),
           b.holders[s].baseline)
  }

  ghost function Left(b: Books, s: SubId): Books
    requires s in b.holders && s in b.metadata
  {
    Settle(b.(used := Minus(b.used, b.metadata[s]), holders := b.holders - {s}, metadata := b.metadata - {s}),
           b.holders[s].baseline)
  }

  ghost function Reaped(b: Books, p: Path): Books
    requires p in b.entries && p in b.entryLeases
  {
    Settle(b.(used := Minus(b.used, b.entryLeases[p]), entries := b.entries - {p}, entryLeases := b.entryLeases - {p}),
           b.entries[p].latest)
  }

  ghost predicate Unused(b: Books, p: Path) {
    forall s :: s in b.holders ==> b.holders[s].path != p
  }

  /** One step under a limit. A refused reservation changes nothing, and nothing is reaped during a read. */
  ghost function Step(b: Books, limit: nat, a: Action): Books {
    match a
    case Install(p, bytes) => if p in b.entries || b.used + bytes > limit then b else Installed(b, p, bytes)
    case Read(p, peak) =>
      if p !in b.entries || b.reading.Some? || b.used + peak > limit then b
      else b.(used := b.used + peak, scratch := peak, reading := Some(p))
    case Grow(peak) =>
      if b.reading.None? || peak <= b.scratch || Minus(b.used, b.scratch) + peak > limit then b
      else b.(used := Minus(b.used, b.scratch) + peak, scratch := peak)
    case Publish(bytes) =>
      if b.reading.None? || b.reading.value !in b.entries || bytes > b.scratch || b.scratch > b.used then b
      else Published(b, b.reading.value, bytes)
    case Abandon => b.(used := Minus(b.used, b.scratch), scratch := 0, reading := None)
    case Join(s, p, bytes) =>
      if s in b.holders || p !in b.entries || b.used + bytes > limit then b else Joined(b, s, p, bytes)
    case Flush(s) => if s in b.holders && b.holders[s].path in b.entries then Flushed(b, s) else b
    case Leave(s) => if s in b.holders && s in b.metadata then Left(b, s) else b
    case Reap(p) =>
      if p in b.entries && p in b.entryLeases && b.reading.None? && Unused(b, p) then Reaped(b, p) else b
  }

  // ---- each step keeps the books exact ----

  /** The books are exact but for one generation that may no longer be wanted. */
  ghost predicate ExactBut(b: Books, g: Gen) {
    && b.used == Sum(b.entryLeases) + Sum(b.metadata) + Sum(b.texts) + b.scratch
    && (b.reading.Some? ==> b.reading.value in b.entries) && (b.reading.None? ==> b.scratch == 0)
    && b.entryLeases.Keys == b.entries.Keys && b.metadata.Keys == b.holders.Keys
    && (forall h :: h != g ==> (h in b.texts <==> Wanted(b, h)))
    && g in b.texts
    && (forall s :: s in b.holders ==> b.holders[s].path in b.entries)
    && (forall h :: h in b.texts ==> h < b.nextGen)
  }

  lemma SettleIsExact(b: Books, g: Gen)
    requires ExactBut(b, g)
    ensures Exact(Settle(b, g)) && Settle(b, g).used <= b.used
  {
    var after := Settle(b, g);
    if !Wanted(b, g) {
      SumRemove(b.texts, g);
    }
    forall h
      ensures Wanted(after, h) <==> Wanted(b, h)
    {
      assert after.entries == b.entries && after.holders == b.holders;
    }
  }

  lemma InstallIsExact(b: Books, p: Path, bytes: nat)
    requires Exact(b) && p !in b.entries
    ensures Exact(Installed(b, p, bytes))
  {
    var after := Installed(b, p, bytes);
    SumInsert(b.entryLeases, p, bytes);
    SumInsert(b.texts, b.nextGen, 0);
    forall g
      ensures g in after.texts <==> Wanted(after, g)
    {
      if g == b.nextGen {
        assert after.entries[p].latest == g;
      } else {
        WantedKept(b, after, g, p);
      }
    }
  }

  /** Adding or replacing entry `p` leaves every generation other than its old and new one as wanted as before. */
  lemma WantedKept(b: Books, after: Books, g: Gen, p: Path)
    requires after.holders == b.holders && p in after.entries && after.entries == b.entries[p := after.entries[p]]
    requires g != after.entries[p].latest && (p in b.entries ==> g != b.entries[p].latest)
    ensures Wanted(after, g) <==> Wanted(b, g)
  {
    if exists q :: q in b.entries && b.entries[q].latest == g {
      var q :| q in b.entries && b.entries[q].latest == g;
      assert after.entries[q].latest == g;
    }
    if exists q :: q in after.entries && after.entries[q].latest == g {
      var q :| q in after.entries && after.entries[q].latest == g;
      assert b.entries[q].latest == g;
    }
  }

  lemma RenewedIsExact(b: Books, p: Path, bytes: nat)
    requires Exact(b) && p in b.entries && bytes <= b.scratch
    ensures ExactBut(Renewed(b, p, bytes), b.entries[p].latest)
  {
    var previous := b.entries[p].latest;
    var mid := Renewed(b, p, bytes);
    assert Wanted(b, previous);
    SumInsert(b.texts, b.nextGen, bytes);
    forall g | g != previous
      ensures g in mid.texts <==> Wanted(mid, g)
    {
      if g == b.nextGen {
        assert mid.entries[p].latest == g;
      } else {
        WantedKept(b, mid, g, p);
      }
    }
  }

  lemma PublishIsExact(b: Books, p: Path, bytes: nat)
    requires Exact(b) && p in b.entries && bytes <= b.scratch
    ensures Exact(Published(b, p, bytes)) && Published(b, p, bytes).used <= b.used
  {
    RenewedIsExact(b, p, bytes);
    SettleIsExact(Renewed(b, p, bytes), b.entries[p].latest);
  }

  /** A change of the scratch lease alone. */
  lemma ScratchIsExact(b: Books, after: Books)
    requires Exact(b) && after == b.(used := after.used, reading := after.reading, scratch := after.scratch)
    requires after.used + b.scratch == b.used + after.scratch
    requires (after.reading.Some? ==> after.reading.value in b.entries) && (after.reading.None? ==> after.scratch == 0)
    ensures Exact(after)
  {
    forall g
      ensures Wanted(after, g) <==> Wanted(b, g)
    {
      assert after.entries == b.entries && after.holders == b.holders;
    }
  }

  lemma HoldersKept(b: Books, after: Books, g: Gen, s: SubId)
    requires after.entries == b.entries
    requires forall t :: t != s ==> (t in b.holders <==> t in after.holders) && (t in b.holders ==> b.holders[t] == after.holders[t])
    requires s in b.holders ==> b.holders[s].baseline != g
    requires s in after.holders ==> after.holders[s].baseline != g
    ensures Wanted(after, g) <==> Wanted(b, g)
  {
  }

  lemma JoinIsExact(b: Books, s: SubId, p: Path, bytes: nat)
    requires Exact(b) && s !in b.holders && p in b.entries
    ensures Exact(Joined(b, s, p, bytes))
  {
    var after := Joined(b, s, p, bytes);
    SumInsert(b.metadata, s, bytes);
    var latest := b.entries[p].latest;
    forall g
      ensures g in after.texts <==> Wanted(after, g)
    {
      if g == latest {
        assert Wanted(b, g) && Wanted(after, g);
      } else {
        HoldersKept(b, after, g, s);
      }
    }
  }

  lemma FlushIsExact(b: Books, s: SubId)
    requires Exact(b) && s in b.holders
    ensures Exact(Flushed(b, s)) && Flushed(b, s).used <= b.used
  {
    var previous := b.holders[s].baseline;
    var latest := b.entries[b.holders[s].path].latest;
    var mid := b.(holders := b.holders[s := b.holders[s].(baseline := latest)]);
    assert Wanted(b, previous) && Wanted(b, latest);
    forall g | g != previous
      ensures g in mid.texts <==> Wanted(mid, g)
    {
      if g == latest {
        assert Wanted(mid, g);
      } else {
        HoldersKept(b, mid, g, s);
      }
    }
    SettleIsExact(mid, previous);
  }

  lemma LeaveIsExact(b: Books, s: SubId)
    requires Exact(b) && s in b.holders
    ensures Exact(Left(b, s)) && Left(b, s).used <= b.used
  {
    var previous := b.holders[s].baseline;
    var mid := b.(used := Minus(b.used, b.metadata[s]), holders := b.holders - {s}, metadata := b.metadata - {s});
    SumRemove(b.metadata, s);
    assert Wanted(b, previous);
    forall g | g != previous
      ensures g in mid.texts <==> Wanted(mid, g)
    {
      HoldersKept(b, mid, g, s);
    }
    SettleIsExact(mid, previous);
  }

  lemma ReapIsExact(b: Books, p: Path)
    requires Exact(b) && p in b.entries && Unused(b, p) && b.reading.None?
    ensures Exact(Reaped(b, p)) && Reaped(b, p).used <= b.used
  {
    var previous := b.entries[p].latest;
    var mid := b.(used := Minus(b.used, b.entryLeases[p]), entries := b.entries - {p},
                  entryLeases := b.entryLeases - {p});
    SumRemove(b.entryLeases, p);
    assert Wanted(b, previous);
    forall g | g != previous
      ensures g in mid.texts <==> Wanted(mid, g)
    {
      if exists q :: q in b.entries && b.entries[q].latest == g {
        var q :| q in b.entries && b.entries[q].latest == g;
        assert mid.entries[q].latest == g;
      }
    }
    SettleIsExact(mid, previous);
  }

  /** Every step keeps the books exact and within the limit. */
  lemma StepIsExact(b: Books, limit: nat, a: Action)
    requires Exact(b) && b.used <= limit
    ensures Exact(Step(b, limit, a)) && Step(b, limit, a).used <= limit
  {
    if a.Install? {
      if a.path !in b.entries { InstallIsExact(b, a.path, a.bytes); }
    } else if a.Read? || a.Grow? || a.Abandon? {
      ScratchIsExact(b, Step(b, limit, a));
    } else if a.Publish? {
      if b.reading.Some? && a.bytes <= b.scratch { PublishIsExact(b, b.reading.value, a.bytes); }
    } else if a.Join? {
      if a.sub !in b.holders && a.path in b.entries { JoinIsExact(b, a.sub, a.path, a.bytes); }
    } else if a.Flush? {
      if a.sub in b.holders { FlushIsExact(b, a.sub); }
    } else if a.Leave? {
      if a.sub in b.holders { LeaveIsExact(b, a.sub); }
    } else if a.path in b.entries && Unused(b, a.path) && b.reading.None? {
      ReapIsExact(b, a.path);
    }
  }

  ghost predicate Sound(b: Books, limit: nat) {
    Exact(b) && b.used <= limit
  }

  lemma FreeIsSound(limit: nat)
    ensures Sound(Free(), limit)
  {
  }

  /** The books after some actions, starting from `b`. */
  ghost function Run(b: Books, limit: nat, actions: seq<Action>): Books
    decreases |actions|
  {
    if actions == [] then b else Run(Step(b, limit, actions[0]), limit, actions[1..])
  }

  /** In every run, in particular from the empty books, what is used is one lease per path, per
      subscription and per distinct live generation, plus the read in progress, and never exceeds the limit. */
  lemma {:induction false} ChargedOnce(b: Books, limit: nat, actions: seq<Action>)
    requires Sound(b, limit)
    ensures Sound(Run(b, limit, actions), limit)
    decreases |actions|
  {
    if actions != [] {
      StepIsExact(b, limit, actions[0]);
      ChargedOnce(Step(b, limit, actions[0]), limit, actions[1..]);
    }
  }

  /** Joining a path costs the subscription's own metadata and not one byte of content. */
  lemma JoinCostsMetadataOnly(b: Books, limit: nat, s: SubId, p: Path, bytes: nat)
    requires Exact(b) && s !in b.holders && p in b.entries && b.used + bytes <= limit
    ensures var after := Step(b, limit, Join(s, p, bytes));
            && after.used == b.used + bytes && after.texts == b.texts
            && after.holders[s].baseline == b.entries[p].latest
            && Exact(after)
  {
    JoinIsExact(b, s, p, bytes);
  }

  /** Reap every path of a set. */
  ghost function ReapAll(b: Books, limit: nat, paths: seq<Path>): Books
    requires Exact(b) && b.used <= limit
    decreases |paths|
  {
    if paths == [] then b
    else
      StepIsExact(b, limit, Reap(paths[0]));
      ReapAll(Step(b, limit, Reap(paths[0])), limit, paths[1..])
  }

  lemma {:induction false} ReapAllRemoves(b: Books, limit: nat, paths: seq<Path>)
    requires Exact(b) && b.used <= limit && b.holders == map[] && b.reading.None?
    ensures Exact(ReapAll(b, limit, paths)) && ReapAll(b, limit, paths).holders == map[]
    ensures ReapAll(b, limit, paths).reading.None?
    ensures forall p :: p in ReapAll(b, limit, paths).entries <==> p in b.entries && p !in paths
    decreases |paths|
  {
    if paths != [] {
      var next := Step(b, limit, Reap(paths[0]));
      StepIsExact(b, limit, Reap(paths[0]));
      assert Unused(b, paths[0]);
      assert next.entries == b.entries - {paths[0]};
      ReapAllRemoves(next, limit, paths[1..]);
      assert paths == [paths[0]] + paths[1..];
    }
  }

  /** Once every subscription is gone, reaping the watched paths returns every byte. */
  lemma DrainedIsZero(b: Books, limit: nat, paths: seq<Path>)
    requires Exact(b) && b.used <= limit && b.holders == map[] && b.reading.None?
    requires forall p :: p in b.entries ==> p in paths
    ensures ReapAll(b, limit, paths).used == 0
  {
    ReapAllRemoves(b, limit, paths);
    var after := ReapAll(b, limit, paths);
    assert after.entries == map[];
    assert after.entryLeases == map[] by { assert after.entryLeases.Keys == {}; }
    assert after.metadata == map[] by { assert after.metadata.Keys == {}; }
    assert after.texts == map[] by { assert forall g :: g in after.texts ==> Wanted(after, g); }
  }
}
