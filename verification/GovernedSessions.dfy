/** The session store under the shared budget (session_store.rs).

A Set stages a copy of the store under a second, conservative lease; the lease
is resized to the copy's measured capacity and replaces the old one. Capacities
are what the allocator reports, so they are inputs here. */
module GovernedSessions {
  import opened Wrappers
  import opened Governor
  import opened Sessions

  datatype GovernedError = BudgetRejected | StorageRejected

  /** The budget has room for one more staged store. */
  predicate Admits(u: Usage)
    requires u.Sized()
  {
    ReserveRefusal(u, Category.Sessions, MAX_SESSION_CANDIDATE_BYTES, MAX_SESSION_CANDIDATE_BYTES).None?
  }

  class GovernedSessionStore {
    var inner: SessionStore
    const governor: ResourceGovernor
    var lease: Option<BudgetLease>
    /** Measured capacity of `inner`. */
    var retained: nat

    ghost predicate Owns(l: BudgetLease)
      reads this, governor, l
    {
      l.governor == governor && l.Live() && l.View() == Lease(Category.Sessions, retained, retained)
    }

    /** The store is within its bounds and its lease is exactly its retained capacity. */
    ghost predicate Valid()
      reads this, inner, governor, governor.units, governor.counts, Leased()
    {
      && governor.Valid() && StoreOk(inner.sites)
      && (lease.None? ==> retained == 0)
      && (lease.Some? ==> Owns(lease.value))
    }

    ghost function Leased(): set<object>
      reads this
    {
      if lease.Some? then {lease.value} else {}
    }

    constructor (g: ResourceGovernor)
      requires g.Valid()
      ensures Valid() && governor == g && retained == 0 && lease.None? && fresh(inner) && inner.sites == []
    {
      inner := new SessionStore();
      governor, lease, retained := g, None, 0;
    }

    /** Stage a candidate lease; when the directive cannot be kept the totals are as before. */
    method Stage(measured: nat, stored: bool) returns (r: Result<BudgetLease, GovernedError>)
      requires governor.Valid()
      modifies governor, governor.units, governor.counts
      ensures governor.Valid()
      ensures r.Err? ==> governor.View() == old(governor.View())
      ensures r.Ok? ==> fresh(r.value) && r.value.governor == governor && r.value.Live()
                          && r.value.View() == Lease(Category.Sessions, measured, measured) && stored
                          && r.value.slot >= |old(governor.ledger)|
      ensures |governor.ledger| >= |old(governor.ledger)|
              && governor.ledger[..|old(governor.ledger)|] == old(governor.ledger)
      ensures measured <= MAX_SESSION_CANDIDATE_BYTES ==>
                (r.Ok? <==> stored && Admits(old(governor.View())))
      ensures r == Err(StorageRejected) <==> !stored && Admits(old(governor.View()))
    {
      ghost var before := governor.View();
      DropUndoesReserve(before, Category.Sessions, MAX_SESSION_CANDIDATE_BYTES, MAX_SESSION_CANDIDATE_BYTES);
      var reserved := governor.Reserve(Category.Sessions, MAX_SESSION_CANDIDATE_BYTES);
      if reserved.Err? {
        return Err(BudgetRejected);
      }
      var candidate := reserved.value;
      if !stored {
        candidate.Release();
        return Err(StorageRejected);
      }
      if measured <= MAX_SESSION_CANDIDATE_BYTES {
        ShrinkIsAdmitted(governor.View(), governor.ledger, candidate.slot, measured, measured);
      }
      var resized := candidate.TryResizeWithCost(measured, measured);
      if resized.Err? {
        candidate.Release();
        return Err(BudgetRejected);
      }
      r := Ok(candidate);
    }

    /** Apply a Set. A refusal leaves store, lease and totals as they were. */
    method ApplySet(origin: Origin, d: Directive, cloned: bool, copied: bool, measured: nat)
      returns (r: Result<(), GovernedError>)
      requires Valid() && d.Set?
      modifies this, governor, governor.units, governor.counts
      ensures Valid()
      ensures r.Err? ==> inner == old(inner) && lease == old(lease) && retained == old(retained)
                         && governor.View() == old(governor.View())
      ensures r.Ok? ==> fresh(inner) && inner.sites == After(old(inner.sites), Apply(origin, d, true))
                        && retained == measured
      ensures measured <= MAX_SESSION_CANDIDATE_BYTES ==>
                (r.Ok? <==> cloned && copied && !Refuses(old(inner.sites), origin, d.scope)
                            && Admits(old(governor.View())))
      ensures r == Err(StorageRejected) <==>
              Admits(old(governor.View())) && !(cloned && copied && !Refuses(old(inner.sites), origin, d.scope))
    {
      var candidate := new SessionStore.Clone(inner);
      var stored := false;
      if cloned {
        stored := candidate.ApplyDirective(origin, d, copied);
      }
      var staged := Stage(measured, stored);
      if staged.Err? {
        return Err(staged.error);
      }
      var previous := lease;
      inner, lease, retained := candidate, Some(staged.value), measured;
      if previous.Some? {
        previous.value.Release();
      }
      r := Ok(());
    }

    /** After a removal: give up the lease, or shrink it to the measured capacity. */
    method ReconcileAfterShrink(measured: nat)
      requires governor.Valid() && StoreOk(inner.sites) && measured <= retained
      requires lease.None? ==> retained == 0
      requires lease.Some? ==> Owns(lease.value)
      modifies this`lease, this`retained, Leased(), governor, governor.units, governor.counts
      ensures Valid() && retained == measured
      ensures lease == if measured == 0 then None else old(lease)
    {
      retained := measured;
      if measured == 0 {
        if lease.Some? {
          lease.value.Release();
        }
        lease := None;
        return;
      }
      if lease.Some? {
        ShrinkIsAdmitted(governor.View(), governor.ledger, lease.value.slot, measured, measured);
        var _ := lease.value.TryResizeWithCost(measured, measured);
      }
    }

    /** Apply a Clear. Removing entries never makes the store larger. */
    method ApplyClear(origin: Origin, scope: string, measured: nat)
      requires Valid() && measured <= retained
      modifies this, inner, Leased(), governor, governor.units, governor.counts
      ensures Valid() && inner == old(inner) && retained == measured
      ensures inner.sites == WithoutSession(old(inner.sites), origin, scope)
    {
      var _ := inner.ApplyDirective(origin, Clear(scope), true);
      ReconcileAfterShrink(measured);
    }

    method ClearStorageKey(drop: Origin -> bool, measured: nat)
      requires Valid() && measured <= retained
      modifies this, inner, Leased(), governor, governor.units, governor.counts
      ensures Valid() && inner == old(inner) && retained == measured
      ensures inner.sites == Retain(old(inner.sites), drop)
    {
      inner.ClearStorageKey(drop);
      ReconcileAfterShrink(measured);
    }

    /** An empty store holds no lease at all. */
    method ClearAll()
      requires Valid()
      modifies this, inner, Leased(), governor, governor.units, governor.counts
      ensures Valid() && inner == old(inner) && inner.sites == [] && lease.None?
    {
      inner.Empty();
      ReconcileAfterShrink(0);
    }
  }

  /** The category's total is what the store's lease holds plus what every other owner holds. */
  lemma SessionsAreCharged(u: Usage, ledger: Ledger, slot: nat, retained: nat)
    requires Balanced(u, ledger) && slot < |ledger|
    requires ledger[slot] == Some(Lease(Category.Sessions, retained, retained))
    ensures u.For(Category.Sessions) == retained + Units(ledger[slot := None], Category.Sessions)
    ensures u.bytes == retained + Costs(ledger[slot := None])
  {
    SumsUpdate(ledger, slot, None, Category.Sessions);
    assert Tallies(u, ledger, Category.Sessions);
  }
}
