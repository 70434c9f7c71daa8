/** The aggregate budget of remotely influenced client state (resource.rs).

The governor keeps eleven unit totals, eleven owner counts and one byte total.
Every lease in existence is one entry of a ledger; the totals are the ledger's
sums after any interleaving of reservations, resizes, shrinks and drops. */
module Governor {
  import opened Wrappers

  datatype Category =
    | AstStrings | SceneCells | CompositorCells | ResourceCache | PendingUpdates | History | Wasm
    | AnimationRegions | AuthoredFrames | RemoteCollections | Sessions

  const CATEGORIES: nat := 11

  const MAX_SCENE_CELLS: nat := 1_048_576
  const MAX_REMOTE_MEMORY: nat := 128 * 1024 * 1024
  const MAX_WASM_GUEST_BYTES: nat := 4 * 1024 * 1024
  const MAX_WASM_GUESTS: nat := 32
  const MAX_WASM_BYTES: nat := 64 * 1024 * 1024

  /** Admission of one staged session store: 256 entries of a 56-byte bucket, a URI, eight 64-byte
      tokens and one token and scope text each, and one more token, scope and URI. */
  const MAX_SESSION_CANDIDATE_BYTES: nat :=
    256 * (56 + 2048 + 8 * 64 + 4096 + 1024) + 4096 + 1024 + 2048

  function Index(c: Category): (i: nat)
    ensures i < CATEGORIES
  {
    match c
    case AstStrings => 0
    case SceneCells => 1
    case CompositorCells => 2
    case ResourceCache => 3
    case PendingUpdates => 4
    case History => 5
    case Wasm => 6
    case AnimationRegions => 7
    case AuthoredFrames => 8
    case RemoteCollections => 9
    case Sessions => 10
  }

  function UnitLimit(c: Category): nat {
    match c
    case SceneCells => MAX_SCENE_CELLS
    case ResourceCache => 8 * 1024 * 1024
    case PendingUpdates => 8 * 1024 * 1024
    case History => 16 * 1024 * 1024
    case Wasm => MAX_WASM_BYTES
    case AnimationRegions => 1024
    case AuthoredFrames => 256
    case AstStrings => MAX_REMOTE_MEMORY
    case CompositorCells => MAX_REMOTE_MEMORY
    case RemoteCollections => MAX_REMOTE_MEMORY
    case Sessions => MAX_SESSION_CANDIDATE_BYTES * 2
  }

  function OwnerLimit(c: Category): Option<nat> {
    if c == Wasm then Some(MAX_WASM_GUEST_BYTES) else None
  }

  function CountLimit(c: Category): Option<nat> {
    match c
    case ResourceCache => Some(32)
    case PendingUpdates => Some(64)
    case History => Some(128)
    case Wasm => Some(MAX_WASM_GUESTS)
    case _ => None
  }

  predicate Exceeds(n: nat, limit: Option<nat>) {
    limit.Some? && n > limit.value
  }

  datatype BudgetError =
    | CategoryFull(category: Category, requested: nat, available: nat)
    | AggregateFull(requested: nat, available: nat)
    | OwnerTooLarge(category: Category, requested: nat, maximum: nat)
    | CountFull(category: Category, maximum: nat)

  // ---- the totals as a value ----

  datatype Usage = Usage(bytes: nat, units: seq<nat>, counts: seq<nat>) {
    predicate Sized() {
      |units| == CATEGORIES && |counts| == CATEGORIES
    }

    function For(c: Category): nat
      requires Sized()
    {
      units[Index(c)]
    }

    function CountOf(c: Category): nat
      requires Sized()
    {
      counts[Index(c)]
    }

    function Set(c: Category, u: nat, n: nat, b: nat): (r: Usage)
      requires Sized()
      ensures r.Sized()
    {
      Usage(b, units[Index(c) := u], counts[Index(c) := n])
    }
  }

  datatype Lease = Lease(category: Category, amount: nat, cost: nat)

  /** Why a reservation is refused, if it is. */
  function ReserveRefusal(u: Usage, c: Category, amount: nat, cost: nat): Option<BudgetError>
    requires u.Sized()
  {
    if Exceeds(amount, OwnerLimit(c)) then Some(OwnerTooLarge(c, amount, OwnerLimit(c).value))
    else if Exceeds(u.CountOf(c) + 1, CountLimit(c)) then Some(CountFull(c, CountLimit(c).value))
    else if amount > Minus(UnitLimit(c), u.For(c)) then
      Some(CategoryFull(c, amount, Minus(UnitLimit(c), u.For(c))))
    else if cost > Minus(MAX_REMOTE_MEMORY, u.bytes) then
      Some(AggregateFull(cost, Minus(MAX_REMOTE_MEMORY, u.bytes)))
    else None
  }

  function Reserved(u: Usage, c: Category, amount: nat, cost: nat): Usage
    requires u.Sized()
  {
    u.Set(c, u.For(c) + amount, u.CountOf(c) + 1, u.bytes + cost)
  }

  function ResizeRefusal(u: Usage, l: Lease, amount: nat, cost: nat): Option<BudgetError>
    requires u.Sized()
  {
    var available := Minus(UnitLimit(l.category), Minus(u.For(l.category), l.amount));
    var aggregate := Minus(MAX_REMOTE_MEMORY, Minus(u.bytes, l.cost));
    if Exceeds(amount, OwnerLimit(l.category)) then
      Some(OwnerTooLarge(l.category, amount, OwnerLimit(l.category).value))
    else if amount > available then Some(CategoryFull(l.category, amount, available))
    else if cost > aggregate then Some(AggregateFull(cost, aggregate))
    else None
  }

  function Resized(u: Usage, l: Lease, amount: nat, cost: nat): Usage
    requires u.Sized()
  {
    u.Set(l.category, Minus(u.For(l.category), l.amount) + amount, u.CountOf(l.category),
          Minus(u.bytes, l.cost) + cost)
  }

  function Dropped(u: Usage, l: Lease): Usage
    requires u.Sized()
  {
    u.Set(l.category, Minus(u.For(l.category), l.amount), Minus(u.CountOf(l.category), 1), Minus(u.bytes, l.cost))
  }

  // ---- the ledger of live leases ----

  type Ledger = seq<Option<Lease>>

  function Amount(l: Option<Lease>, c: Category): nat {
    if l.Some? && l.value.category == c then l.value.amount else 0
  }

  function Cost(l: Option<Lease>): nat {
    if l.Some? then l.value.cost else 0
  }

  function One(l: Option<Lease>, c: Category): nat {
    if l.Some? && l.value.category == c then 1 else 0
  }

  function Units(ledger: Ledger, c: Category): nat {
    if ledger == [] then 0 else Amount(ledger[0], c) + Units(ledger[1..], c)
  }

  function Costs(ledger: Ledger): nat {
    if ledger == [] then 0 else Cost(ledger[0]) + Costs(ledger[1..])
  }

  function Owners(ledger: Ledger, c: Category): nat {
    if ledger == [] then 0 else One(ledger[0], c) + Owners(ledger[1..], c)
  }

  lemma {:induction false} SumsUpdate(ledger: Ledger, i: nat, l: Option<Lease>, c: Category)
    requires i < |ledger|
    ensures Units(ledger[i := l], c) == Units(ledger, c) - Amount(ledger[i], c) + Amount(l, c)
    ensures Costs(ledger[i := l]) == Costs(ledger) - Cost(ledger[i]) + Cost(l)
    ensures Owners(ledger[i := l], c) == Owners(ledger, c) - One(ledger[i], c) + One(l, c)
  {
    if i == 0 {
      assert ledger[0 := l][1..] == ledger[1..];
    } else {
      SumsUpdate(ledger[1..], i - 1, l, c);
      assert ledger[i := l][1..] == ledger[1..][i - 1 := l];
    }
  }

  lemma {:induction false} SumsAppend(ledger: Ledger, l: Option<Lease>, c: Category)
    ensures Units(ledger + [l], c) == Units(ledger, c) + Amount(l, c)
    ensures Costs(ledger + [l]) == Costs(ledger) + Cost(l)
    ensures Owners(ledger + [l], c) == Owners(ledger, c) + One(l, c)
  {
    if ledger != [] {
      SumsAppend(ledger[1..], l, c);
      assert (ledger + [l])[1..] == ledger[1..] + [l];
    }
  }

  /** An entry is part of every sum it belongs to. */
  lemma SumsCover(ledger: Ledger, i: nat, c: Category)
    requires i < |ledger|
    ensures Amount(ledger[i], c) <= Units(ledger, c) && Cost(ledger[i]) <= Costs(ledger)
    ensures One(ledger[i], c) <= Owners(ledger, c)
  {
    SumsUpdate(ledger, i, None, c);
  }

  ghost predicate Tallies(u: Usage, ledger: Ledger, c: Category)
    requires u.Sized()
  {
    u.For(c) == Units(ledger, c) && u.CountOf(c) == Owners(ledger, c)
  }

  ghost predicate WithinLimits(ledger: Ledger, c: Category) {
    Units(ledger, c) <= UnitLimit(c) && !Exceeds(Owners(ledger, c), CountLimit(c))
  }

  ghost predicate OwnersFit(ledger: Ledger) {
    forall i :: 0 <= i < |ledger| && ledger[i].Some? ==>
      !Exceeds(ledger[i].value.amount, OwnerLimit(ledger[i].value.category))
  }

  /** The totals are the ledger's sums, and no limit is exceeded. */
  ghost predicate Balanced(u: Usage, ledger: Ledger) {
    && u.Sized() && u.bytes == Costs(ledger) && Costs(ledger) <= MAX_REMOTE_MEMORY && OwnersFit(ledger)
    && forall c :: Tallies(u, ledger, c) && WithinLimits(ledger, c)
  }

  function NoUsage(): Usage {
    Usage(0, seq(CATEGORIES, i => 0), seq(CATEGORIES, i => 0))
  }

  lemma NoUsageIsBalanced()
    ensures Balanced(NoUsage(), [])
  {
  }

  lemma ReserveTallies(u: Usage, ledger: Ledger, c: Category, amount: nat, cost: nat, d: Category)
    requires u.Sized() && Tallies(u, ledger, d) && WithinLimits(ledger, d)
    requires d == c ==> Units(ledger, c) + amount <= UnitLimit(c) && !Exceeds(Owners(ledger, c) + 1, CountLimit(c))
    requires d != c ==> Index(d) != Index(c)
    ensures Tallies(Reserved(u, c, amount, cost), ledger + [Some(Lease(c, amount, cost))], d)
    ensures WithinLimits(ledger + [Some(Lease(c, amount, cost))], d)
  {
    SumsAppend(ledger, Some(Lease(c, amount, cost)), d);
  }

  /** A reservation is refused exactly when a limit over the live leases would be exceeded,
      and admitting it keeps the totals exact. */
  lemma ReserveIsExact(u: Usage, ledger: Ledger, c: Category, amount: nat, cost: nat)
    requires Balanced(u, ledger)
    ensures ReserveRefusal(u, c, amount, cost).None? <==>
            && !Exceeds(amount, OwnerLimit(c)) && !Exceeds(Owners(ledger, c) + 1, CountLimit(c))
            && Units(ledger, c) + amount <= UnitLimit(c) && Costs(ledger) + cost <= MAX_REMOTE_MEMORY
    ensures ReserveRefusal(u, c, amount, cost).None? ==>
              Balanced(Reserved(u, c, amount, cost), ledger + [Some(Lease(c, amount, cost))])
  {
    assert Tallies(u, ledger, c) && WithinLimits(ledger, c);
    if ReserveRefusal(u, c, amount, cost).None? {
      ReserveBalances(u, ledger, c, amount, cost);
    }
  }

  lemma ReserveBalances(u: Usage, ledger: Ledger, c: Category, amount: nat, cost: nat)
    requires Balanced(u, ledger) && !Exceeds(amount, OwnerLimit(c)) && !Exceeds(Owners(ledger, c) + 1, CountLimit(c))
    requires Units(ledger, c) + amount <= UnitLimit(c) && Costs(ledger) + cost <= MAX_REMOTE_MEMORY
    ensures Balanced(Reserved(u, c, amount, cost), ledger + [Some(Lease(c, amount, cost))])
  {
    var l := Some(Lease(c, amount, cost));
    forall d
      ensures Tallies(Reserved(u, c, amount, cost), ledger + [l], d) && WithinLimits(ledger + [l], d)
    {
      assert Tallies(u, ledger, d) && WithinLimits(ledger, d);
      ReserveTallies(u, ledger, c, amount, cost, d);
    }
    SumsAppend(ledger, l, c);
  }

  /** A resize is refused exactly when the other leases leave too little room, and
      admitting it keeps the totals exact. */
  lemma ResizeIsExact(u: Usage, ledger: Ledger, i: nat, amount: nat, cost: nat)
    requires Balanced(u, ledger) && i < |ledger| && ledger[i].Some?
    ensures var l := ledger[i].value;
            && (ResizeRefusal(u, l, amount, cost).None? <==>
                && !Exceeds(amount, OwnerLimit(l.category))
                && Units(ledger[i := None], l.category) + amount <= UnitLimit(l.category)
                && Costs(ledger[i := None]) + cost <= MAX_REMOTE_MEMORY)
            && (ResizeRefusal(u, l, amount, cost).None? ==>
                  Balanced(Resized(u, l, amount, cost), ledger[i := Some(Lease(l.category, amount, cost))]))
  {
    var l := ledger[i].value;
    assert Tallies(u, ledger, l.category);
    SumsUpdate(ledger, i, None, l.category);
    SumsCover(ledger, i, l.category);
    if ResizeRefusal(u, l, amount, cost).None? {
      var after := ledger[i := Some(Lease(l.category, amount, cost))];
      forall d
        ensures Tallies(Resized(u, l, amount, cost), after, d) && WithinLimits(after, d)
      {
        SumsUpdate(ledger, i, after[i], d);
        SumsUpdate(ledger, i, None, d);
        assert Tallies(u, ledger, d) && WithinLimits(ledger, d);
      }
      SumsUpdate(ledger, i, after[i], l.category);
    }
  }

  /** Which limit a refused reservation reports, the first of four in this order, and what the live
      leases leave of it. */
  lemma RefusalReports(u: Usage, ledger: Ledger, c: Category, amount: nat, cost: nat)
    requires Balanced(u, ledger)
    ensures Units(ledger, c) <= UnitLimit(c) && Costs(ledger) <= 128 * 1024 * 1024
    ensures ReserveRefusal(u, c, amount, cost) ==
            if c == Wasm && amount > 4 * 1024 * 1024 then Some(OwnerTooLarge(c, amount, 4 * 1024 * 1024))
            else if Exceeds(Owners(ledger, c) + 1, CountLimit(c)) then Some(CountFull(c, CountLimit(c).value))
            else if Units(ledger, c) + amount > UnitLimit(c) then
              Some(CategoryFull(c, amount, UnitLimit(c) - Units(ledger, c)))
            else if Costs(ledger) + cost > 128 * 1024 * 1024 then
              Some(AggregateFull(cost, 128 * 1024 * 1024 - Costs(ledger)))
            else None
  {
    assert Tallies(u, ledger, c) && WithinLimits(ledger, c);
  }

  /** The most a first owner of each category can take. */
  function FirstShare(c: Category): nat {
    match c
    case SceneCells => 1_048_576
    case ResourceCache => 8 * 1024 * 1024
    case PendingUpdates => 8 * 1024 * 1024
    case History => 16 * 1024 * 1024
    case Wasm => 4 * 1024 * 1024
    case AnimationRegions => 1024
    case AuthoredFrames => 256
    case AstStrings => 128 * 1024 * 1024
    case CompositorCells => 128 * 1024 * 1024
    case RemoteCollections => 128 * 1024 * 1024
    case Sessions => 3_975_168
  }

  /** What an unused governor admits: up to a category's share, within the aggregate. */
  lemma FirstOwnerIsAdmittedIff(c: Category, amount: nat, cost: nat)
    ensures ReserveRefusal(NoUsage(), c, amount, cost).None? <==> amount <= FirstShare(c) && cost <= 128 * 1024 * 1024
  {
    NoUsageIsBalanced();
    ReserveIsExact(NoUsage(), [], c, amount, cost);
  }

  /** A refused resize reports what the other leases leave. */
  lemma ResizeReports(u: Usage, ledger: Ledger, i: nat, amount: nat, cost: nat, others: Ledger)
    requires Balanced(u, ledger) && i < |ledger| && ledger[i].Some? && others == ledger[i := None]
    ensures var l := ledger[i].value; var c := l.category;
            && Units(others, c) <= UnitLimit(c) && Costs(others) <= 128 * 1024 * 1024
            && ResizeRefusal(u, l, amount, cost) ==
               if c == Wasm && amount > 4 * 1024 * 1024 then Some(OwnerTooLarge(c, amount, 4 * 1024 * 1024))
               else if Units(others, c) + amount > UnitLimit(c) then
                 Some(CategoryFull(c, amount, UnitLimit(c) - Units(others, c)))
               else if Costs(others) + cost > 128 * 1024 * 1024 then
                 Some(AggregateFull(cost, 128 * 1024 * 1024 - Costs(others)))
               else None
  {
    var c := ledger[i].value.category;
    assert Tallies(u, ledger, c) && WithinLimits(ledger, c);
    SumsUpdate(ledger, i, None, c);
  }

  /** Shrinking a live lease is never refused. */
  lemma ShrinkIsAdmitted(u: Usage, ledger: Ledger, i: nat, amount: nat, cost: nat)
    requires Balanced(u, ledger) && i < |ledger| && ledger[i].Some?
    requires amount <= ledger[i].value.amount && cost <= ledger[i].value.cost
    ensures ResizeRefusal(u, ledger[i].value, amount, cost).None?
  {
    var l := ledger[i].value;
    ResizeIsExact(u, ledger, i, amount, cost);
    SumsUpdate(ledger, i, None, l.category);
    assert WithinLimits(ledger, l.category);
  }

  lemma DropIsExact(u: Usage, ledger: Ledger, i: nat)
    requires Balanced(u, ledger) && i < |ledger| && ledger[i].Some?
    ensures Balanced(Dropped(u, ledger[i].value), ledger[i := None])
  {
    var l := ledger[i].value;
    var after := ledger[i := None];
    forall d
      ensures Tallies(Dropped(u, l), after, d) && WithinLimits(after, d)
    {
      SumsUpdate(ledger, i, None, d);
      SumsCover(ledger, i, d);
      assert Tallies(u, ledger, d) && WithinLimits(ledger, d);
    }
    SumsUpdate(ledger, i, None, l.category);
    SumsCover(ledger, i, l.category);
  }

  /** Releasing what was just reserved leaves no trace in the totals. */
  lemma DropUndoesReserve(u: Usage, c: Category, amount: nat, cost: nat)
    requires u.Sized()
    ensures Dropped(Reserved(u, c, amount, cost), Lease(c, amount, cost)) == u
  {
    assert u.units[Index(c) := u.For(c)] == u.units && u.counts[Index(c) := u.CountOf(c)] == u.counts;
  }

  // ---- runs ----

  /** One call by some owner. A slot that holds no live lease is not a call. */
  datatype Op =
    | Reserve(category: Category, amount: nat, cost: nat)
    | Resize(slot: nat, amount: nat, cost: nat)
    | Drop(slot: nat)

  datatype Books = Books(usage: Usage, ledger: Ledger) {
    predicate IsLive(slot: nat) {
      slot < |ledger| && ledger[slot].Some?
    }
  }

  function Apply(b: Books, op: Op): Books
    requires b.usage.Sized()
  {
    match op
    case Reserve(c, amount, cost) =>
      if ReserveRefusal(b.usage, c, amount, cost).Some? then b
      else Books(Reserved(b.usage, c, amount, cost), b.ledger + [Some(Lease(c, amount, cost))])
    case Resize(i, amount, cost) =>
      if !b.IsLive(i) || ResizeRefusal(b.usage, b.ledger[i].value, amount, cost).Some? then b
      else Books(Resized(b.usage, b.ledger[i].value, amount, cost),
                 b.ledger[i := Some(Lease(b.ledger[i].value.category, amount, cost))])
    case Drop(i) =>
      if !b.IsLive(i) then b else Books(Dropped(b.usage, b.ledger[i].value), b.ledger[i := None])
  }

  lemma ApplyKeepsBalance(b: Books, op: Op)
    requires Balanced(b.usage, b.ledger)
    ensures Balanced(Apply(b, op).usage, Apply(b, op).ledger)
  {
    if op.Reserve? {
      ReserveIsExact(b.usage, b.ledger, op.category, op.amount, op.cost);
    } else if b.IsLive(op.slot) {
      if op.Resize? {
        ResizeIsExact(b.usage, b.ledger, op.slot, op.amount, op.cost);
      } else {
        DropIsExact(b.usage, b.ledger, op.slot);
      }
    }
  }

  /** `states` is a run of the governor from its start. */
  ghost predicate IsHistory(states: seq<Books>, ops: seq<Op>) {
    && |states| == |ops| + 1 && states[0] == Books(NoUsage(), [])
    && forall i :: 0 <= i < |ops| ==> StepOf(states, ops, i)
  }

  ghost predicate StepOf(states: seq<Books>, ops: seq<Op>, i: nat) {
    i + 1 < |states| && i < |ops| && states[i].usage.Sized() && states[i + 1] == Apply(states[i], ops[i])
  }

  /** In every run the totals are the sums over live leases and stay within every limit. */
  lemma {:induction false} UsageIsConserved(states: seq<Books>, ops: seq<Op>, n: nat)
    requires IsHistory(states, ops) && n < |states|
    ensures Balanced(states[n].usage, states[n].ledger)
    decreases n
  {
    if n > 0 {
      UsageIsConserved(states, ops, n - 1);
      assert StepOf(states, ops, n - 1);
      ApplyKeepsBalance(states[n - 1], ops[n - 1]);
    } else {
      NoUsageIsBalanced();
    }
  }

  /** Once every lease is dropped nothing is charged. */
  lemma {:induction false} DrainedIsZero(u: Usage, ledger: Ledger, c: Category)
    requires Balanced(u, ledger) && forall i :: 0 <= i < |ledger| ==> ledger[i].None?
    ensures u.bytes == 0 && u.For(c) == 0 && u.CountOf(c) == 0
  {
    EmptySums(ledger, c);
    assert Tallies(u, ledger, c);
  }

  lemma {:induction false} EmptySums(ledger: Ledger, c: Category)
    requires forall i :: 0 <= i < |ledger| ==> ledger[i].None?
    ensures Units(ledger, c) == 0 && Costs(ledger) == 0 && Owners(ledger, c) == 0
  {
    if ledger != [] {
      EmptySums(ledger[1..], c);
    }
  }

  // ---- the governor and its leases as objects ----

  class ResourceGovernor {
    var bytes: nat
    const units: array<nat>
    const counts: array<nat>
    ghost var ledger: Ledger

    ghost const Repr: set<object> := {this, units, counts}

    ghost predicate Valid()
      reads this, units, counts
    {
      && units.Length == CATEGORIES && counts.Length == CATEGORIES && units != counts
      && Balanced(View(), ledger)
    }

    ghost function View(): Usage
      reads this, units, counts
    {
      Usage(bytes, units[..], counts[..])
    }

    constructor ()
      ensures Valid() && ledger == [] && fresh(Repr)
    {
      bytes := 0;
      units := new nat[CATEGORIES](i => 0);
      counts := new nat[CATEGORIES](i => 0);
      ledger := [];
      new;
      assert View() == NoUsage();
    }

    /** Charge the totals of one category and the byte total. */
    method Charge(c: Category, u: nat, n: nat, b: nat)
      requires units.Length == CATEGORIES && counts.Length == CATEGORIES && units != counts
      modifies this`bytes, units, counts
      ensures View() == old(View()).Set(c, u, n, b)
    {
      units[Index(c)] := u;
      counts[Index(c)] := n;
      bytes := b;
    }

    method ReserveWithCost(c: Category, amount: nat, cost: nat) returns (r: Result<BudgetLease, BudgetError>)
      requires Valid()
      modifies this, units, counts
      ensures Valid()
      ensures match ReserveRefusal(old(View()), c, amount, cost) {
                case Some(e) => r == Err(e) && View() == old(View()) && ledger == old(ledger)
                case None =>
                  && r.Ok? && fresh(r.value) && r.value.governor == this && r.value.slot == |old(ledger)|
                  && View() == Reserved(old(View()), c, amount, cost)
                  && ledger == old(ledger) + [Some(Lease(c, amount, cost))]
                  && r.value.Live() && r.value.View() == Lease(c, amount, cost)
              }
    {
      ReserveIsExact(View(), ledger, c, amount, cost);
      var refusal := Refuse(c, amount, cost);
      if refusal.Some? {
        return Err(refusal.value);
      }
      Charge(c, units[Index(c)] + amount, counts[Index(c)] + 1, bytes + cost);
      ledger := ledger + [Some(Lease(c, amount, cost))];
      var lease := new BudgetLease(this, c, amount, cost, |ledger| - 1);
      r := Ok(lease);
    }

    method Refuse(c: Category, amount: nat, cost: nat) returns (r: Option<BudgetError>)
      requires Valid()
      ensures r == ReserveRefusal(View(), c, amount, cost)
    {
      var maximum := OwnerLimit(c);
      if maximum.Some? && amount > maximum.value {
        return Some(OwnerTooLarge(c, amount, maximum.value));
      }
      var most := CountLimit(c);
      if most.Some? && counts[Index(c)] >= most.value {
        return Some(CountFull(c, most.value));
      }
      var available := Minus(UnitLimit(c), units[Index(c)]);
      if amount > available {
        return Some(CategoryFull(c, amount, available));
      }
      var aggregate := Minus(MAX_REMOTE_MEMORY, bytes);
      if cost > aggregate {
        return Some(AggregateFull(cost, aggregate));
      }
      r := None;
    }

    method Reserve(c: Category, amount: nat) returns (r: Result<BudgetLease, BudgetError>)
      requires Valid()
      modifies this, units, counts
      ensures Valid()
      ensures match ReserveRefusal(old(View()), c, amount, amount) {
                case Some(e) => r == Err(e) && View() == old(View()) && ledger == old(ledger)
                case None =>
                  && r.Ok? && fresh(r.value) && r.value.governor == this && r.value.slot == |old(ledger)|
                  && View() == Reserved(old(View()), c, amount, amount)
                  && ledger == old(ledger) + [Some(Lease(c, amount, amount))]
                  && r.value.Live() && r.value.View() == Lease(c, amount, amount)
              }
    {
      r := ReserveWithCost(c, amount, amount);
    }
  }

  class BudgetLease {
    const governor: ResourceGovernor
    const category: Category
    var amount: nat
    var cost: nat
    ghost const slot: nat

    constructor (g: ResourceGovernor, c: Category, n: nat, b: nat, ghost at: nat)
      ensures governor == g && category == c && amount == n && cost == b && slot == at
    {
      governor, category, amount, cost, slot := g, c, n, b, at;
    }

    ghost function View(): Lease
      reads this
    {
      Lease(category, amount, cost)
    }

    /** The lease is an entry of its governor's ledger. */
    ghost predicate Live()
      reads this, governor
    {
      slot < |governor.ledger| && governor.ledger[slot] == Some(View())
    }

    /** A refusal changes neither lease nor governor; otherwise exactly this entry changes. */
    method TryResizeWithCost(newAmount: nat, newCost: nat) returns (r: Result<(), BudgetError>)
      requires governor.Valid() && Live()
      modifies this, governor, governor.units, governor.counts
      ensures governor.Valid() && Live()
      ensures match ResizeRefusal(old(governor.View()), old(View()), newAmount, newCost) {
                case Some(e) =>
                  r == Err(e) && View() == old(View()) && governor.View() == old(governor.View())
                  && governor.ledger == old(governor.ledger)
                case None =>
                  && r == Ok(()) && View() == Lease(category, newAmount, newCost)
                  && governor.View() == Resized(old(governor.View()), old(View()), newAmount, newCost)
                  && governor.ledger == old(governor.ledger)[slot := Some(View())]
              }
    {
      ResizeIsExact(governor.View(), governor.ledger, slot, newAmount, newCost);
      var maximum := OwnerLimit(category);
      if maximum.Some? && newAmount > maximum.value {
        return Err(OwnerTooLarge(category, newAmount, maximum.value));
      }
      var others := Minus(governor.units[Index(category)], amount);
      var available := Minus(UnitLimit(category), others);
      if newAmount > available {
        return Err(CategoryFull(category, newAmount, available));
      }
      var aggregateOthers := Minus(governor.bytes, cost);
      var aggregate := Minus(MAX_REMOTE_MEMORY, aggregateOthers);
      if newCost > aggregate {
        return Err(AggregateFull(newCost, aggregate));
      }
      governor.Charge(category, others + newAmount, governor.counts[Index(category)], aggregateOthers + newCost);
      amount, cost := newAmount, newCost;
      governor.ledger := governor.ledger[slot := Some(Lease(category, amount, cost))];
      r := Ok(());
    }

    /** Grow an exact reservation; a smaller amount is left alone. */
    method TryGrow(newAmount: nat) returns (r: Result<(), BudgetError>)
      requires governor.Valid() && Live()
      requires newAmount > amount ==> amount == cost
      modifies this, governor, governor.units, governor.counts
      ensures governor.Valid() && Live()
      ensures View() == if r.Ok? && newAmount > old(amount) then Lease(category, newAmount, newAmount) else old(View())
      ensures r.Err? ==> governor.View() == old(governor.View())
      ensures governor.ledger == old(governor.ledger)[slot := Some(View())]
    {
      if newAmount <= amount {
        return Ok(());
      }
      r := TryResizeWithCost(newAmount, newAmount);
    }

    /** Shrink an exact reservation; the governor never refuses it. */
    method ShrinkTo(newAmount: nat)
      requires governor.Valid() && Live() && amount == cost
      modifies this, governor, governor.units, governor.counts
      ensures governor.Valid() && Live()
      ensures amount == cost == if newAmount < old(amount) then newAmount else old(amount)
      ensures governor.ledger == old(governor.ledger)[slot := Some(View())]
    {
      var n := if newAmount < amount then newAmount else amount;
      ShrinkIsAdmitted(governor.View(), governor.ledger, slot, n, n);
      var r := TryResizeWithCost(n, n);
    }

    /** Release every unit; the lease is no longer live. */
    method Release()
      requires governor.Valid() && Live()
      modifies governor, governor.units, governor.counts
      ensures governor.Valid() && governor.ledger == old(governor.ledger)[slot := None]
      ensures governor.View() == Dropped(old(governor.View()), View())
    {
      DropIsExact(governor.View(), governor.ledger, slot);
      governor.Charge(category, Minus(governor.units[Index(category)], amount),
                      Minus(governor.counts[Index(category)], 1), Minus(governor.bytes, cost));
      governor.ledger := governor.ledger[slot := None];
    }
  }
}
