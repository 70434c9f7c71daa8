/** Page-scoped work of the client (client.rs, `AtpClient`): active subscriptions and
queued updates belong to the page that started them. Network calls are inputs: each
send succeeds, fails or times out, and each dial is refused, ends before the
handshake, or negotiates live updates or not. */
module ClientScopes {
  import opened Wrappers
  import opened ViewerTypes
  import opened ViewerTables
  import opened PendingRing

  datatype Subscription = Subscription(owner: Owner, region: Region, endpoint: nat, mode: nat, projection: nat)

  type ActiveSlots = Slots<Subscription>

  datatype Outcome = Sent | SendFailed | TimedOut

  datatype Dial = Refused | NoHandshake | Welcomed(live: bool)

  datatype Client = Client(
    scope: Option<PageScope>,
    origin: Option<Origin>,
    connected: bool,
    live: bool,
    subs: ActiveSlots,
    pending: Queue)

  /** What a poll finds on the wire. */
  datatype Frame =
    | Update(region: Region, content: nat, wireBytes: nat, admitted: bool)
    | Closed
    | Other

  datatype Op =
    | Navigate(scope: PageScope, send: Outcome, dial: Dial)
    | RetirePage(scope: PageScope, send: Outcome)
    | Disconnect
    | Reconnect(target: Origin, dial: Dial)
    | FetchResource(owner: Owner, target: Origin, dial: Dial)
    | Subscribe(sub: Subscription, admitted: bool, send: Outcome)
    | Receive(region: Region, content: nat, wireBytes: nat, admitted: bool)
    | Poll(frame: Frame)

  function NoSubs(): ActiveSlots {
    Empty(MAX_ACTIVE_SUBSCRIPTIONS)
  }

  function Start(): Client {
    Client(None, None, false, false, NoSubs(), [])
  }

  function CloseTransport(c: Client): Client {
    c.(connected := false, live := false, pending := [])
  }

  function RetireOrigin(c: Client): Client {
    Client(None, None, false, false, NoSubs(), [])
  }

  /** Send UNSUBSCRIBE; a timeout returns before the tables are cleared. */
  function Unsubscribe(c: Client, send: Outcome): Client {
    if c.connected && send == TimedOut then c else c.(subs := NoSubs(), pending := [])
  }

  function ActivateScope(c: Client, scope: PageScope, send: Outcome): Client {
    if c.scope == Some(scope) then c
    else if c.scope.Some? && c.scope.value.origin != scope.origin then RetireOrigin(c).(scope := Some(scope))
    else
      var told := if Count(c.subs) != 0 && c.live then Unsubscribe(c, send) else c;
      told.(subs := NoSubs(), pending := [], scope := Some(scope))
  }

  predicate Mine(slot: Option<Subscription>, scope: PageScope) {
    slot.Some? && slot.value.owner.scope == scope
  }

  predicate AnyMine(subs: ActiveSlots, scope: PageScope) {
    exists i :: 0 <= i < |subs| && Mine(subs[i], scope)
  }

  function WithoutMine(subs: ActiveSlots, scope: PageScope): (r: ActiveSlots)
    ensures |r| == |subs|
    ensures forall i :: 0 <= i < |subs| ==> r[i] == if Mine(subs[i], scope) then None else subs[i]
  {
    seq(|subs|, i requires 0 <= i < |subs| => if Mine(subs[i], scope) then None else subs[i])
  }

  function RetireWork(c: Client, scope: PageScope, send: Outcome): Client {
    var current := c.scope == Some(scope);
    var retired := if current && AnyMine(c.subs, scope) then Unsubscribe(c, send)
                   else c.(subs := WithoutMine(c.subs, scope), pending := Retain(c.pending, scope));
    retired.(scope := if current then None else c.scope)
  }

  /** Reuse or open a connection. `known` says whether the origin was current when the call was prepared. */
  function ConnectTo(c: Client, target: Origin, known: bool, dial: Dial): Client {
    if c.origin == Some(target) && c.connected then c
    else
      var left := CloseTransport(if c.origin.Some? && c.origin.value != target then RetireOrigin(c) else c);
      if dial.Refused? then left
      else left.(connected := true, origin := if known then left.origin else Some(target),
                 live := dial.Welcomed? && dial.live)
  }

  function Navigated(c: Client, scope: PageScope, send: Outcome, dial: Dial): Client {
    ConnectTo(ActivateScope(c, scope, send), scope.origin, c.origin == Some(scope.origin), dial)
  }

  predicate Accepts(c: Client, sub: Subscription, admitted: bool, send: Outcome) {
    && c.live && c.scope == Some(sub.owner.scope)
    && (forall i :: 0 <= i < |c.subs| && c.subs[i].Some? ==> c.subs[i].value.region != sub.region)
    && Count(c.subs) < MAX_ACTIVE_SUBSCRIPTIONS && admitted && c.connected && send == Sent
  }

  /** The subscription an update is for. */
  function SubscriptionFor(subs: ActiveSlots, region: Region): (r: Option<Subscription>)
    ensures r.Some? ==> Some(r.value) in subs && r.value.region == region
    ensures r.None? ==> forall i :: 0 <= i < |subs| && subs[i].Some? ==> subs[i].value.region != region
  {
    if subs == [] then None
    else if subs[0].Some? && subs[0].value.region == region then subs[0]
    else
      var r := SubscriptionFor(subs[1..], region);
      assert subs == [subs[0]] + subs[1..];
      r
  }

  function Received(c: Client, region: Region, content: nat, wireBytes: nat, admitted: bool): Client {
    var sub := SubscriptionFor(c.subs, region);
    if !c.connected || |c.pending| >= MAX_PENDING_UPDATES || Bytes(c.pending) + wireBytes > MAX_PENDING_UPDATE_BYTES
       || sub.None? || !admitted
    then c
    else c.(pending := c.pending + [PendingUpdate(sub.value.owner, region, content, wireBytes)])
  }

  /** Skip queued updates of other pages. */
  function SkipStale(q: Queue, scope: Option<PageScope>): Queue {
    if q == [] || scope == Some(q[0].owner.scope) then q else SkipStale(q[1..], scope)
  }

  datatype Polled = Polled(client: Client, update: Option<PendingUpdate>)

  function PollOnce(c: Client, frame: Frame): Polled {
    var q := SkipStale(c.pending, c.scope);
    if q != [] then Polled(c.(pending := q[1..]), Some(q[0]))
    else
      var c := c.(pending := []);
      if !c.connected then Polled(c, None)
      else
        match frame
        case Update(region, content, wireBytes, admitted) =>
          var sub := SubscriptionFor(c.subs, region);
          Polled(c, if sub.Some? && admitted
                    then Some(PendingUpdate(sub.value.owner, region, content, wireBytes)) else None)
        case Closed => Polled(c.(connected := false), None)
        case Other => Polled(c, None)
  }

  function Step(c: Client, op: Op): Client {
    match op
    case Navigate(scope, send, dial) => Navigated(c, scope, send, dial)
    case RetirePage(scope, send) => RetireWork(c, scope, send)
    case Disconnect => RetireOrigin(c)
    case Reconnect(target, dial) =>
      if c.scope.None? || c.scope.value.origin != target then c
      else ConnectTo(CloseTransport(c), target, c.origin == Some(target), dial)
    case FetchResource(owner, target, dial) =>
      if owner.scope.origin != target || c.scope != Some(owner.scope) then c
      else ConnectTo(c, target, c.origin == Some(target), dial)
    case Subscribe(sub, admitted, send) =>
      if Accepts(c, sub, admitted, send) then c.(subs := Insert(c.subs, sub)) else c
    case Receive(region, content, wireBytes, admitted) => Received(c, region, content, wireBytes, admitted)
    case Poll(frame) => PollOnce(c, frame).client
  }

  // ---- all work belongs to the current page ----

  ghost predicate DistinctRegions(subs: ActiveSlots) {
    forall i, j :: 0 <= i < j < |subs| && subs[i].Some? && subs[j].Some? ==> subs[i].value.region != subs[j].value.region
  }

  ghost predicate SubsOwned(subs: ActiveSlots, scope: Option<PageScope>) {
    forall i :: 0 <= i < |subs| && subs[i].Some? ==> scope == Some(subs[i].value.owner.scope)
  }

  ghost predicate QueueOwned(q: Queue, scope: Option<PageScope>) {
    forall i :: 0 <= i < |q| ==> scope == Some(q[i].owner.scope)
  }

  ghost predicate Owned(c: Client) {
    && |c.subs| == MAX_ACTIVE_SUBSCRIPTIONS && DistinctRegions(c.subs)
    && SubsOwned(c.subs, c.scope) && QueueOwned(c.pending, c.scope)
  }

  /** The one step that lets work outlive its page: the current page is retired while
      subscribed, and UNSUBSCRIBE times out. */
  predicate Leaks(c: Client, op: Op) {
    op.RetirePage? && c.scope == Some(op.scope) && AnyMine(c.subs, op.scope) && c.connected && op.send == TimedOut
  }

  lemma {:induction false} RetainOwned(q: Queue, scope: PageScope, current: Option<PageScope>)
    requires QueueOwned(q, current)
    ensures QueueOwned(Retain(q, scope), current)
    ensures current == Some(scope) ==> Retain(q, scope) == []
  {
    if q != [] {
      RetainOwned(q[1..], scope, current);
      assert current == Some(q[0].owner.scope);
    }
  }

  lemma {:induction false} SkipOwned(q: Queue, scope: Option<PageScope>)
    requires QueueOwned(q, scope)
    ensures SkipStale(q, scope) == q
  {
  }

  lemma InsertOwned(subs: ActiveSlots, sub: Subscription, scope: Option<PageScope>)
    requires SubsOwned(subs, scope) && scope == Some(sub.owner.scope) && DistinctRegions(subs)
    requires forall i :: 0 <= i < |subs| && subs[i].Some? ==> subs[i].value.region != sub.region
    ensures |Insert(subs, sub)| == |subs| && SubsOwned(Insert(subs, sub), scope) && DistinctRegions(Insert(subs, sub))
  {
    var i := Find(subs, None);
    if i < |subs| {
      var after := subs[i := Some(sub)];
      assert forall j :: 0 <= j < |subs| ==> after[j] == if j == i then Some(sub) else subs[j];
    }
  }

  lemma RetireStep(c: Client, scope: PageScope, send: Outcome)
    requires Owned(c)
    ensures Owned(RetireWork(c, scope, send)) <==> !Leaks(c, RetirePage(scope, send))
  {
    RetainOwned(c.pending, scope, c.scope);
    var after := RetireWork(c, scope, send);
    if Leaks(c, RetirePage(scope, send)) {
      var i :| 0 <= i < |c.subs| && Mine(c.subs[i], scope);
      assert after.subs[i].Some?;
    }
  }

  lemma ConnectStep(c: Client, target: Origin, known: bool, dial: Dial)
    requires Owned(c)
    ensures Owned(ConnectTo(c, target, known, dial))
  {
  }

  lemma ReceiveStep(c: Client, region: Region, content: nat, wireBytes: nat, admitted: bool)
    requires Owned(c)
    ensures Owned(Received(c, region, content, wireBytes, admitted))
  {
    var sub := SubscriptionFor(c.subs, region);
    if sub.Some? {
      assert c.scope == Some(sub.value.owner.scope);
    }
  }

  /** Every update a poll returns belongs to the current page. */
  lemma PollStep(c: Client, frame: Frame)
    requires Owned(c)
    ensures Owned(PollOnce(c, frame).client) && PollOnce(c, frame).client.scope == c.scope
    ensures PollOnce(c, frame).update.Some? ==> c.scope == Some(PollOnce(c, frame).update.value.owner.scope)
  {
    SkipOwned(c.pending, c.scope);
    if c.pending == [] && frame.Update? {
      var sub := SubscriptionFor(c.subs, frame.region);
      assert sub.Some? ==> c.scope == Some(sub.value.owner.scope);
    }
  }

  lemma ActivateStep(c: Client, scope: PageScope, send: Outcome)
    requires Owned(c) || c.scope != Some(scope)
    ensures Owned(ActivateScope(c, scope, send))
  {
  }

  /** One step keeps all work with the current page exactly when it is not the leaking one. */
  lemma StepKeepsOwnership(c: Client, op: Op)
    requires Owned(c)
    ensures Owned(Step(c, op)) <==> !Leaks(c, op)
  {
    if op.Navigate? {
      ActivateStep(c, op.scope, op.send);
      ConnectStep(ActivateScope(c, op.scope, op.send), op.scope.origin, c.origin == Some(op.scope.origin), op.dial);
    } else if op.RetirePage? {
      RetireStep(c, op.scope, op.send);
    } else if op.Reconnect? {
      ConnectStep(CloseTransport(c), op.target, c.origin == Some(op.target), op.dial);
    } else if op.FetchResource? {
      ConnectStep(c, op.target, c.origin == Some(op.target), op.dial);
    } else if op.Subscribe? {
      if Accepts(c, op.sub, op.admitted, op.send) {
        InsertOwned(c.subs, op.sub, c.scope);
      }
    } else if op.Receive? {
      ReceiveStep(c, op.region, op.content, op.wireBytes, op.admitted);
    } else if op.Poll? {
      PollStep(c, op.frame);
    }
  }

  function Run(c: Client, ops: seq<Op>): Client {
    if ops == [] then c else Step(Run(c, ops[..|ops| - 1]), ops[|ops| - 1])
  }

  lemma StartIsOwned()
    ensures Owned(Start())
  {
  }

  /** In every run in which no retirement of a subscribed page times out, all work belongs to
      the current page, regions are distinct and at most 16 subscriptions are active. */
  lemma {:induction false} WorkBelongsToPage(ops: seq<Op>)
    requires forall k :: 0 <= k < |ops| ==> !Leaks(Run(Start(), ops[..k]), ops[k])
    ensures Owned(Run(Start(), ops)) && Count(Run(Start(), ops).subs) <= MAX_ACTIVE_SUBSCRIPTIONS
  {
    if ops == [] {
      StartIsOwned();
    } else {
      var n := |ops| - 1;
      var before := ops[..n];
      forall k | 0 <= k < |before|
        ensures !Leaks(Run(Start(), before[..k]), before[k])
      {
        assert before[..k] == ops[..k];
      }
      WorkBelongsToPage(before);
      StepKeepsOwnership(Run(Start(), before), ops[n]);
    }
  }

  /** After a leak, the next page that is activated owns all work again. */
  lemma ActivationRepairs(c: Client, scope: PageScope, send: Outcome, dial: Dial)
    requires c.scope != Some(scope)
    ensures Owned(Navigated(c, scope, send, dial))
  {
    ActivateStep(c, scope, send);
    ConnectStep(ActivateScope(c, scope, send), scope.origin, c.origin == Some(scope.origin), dial);
  }

  // ---- what a retirement removes and keeps ----

  /** The subscriptions of one page, slot by slot. */
  function SubsOf(subs: ActiveSlots, scope: PageScope): (r: ActiveSlots)
    ensures |r| == |subs| && forall i :: 0 <= i < |subs| ==> r[i] == if Mine(subs[i], scope) then subs[i] else None
  {
    seq(|subs|, i requires 0 <= i < |subs| => if Mine(subs[i], scope) then subs[i] else None)
  }

  ghost predicate HasWork(c: Client, scope: PageScope) {
    AnyMine(c.subs, scope) || OwnedBy(c.pending, scope) != []
  }

  ghost predicate KeepsWork(c: Client, after: Client, scope: PageScope) {
    SubsOf(after.subs, scope) == SubsOf(c.subs, scope) && OwnedBy(after.pending, scope) == OwnedBy(c.pending, scope)
  }

  /** UNSUBSCRIBE is sent for a page and the tables are cleared. */
  predicate ClearsTables(c: Client, scope: PageScope, send: Outcome) {
    c.scope == Some(scope) && AnyMine(c.subs, scope) && !(c.connected && send == TimedOut)
  }

  /** Of any client: retiring a page leaves none of its work unless it leaks; and it keeps another
      page's work unless the tables are cleared while that page has some. */
  lemma RetireIsExact(c: Client, scope: PageScope, send: Outcome, other: PageScope)
    requires |c.subs| == MAX_ACTIVE_SUBSCRIPTIONS
    ensures !HasWork(RetireWork(c, scope, send), scope) <==> !Leaks(c, RetirePage(scope, send))
    ensures other != scope ==>
              (KeepsWork(c, RetireWork(c, scope, send), other) <==>
               !(ClearsTables(c, scope, send) && HasWork(c, other)))
    ensures RetireWork(c, scope, send).scope == if c.scope == Some(scope) then None else c.scope
  {
    var after := RetireWork(c, scope, send);
    RetainIsExact(c.pending, scope, other);
    RetainIsExact(c.pending, scope, scope);
    if ClearsTables(c, scope, send) && other != scope {
      ClearedWork(c.subs, other);
    }
  }

  /** A page has no subscription exactly when its part of the table is empty. */
  lemma ClearedWork(subs: ActiveSlots, scope: PageScope)
    requires |subs| == MAX_ACTIVE_SUBSCRIPTIONS
    ensures SubsOf(NoSubs(), scope) == SubsOf(subs, scope) <==> !AnyMine(subs, scope)
  {
    if AnyMine(subs, scope) {
      var i :| 0 <= i < |subs| && Mine(subs[i], scope);
      assert SubsOf(subs, scope)[i].Some? && SubsOf(NoSubs(), scope)[i].None?;
    }
  }

  /** When all work is the current page's, a retirement touches no other page's. */
  lemma RetireSparesOthers(c: Client, scope: PageScope, send: Outcome, other: PageScope)
    requires Owned(c) && other != scope
    ensures KeepsWork(c, RetireWork(c, scope, send), other)
  {
    RetireIsExact(c, scope, send, other);
    if c.scope == Some(scope) {
      NothingOwned(c.pending, c.scope, other);
    }
  }

  lemma {:induction false} NothingOwned(q: Queue, scope: Option<PageScope>, other: PageScope)
    requires QueueOwned(q, scope) && scope != Some(other)
    ensures OwnedBy(q, other) == []
  {
    if q != [] {
      NothingOwned(q[1..], scope, other);
      assert scope == Some(q[0].owner.scope);
    }
  }

  lemma RunStep(c: Client, ops: seq<Op>, op: Op)
    ensures Run(c, ops + [op]) == Step(Run(c, ops), op)
  {
    assert (ops + [op])[..|ops|] == ops;
  }

  /** The subscription of the leaking run. */
  function LeakedSub(): Subscription {
    Subscription(Owner(PageScope(1, 1), 1), 5, 0, 0, 0)
  }

  /** The leak as a run: load a page, subscribe, retire it while UNSUBSCRIBE times out. The page is gone,
      its subscription is not, and a poll returns its update. */
  lemma TimedOutRetirementLeaks()
    ensures var page := PageScope(1, 1);
            var ops := [Op.Navigate(page, Sent, Welcomed(true))] + [Op.Subscribe(LeakedSub(), true, Sent)]
                       + [RetirePage(page, TimedOut)];
            var after := Run(Start(), ops);
            && after.scope == None && SubscriptionFor(after.subs, 5) == Some(LeakedSub())
            && PollOnce(after, Update(5, 0, 0, true)).update == Some(PendingUpdate(LeakedSub().owner, 5, 0, 0))
  {
    var page := PageScope(1, 1);
    var load, subscribe := Op.Navigate(page, Sent, Welcomed(true)), Op.Subscribe(LeakedSub(), true, Sent);
    var c1 := Step(Start(), load);
    assert [] + [load] == [load];
    RunStep(Start(), [], load);
    RunStep(Start(), [load], subscribe);
    RunStep(Start(), [load] + [subscribe], RetirePage(page, TimedOut));
    assert c1 == Client(Some(page), Some(1), true, true, NoSubs(), []);
    SubscribedClient(c1, LeakedSub());
  }

  lemma SubscribedClient(c: Client, sub: Subscription)
    requires c.live && c.connected && c.scope == Some(sub.owner.scope) && c.subs == NoSubs() && c.pending == []
    ensures var after := Step(c, Op.Subscribe(sub, true, Sent));
            && after == c.(subs := Insert(NoSubs(), sub)) && AnyMine(after.subs, sub.owner.scope)
            && SubscriptionFor(after.subs, sub.region) == Some(sub)
  {
    CountEmpty(NoSubs());
    var subs := Insert(NoSubs(), sub);
    assert subs[0] == Some(sub);
    assert Mine(subs[0], sub.owner.scope);
  }

  /** Loading a page makes it current unless the client is still bound to another origin that
      activation did not retire; connecting then retires the page it was loading. */
  predicate BoundElsewhere(c: Client, scope: PageScope) {
    && c.origin.Some? && c.origin.value != scope.origin
    && (c.scope.None? || c.scope.value.origin == scope.origin)
  }

  lemma NavigationIsCurrentIff(c: Client, scope: PageScope, send: Outcome, dial: Dial)
    ensures Navigated(c, scope, send, dial).scope == Some(scope) <==> !BoundElsewhere(c, scope)
  {
  }

  /** Such a client exists in a run without leaks: retire the page, then load one of another origin. */
  lemma RetireThenLeaveOrigin()
    ensures var ops := [Op.Navigate(PageScope(1, 1), Sent, Welcomed(true)), RetirePage(PageScope(1, 1), Sent)];
            BoundElsewhere(Run(Start(), ops), PageScope(2, 2))
  {
    var first := Op.Navigate(PageScope(1, 1), Sent, Welcomed(true));
    var second := RetirePage(PageScope(1, 1), Sent);
    var ops := [first, second];
    assert ops[..1] == [first];
    assert [first][..0] == [];
    assert Run(Start(), [first]) == Step(Start(), first);
    assert Run(Start(), ops) == Step(Run(Start(), [first]), second);
  }

  // ---- the client in place ----

  class AtpClient {
    var scope: Option<PageScope>
    var origin: Option<Origin>
    var connected: bool
    var live: bool
    const subs: array<Option<Subscription>>
    const updates: PendingUpdates

    ghost const Repr: set<object> := {this, subs, updates, updates.entries}

    ghost predicate Valid()
      reads Repr
    {
      subs.Length == MAX_ACTIVE_SUBSCRIPTIONS && updates.Valid()
    }

    ghost function View(): Client
      reads Repr
    {
      Client(scope, origin, connected, live, subs[..], updates.queue)
    }

    constructor ()
      ensures Valid() && View() == Start() && fresh(Repr)
    {
      scope, origin, connected, live := None, None, false, false;
      subs := new Option<Subscription>[MAX_ACTIVE_SUBSCRIPTIONS](i => None);
      updates := new PendingUpdates();
    }

    method CountSubs() returns (n: nat)
      ensures n == Count(subs[..])
    {
      n := 0;
      var i := subs.Length;
      while i > 0
        invariant 0 <= i <= subs.Length && n == Count(subs[i..])
      {
        i := i - 1;
        assert subs[i..][1..] == subs[i + 1..];
        if subs[i].Some? { n := n + 1; }
      }
      assert subs[0..] == subs[..];
    }

    method ClearSubs()
      requires Valid()
      modifies subs
      ensures Valid() && View() == old(View()).(subs := NoSubs())
    {
      for i := 0 to subs.Length
        invariant forall j :: 0 <= j < i ==> subs[j].None?
      {
        subs[i] := None;
      }
      assert subs[..] == NoSubs();
    }

    method ClearUpdates()
      requires Valid()
      modifies updates, updates.entries
      ensures Valid() && View() == old(View()).(pending := [])
    {
      updates.Clear();
    }

    method SendUnsubscribe(send: Outcome)
      requires Valid()
      modifies Repr
      ensures Valid() && View() == Unsubscribe(old(View()), send)
    {
      if connected && send == TimedOut {
        return;
      }
      ClearSubs();
      ClearUpdates();
    }

    method Close()
      requires Valid()
      modifies Repr
      ensures Valid() && View() == CloseTransport(old(View()))
    {
      connected, live := false, false;
      ClearUpdates();
    }

    method DropOrigin()
      requires Valid()
      modifies Repr
      ensures Valid() && View() == RetireOrigin(old(View()))
    {
      Close();
      origin, scope := None, None;
      ClearSubs();
    }

    /** Tell the server, when there is anything to tell, and clear the tables whatever it says. */
    method LeavePage(send: Outcome)
      requires Valid()
      modifies Repr
      ensures Valid() && View() == old(View()).(subs := NoSubs(), pending := [])
    {
      var n := CountSubs();
      if n != 0 && live {
        SendUnsubscribe(send);
      }
      ClearSubs();
      ClearUpdates();
    }

    method ActivatePageScope(page: PageScope, send: Outcome)
      requires Valid()
      modifies Repr
      ensures Valid() && View() == ActivateScope(old(View()), page, send)
    {
      if scope == Some(page) {
        return;
      }
      if scope.Some? && scope.value.origin != page.origin {
        DropOrigin();
      } else {
        LeavePage(send);
      }
      scope := Some(page);
    }

    method EnsureConnectedTo(target: Origin, known: bool, dial: Dial)
      requires Valid()
      modifies Repr
      ensures Valid() && View() == ConnectTo(old(View()), target, known, dial)
    {
      if origin.Some? {
        if origin.value == target && connected {
          return;
        }
        if origin.value != target {
          DropOrigin();
        }
      }
      Close();
      if dial.Refused? {
        return;
      }
      connected := true;
      if !known {
        origin := Some(target);
      }
      live := dial.Welcomed? && dial.live;
    }

    /** Make the page current, then connect to its origin. */
    method Load(page: PageScope, send: Outcome, dial: Dial)
      requires Valid()
      modifies Repr
      ensures Valid() && View() == Navigated(old(View()), page, send, dial)
    {
      var known := origin == Some(page.origin);
      ActivatePageScope(page, send);
      EnsureConnectedTo(page.origin, known, dial);
    }

    method HasSubs(page: PageScope) returns (found: bool)
      ensures found <==> AnyMine(subs[..], page)
    {
      found := false;
      for i := 0 to subs.Length
        invariant found <==> exists j :: 0 <= j < i && Mine(subs[j], page)
      {
        if Mine(subs[i], page) { found := true; }
      }
      if found {
        ghost var j :| 0 <= j < subs.Length && Mine(subs[j], page);
        assert Mine(subs[..][j], page);
      }
    }

    method DropSubs(page: PageScope)
      requires Valid()
      modifies subs
      ensures Valid() && View() == old(View()).(subs := WithoutMine(old(subs[..]), page))
    {
      ghost var before := subs[..];
      for i := 0 to subs.Length
        invariant forall j :: i <= j < subs.Length ==> subs[j] == before[j]
        invariant forall j :: 0 <= j < i ==> subs[j] == if Mine(before[j], page) then None else before[j]
      {
        if Mine(subs[i], page) { subs[i] := None; }
      }
      assert subs[..] == WithoutMine(before, page);
    }

    method RetirePageWork(page: PageScope, send: Outcome)
      requires Valid()
      modifies Repr
      ensures Valid() && View() == RetireWork(old(View()), page, send)
    {
      var current := scope == Some(page);
      var subscribed := HasSubs(page);
      if current && subscribed {
        SendUnsubscribe(send);
      } else {
        DropSubs(page);
        updates.RetireScope(page);
      }
      if current {
        scope := None;
      }
    }

    /** Return the oldest queued update of the current page, dropping stale ones before it. */
    method PollQueue() returns (r: Option<PendingUpdate>)
      requires Valid()
      modifies updates, updates.entries
      ensures Valid()
      ensures var q := SkipStale(old(updates.queue), scope);
              if q == [] then r.None? && updates.queue == [] else r == Some(q[0]) && updates.queue == q[1..]
    {
      while true
        invariant Valid() && SkipStale(updates.queue, scope) == SkipStale(old(updates.queue), scope)
        decreases |updates.queue|
      {
        var popped := updates.PopFront();
        if popped.None? {
          return None;
        }
        if scope == Some(popped.value.owner.scope) {
          return popped;
        }
      }
    }

    method FindSub(region: Region) returns (r: Option<Subscription>)
      ensures r == SubscriptionFor(subs[..], region)
    {
      var i := 0;
      assert subs[0..] == subs[..];
      while i < subs.Length
        invariant 0 <= i <= subs.Length
        invariant SubscriptionFor(subs[i..], region) == SubscriptionFor(subs[..], region)
      {
        assert subs[i..][0] == subs[i] && subs[i..][1..] == subs[i + 1..];
        if subs[i].Some? && subs[i].value.region == region {
          return subs[i];
        }
        i := i + 1;
      }
      r := None;
    }

    method PollUpdate(frame: Frame) returns (r: Option<PendingUpdate>)
      requires Valid()
      modifies Repr
      ensures Valid() && Polled(View(), r) == PollOnce(old(View()), frame)
    {
      r := PollQueue();
      if r.Some? || !connected {
        return;
      }
      if frame.Update? {
        var sub := FindSub(frame.region);
        if sub.Some? && frame.admitted {
          r := Some(PendingUpdate(sub.value.owner, frame.region, frame.content, frame.wireBytes));
        }
      } else if frame.Closed? {
        connected := false;
      }
    }

    /** Queue an update that arrives while a response is awaited. */
    method ReceiveUpdate(region: Region, content: nat, wireBytes: nat, admitted: bool)
      requires Valid()
      modifies Repr
      ensures Valid() && View() == Received(old(View()), region, content, wireBytes, admitted)
    {
      if !connected {
        return;
      }
      var room := updates.CanPush(wireBytes);
      var sub := FindSub(region);
      if room && sub.Some? && admitted {
        var pushed := updates.PushBack(PendingUpdate(sub.value.owner, region, content, wireBytes));
        assert pushed;
      }
    }

    method SubscribeTo(sub: Subscription, admitted: bool, send: Outcome) returns (ok: bool)
      requires Valid()
      modifies subs
      ensures Valid() && View() == Step(old(View()), Op.Subscribe(sub, admitted, send))
      ensures ok <==> Accepts(old(View()), sub, admitted, send) || (old(View()).live && scope == Some(sub.owner.scope)
                      && SubscriptionFor(old(subs[..]), sub.region) == Some(sub))
    {
      if !live || scope != Some(sub.owner.scope) {
        return false;
      }
      var taken := FindSub(sub.region);
      if taken.Some? {
        return taken.value == sub;
      }
      var n := CountSubs();
      if n >= MAX_ACTIVE_SUBSCRIPTIONS || !admitted || !connected || send != Sent {
        return false;
      }
      InsertSub(sub);
      ok := true;
    }

    method InsertSub(sub: Subscription)
      requires Valid()
      modifies subs
      ensures Valid() && View() == old(View()).(subs := Insert(old(subs[..]), sub))
    {
      ghost var before := subs[..];
      var i := 0;
      while i < subs.Length && subs[i].Some?
        invariant 0 <= i <= subs.Length && forall j :: 0 <= j < i ==> subs[j].Some?
      {
        i := i + 1;
      }
      assert Find(before, None) == i;
      if i < subs.Length {
        subs[i] := Some(sub);
      }
      assert subs[..] == Insert(before, sub);
    }
  }
}
