/** What the client's page-scoped work achieves: an update of a subscribed region is queued, queued
updates are delivered in order, and the connection is that of the page's origin. */
module ClientDelivery {
  import opened Wrappers
  import opened ViewerTypes
  import opened ViewerTables
  import opened PendingRing
  import opened ClientScopes

  // ---- receiving ----

  ghost predicate HasSubscription(c: Client, sub: Subscription) {
    Some(sub) in c.subs
  }

  predicate HasRoom(q: Queue, wireBytes: nat) {
    |q| < 64 && Bytes(q) + wireBytes <= 8 * 1024 * 1024
  }

  lemma SubscriptionIs(subs: ActiveSlots, sub: Subscription)
    requires DistinctRegions(subs) && Some(sub) in subs
    ensures SubscriptionFor(subs, sub.region) == Some(sub)
  {
    var r := SubscriptionFor(subs, sub.region);
    var i :| 0 <= i < |subs| && subs[i] == Some(sub);
    var j :| 0 <= j < |subs| && subs[j] == r;
  }

  /** An admitted update of a subscribed region is queued last, under its subscription's owner, while the
      connection is up and the queue has room; otherwise it is not. */
  lemma ReceivedIsQueued(c: Client, sub: Subscription, content: nat, wireBytes: nat, admitted: bool)
    requires DistinctRegions(c.subs) && HasSubscription(c, sub)
    ensures Step(c, Receive(sub.region, content, wireBytes, admitted))
            == if c.connected && admitted && HasRoom(c.pending, wireBytes)
               then c.(pending := c.pending + [PendingUpdate(sub.owner, sub.region, content, wireBytes)]) else c
  {
    SubscriptionIs(c.subs, sub);
  }

  /** An update of a region nobody subscribed to is never queued. */
  lemma StrangerIsNotQueued(c: Client, region: Region, content: nat, wireBytes: nat, admitted: bool)
    requires forall sub :: HasSubscription(c, sub) ==> sub.region != region
    ensures Step(c, Receive(region, content, wireBytes, admitted)) == c
  {
    assert SubscriptionFor(c.subs, region).Some? ==> HasSubscription(c, SubscriptionFor(c.subs, region).value);
  }

  // ---- polling ----

  datatype Delivery = Delivery(client: Client, updates: seq<Option<PendingUpdate>>)

  /** One poll per frame. */
  function Polls(c: Client, frames: seq<Frame>): Delivery
    decreases |frames|
  {
    if frames == [] then Delivery(c, [])
    else
      var first := PollOnce(c, frames[0]);
      var rest := Polls(first.client, frames[1..]);
      Delivery(rest.client, [first.update] + rest.updates)
  }

  /** The first queued update of the page, and what is left of its updates after it. */
  lemma {:induction false} SkipFinds(q: Queue, scope: PageScope)
    ensures var rest := SkipStale(q, Some(scope));
            if OwnedBy(q, scope) == [] then rest == []
            else rest != [] && rest[0] == OwnedBy(q, scope)[0] && OwnedBy(rest[1..], scope) == OwnedBy(q, scope)[1..]
  {
    if q != [] {
      if q[0].owner.scope == scope {
        assert OwnedBy(q, scope) == [q[0]] + OwnedBy(q[1..], scope);
      } else {
        SkipFinds(q[1..], scope);
        assert OwnedBy(q, scope) == OwnedBy(q[1..], scope);
      }
    }
  }

  /** Polls deliver the queued updates of the current page in the order they came, one each, whatever is
      on the wire; those of other pages are dropped. */
  lemma {:induction false} PollsDeliver(c: Client, scope: PageScope, frames: seq<Frame>)
    requires c.scope == Some(scope) && |frames| <= |OwnedBy(c.pending, scope)|
    ensures var d := Polls(c, frames);
            && |d.updates| == |frames| && d.client == c.(pending := d.client.pending)
            && (forall i :: 0 <= i < |frames| ==> d.updates[i] == Some(OwnedBy(c.pending, scope)[i]))
            && OwnedBy(d.client.pending, scope) == OwnedBy(c.pending, scope)[|frames|..]
    decreases |frames|
  {
    if frames != [] {
      SkipFinds(c.pending, scope);
      var first := PollOnce(c, frames[0]);
      var mine, left := OwnedBy(c.pending, scope), OwnedBy(first.client.pending, scope);
      assert first.update == Some(mine[0]) && left == mine[1..];
      PollsDeliver(first.client, scope, frames[1..]);
      assert left[|frames| - 1..] == mine[|frames|..];
    }
  }

  /** With nothing queued for the page, a poll reads the wire: an admitted update of a subscribed region is
      returned under its owner, and the end of the stream disconnects. */
  lemma EmptyPollReads(c: Client, scope: PageScope, sub: Subscription, content: nat, wireBytes: nat, admitted: bool)
    requires c.scope == Some(scope) && OwnedBy(c.pending, scope) == [] && c.connected
    requires DistinctRegions(c.subs) && HasSubscription(c, sub)
    ensures PollOnce(c, Update(sub.region, content, wireBytes, admitted))
            == Polled(c.(pending := []), if admitted then Some(PendingUpdate(sub.owner, sub.region, content, wireBytes)) else None)
    ensures PollOnce(c, Closed) == Polled(c.(pending := [], connected := false), None)
    ensures PollOnce(c, Other) == Polled(c.(pending := []), None)
  {
    SkipFinds(c.pending, scope);
    SubscriptionIs(c.subs, sub);
  }

  // ---- subscribing ----

  /** Exactly when a region can be subscribed to. */
  ghost predicate CanSubscribe(c: Client, sub: Subscription) {
    && c.live && c.connected && c.scope == Some(sub.owner.scope) && Count(c.subs) < 16
    && forall other :: HasSubscription(c, other) ==> other.region != sub.region
  }

  /** A subscription is added exactly when it is allowed, admitted and sent; the others stay. */
  lemma SubscribeAdds(c: Client, sub: Subscription, admitted: bool, send: Outcome, other: Subscription)
    requires Owned(c)
    ensures var after := Step(c, Op.Subscribe(sub, admitted, send));
            && after == c.(subs := after.subs)
            && (HasSubscription(after, other) <==>
                HasSubscription(c, other) || (other == sub && CanSubscribe(c, sub) && admitted && send == Sent))
  {
    AcceptsIff(c, sub, admitted, send);
    if Accepts(c, sub, admitted, send) {
      InsertCounts(c.subs, sub);
      InsertHolds(c.subs, sub, other);
    }
  }

  lemma AcceptsIff(c: Client, sub: Subscription, admitted: bool, send: Outcome)
    ensures Accepts(c, sub, admitted, send) <==> CanSubscribe(c, sub) && admitted && send == Sent
  {
    if CanSubscribe(c, sub) {
      forall i | 0 <= i < |c.subs| && c.subs[i].Some?
        ensures c.subs[i].value.region != sub.region
      {
        assert HasSubscription(c, c.subs[i].value);
      }
    }
  }

  lemma InsertHolds(subs: ActiveSlots, sub: Subscription, other: Subscription)
    requires Count(subs) < |subs|
    ensures Some(other) in Insert(subs, sub) <==> Some(other) in subs || other == sub
  {
    InsertCounts(subs, sub);
    var after := Insert(subs, sub);
    var k := Find(subs, None);
    CountFull(subs);
    if Some(other) in subs {
      var i :| 0 <= i < |subs| && subs[i] == Some(other);
      assert after[i] == Some(other);
    }
  }

  /** A region's life: subscribed, its update arrives during another request, and the next poll returns it. */
  lemma SubscribedUpdateArrives(c: Client, sub: Subscription, content: nat, wireBytes: nat, frame: Frame)
    requires Owned(c) && CanSubscribe(c, sub) && c.pending == [] && wireBytes <= MAX_PENDING_UPDATE_BYTES
    ensures var subscribed := Step(c, Op.Subscribe(sub, true, Sent));
            var received := Step(subscribed, Receive(sub.region, content, wireBytes, true));
            PollOnce(received, frame) == Polled(subscribed, Some(PendingUpdate(sub.owner, sub.region, content, wireBytes)))
  {
    var subscribed := Step(c, Op.Subscribe(sub, true, Sent));
    SubscribeAdds(c, sub, true, Sent, sub);
    StepKeepsOwnership(c, Op.Subscribe(sub, true, Sent));
    ReceivedIsQueued(subscribed, sub, content, wireBytes, true);
    var u := PendingUpdate(sub.owner, sub.region, content, wireBytes);
    assert [] + [u] == [u] && [u][1..] == [];
  }

  // ---- the connection is the page's ----

  /** The client is bound to the origin of its page, if it has a page. */
  predicate Bound(c: Client) {
    c.scope.Some? && c.origin.Some? ==> c.origin.value == c.scope.value.origin
  }

  lemma StepKeepsBound(c: Client, op: Op)
    requires Bound(c)
    ensures Bound(Step(c, op))
  {
  }

  lemma {:induction false} AlwaysBound(ops: seq<Op>)
    ensures Bound(Run(ClientScopes.Start(), ops))
  {
    if ops != [] {
      AlwaysBound(ops[..|ops| - 1]);
      StepKeepsBound(Run(ClientScopes.Start(), ops[..|ops| - 1]), ops[|ops| - 1]);
    }
  }

  /** The connection is reused: same origin, still up. */
  predicate Reuses(c: Client, origin: Origin) {
    c.connected && c.origin == Some(origin) && (c.scope.None? || c.scope.value.origin == origin)
  }

  /** Loading a new page leaves no earlier work, keeps a connection to the same origin as it is, and otherwise
      dials: refused, the client is disconnected; answered, it is connected to the page's origin. */
  lemma NavigateConnects(c: Client, scope: PageScope, send: Outcome, dial: Dial, after: Client)
    requires Bound(c) && c.scope != Some(scope) && after == Step(c, Op.Navigate(scope, send, dial))
    ensures after.subs == NoSubs() && after.pending == []
    ensures Reuses(c, scope.origin) ==> after.connected && after.live == c.live && after.origin == c.origin
    ensures !Reuses(c, scope.origin) && dial.Refused? ==> !after.connected && !after.live
    ensures !Reuses(c, scope.origin) && !dial.Refused? ==>
              after.connected && after.origin == Some(scope.origin) && after.live == (dial.Welcomed? && dial.live)
  {
  }

  /** Reconnecting the page's transport drops what was queued and keeps its subscriptions; another origin's is
      refused before anything changes. */
  lemma ReconnectIs(c: Client, target: Origin, dial: Dial)
    requires Bound(c)
    ensures Step(c, Op.Reconnect(target, dial)) ==
            if c.scope.None? || c.scope.value.origin != target then c
            else c.(pending := [], connected := !dial.Refused?, live := dial.Welcomed? && dial.live,
                    origin := if dial.Refused? then c.origin else Some(target))
  {
  }

  /** A resource of the page is fetched over its connection, or over a new one to the same origin. */
  lemma FetchConnects(c: Client, owner: Owner, dial: Dial)
    requires Bound(c) && c.scope == Some(owner.scope)
    ensures var after := Step(c, Op.FetchResource(owner, owner.scope.origin, dial));
            && after.scope == c.scope && after.subs == c.subs
            && (Reuses(c, owner.scope.origin) ==> after == c)
            && (!Reuses(c, owner.scope.origin) ==> after.connected == !dial.Refused? && after.pending == []
                                                   && (after.connected ==> after.origin == Some(owner.scope.origin)))
  {
  }

  /** Leaving the origin ends everything. */
  lemma DisconnectEnds(c: Client)
    ensures Step(c, Op.Disconnect) == ClientScopes.Start()
  {
  }
}
