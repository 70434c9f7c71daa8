/** Updates that arrive while a response is awaited (client.rs, `PendingUpdates`): a ring of
64 slots that behaves as a first-in first-out queue of at most 8 MiB. */
module PendingRing {
  import opened Wrappers
  import opened ViewerTypes

  const MAX_PENDING_UPDATES: nat := 64
  const MAX_PENDING_UPDATE_BYTES: nat := 8 * 1024 * 1024

  datatype PendingUpdate = PendingUpdate(owner: Owner, region: Region, content: nat, wireBytes: nat)

  type Queue = seq<PendingUpdate>

  function Bytes(q: Queue): nat {
    if q == [] then 0 else q[0].wireBytes + Bytes(q[1..])
  }

  /** The queue without the updates of one page. */
  function Retain(q: Queue, scope: PageScope): Queue {
    if q == [] then []
    else Kept(q[0], scope) + Retain(q[1..], scope)
  }

  /** The updates of one page, in order. */
  function OwnedBy(q: Queue, scope: PageScope): Queue {
    if q == [] then []
    else (if q[0].owner.scope == scope then [q[0]] else []) + OwnedBy(q[1..], scope)
  }

  lemma {:induction false} BytesAppend(a: Queue, b: Queue)
    ensures Bytes(a + b) == Bytes(a) + Bytes(b)
  {
    if a == [] {
      assert a + b == b;
    } else {
      BytesAppend(a[1..], b);
      assert (a + b)[1..] == a[1..] + b;
    }
  }

  function Kept(u: PendingUpdate, scope: PageScope): Queue {
    if u.owner.scope == scope then [] else [u]
  }

  lemma {:induction false} RetainAppend(a: Queue, u: PendingUpdate, scope: PageScope)
    ensures Retain(a + [u], scope) == Retain(a, scope) + Kept(u, scope)
  {
    if a == [] {
      assert a + [u] == [u];
    } else {
      RetainAppend(a[1..], u, scope);
      assert (a + [u])[1..] == a[1..] + [u];
      assert Kept(a[0], scope) + (Retain(a[1..], scope) + Kept(u, scope))
          == (Kept(a[0], scope) + Retain(a[1..], scope)) + Kept(u, scope);
    }
  }

  lemma {:induction false} RetainShrinks(q: Queue, scope: PageScope)
    ensures |Retain(q, scope)| <= |q| && Bytes(Retain(q, scope)) <= Bytes(q)
  {
    if q != [] {
      RetainShrinks(q[1..], scope);
      BytesAppend(Kept(q[0], scope), Retain(q[1..], scope));
    }
  }

  /** Retiring a page removes its updates and keeps every other page's, in order. */
  lemma {:induction false} RetainIsExact(q: Queue, scope: PageScope, other: PageScope)
    ensures OwnedBy(Retain(q, scope), other) == if other == scope then [] else OwnedBy(q, other)
  {
    if q != [] {
      RetainIsExact(q[1..], scope, other);
      var rest := Retain(q[1..], scope);
      if q[0].owner.scope != scope {
        assert Retain(q, scope)[0] == q[0] && Retain(q, scope)[1..] == rest;
      } else {
        assert Retain(q, scope) == rest;
      }
    }
  }

  /** Taking the head off a partly rotated queue and putting it back, or not, rotates it by one. */
  lemma RotationStep(all: Queue, i: nat, scope: PageScope)
    requires i < |all|
    ensures var q := all[i..] + Retain(all[..i], scope);
            && q[0] == all[i] && q[1..] + Kept(all[i], scope) == all[i + 1..] + Retain(all[..i + 1], scope)
            && Bytes(q) == all[i].wireBytes + Bytes(q[1..])
  {
    var q := all[i..] + Retain(all[..i], scope);
    assert all[..i + 1] == all[..i] + [all[i]];
    RetainAppend(all[..i], all[i], scope);
    assert q[1..] == all[i + 1..] + Retain(all[..i], scope);
  }

  /** Slot of the `k`th queued update. */
  function Slot(head: nat, k: nat): (i: nat)
    requires head < MAX_PENDING_UPDATES && k <= MAX_PENDING_UPDATES
    ensures i < MAX_PENDING_UPDATES && i == (head + k) % MAX_PENDING_UPDATES
  {
    if head + k < MAX_PENDING_UPDATES then head + k else head + k - MAX_PENDING_UPDATES
  }

  class PendingUpdates {
    const entries: array<Option<PendingUpdate>>
    var head: nat
    var len: nat
    var bytes: nat
    ghost var queue: Queue

    ghost const Repr: set<object> := {this, entries}

    /** The occupied slots are exactly the `len` slots from `head` on, wrapping. */
    ghost predicate Holds()
      reads this, entries
      requires entries.Length == MAX_PENDING_UPDATES && head < MAX_PENDING_UPDATES && |queue| <= MAX_PENDING_UPDATES
    {
      forall k :: 0 <= k < MAX_PENDING_UPDATES ==>
        entries[Slot(head, k)] == if k < |queue| then Some(queue[k]) else None
    }

    ghost predicate Valid()
      reads this, entries
    {
      && entries.Length == MAX_PENDING_UPDATES && head < MAX_PENDING_UPDATES
      && len == |queue| <= MAX_PENDING_UPDATES && (len == 0 ==> head == 0)
      && bytes == Bytes(queue) <= MAX_PENDING_UPDATE_BYTES
      && Holds()
    }

    constructor ()
      ensures Valid() && queue == [] && fresh(Repr)
    {
      entries := new Option<PendingUpdate>[MAX_PENDING_UPDATES](i => None);
      head, len, bytes, queue := 0, 0, 0, [];
    }

    method CanPush(wireBytes: nat) returns (ok: bool)
      requires Valid()
      ensures ok <==> |queue| < MAX_PENDING_UPDATES && Bytes(queue) + wireBytes <= MAX_PENDING_UPDATE_BYTES
    {
      ok := len < MAX_PENDING_UPDATES && bytes + wireBytes <= MAX_PENDING_UPDATE_BYTES;
    }

    /** Append, unless the ring or its byte budget is full. */
    method PushBack(u: PendingUpdate) returns (pushed: bool)
      requires Valid()
      modifies this, entries
      ensures Valid()
      ensures pushed <==> |old(queue)| < MAX_PENDING_UPDATES
                          && Bytes(old(queue)) + u.wireBytes <= MAX_PENDING_UPDATE_BYTES
      ensures queue == if pushed then old(queue) + [u] else old(queue)
    {
      pushed := CanPush(u.wireBytes);
      if !pushed {
        return;
      }
      BytesAppend(queue, [u]);
      var index := (head + len) % MAX_PENDING_UPDATES;
      assert index == Slot(head, len);
      entries[index] := Some(u);
      bytes, len := bytes + u.wireBytes, len + 1;
      queue := queue + [u];
    }

    /** Remove the oldest update. */
    method PopFront() returns (r: Option<PendingUpdate>)
      requires Valid()
      modifies this, entries
      ensures Valid()
      ensures old(queue) == [] ==> r.None? && queue == []
      ensures old(queue) != [] ==> r == Some(old(queue)[0]) && queue == old(queue)[1..]
    {
      if len == 0 {
        return None;
      }
      assert Slot(head, 0) == head;
      r := entries[head];
      entries[head] := None;
      Advance(r.value);
    }

    /** Step past the slot just emptied; an empty ring starts over at slot 0. */
    method Advance(u: PendingUpdate)
      requires entries.Length == MAX_PENDING_UPDATES && head < MAX_PENDING_UPDATES
      requires 0 < len == |queue| <= MAX_PENDING_UPDATES && queue[0] == u
      requires bytes == Bytes(queue) <= MAX_PENDING_UPDATE_BYTES
      requires forall k :: 0 <= k < MAX_PENDING_UPDATES ==>
                 entries[Slot(head, k)] == if 0 < k < |queue| then Some(queue[k]) else None
      modifies this
      ensures Valid() && queue == old(queue)[1..]
    {
      ghost var before := head;
      head := (head + 1) % MAX_PENDING_UPDATES;
      len := len - 1;
      bytes := Minus(bytes, u.wireBytes);
      queue := queue[1..];
      forall k | 0 <= k < MAX_PENDING_UPDATES
        ensures entries[Slot(head, k)] == if k < |queue| then Some(queue[k]) else None
      {
        if k + 1 < MAX_PENDING_UPDATES {
          assert Slot(head, k) == Slot(before, k + 1);
        } else {
          assert Slot(head, k) == Slot(before, 0);
        }
      }
      if len == 0 {
        ghost var last := head;
        head := 0;
        forall i | 0 <= i < MAX_PENDING_UPDATES
          ensures entries[i].None?
        {
          assert i == Slot(last, if i >= last then i - last else i + MAX_PENDING_UPDATES - last);
        }
      }
    }

    /** Drop the updates of one page by rotating the whole queue once. No update put back is refused. */
    method RetireScope(scope: PageScope)
      requires Valid()
      modifies this, entries
      ensures Valid() && queue == Retain(old(queue), scope)
    {
      ghost var all := queue;
      var originalLen := len;
      assert all[0..] + Retain(all[..0], scope) == all;
      for i := 0 to originalLen
        invariant Valid()
        invariant queue == all[i..] + Retain(all[..i], scope)
        invariant Bytes(queue) <= MAX_PENDING_UPDATE_BYTES
      {
        RotationStep(all, i, scope);
        var popped := PopFront();
        if popped.value.owner.scope != scope {
          var pushed := PushBack(popped.value);
          assert pushed;
        }
      }
      assert all[originalLen..] == [] && all[..originalLen] == all;
    }

    method Clear()
      requires Valid()
      modifies this, entries
      ensures Valid() && queue == []
    {
      for i := 0 to entries.Length
        invariant forall j :: 0 <= j < i ==> entries[j].None?
      {
        entries[i] := None;
      }
      head, len, bytes, queue := 0, 0, 0, [];
    }
  }
}
