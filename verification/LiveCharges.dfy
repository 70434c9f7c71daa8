/** How much each lease of the subscription budget holds: the size of what it was taken for, from the
moment it is charged to the moment it is returned. */
module LiveCharges {
  import opened Wrappers
  import opened LiveBudget

  // ---- what each call charges and returns ----

  /** Somebody other than entry `p` and subscription `s` holds the generation. */
  ghost predicate HeldElsewhere(b: Books, g: Gen, p: Option<Path>, s: Option<SubId>) {
    || (exists q :: q in b.entries && Some(q) != p && b.entries[q].latest == g)
    || (exists t :: t in b.holders && Some(t) != s && b.holders[t].baseline == g)
  }

  /** What letting go of a generation returns: its lease, if nobody else holds it. */
  ghost function Returned(b: Books, g: Gen, p: Option<Path>, s: Option<SubId>): nat {
    if g in b.texts && !HeldElsewhere(b, g, p, s) then b.texts[g] else 0
  }

  /** What the leases of the generations become when one is let go. */
  ghost function Released(b: Books, texts: map<nat, nat>, g: Gen, p: Option<Path>, s: Option<SubId>): map<nat, nat> {
    if HeldElsewhere(b, g, p, s) then texts else texts - {g}
  }

  /** A publish leaves the text charged by its size under a generation of its own, returns the rest of
      the read's lease, and returns the previous generation's lease if nobody holds it any more. */
  lemma PublishCharges(b: Books, limit: nat, p: Path, bytes: nat, after: Books)
    requires Exact(b) && b.reading == Some(p) && bytes <= b.scratch && after == Step(b, limit, Publish(bytes))
    ensures var previous := b.entries[p].latest;
            && after.used + b.scratch + Returned(b, previous, Some(p), None) == b.used + bytes
            && after.texts == Released(b, b.texts[b.nextGen := bytes], previous, Some(p), None)
            && after.entries == b.entries[p := Watched(b.nextGen)] && after.nextGen == b.nextGen + 1
            && after.reading.None? && after.scratch == 0
            && after.holders == b.holders && after.metadata == b.metadata && after.entryLeases == b.entryLeases
            && b.nextGen in after.texts && after.texts[b.nextGen] == bytes && b.nextGen !in b.texts
  {
    var previous := b.entries[p].latest;
    var mid := LiveBudget.Renewed(b, p, bytes);
    RenewedIsExact(b, p, bytes);
    assert Wanted(b, previous);
    assert Wanted(mid, previous) <==> HeldElsewhere(b, previous, Some(p), None) by {
      WantedWithout(b, mid, p, previous);
    }
    if !Wanted(mid, previous) {
      SumRemove(mid.texts, previous);
    }
  }

  lemma WantedWithout(b: Books, mid: Books, p: Path, g: Gen)
    requires mid.holders == b.holders && (p in mid.entries ==> mid.entries[p].latest != g)
    requires forall q :: q != p ==> (q in b.entries <==> q in mid.entries) && (q in b.entries ==> b.entries[q] == mid.entries[q])
    ensures Wanted(mid, g) <==> HeldElsewhere(b, g, Some(p), None)
  {
    if exists q :: q in b.entries && Some(q) != Some(p) && b.entries[q].latest == g {
      var q :| q in b.entries && Some(q) != Some(p) && b.entries[q].latest == g;
      assert mid.entries[q].latest == g;
    }
    if exists q :: q in mid.entries && mid.entries[q].latest == g {
      var q :| q in mid.entries && mid.entries[q].latest == g;
      assert b.entries[q].latest == g;
    }
  }

  lemma WantedWithoutSub(b: Books, mid: Books, s: SubId, g: Gen)
    requires mid.entries == b.entries && (s in mid.holders ==> mid.holders[s].baseline != g)
    requires forall t :: t != s ==> (t in b.holders <==> t in mid.holders) && (t in b.holders ==> b.holders[t] == mid.holders[t])
    ensures Wanted(mid, g) <==> HeldElsewhere(b, g, None, Some(s))
  {
    if exists q :: q in b.entries && b.entries[q].latest == g {
      var q :| q in b.entries && b.entries[q].latest == g;
      assert Some(q) != Option<Path>.None;
    }
    if exists t :: t in b.holders && Some(t) != Some(s) && b.holders[t].baseline == g {
      var t :| t in b.holders && Some(t) != Some(s) && b.holders[t].baseline == g;
      assert mid.holders[t].baseline == g;
    }
    if exists t :: t in mid.holders && mid.holders[t].baseline == g {
      var t :| t in mid.holders && mid.holders[t].baseline == g;
      assert b.holders[t].baseline == g && Some(t) != Some(s);
    }
  }

  /** Reading a path of the registry charges the peak; the text then stays, and the rest goes. */
  lemma ReadThenPublish(b: Books, limit: nat, p: Path, peak: nat, bytes: nat)
    requires Exact(b) && p in b.entries && b.reading.None? && b.used + peak <= limit && bytes <= peak
    ensures var read := Step(b, limit, Read(p, peak));
            var after := Step(read, limit, Publish(bytes));
            && read == b.(used := b.used + peak, scratch := peak, reading := Some(p))
            && after.used + Returned(b, b.entries[p].latest, Some(p), None) == b.used + bytes
  {
    var read := Step(b, limit, Read(p, peak));
    ScratchIsExact(b, read);
    PublishCharges(read, limit, p, bytes, Step(read, limit, Publish(bytes)));
    assert HeldElsewhere(read, b.entries[p].latest, Some(p), None) <==> HeldElsewhere(b, b.entries[p].latest, Some(p), None);
  }

  /** Nothing is charged by a refused call, and a read that is given up returns its whole lease. */
  lemma ReadsRefusedIff(b: Books, limit: nat, p: Path, peak: nat)
    requires Exact(b)
    ensures Step(b, limit, Read(p, peak)) == (if p in b.entries && b.reading.None? && b.used + peak <= limit
                                              then b.(used := b.used + peak, scratch := peak, reading := Some(p)) else b)
    ensures Step(b, limit, Abandon) == b.(used := b.used - b.scratch, scratch := 0, reading := None)
    ensures b.reading.Some? && peak > b.scratch ==>
              Step(b, limit, Grow(peak)) == if b.used - b.scratch + peak <= limit
                                            then b.(used := b.used - b.scratch + peak, scratch := peak) else b
  {
  }

  /** Watching a path charges its entry; its first generation is empty and its own. */
  lemma InstallCharges(b: Books, limit: nat, p: Path, bytes: nat)
    requires Exact(b) && p !in b.entries
    ensures var after := Step(b, limit, Install(p, bytes));
            if b.used + bytes > limit then after == b
            else && after.used == b.used + bytes && after.entryLeases == b.entryLeases[p := bytes]
                 && after.entries == b.entries[p := Watched(b.nextGen)] && after.texts == b.texts[b.nextGen := 0]
                 && after.holders == b.holders && after.metadata == b.metadata && b.nextGen !in b.texts
                 && after.nextGen == b.nextGen + 1 && after.reading == b.reading && after.scratch == b.scratch
  {
  }

  /** A flush lets go of the previous generation: its lease is returned by the last to hold it. */
  lemma FlushReturns(b: Books, limit: nat, s: SubId)
    requires Exact(b) && s in b.holders && b.entries[b.holders[s].path].latest != b.holders[s].baseline
    ensures var after := Step(b, limit, Flush(s));
            var previous := b.holders[s].baseline;
            && after.used + Returned(b, previous, None, Some(s)) == b.used
            && after.texts == Released(b, b.texts, previous, None, Some(s))
            && after.holders == b.holders[s := Holder(b.holders[s].path, b.entries[b.holders[s].path].latest)]
            && after.entries == b.entries && after.metadata == b.metadata && after.entryLeases == b.entryLeases
  {
    var previous := b.holders[s].baseline;
    var mid := b.(holders := b.holders[s := b.holders[s].(baseline := b.entries[b.holders[s].path].latest)]);
    assert Wanted(b, previous);
    SumRemove(b.texts, previous);
    WantedWithoutSub(b, mid, s, previous);
  }

  /** Leaving returns the subscription's metadata, and the generation it held if it was the last. */
  lemma LeaveReturns(b: Books, limit: nat, s: SubId)
    requires Exact(b) && s in b.holders
    ensures var after := Step(b, limit, Leave(s));
            var previous := b.holders[s].baseline;
            && after.used + b.metadata[s] + Returned(b, previous, None, Some(s)) == b.used
            && after.texts == Released(b, b.texts, previous, None, Some(s))
            && after.holders == b.holders - {s} && after.metadata == b.metadata - {s}
            && after.entries == b.entries && after.entryLeases == b.entryLeases
  {
    var previous := b.holders[s].baseline;
    var mid := b.(used := Minus(b.used, b.metadata[s]), holders := b.holders - {s}, metadata := b.metadata - {s});
    assert Wanted(b, previous);
    SumRemove(b.texts, previous);
    SumRemove(b.metadata, s);
    WantedWithoutSub(b, mid, s, previous);
  }

  /** A path nobody receives is let go outside a read; its entry's lease and its generation's are returned. */
  lemma ReapReturns(b: Books, limit: nat, p: Path)
    requires Exact(b) && p in b.entries
    ensures var after := Step(b, limit, Reap(p));
            var previous := b.entries[p].latest;
            if b.reading.Some? || exists s :: s in b.holders && b.holders[s].path == p then after == b
            else && after.used + b.entryLeases[p] + Returned(b, previous, Some(p), None) == b.used
                 && after.texts == Released(b, b.texts, previous, Some(p), None)
                 && after.entries == b.entries - {p} && after.entryLeases == b.entryLeases - {p}
                 && after.holders == b.holders && after.metadata == b.metadata
  {
    if b.reading.None? && Unused(b, p) {
      var previous := b.entries[p].latest;
      var mid := b.(used := Minus(b.used, b.entryLeases[p]), entries := b.entries - {p},
                    entryLeases := b.entryLeases - {p});
      assert Wanted(b, previous);
      SumRemove(b.texts, previous);
      SumRemove(b.entryLeases, p);
      WantedWithout(b, mid, p, previous);
    }
  }

  // ---- sizes over runs ----

  /** The sizes a run has been told: of each generation it issued, of each path and of each subscription. */
  datatype Sizes = Sizes(texts: map<Gen, nat>, entries: map<Path, nat>, subs: map<SubId, nat>)

  /** Note the size a call names, if the call was admitted. */
  ghost function Note(z: Sizes, b: Books, after: Books, a: Action): Sizes {
    if after == b then z
    else if a.Install? then z.(entries := z.entries[a.path := a.bytes], texts := z.texts[b.nextGen := 0])
    else if a.Publish? then z.(texts := z.texts[b.nextGen := a.bytes])
    else if a.Join? then z.(subs := z.subs[a.sub := a.bytes])
    else z
  }

  /** The leases are the sizes. */
  ghost predicate AreSizes(leases: map<nat, nat>, sizes: map<nat, nat>) {
    forall k :: k in leases ==> k in sizes && leases[k] == sizes[k]
  }

  ghost predicate Agrees(b: Books, z: Sizes) {
    AreSizes(b.texts, z.texts) && AreSizes(b.entryLeases, z.entries) && AreSizes(b.metadata, z.subs)
  }

  lemma StepAgrees(b: Books, limit: nat, z: Sizes, a: Action, after: Books)
    requires Exact(b) && Agrees(b, z) && after == Step(b, limit, a)
    ensures Agrees(after, Note(z, b, after, a))
  {
    if a.Publish? {
      if after != b {
        PublishCharges(b, limit, b.reading.value, a.bytes, after);
      }
    } else if a.Install? {
      if after != b {
        InstallCharges(b, limit, a.path, a.bytes);
      }
    } else {
      OtherStepAgrees(b, limit, z, a, after);
    }
  }

  lemma OtherStepAgrees(b: Books, limit: nat, z: Sizes, a: Action, after: Books)
    requires Exact(b) && Agrees(b, z) && after == Step(b, limit, a) && !a.Publish? && !a.Install?
    ensures Agrees(after, Note(z, b, after, a))
  {
  }

  ghost function Noted(b: Books, limit: nat, z: Sizes, actions: seq<Action>): Sizes
    decreases |actions|
  {
    if actions == [] then z
    else
      var after := Step(b, limit, actions[0]);
      Noted(after, limit, Note(z, b, after, actions[0]), actions[1..])
  }

  /** Over every run the lease of each live generation, path and subscription is exactly the size it was
      published, installed or joined with; so the limit bounds the sum of the real sizes. */
  lemma {:induction false} ChargedBySize(b: Books, limit: nat, z: Sizes, actions: seq<Action>)
    requires Sound(b, limit) && Agrees(b, z)
    ensures Sound(Run(b, limit, actions), limit) && Agrees(Run(b, limit, actions), Noted(b, limit, z, actions))
    decreases |actions|
  {
    if actions != [] {
      var after := Step(b, limit, actions[0]);
      StepIsExact(b, limit, actions[0]);
      StepAgrees(b, limit, z, actions[0], after);
      ChargedBySize(after, limit, Note(z, b, after, actions[0]), actions[1..]);
    }
  }

  /** Every lease has the size noted for its owner. */
  ghost predicate SizesHeld(b: Books, z: Sizes) {
    && (forall p :: p in b.entries ==> p in b.entryLeases && p in z.entries && b.entryLeases[p] == z.entries[p])
    && (forall p :: p in b.entries ==> HasSize(b, z, b.entries[p].latest))
    && (forall s :: s in b.holders ==> s in b.metadata && s in z.subs && b.metadata[s] == z.subs[s])
    && (forall s :: s in b.holders ==> HasSize(b, z, b.holders[s].baseline))
  }

  lemma AgreementHolds(b: Books, z: Sizes)
    requires Exact(b) && Agrees(b, z)
    ensures SizesHeld(b, z)
  {
    forall p | p in b.entries
      ensures HasSize(b, z, b.entries[p].latest)
    {
      assert Wanted(b, b.entries[p].latest);
    }
    forall s | s in b.holders
      ensures HasSize(b, z, b.holders[s].baseline)
    {
      assert Wanted(b, b.holders[s].baseline);
    }
  }

  /** Of the empty books nothing need be noted. */
  lemma FreeAgrees(z: Sizes)
    ensures Agrees(LiveBudget.Free(), z)
  {
  }

  /** So of every generation a path or a subscription holds after any run, in particular from the empty books. */
  lemma HeldContentIsCharged(start: Books, told: Sizes, limit: nat, actions: seq<Action>, b: Books, z: Sizes)
    requires Sound(start, limit) && Agrees(start, told)
    requires b == Run(start, limit, actions) && z == Noted(start, limit, told, actions)
    ensures SizesHeld(b, z)
    ensures b.used == Sum(b.entryLeases) + Sum(b.metadata) + Sum(b.texts) + b.scratch <= limit
  {
    ChargedBySize(start, limit, told, actions);
    AgreementHolds(b, z);
  }

  ghost predicate HasSize(b: Books, z: Sizes, g: Gen) {
    g in b.texts && g in z.texts && b.texts[g] == z.texts[g]
  }
}
