/** What a subscriber sees of a live region (lib.rs, `flush_subscriptions`): complete texts,
or suffixes to append when the new text extends the one it was last sent. */
module LiveDelta {
  import opened Wrappers
  import opened Text

  const MAX_LIVE_UPDATE_SIZE: nat := 1024 * 1024
  const UPDATE_OVERHEAD: nat := 9

  /** The longest text the registry publishes, before any region name is counted. */
  const MAX_SHARED_CONTENT: nat := MAX_LIVE_UPDATE_SIZE - UPDATE_OVERHEAD

  predicate Publishable(text: string) {
    ByteLen(text) <= MAX_SHARED_CONTENT
  }

  datatype Mode = ReplaceMode | DeltaMode

  /** One published version. Equal numbers mean the same shared allocation. */
  datatype Generation = Generation(id: nat, text: string)

  datatype Subscription = Subscription(region: string, mode: Mode, baseline: Generation)

  datatype Wire = Wire(content: string, delta: bool)

  predicate Extends(text: string, base: string) {
    |base| <= |text| && text[..|base|] == base
  }

  /** What a flush would put on the wire for a generation not yet sent. */
  function WireFor(s: Subscription, next: Generation): Wire {
    if s.mode == DeltaMode && Extends(next.text, s.baseline.text)
    then Wire(next.text[|s.baseline.text|..], true) else Wire(next.text, false)
  }

  predicate ValidUpdate(region: string, content: string) {
    && region != "" && (forall i :: 0 <= i < |region| ==> !IsControl(region[i]))
    && UPDATE_OVERHEAD + ByteLen(region) + ByteLen(content) <= MAX_LIVE_UPDATE_SIZE
  }

  /** The generation is passed over: its update is too large to send. */
  predicate Skips(s: Subscription, next: Generation) {
    next.id != s.baseline.id && !ValidUpdate(s.region, WireFor(s, next).content)
  }

  /** What one flush sends; nothing for a generation already sent or passed over. */
  function Sends(s: Subscription, next: Generation): Option<Wire> {
    if next.id == s.baseline.id || Skips(s, next) then None else Some(WireFor(s, next))
  }

  /** The baseline advances whether or not anything was sent. */
  function Advance(s: Subscription, next: Generation): Subscription {
    if next.id == s.baseline.id then s else s.(baseline := next)
  }

  /** The receiving end: append a delta, replace otherwise. */
  function Receive(held: string, wire: Option<Wire>): string {
    if wire.None? then held
    else if wire.value.delta then held + wire.value.content
    else wire.value.content
  }

  /** A due generation whose whole text fits an update is sent, whichever way: the receiver is told the
      text, or the part of it that its own text lacks. */
  lemma FittingTextIsSent(s: Subscription, next: Generation)
    requires next.id != s.baseline.id && s.region != "" && (forall i :: 0 <= i < |s.region| ==> !IsControl(s.region[i]))
    requires 9 + ByteLen(s.region) + ByteLen(next.text) <= 1024 * 1024
    ensures Sends(s, next).Some? && Receive(s.baseline.text, Sends(s, next)) == next.text
    ensures Sends(s, next).value.delta <==> s.mode == DeltaMode && Extends(next.text, s.baseline.text)
  {
    if s.mode == DeltaMode && Extends(next.text, s.baseline.text) {
      var suffix := next.text[|s.baseline.text|..];
      assert next.text == s.baseline.text + suffix;
      ByteLenAppend(s.baseline.text, suffix);
    }
  }

  /** And one whose text does not fit is sent only as a suffix that does. */
  lemma LongTextIsSentAsSuffix(s: Subscription, next: Generation)
    requires next.id != s.baseline.id && 9 + ByteLen(s.region) + ByteLen(next.text) > 1024 * 1024
    ensures Sends(s, next).Some? ==>
              && s.mode == DeltaMode && Extends(next.text, s.baseline.text) && Sends(s, next).value.delta
              && 9 + ByteLen(s.region) + ByteLen(Sends(s, next).value.content) <= 1024 * 1024
  {
  }

  // ---- a subscription and its receiver ----

  datatype Link = Link(sub: Subscription, held: string)

  predicate Synced(l: Link) {
    l.held == l.sub.baseline.text
  }

  function FlushLink(l: Link, next: Generation): Link {
    Link(Advance(l.sub, next), Receive(l.held, Sends(l.sub, next)))
  }

  function FlushAll(l: Link, nexts: seq<Generation>): Link
    decreases |nexts|
  {
    if nexts == [] then l else FlushAll(FlushLink(l, nexts[0]), nexts[1..])
  }

  /** The two ends agree after a flush exactly when: nothing was due and they agreed before; or the
      generation was passed over but the receiver already holds its text; or a complete text
      was sent; or a suffix was sent to a receiver that agreed before. */
  lemma SyncedAfterFlushIff(l: Link, next: Generation)
    ensures Synced(FlushLink(l, next)) <==>
            if next.id == l.sub.baseline.id then Synced(l)
            else if Skips(l.sub, next) then l.held == next.text
            else WireFor(l.sub, next).delta ==> Synced(l)
  {
    var wire := WireFor(l.sub, next);
    if next.id != l.sub.baseline.id && !Skips(l.sub, next) && wire.delta {
      var base := l.sub.baseline.text;
      assert next.text == base + wire.content;
      if l.held + wire.content == base + wire.content {
        assert |l.held| == |base|;
        assert l.held == (l.held + wire.content)[..|base|];
        assert base == (base + wire.content)[..|base|];
      }
    }
  }

  /** From ends that agree, a due generation keeps them in agreement if and only if it is not passed
      over, for a region that can be sent at all and, in replace mode, a baseline that was sent. */
  lemma SyncedIffNotSkipped(l: Link, next: Generation)
    requires Synced(l) && next.id != l.sub.baseline.id && ValidUpdate(l.sub.region, "")
    requires l.sub.mode == ReplaceMode ==> ValidUpdate(l.sub.region, l.sub.baseline.text)
    ensures Synced(FlushLink(l, next)) <==> !Skips(l.sub, next)
  {
    SyncedAfterFlushIff(l, next);
    if next.text == l.held && l.sub.mode == DeltaMode {
      assert WireFor(l.sub, next).content == "";
    }
  }

  ghost predicate NoneSkipped(l: Link, nexts: seq<Generation>)
    decreases |nexts|
  {
    nexts == [] || (!Skips(l.sub, nexts[0]) && NoneSkipped(FlushLink(l, nexts[0]), nexts[1..]))
  }

  /** Whatever generations are missed, and however the text moves back and forth, a receiver that
      appends suffixes holds exactly what was last sent, as one that only replaces would,
      as long as no generation is passed over. */
  lemma {:induction false} DeltaRefinesReplace(l: Link, nexts: seq<Generation>)
    requires Synced(l) && NoneSkipped(l, nexts)
    ensures Synced(FlushAll(l, nexts))
    ensures nexts != [] && nexts[|nexts| - 1].id != FlushAll(l, nexts[..|nexts| - 1]).sub.baseline.id ==>
              FlushAll(l, nexts).held == nexts[|nexts| - 1].text
    decreases |nexts|
  {
    if nexts != [] {
      SyncedAfterFlushIff(l, nexts[0]);
      DeltaRefinesReplace(FlushLink(l, nexts[0]), nexts[1..]);
      if |nexts| > 1 {
        assert nexts[1..][..|nexts| - 2] == nexts[..|nexts| - 1][1..];
        assert nexts[..|nexts| - 1][0] == nexts[0];
      }
    }
  }

  /** Only suffixes are sent. */
  ghost predicate OnlyDeltas(l: Link, nexts: seq<Generation>)
    decreases |nexts|
  {
    nexts == [] ||
    ((Sends(l.sub, nexts[0]).Some? ==> WireFor(l.sub, nexts[0]).delta) && !Skips(l.sub, nexts[0])
     && OnlyDeltas(FlushLink(l, nexts[0]), nexts[1..]))
  }

  /** Once the two ends disagree, no number of suffixes brings them together again. */
  lemma {:induction false} DeltasNeverResync(l: Link, nexts: seq<Generation>)
    requires !Synced(l) && OnlyDeltas(l, nexts)
    ensures !Synced(FlushAll(l, nexts))
    decreases |nexts|
  {
    if nexts != [] {
      SyncedAfterFlushIff(l, nexts[0]);
      DeltasNeverResync(FlushLink(l, nexts[0]), nexts[1..]);
    }
  }

  function Repeat(c: char, n: nat): (s: string)
    ensures |s| == n && forall i :: 0 <= i < n ==> s[i] == c
  {
    seq(n, i => c)
  }

  /** The longest text but one that the registry publishes. */
  function LongText(): string {
    Repeat('a', MAX_SHARED_CONTENT - 1)
  }

  lemma LongTextIsSkipped(region: string, first: Generation)
    requires ValidUpdate(region, "x") && ByteLen(region) >= 2 && first == Generation(1, LongText())
    ensures Skips(Subscription(region, DeltaMode, Generation(0, "")), first) && ByteLen(first.text) < MAX_SHARED_CONTENT
  {
    ByteLenAscii(LongText());
    assert WireFor(Subscription(region, DeltaMode, Generation(0, "")), first).content == LongText();
  }

  lemma SuffixIsSent(region: string, first: Generation, second: Generation)
    requires ValidUpdate(region, "x") && second.id != first.id && second.text == first.text + "x"
    requires ByteLen(first.text) < MAX_SHARED_CONTENT
    ensures Sends(Subscription(region, DeltaMode, first), second) == Some(Wire("x", true)) && Publishable(second.text)
  {
    ByteLenAscii("x");
    ByteLenAppend(first.text, "x");
    ExtendsItself(first.text, "x");
  }

  lemma ExtendsItself(base: string, suffix: string)
    ensures Extends(base + suffix, base) && (base + suffix)[|base|..] == suffix
  {
  }

  /** For every region name of at least two bytes there are two texts the registry publishes such that
      the first is too large to send, moves the baseline all the same, and the suffix sent for the
      second is appended to the wrong text. */
  lemma SkippedGenerationCorrupts(region: string)
    requires ValidUpdate(region, "x") && ByteLen(region) >= 2
    ensures var l := Link(Subscription(region, DeltaMode, Generation(0, "")), "");
            var first, second := Generation(1, LongText()), Generation(2, LongText() + "x");
            var after := FlushAll(l, [first, second]);
            && Synced(l) && Publishable(first.text) && Publishable(second.text)
            && after.held == "x" && after.sub.baseline.text == second.text
  {
    var l := Link(Subscription(region, DeltaMode, Generation(0, "")), "");
    var first, second := Generation(1, LongText()), Generation(2, LongText() + "x");
    LongTextIsSkipped(region, first);
    SuffixIsSent(region, first, second);
    var skipped := Link(Subscription(region, DeltaMode, first), "");
    assert FlushLink(l, first) == skipped;
    assert "" + "x" == "x";
    assert FlushLink(skipped, second) == Link(Subscription(region, DeltaMode, second), "x");
    var nexts := [first, second];
    assert nexts[1..] == [second];
    assert FlushAll(l, nexts) == FlushAll(skipped, [second]);
    assert FlushAll(skipped, [second]) == FlushAll(FlushLink(skipped, second), []);
  }

  /** With a region name of one byte no published text extends one that was passed over. */
  lemma ShortRegionIsSafe(s: Subscription, first: Generation, second: Generation)
    requires s.region != "" && (forall i :: 0 <= i < |s.region| ==> !IsControl(s.region[i])) && ByteLen(s.region) == 1
    requires Publishable(first.text) && Publishable(second.text) && Skips(s, first)
    requires Extends(second.text, first.text)
    ensures second.text == first.text
  {
    var wire := WireFor(s, first);
    if wire.delta {
      assert first.text == s.baseline.text + wire.content;
      ByteLenAppend(s.baseline.text, wire.content);
    }
    var suffix := second.text[|first.text|..];
    assert second.text == first.text + suffix;
    ByteLenAppend(first.text, suffix);
    ByteLenCovers(suffix);
  }

  // ---- one flush of a connection ----

  /** The generation each subscription would be sent, and whether the transport takes each update. */
  function FlushUpTo(subs: seq<Subscription>, latest: seq<Generation>, k: nat): seq<Subscription>
    requires |subs| == |latest| && k <= |subs|
  {
    seq(|subs|, i requires 0 <= i < |subs| => if i < k then Advance(subs[i], latest[i]) else subs[i])
  }

  function SentUpTo(subs: seq<Subscription>, latest: seq<Generation>, k: nat): seq<Wire>
    requires |subs| == |latest| && k <= |subs|
  {
    if k == 0 then []
    else SentUpTo(subs, latest, k - 1)
         + (if Sends(subs[k - 1], latest[k - 1]).Some? then [Sends(subs[k - 1], latest[k - 1]).value] else [])
  }

  /** Visit every subscription in order. A send that fails ends the connection before that
      subscription's baseline moves. `accepts(k)` says whether the transport takes update `k`. */
  method FlushSubscriptions(subs: array<Subscription>, latest: seq<Generation>, accepts: nat -> bool)
    returns (sent: seq<Wire>, upTo: nat)
    requires |latest| == subs.Length
    modifies subs
    ensures upTo <= subs.Length
    ensures subs[..] == FlushUpTo(old(subs[..]), latest, upTo)
    ensures sent == SentUpTo(old(subs[..]), latest, upTo)
    ensures upTo < subs.Length ==>
              Sends(old(subs[..])[upTo], latest[upTo]).Some? && !accepts(|sent|)
  {
    ghost var before := subs[..];
    sent, upTo := [], 0;
    while upTo < subs.Length
      invariant 0 <= upTo <= subs.Length
      invariant forall j :: 0 <= j < subs.Length ==>
                  subs[j] == if j < upTo then Advance(before[j], latest[j]) else before[j]
      invariant sent == SentUpTo(before, latest, upTo)
    {
      var s, next := subs[upTo], latest[upTo];
      if next.id != s.baseline.id {
        var wire := WireFor(s, next);
        if ValidUpdate(s.region, wire.content) {
          if !accepts(|sent|) {
            break;
          }
          sent := sent + [wire];
        }
        subs[upTo] := s.(baseline := next);
      }
      upTo := upTo + 1;
    }
    assert subs[..] == FlushUpTo(before, latest, upTo);
  }
}
