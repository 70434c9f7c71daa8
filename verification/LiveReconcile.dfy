/** Reading a watched file (live_watch.rs, `refresh_if_changed`): stat, compare stamps, read.

Writes happen at any moment, also between the stat and the end of the read, and a
read that overlaps a write may return anything. Each version of the file has its
own stamp of length, modification time and inode. */
module LiveReconcile {
  import opened Wrappers
  import opened Text
  import opened LiveDelta

  /** What the path names at some moment; not a file stands for a missing one too. */
  datatype Version = Version(stamp: nat, text: string, isFile: bool)

  predicate TooLarge(v: Version) {
    !Publishable(v.text)
  }

  // ---- the registry's entry for one file ----

  /** A read has to follow the stat. */
  predicate NeedsRead(stamp: Option<nat>, v: Version) {
    v.isFile && stamp != Some(v.stamp) && !TooLarge(v)
  }

  /** The stamp a stat leaves: a file too large to publish is only remembered. */
  function StampAfterStat(stamp: Option<nat>, v: Version): Option<nat> {
    if v.isFile && TooLarge(v) then Some(v.stamp) else stamp
  }

  class WatchedFile {
    var stamp: Option<nat>
    var text: string
    var dirty: bool

    constructor ()
      ensures stamp.None? && text == "" && dirty
    {
      stamp, text, dirty := None, "", true;
    }

    /** Handle the result of a stat; a file too large to publish is only remembered. */
    method Compare(v: Version) returns (changed: bool)
      modifies this`stamp
      ensures changed <==> NeedsRead(old(stamp), v)
      ensures stamp == StampAfterStat(old(stamp), v)
    {
      if !v.isFile {
        return false;
      }
      if stamp == Some(v.stamp) {
        return false;
      }
      if ByteLen(v.text) > MAX_SHARED_CONTENT {
        stamp := Some(v.stamp);
        return false;
      }
      changed := true;
    }

    /** Store what was read under the stamp seen before the read; an equal text is not published again. */
    method Store(v: Version, read: string) returns (published: bool)
      modifies this`stamp, this`text
      ensures stamp == Some(v.stamp) && text == read
      ensures published <==> read != old(text)
    {
      stamp := Some(v.stamp);
      published := text != read;
      if published {
        text := read;
      }
    }

    /** Stat, compare, read and store, while `writes` happen between the stat and the end of the read:
        the entry is what the interleaved steps make of it. A read without writes is not torn. */
    method RefreshIfChanged(v: Version, outcome: Option<string>, ghost w: World, ghost writes: seq<Version>)
      requires w.versions != [] && w.reading == Idle && Current(w) == v && w.stamp == stamp && w.text == text
      requires writes == [] && outcome.Some? ==> outcome.value == v.text
      modifies this
      ensures var during := Step(w, Stat);
              var after := Step(during.(versions := during.versions + writes),
                                Read(outcome.Some?, if outcome.Some? then outcome.value else ""));
              stamp == after.stamp && text == after.text
    {
      dirty := false;
      var changed := Compare(v);
      if changed && outcome.Some? {
        var _ := Store(v, outcome.value);
      }
      ghost var during := Step(w, Stat);
      assert forall i :: 0 <= i < |w.versions| ==> (during.versions + writes)[i] == w.versions[i];
      assert writes == [] ==> during.versions + writes == w.versions;
    }
  }

  // ---- interleaving with writes ----

  datatype Reading = Idle | Reads(at: nat)

  /** `versions` grows with every write; `Reads(k)` is a read that followed a stat of version `k`. */
  datatype World = World(versions: seq<Version>, stamp: Option<nat>, text: string, reading: Reading)

  datatype Action =
    | Write(version: Version)
    | Stat
    | Read(admitted: bool, torn: string)

  function Current(w: World): Version
    requires w.versions != []
  {
    w.versions[|w.versions| - 1]
  }

  function Start(v: Version): World {
    World([v], None, "", Idle)
  }

  function Step(w: World, a: Action): World
    requires w.versions != []
  {
    match a
    case Write(v) => w.(versions := w.versions + [v])
    case Stat =>
      var v := Current(w);
      if w.reading != Idle then w
      else if NeedsRead(w.stamp, v) then w.(reading := Reads(|w.versions| - 1))
      else w.(stamp := StampAfterStat(w.stamp, v))
    case Read(admitted, torn) =>
      if w.reading == Idle || w.reading.at >= |w.versions| then w
      else if !admitted then w.(reading := Idle)
      else
        var v := w.versions[w.reading.at];
        w.(reading := Idle, stamp := Some(v.stamp), text := if v == Current(w) && w.reading.at == |w.versions| - 1
                                                            then v.text else torn)
  }

  /** No two versions of the file share a stamp. */
  ghost predicate DistinctStamps(versions: seq<Version>) {
    forall i, j :: 0 <= i < j < |versions| ==> versions[i].stamp != versions[j].stamp
  }

  /** The stamp belongs to version `k`, whose text is published or too large, or has been superseded. */
  ghost predicate StampedAt(w: World, k: nat) {
    && k < |w.versions| && w.stamp == Some(w.versions[k].stamp) && w.versions[k].isFile
    && (k == |w.versions| - 1 ==> w.text == w.versions[k].text || TooLarge(w.versions[k]))
  }

  ghost predicate Inv(w: World) {
    && w.versions != []
    && (w.stamp.Some? ==> exists k :: StampedAt(w, k))
    && (w.reading.Reads? ==> w.reading.at < |w.versions| && w.versions[w.reading.at].isFile)
  }

  lemma StepKeepsInv(w: World, a: Action)
    requires Inv(w)
    ensures Inv(Step(w, a))
  {
    var after := Step(w, a);
    if a.Write? {
      assert forall i :: 0 <= i < |w.versions| ==> after.versions[i] == w.versions[i];
      if w.stamp.Some? {
        var k :| StampedAt(w, k);
        assert StampedAt(after, k);
      }
    } else if a.Stat? {
      if after.stamp.Some? && after.stamp == w.stamp {
        var k :| StampedAt(w, k);
        assert StampedAt(after, k);
      } else if after.stamp.Some? {
        assert StampedAt(after, |w.versions| - 1);
      }
    } else if a.admitted && w.reading.Reads? {
      assert StampedAt(after, w.reading.at);
    } else if w.stamp.Some? {
      var k :| StampedAt(w, k);
      assert StampedAt(after, k);
    }
  }

  function Run(w: World, actions: seq<Action>): (r: World)
    requires w.versions != []
    ensures r.versions != []
  {
    if actions == [] then w
    else Step(Run(w, actions[..|actions| - 1]), actions[|actions| - 1])
  }

  lemma {:induction false} RunKeepsInv(v: Version, actions: seq<Action>)
    ensures Inv(Run(Start(v), actions))
  {
    if actions != [] {
      RunKeepsInv(v, actions[..|actions| - 1]);
      StepKeepsInv(Run(Start(v), actions[..|actions| - 1]), actions[|actions| - 1]);
    }
  }

  /** However writes interleave with stats and reads, an entry stamped with the file's current
      stamp has published the file's current content, unless the file is too large. */
  lemma StampMeansContent(v: Version, actions: seq<Action>)
    requires DistinctStamps(Run(Start(v), actions).versions)
    ensures var w := Run(Start(v), actions);
            w.stamp == Some(Current(w).stamp) ==> w.text == Current(w).text || TooLarge(Current(w))
  {
    RunKeepsInv(v, actions);
    var w := Run(Start(v), actions);
    if w.stamp == Some(Current(w).stamp) {
      var k :| StampedAt(w, k);
      assert k == |w.versions| - 1;
    }
  }

  /** After the last write, one sweep whose read is admitted publishes the final content, from any
      reachable state and without any notification. */
  lemma SweepConverges(v: Version, actions: seq<Action>, torn: string)
    requires var w := Run(Start(v), actions);
             DistinctStamps(w.versions) && w.reading == Idle && Current(w).isFile && !TooLarge(Current(w))
    ensures var w := Run(Start(v), actions);
            var swept := Step(Step(w, Stat), Read(true, torn));
            swept.text == Current(w).text && swept.stamp == Some(Current(w).stamp) && swept.versions == w.versions
  {
    StampMeansContent(v, actions);
  }

  /** A refused read leaves the entry as it was, so the next sweep tries again. */
  lemma RefusedReadIsRetried(w: World, torn: string)
    requires w.versions != [] && w.reading == Idle && NeedsRead(w.stamp, Current(w))
    ensures var after := Step(Step(w, Stat), Read(false, torn));
            after == w && NeedsRead(after.stamp, Current(after))
  {
  }

  /** A file that has not changed since its stamp was taken is not read again. */
  lemma UnchangedIsNotRead(w: World)
    requires w.versions != [] && w.stamp == Some(Current(w).stamp)
    ensures Step(w, Stat) == w
  {
  }

  /** A file too large to publish is remembered by its stamp and not read: what was published stays. */
  lemma LargeFileIsRemembered(w: World)
    requires w.versions != [] && w.reading == Idle && Current(w).isFile && ByteLen(Current(w).text) > 1024 * 1024 - 9
    ensures Step(w, Stat) == w.(stamp := Some(Current(w).stamp)) && !NeedsRead(w.stamp, Current(w))
  {
  }

  /** Two versions with one stamp hide a write: distinct stamps are needed. */
  lemma SharedStampHidesWrite()
    ensures var actions := [Stat, Read(true, ""), Write(Version(7, "b", true))];
            var w := Run(Start(Version(7, "a", true)), actions);
            w.stamp == Some(Current(w).stamp) && w.text != Current(w).text && !TooLarge(Current(w))
  {
    var a, b := Version(7, "a", true), Version(7, "b", true);
    var first, second, third := Stat, Read(true, ""), Write(b);
    var w := Start(a);
    ByteLenAscii("a");
    ByteLenAscii("b");
    assert [first, second, third][..2] == [first, second] && [first, second][..1] == [first] && [first][..0] == [];
    assert Run(w, [first]) == Step(w, first);
    assert Run(w, [first, second]) == Step(Run(w, [first]), second);
    assert Run(w, [first, second, third]) == Step(Run(w, [first, second]), third);
    assert Run(w, [first]).reading == Reads(0);
  }
}
