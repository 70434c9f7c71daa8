/** Directory watches of the live-region registry (live_watch.rs, `NotifyChangeSource`, `install`
and `reap`). Installing a file counts its directory once; reaping releases the
directory once when its last file goes. */
module LiveDirectories {
  import opened Wrappers

  type Dir = nat

  datatype FilePath = FilePath(dir: Dir, name: nat)

  datatype Registry = Registry(files: set<FilePath>, watched: map<Dir, nat>)

  datatype Step =
    | Install(file: FilePath, started: bool)
    | Remove(file: FilePath)

  function CountOf(watched: map<Dir, nat>, d: Dir): nat {
    if d in watched then watched[d] else 0
  }

  /** Count a directory up; its first count starts a watch, which may fail. */
  function Watched(watched: map<Dir, nat>, d: Dir, started: bool): map<Dir, nat> {
    if d in watched then watched[d := watched[d] + 1]
    else if started then watched[d := 1] else watched
  }

  /** Count a directory down; at zero the watch ends. */
  function Unwatched(watched: map<Dir, nat>, d: Dir): map<Dir, nat> {
    if d !in watched then watched
    else if Minus(watched[d], 1) > 0 then watched[d := Minus(watched[d], 1)] else watched - {d}
  }

  predicate Needs(files: set<FilePath>, d: Dir) {
    exists f :: f in files && f.dir == d
  }

  function Apply(r: Registry, s: Step): Registry {
    match s
    case Install(f, started) =>
      if f in r.files then r else Registry(r.files + {f}, Watched(r.watched, f.dir, started))
    case Remove(f) =>
      if f !in r.files then r
      else
        var left := r.files - {f};
        Registry(left, if Needs(left, f.dir) then r.watched else Unwatched(r.watched, f.dir))
  }

  function Run(r: Registry, steps: seq<Step>): Registry
    decreases |steps|
  {
    if steps == [] then r else Run(Apply(r, steps[0]), steps[1..])
  }

  // ---- what the counts amount to ----

  /** The step adds one to the directory's count. */
  predicate Counts(r: Registry, s: Step, d: Dir) {
    s.Install? && s.file !in r.files && s.file.dir == d && (d in r.watched || s.started)
  }

  /** The step removes the directory's last file. */
  predicate Empties(r: Registry, s: Step, d: Dir) {
    s.Remove? && s.file in r.files && s.file.dir == d && !Needs(r.files - {s.file}, d)
  }

  /** The installs of a run that count for the directory. */
  function Counted(r: Registry, steps: seq<Step>, d: Dir): nat
    decreases |steps|
  {
    if steps == [] then 0
    else (if Counts(r, steps[0], d) then 1 else 0) + Counted(Apply(r, steps[0]), steps[1..], d)
  }

  predicate NeverEmpties(r: Registry, steps: seq<Step>, d: Dir)
    decreases |steps|
  {
    steps == [] || (!Empties(r, steps[0], d) && NeverEmpties(Apply(r, steps[0]), steps[1..], d))
  }

  ghost predicate Positive(watched: map<Dir, nat>) {
    forall d :: d in watched ==> watched[d] > 0
  }

  lemma StepCounts(r: Registry, s: Step, d: Dir)
    requires Positive(r.watched)
    ensures Positive(Apply(r, s).watched)
    ensures CountOf(Apply(r, s).watched, d) ==
            if Counts(r, s, d) then CountOf(r.watched, d) + 1
            else if Empties(r, s, d) then Minus(CountOf(r.watched, d), 1)
            else CountOf(r.watched, d)
  {
  }

  /** Until a directory's last file goes, every counted install adds one and nothing takes any away. */
  lemma {:induction false} CountsAddUp(r: Registry, steps: seq<Step>, d: Dir)
    requires Positive(r.watched) && NeverEmpties(r, steps, d)
    ensures Positive(Run(r, steps).watched)
    ensures CountOf(Run(r, steps).watched, d) == CountOf(r.watched, d) + Counted(r, steps, d)
    decreases |steps|
  {
    if steps != [] {
      StepCounts(r, steps[0], d);
      CountsAddUp(Apply(r, steps[0]), steps[1..], d);
    }
  }

  /** From an unwatched directory: once its last file goes, its watch ends exactly when at most one
      install was counted since the first; otherwise all but one count remain for good. */
  lemma DirectoryReleasedIff(r: Registry, steps: seq<Step>, last: FilePath)
    requires Positive(r.watched) && last.dir !in r.watched && NeverEmpties(r, steps, last.dir)
    requires Empties(Run(r, steps), Remove(last), last.dir)
    ensures var after := Apply(Run(r, steps), Remove(last));
            && CountOf(after.watched, last.dir) == Minus(Counted(r, steps, last.dir), 1)
            && (last.dir in after.watched <==> Counted(r, steps, last.dir) >= 2)
            && !Needs(after.files, last.dir)
  {
    CountsAddUp(r, steps, last.dir);
    StepCounts(Run(r, steps), Remove(last), last.dir);
  }

  /** Two files of one directory, installed and reaped: the directory stays watched with no file left. */
  lemma TwoFilesLeaveTheirDirectory()
    ensures var a, b := FilePath(1, 1), FilePath(1, 2);
            var after := Run(Registry({}, map[]), [Install(a, true), Install(b, true), Remove(a), Remove(b)]);
            after.files == {} && after.watched == map[1 := 1]
  {
    var a, b := FilePath(1, 1), FilePath(1, 2);
    var r0 := Registry({}, map[]);
    var r1 := Apply(r0, Install(a, true));
    var r2 := Apply(r1, Install(b, true));
    assert r2 == Registry({a, b}, map[1 := 2]);
    assert r2.files - {a} == {b};
    assert b in {b} && b.dir == 1;
    var r3 := Apply(r2, Remove(a));
    assert r3 == Registry({b}, map[1 := 2]);
    assert {b} - {b} == {};
    var r4 := Apply(r3, Remove(b));
    assert r4 == Registry({}, map[1 := 1]);
    assert Run(r3, [Remove(b)]) == Run(r4, []);
    assert [Remove(a), Remove(b)][1..] == [Remove(b)];
    assert Run(r2, [Remove(a), Remove(b)]) == Run(r3, [Remove(b)]);
    assert [Install(b, true), Remove(a), Remove(b)][1..] == [Remove(a), Remove(b)];
    assert Run(r1, [Install(b, true), Remove(a), Remove(b)]) == Run(r2, [Remove(a), Remove(b)]);
    assert [Install(a, true), Install(b, true), Remove(a), Remove(b)][1..] == [Install(b, true), Remove(a), Remove(b)];
  }

  ghost predicate WatchesNeeded(r: Registry) {
    Positive(r.watched) && forall f :: f in r.files ==> f.dir in r.watched
  }

  ghost predicate AllStart(steps: seq<Step>) {
    forall i :: 0 <= i < |steps| && steps[i].Install? ==> steps[i].started
  }

  /** The other direction does hold: while watches can be started, a directory with a file is watched. */
  lemma {:induction false} NeededIsWatched(r: Registry, steps: seq<Step>)
    requires WatchesNeeded(r) && AllStart(steps)
    ensures WatchesNeeded(Run(r, steps))
    decreases |steps|
  {
    if steps != [] {
      var s := steps[0];
      var after := Apply(r, s);
      forall f | f in after.files
        ensures f.dir in after.watched
      {
        if s.Remove? && s.file in r.files && f.dir == s.file.dir {
          assert Needs(r.files - {s.file}, f.dir);
        }
      }
      StepCounts(r, s, 0);
      assert forall i :: 0 <= i < |steps[1..]| ==> steps[1..][i] == steps[i + 1];
      NeededIsWatched(after, steps[1..]);
    }
  }

  // ---- in place ----

  class NotifyChangeSource {
    var watched: map<Dir, nat>

    constructor ()
      ensures watched == map[]
    {
      watched := map[];
    }

    method WatchDir(d: Dir, started: bool) returns (ok: bool)
      modifies this
      ensures watched == Watched(old(watched), d, started)
      ensures ok <==> d in watched
    {
      if d in watched {
        watched := watched[d := watched[d] + 1];
        return true;
      }
      if !started {
        return false;
      }
      watched := watched[d := 1];
      ok := true;
    }

    method UnwatchDir(d: Dir)
      modifies this
      ensures watched == Unwatched(old(watched), d)
    {
      if d !in watched {
        return;
      }
      watched := watched[d := Minus(watched[d], 1)];
      if watched[d] > 0 {
        return;
      }
      watched := watched - {d};
    }
  }

  class WatchRegistry {
    var files: set<FilePath>
    const source: NotifyChangeSource

    constructor ()
      ensures View() == Registry({}, map[]) && fresh(source)
    {
      files := {};
      source := new NotifyChangeSource();
    }

    ghost function View(): Registry
      reads this, source
    {
      Registry(files, source.watched)
    }

    method Add(f: FilePath, started: bool)
      modifies this, source
      ensures View() == Apply(old(View()), Install(f, started))
    {
      if f in files {
        return;
      }
      var _ := source.WatchDir(f.dir, started);
      files := files + {f};
    }

    /** Drop the files nobody listens to, in whatever order the table lists them. */
    method Reap(dropped: seq<FilePath>)
      requires forall i :: 0 <= i < |dropped| ==> dropped[i] in files
      requires forall i, j :: 0 <= i < j < |dropped| ==> dropped[i] != dropped[j]
      modifies this, source
      ensures View() == Run(old(View()), Removals(dropped))
    {
      assert dropped[0..] == dropped;
      for k := 0 to |dropped|
        invariant forall i :: k <= i < |dropped| ==> dropped[i] in files
        invariant Run(View(), Removals(dropped[k..])) == Run(old(View()), Removals(dropped))
      {
        RemovalsStep(dropped, k);
        files := files - {dropped[k]};
        if !Needs(files, dropped[k].dir) {
          source.UnwatchDir(dropped[k].dir);
        }
      }
    }
  }

  function Removals(dropped: seq<FilePath>): seq<Step> {
    if dropped == [] then [] else [Remove(dropped[0])] + Removals(dropped[1..])
  }

  lemma RemovalsStep(dropped: seq<FilePath>, k: nat)
    requires k < |dropped|
    ensures Removals(dropped[k..]) == [Remove(dropped[k])] + Removals(dropped[k + 1..])
    ensures Removals(dropped[k..])[0] == Remove(dropped[k]) && Removals(dropped[k..])[1..] == Removals(dropped[k + 1..])
  {
    assert dropped[k..][1..] == dropped[k + 1..];
  }
}
