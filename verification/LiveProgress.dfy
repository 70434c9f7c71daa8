/** What the fan-out achieves: a publish reaches every subscription of its path, an attach adds one,
and the last to leave lets the path go. */
module LiveProgress {
  import opened Wrappers
  import opened LiveWake

  // ---- generations are new ----

  ghost predicate ConnDated(conn: Conn, next: Gen) {
    && (forall j :: 0 <= j < |conn.subs| ==> conn.subs[j].baseline < next)
    && (conn.phase.Answered? ==> conn.phase.current < next)
    && (conn.phase.Sending? ==> conn.phase.gen < next)
  }

  /** Every generation in use was issued. */
  ghost predicate Dated(w: World) {
    && (forall p :: p in w.files ==> w.files[p].latest < w.nextGen)
    && (forall c :: c in w.conns ==> ConnDated(w.conns[c], w.nextGen))
  }

  lemma OneConnDated(w: World, c: ConnId, conn: Conn)
    requires Dated(w) && ConnDated(conn, w.nextGen)
    ensures Dated(WithConn(w, c, conn))
  {
  }

  lemma NewEntryDated(w: World, after: World, p: Path)
    requires Dated(w) && after.conns == w.conns && after.nextGen == w.nextGen + 1
    requires p in after.files && after.files == w.files[p := after.files[p]] && after.files[p].latest == w.nextGen
    ensures Dated(after)
  {
    forall c | c in after.conns
      ensures ConnDated(after.conns[c], after.nextGen)
    {
      assert ConnDated(w.conns[c], w.nextGen);
    }
  }

  lemma ConnStepDated(w: World, c: ConnId, conn: Conn, a: Action)
    requires Dated(w) && c in w.conns && conn == w.conns[c]
    requires a == Install(c) || a == Sent(c) || (a.Look? && a.conn == c)
    ensures Dated(Step(w, a))
  {
    assert ConnDated(conn, w.nextGen);
    var after := Step(w, a);
    assert after == w || (c in after.conns && after == WithConn(w, c, after.conns[c]));
    if after != w {
      OneConnDated(w, c, after.conns[c]);
    }
  }

  lemma FinishDated(w: World)
    requires Dated(w) && w.task.Serving? && w.task.path in w.files
    ensures Dated(Finish(w))
  {
    var c, p := w.task.conn, w.task.path;
    var entry := w.files[p].(wakes := w.files[p].wakes + [c]);
    var done := w.(files := w.files[p := entry], task := Free);
    assert Dated(done);
    if c in w.conns && w.conns[c].phase == Asking(p) {
      assert ConnDated(w.conns[c], w.nextGen);
      OneConnDated(done, c, w.conns[c].(phase := Answered(p, entry.latest)));
    }
  }

  lemma StepIsDated(w: World, a: Action)
    requires Dated(w)
    ensures Dated(Step(w, a))
  {
    if a.Publish? {
      if a.path in w.files && Step(w, a) != w {
        NewEntryDated(w, Step(w, a), a.path);
      }
    } else if a.BeginAttach? {
      if w.task == Free && a.conn in w.conns && w.conns[a.conn].phase.Asking? && a.admitted {
        if w.conns[a.conn].phase.path !in w.files {
          NewEntryDated(w, Step(w, a), w.conns[a.conn].phase.path);
        }
      }
    } else if a.Install? || a.Sent? || a.Look? {
      if a.conn in w.conns {
        ConnStepDated(w, a.conn, w.conns[a.conn], a);
      }
    } else if a.FinishAttach? {
      if w.task.Serving? && w.task.path in w.files { FinishDated(w); }
    } else {
      OtherStepDated(w, a);
    }
  }

  lemma OtherStepDated(w: World, a: Action)
    requires Dated(w)
    requires a.Connect? || a.Ask? || a.Signal? || a.Flush? || a.Unsubscribe? || a.End? || a.Reap?
    ensures Dated(Step(w, a))
  {
    var after := Step(w, a);
    forall c | c in after.conns
      ensures ConnDated(after.conns[c], after.nextGen)
    {
      if c in w.conns {
        assert ConnDated(w.conns[c], w.nextGen);
      }
    }
  }

  lemma {:induction false} RunIsDated(actions: seq<Action>)
    ensures Dated(Run(Start(), actions))
  {
    if actions != [] {
      RunIsDated(actions[..|actions| - 1]);
      StepIsDated(Run(Start(), actions[..|actions| - 1]), actions[|actions| - 1]);
    }
  }

  // ---- publishing ----

  /** No subscription holds the generation, is being sent it, or has been answered with it. */
  ghost predicate Unheld(w: World, g: Gen) {
    forall c :: c in w.conns ==> UnheldBy(w.conns[c], g)
  }

  ghost predicate UnheldBy(conn: Conn, g: Gen) {
    && (forall j :: 0 <= j < |conn.subs| ==> conn.subs[j].baseline != g)
    && (conn.phase.Answered? ==> conn.phase.current != g)
    && (conn.phase.Sending? ==> conn.phase.gen != g)
  }

  predicate SubscribedTo(conn: Conn, p: Path) {
    exists j :: 0 <= j < |conn.subs| && conn.subs[j].path == p
  }

  /** The registry is free to publish the path: it is idle, or reading it for an attach. */
  predicate MayPublish(w: World, p: Path) {
    w.task == Free || (w.task.Serving? && w.task.path == p && !w.task.done)
  }

  /** A publish of a watched path makes a generation nobody holds the latest, owes a signal to every open
      wake of the path, and touches no connection and no other path. */
  lemma PublishIsNew(actions: seq<Action>, p: Path, w: World, after: World)
    requires w == Run(Start(), actions) && p in w.files && MayPublish(w, p) && after == Step(w, Publish(p))
    ensures after.conns == w.conns && after.files.Keys == w.files.Keys
    ensures forall q :: q in w.files && q != p ==> after.files[q] == w.files[q]
    ensures after.files[p].latest != w.files[p].latest && Unheld(w, after.files[p].latest)
    ensures after.task.Signalling? && after.task.path == p && |after.task.todo| <= |w.files[p].wakes|
    ensures after.task.attach == if w.task == Free then None else Some(w.task.conn)
    ensures forall c :: c in after.task.todo <==> c in w.files[p].wakes && c in w.conns
    ensures after.files[p].wakes == after.task.todo
    ensures forall c :: c in w.conns && SubscribedTo(w.conns[c], p) ==> c in after.task.todo
  {
    RunIsDated(actions);
    RunKeepsInv(actions);
    OpenIsShorter(w.files[p].wakes, w.conns);
    forall c | c in w.conns
      ensures UnheldBy(w.conns[c], w.nextGen)
    {
      assert ConnDated(w.conns[c], w.nextGen);
    }
    forall c | c in w.conns && SubscribedTo(w.conns[c], p)
      ensures c in w.files[p].wakes
    {
      SubscribedIsRegistered(w, c, p);
    }
  }

  lemma SubscribedIsRegistered(w: World, c: ConnId, p: Path)
    requires Inv(w) && c in w.conns && SubscribedTo(w.conns[c], p)
    ensures p in w.files && c in w.files[p].wakes
  {
    var j :| 0 <= j < |w.conns[c].subs| && w.conns[c].subs[j].path == p;
    assert SubOk(w.files, w.task, c, w.conns[c], j);
  }

  lemma {:induction false} OpenIsShorter(wakes: seq<ConnId>, conns: map<ConnId, Conn>)
    ensures |Open(wakes, conns)| <= |wakes|
  {
    if wakes != [] {
      OpenIsShorter(wakes[1..], conns);
    }
  }

  // ---- signalling ----

  function Signals(n: nat): seq<Action> {
    if n == 0 then [] else Signals(n - 1) + [Signal]
  }

  function FirstOf(todo: seq<ConnId>, n: nat): seq<ConnId> {
    if n <= |todo| then todo[..n] else todo
  }

  /** What some signals of a publish leave: the first of the owed connections are woken. */
  ghost predicate Signalled(w: World, after: World, n: nat)
    requires w.task.Signalling?
  {
    && after.files == w.files && after.nextGen == w.nextGen && after.conns.Keys == w.conns.Keys
    && (forall c :: c in w.conns ==>
          after.conns[c] == w.conns[c].(woken := w.conns[c].woken || c in FirstOf(w.task.todo, n)))
    && after.task == if n <= |w.task.todo| then w.task.(todo := w.task.todo[n..])
                     else if w.task.attach.Some? then Serving(w.task.attach.value, w.task.path, true)
                     else Free
  }

  lemma SignalOnce(w: World, mid: World, n: nat)
    requires w.task.Signalling? && Signalled(w, mid, n)
    ensures Signalled(w, Step(mid, Signal), n + 1)
  {
    var todo := w.task.todo;
    if n < |todo| {
      assert todo[..n + 1] == todo[..n] + [todo[n]];
      assert todo[n..][0] == todo[n] && todo[n..][1..] == todo[n + 1..];
    } else if n == |todo| {
      assert todo[..n] == todo;
    }
  }

  /** The signals a publish owes wake every connection it owes one, and nobody else. */
  lemma {:induction false} SignalsWake(w: World, n: nat)
    requires w.task.Signalling?
    ensures Signalled(w, Run(w, Signals(n)), n)
  {
    if n == 0 {
      assert w.task.todo[0..] == w.task.todo;
    } else {
      SignalsWake(w, n - 1);
      RunStep(w, Signals(n - 1), Signal);
      SignalOnce(w, Run(w, Signals(n - 1)), n - 1);
    }
  }

  // ---- flushing ----

  /** One visit of each subscription with its send, whether or not the text is too long to send, and the end. */
  function Visits(c: ConnId, flags: seq<bool>): seq<Action> {
    if flags == [] then [] else Visits(c, flags[..|flags| - 1]) + [Look(c, flags[|flags| - 1])] + [Sent(c)]
  }

  function LatestOf(files: map<Path, Entry>, sub: Sub): Sub {
    if sub.path in files then sub.(baseline := files[sub.path].latest) else sub
  }

  /** The subscriptions with the first `n` brought to the latest generation. */
  function Advanced(files: map<Path, Entry>, subs: seq<Sub>, n: nat): (r: seq<Sub>)
    requires n <= |subs|
    ensures |r| == |subs|
  {
    seq(|subs|, i requires 0 <= i < |subs| => if i < n then LatestOf(files, subs[i]) else subs[i])
  }

  lemma AdvancedMore(files: map<Path, Entry>, subs: seq<Sub>, n: nat)
    requires n < |subs|
    ensures Advanced(files, subs, n + 1) == Advanced(files, subs, n)[n := LatestOf(files, subs[n])]
  {
  }

  /** A visit of a subscription that is behind sends the latest generation; its baseline is
      advanced when the send is done and not before. A text too long to send is passed over. */
  lemma DueVisitSends(w: World, c: ConnId, oversize: bool, i: nat)
    requires c in w.conns && w.conns[c].phase == Flushing(i) && i < |w.conns[c].subs|
    requires w.conns[c].subs[i].path in w.files
    requires w.files[w.conns[c].subs[i].path].latest != w.conns[c].subs[i].baseline
    ensures var conn, latest := w.conns[c], w.files[w.conns[c].subs[i].path].latest;
            var advanced := conn.subs[i := Sub(conn.subs[i].path, latest)];
            var sent := WithConn(w, c, conn.(subs := advanced, phase := Flushing(i + 1)));
            if oversize then Step(w, Look(c, oversize)) == sent
            else && Step(w, Look(c, oversize)) == WithConn(w, c, conn.(phase := Sending(i, latest)))
                 && Step(WithConn(w, c, conn.(phase := Sending(i, latest))), Sent(c)) == sent
  {
    var conn, latest := w.conns[c], w.files[w.conns[c].subs[i].path].latest;
    assert conn.subs[i].(baseline := latest) == Sub(conn.subs[i].path, latest);
    var sending := conn.(phase := Sending(i, latest));
    WithConnTwice(w, c, sending, conn.(subs := conn.subs[i := Sub(conn.subs[i].path, latest)], phase := Flushing(i + 1)));
  }

  lemma WithConnTwice(w: World, c: ConnId, a: Conn, b: Conn)
    ensures WithConn(WithConn(w, c, a), c, b) == WithConn(w, c, b)
  {
    assert w.conns[c := a][c := b] == w.conns[c := b];
  }

  lemma WithConnSame(w: World, c: ConnId)
    requires c in w.conns
    ensures WithConn(w, c, w.conns[c]) == w
  {
    assert w.conns[c := w.conns[c]] == w.conns;
  }

  /** A current subscription is passed without a send. */
  lemma CurrentIsPassed(w: World, c: ConnId, oversize: bool, i: nat)
    requires c in w.conns && w.conns[c].phase == Flushing(i) && i < |w.conns[c].subs|
    requires w.conns[c].subs[i].path in w.files
    requires w.files[w.conns[c].subs[i].path].latest == w.conns[c].subs[i].baseline
    ensures Step(w, Look(c, oversize)) == WithConn(w, c, w.conns[c].(phase := Flushing(i + 1)))
  {
  }

  lemma SentElsewhere(w: World, c: ConnId)
    requires c in w.conns && !w.conns[c].phase.Sending?
    ensures Step(w, Sent(c)) == w
  {
  }

  lemma VisitAndSend(w: World, c: ConnId, oversize: bool, i: nat)
    requires c in w.conns && w.conns[c].phase == Flushing(i) && i < |w.conns[c].subs|
    requires w.conns[c].subs[i].path in w.files
    ensures Step(Step(w, Look(c, oversize)), Sent(c))
            == WithConn(w, c, w.conns[c].(subs := w.conns[c].subs[i := LatestOf(w.files, w.conns[c].subs[i])],
                                          phase := Flushing(i + 1)))
  {
    var conn := w.conns[c];
    var latest := w.files[conn.subs[i].path].latest;
    assert LatestOf(w.files, conn.subs[i]) == Sub(conn.subs[i].path, latest);
    if latest != conn.subs[i].baseline {
      DueVisitSends(w, c, oversize, i);
      if oversize {
        SentElsewhere(Step(w, Look(c, oversize)), c);
      }
    } else {
      CurrentIsPassed(w, c, oversize, i);
      assert conn.subs[i := LatestOf(w.files, conn.subs[i])] == conn.subs;
      SentElsewhere(Step(w, Look(c, oversize)), c);
    }
  }

  /** Every path the connection is subscribed to is watched. */
  ghost predicate AllWatched(w: World, c: ConnId)
    requires c in w.conns
  {
    forall j :: 0 <= j < |w.conns[c].subs| ==> w.conns[c].subs[j].path in w.files
  }

  lemma {:induction false} VisitsAdvance(w: World, c: ConnId, conn: Conn, flags: seq<bool>)
    requires c in w.conns && conn == w.conns[c] && conn.phase == Flushing(0) && AllWatched(w, c)
    requires |flags| <= |conn.subs|
    ensures Run(w, Visits(c, flags))
            == WithConn(w, c, conn.(subs := Advanced(w.files, conn.subs, |flags|), phase := Flushing(|flags|)))
    decreases |flags|
  {
    if flags == [] {
      assert Advanced(w.files, conn.subs, 0) == conn.subs;
      WithConnSame(w, c);
    } else {
      var n := |flags| - 1;
      var before := Visits(c, flags[..n]);
      VisitsAdvance(w, c, conn, flags[..n]);
      var mid := conn.(subs := Advanced(w.files, conn.subs, n), phase := Flushing(n));
      RunStep(w, before, Look(c, flags[n]));
      RunStep(w, before + [Look(c, flags[n])], Sent(c));
      assert mid.subs[n] == conn.subs[n];
      VisitAndSend(WithConn(w, c, mid), c, flags[n], n);
      AdvancedMore(w.files, conn.subs, n);
      WithConnTwice(w, c, mid, mid.(subs := Advanced(w.files, conn.subs, n + 1), phase := Flushing(n + 1)));
    }
  }

  /** A whole flush of a connection. */
  function FlushOf(c: ConnId, flags: seq<bool>): seq<Action> {
    [Flush(c)] + (Visits(c, flags) + [Look(c, false)])
  }

  /** The connection once a flush is over. */
  function CaughtUp(files: map<Path, Entry>, conn: Conn): Conn {
    Conn(Advanced(files, conn.subs, |conn.subs|), false, Resting)
  }

  /** A flush with every send done brings every subscription of the connection to the latest generation of
      its path, clears its wake, and touches nothing else. */
  lemma FlushCatchesUp(w: World, c: ConnId, conn: Conn, flags: seq<bool>)
    requires c in w.conns && conn == w.conns[c] && conn.phase == Resting && conn.woken && conn.subs != []
    requires AllWatched(w, c) && |flags| == |conn.subs|
    ensures Run(w, FlushOf(c, flags)) == WithConn(w, c, CaughtUp(w.files, conn))
  {
    var began := conn.(woken := false, phase := Flushing(0));
    var w1 := WithConn(w, c, began);
    RunAppend(w, [Flush(c)], Visits(c, flags) + [Look(c, false)]);
    RunStep(w, [], Flush(c));
    assert [] + [Flush(c)] == [Flush(c)];
    assert Run(w, [Flush(c)]) == w1;
    VisitsAdvance(w1, c, began, flags);
    RunStep(w1, Visits(c, flags), Look(c, false));
    var visited := began.(subs := Advanced(w.files, conn.subs, |flags|), phase := Flushing(|flags|));
    WithConnTwice(w, c, began, visited);
    FlushEnds(WithConn(w, c, visited), c);
    WithConnTwice(w, c, visited, CaughtUp(w.files, conn));
  }

  lemma FlushEnds(w: World, c: ConnId)
    requires c in w.conns && w.conns[c].phase == Flushing(|w.conns[c].subs|)
    ensures Step(w, Look(c, false)) == WithConn(w, c, w.conns[c].(phase := Resting))
  {
  }

  lemma {:induction false} RunAppend(w: World, before: seq<Action>, more: seq<Action>)
    ensures Run(w, before + more) == Run(Run(w, before), more)
  {
    if more == [] {
      assert before + more == before;
    } else {
      var n := |more| - 1;
      RunAppend(w, before, more[..n]);
      RunStep(w, before + more[..n], more[n]);
      assert before + more == before + more[..n] + [more[n]];
    }
  }

  // ---- a publish reaches its subscribers ----

  /** From every reachable state: once a publish has given the signals it owes, every connection subscribed to
      the path has a wake, and nothing else of any connection has changed. */
  lemma PublishWakes(actions: seq<Action>, p: Path, n: nat, w: World, after: World)
    requires w == Run(Start(), actions) && p in w.files && w.task == Free && n > |w.files[p].wakes|
    requires after == Run(Start(), actions + [Publish(p)] + Signals(n))
    ensures after.task == Free && after.conns.Keys == w.conns.Keys && after.files.Keys == w.files.Keys
    ensures after.files[p].latest != w.files[p].latest && Unheld(w, after.files[p].latest)
    ensures forall q :: q in w.files && q != p ==> after.files[q] == w.files[q]
    ensures forall c :: c in w.conns ==>
              after.conns[c] == w.conns[c].(woken := w.conns[c].woken || c in w.files[p].wakes)
    ensures forall c :: c in w.conns && SubscribedTo(w.conns[c], p) ==> after.conns[c].woken
  {
    var published := Step(w, Publish(p));
    PublishIsNew(actions, p, w, published);
    RunStep(Start(), actions, Publish(p));
    RunAppend(Start(), actions + [Publish(p)], Signals(n));
    SignalsWake(published, n);
    assert FirstOf(published.task.todo, n) == published.task.todo;
  }

  /** And once a subscribed connection has flushed with every send done, each of its subscriptions holds the latest
      generation of its path: the published one for the path, and what it was for every other. */
  lemma PublishReaches(actions: seq<Action>, p: Path, n: nat, c: ConnId, flags: seq<bool>, w: World, after: World)
    requires w == Run(Start(), actions) && p in w.files && w.task == Free && n > |w.files[p].wakes|
    requires c in w.conns && w.conns[c].phase == Resting && SubscribedTo(w.conns[c], p)
    requires |flags| == |w.conns[c].subs|
    requires after == Run(Start(), actions + [Publish(p)] + Signals(n) + FlushOf(c, flags))
    ensures p in after.files && Unheld(w, after.files[p].latest)
    ensures forall q :: q in w.files && q != p ==> q in after.files && after.files[q] == w.files[q]
    ensures c in after.conns && after.conns[c].phase == Resting && !after.conns[c].woken
    ensures |after.conns[c].subs| == |w.conns[c].subs|
    ensures forall j :: 0 <= j < |w.conns[c].subs| ==>
              && w.conns[c].subs[j].path in after.files
              && after.conns[c].subs[j] == Sub(w.conns[c].subs[j].path, after.files[w.conns[c].subs[j].path].latest)
  {
    var mid := Run(Start(), actions + [Publish(p)] + Signals(n));
    PublishWakes(actions, p, n, w, mid);
    RunAppend(Start(), actions + [Publish(p)] + Signals(n), FlushOf(c, flags));
    RunKeepsInv(actions + [Publish(p)] + Signals(n));
    forall j | 0 <= j < |mid.conns[c].subs|
      ensures mid.conns[c].subs[j].path in mid.files
    {
      assert SubOk(mid.files, mid.task, c, mid.conns[c], j);
    }
    FlushCatchesUp(mid, c, mid.conns[c], flags);
  }

  // ---- attaching and leaving ----

  /** The steps of one subscription. */
  function AttachOf(c: ConnId, p: Path): seq<Action> {
    [] + [Ask(c, p)] + [BeginAttach(c, true)] + [FinishAttach] + [Install(c)]
  }

  /** The entry an attach finds or makes. */
  function EntryFor(w: World, p: Path): Entry {
    if p in w.files then w.files[p] else Entry(w.nextGen, [])
  }

  /** A subscription adds its path with the path's latest generation as baseline, registers its wake, and
      touches no other path or connection; a path is installed once. */
  lemma AttachSubscribes(w: World, c: ConnId, p: Path, conn: Conn, after: World)
    requires w.task == Free && c in w.conns && conn == w.conns[c] && conn.phase == Resting && |conn.subs| < 16
    requires after == Run(w, AttachOf(c, p))
    ensures after.task == Free
    ensures after.conns == w.conns[c := conn.(subs := conn.subs + [Sub(p, EntryFor(w, p).latest)])]
    ensures after.files == w.files[p := EntryFor(w, p).(wakes := EntryFor(w, p).wakes + [c])]
    ensures after.nextGen == if p in w.files then w.nextGen else w.nextGen + 1
  {
    var asking := conn.(phase := Asking(p));
    RunStep(w, [], Ask(c, p));
    var w1 := WithConn(w, c, asking);
    assert Run(w, [] + [Ask(c, p)]) == w1;
    RunStep(w, [] + [Ask(c, p)], BeginAttach(c, true));
    var w2 := Attach(w1, c, p);
    assert Run(w, [] + [Ask(c, p)] + [BeginAttach(c, true)]) == w2;
    RunStep(w, [] + [Ask(c, p)] + [BeginAttach(c, true)], FinishAttach);
    AttachFinishes(w, w2, c, p, asking);
    RunStep(w, [] + [Ask(c, p)] + [BeginAttach(c, true)] + [FinishAttach], Install(c));
    AttachInstalls(w, Step(w2, FinishAttach), c, p, asking, after);
    assert conn.subs == asking.subs;
  }

  lemma AttachFinishes(w: World, serving: World, c: ConnId, p: Path, asking: Conn)
    requires serving == Attach(WithConn(w, c, asking), c, p) && asking.phase == Asking(p) && w.task == Free
    ensures var done := Step(serving, FinishAttach);
            && done.task == Free && done.nextGen == (if p in w.files then w.nextGen else w.nextGen + 1)
            && done.conns == w.conns[c := asking.(phase := Answered(p, EntryFor(w, p).latest))]
            && done.files == w.files[p := EntryFor(w, p).(wakes := EntryFor(w, p).wakes + [c])]
  {
    var entry := EntryFor(w, p);
    assert p in serving.files && serving.files[p] == entry;
    assert serving.files[p := entry.(wakes := entry.wakes + [c])] == w.files[p := entry.(wakes := entry.wakes + [c])];
    WithConnTwice(w, c, asking, asking.(phase := Answered(p, entry.latest)));
  }

  lemma AttachInstalls(w: World, done: World, c: ConnId, p: Path, asking: Conn, after: World)
    requires done.conns == w.conns[c := asking.(phase := Answered(p, EntryFor(w, p).latest))]
    requires after == Step(done, Install(c))
    ensures after == done.(conns := w.conns[c := asking.(subs := asking.subs + [Sub(p, EntryFor(w, p).latest)], phase := Resting)])
  {
    var answered := asking.(phase := Answered(p, EntryFor(w, p).latest));
    WithConnTwice(w, c, answered,
                  asking.(subs := asking.subs + [Sub(p, EntryFor(w, p).latest)], phase := Resting));
  }

  /** A subscription beyond the connection's sixteen ends the connection, and so does one that the registry
      does not admit; nothing else changes. */
  lemma AttachRefused(w: World, c: ConnId, p: Path)
    requires c in w.conns && w.conns[c].phase == Resting && w.task == Free
    ensures |w.conns[c].subs| >= 16 ==> Step(w, Ask(c, p)) == w.(conns := w.conns - {c})
    ensures |w.conns[c].subs| < 16 ==> Step(Step(w, Ask(c, p)), BeginAttach(c, false)) == w.(conns := w.conns - {c})
  {
    assert w.conns[c := w.conns[c].(phase := Asking(p))] - {c} == w.conns - {c};
  }

  /** A path is let go exactly when the registry is idle and no connection receives it. */
  lemma ReapIff(w: World, p: Path)
    ensures var after := Step(w, Reap(p));
            && after.conns == w.conns && after.task == w.task && after.nextGen == w.nextGen
            && (forall q :: q != p ==> (q in after.files <==> q in w.files) && (q in w.files ==> after.files[q] == w.files[q]))
            && (p in w.files ==> (p !in after.files <==> w.task == Free && forall c :: c in w.conns ==> !Receives(w.conns[c], p)))
  {
  }

  /** The last subscriber of a path leaves, by unsubscribing or by ending, and the path is let go; while
      another connection receives it, it stays. */
  lemma LastToLeave(w: World, c: ConnId, p: Path, leave: Action)
    requires w.task == Free && p in w.files && c in w.conns
    requires leave == End(c) || (leave == Unsubscribe(c) && w.conns[c].phase == Resting)
    ensures var left := Step(w, leave);
            && left.files == w.files && (forall d :: d in w.conns && d != c ==> d in left.conns && left.conns[d] == w.conns[d])
            && (p !in Step(left, Reap(p)).files <==> forall d :: d in w.conns && d != c ==> !Receives(w.conns[d], p))
            && (c in left.conns ==> leave.Unsubscribe? && left.conns[c] == w.conns[c].(subs := []))
  {
    var left := Step(w, leave);
    ReapIff(left, p);
    assert c in left.conns ==> !Receives(left.conns[c], p);
    assert forall d :: d in left.conns && d != c ==> d in w.conns && left.conns[d] == w.conns[d];
  }

  // ---- the shape of a connection's life ----

  /** The phases a connection can go through in one step, and what changes with them. */
  ghost predicate Follows(files: map<Path, Entry>, conn: Conn, after: Conn) {
    match conn.phase
    case Resting =>
      || (after.phase == Resting && (after.subs == conn.subs || after.subs == []))
      || (after.phase.Asking? && after.subs == conn.subs && |conn.subs| < 16)
      || (after.phase == Flushing(0) && after.subs == conn.subs && conn.woken && !after.woken)
    case Asking(p) =>
      after.subs == conn.subs && (after.phase == conn.phase || (p in files && after.phase == Answered(p, files[p].latest)))
    case Answered(p, g) =>
      (after.phase == conn.phase && after.subs == conn.subs) || (after.phase == Resting && after.subs == conn.subs + [Sub(p, g)])
    case Flushing(i) =>
      || (after.subs == conn.subs && (after.phase == conn.phase || after.phase == Flushing(i + 1)))
      || (after.subs == conn.subs && after.phase == Resting && i >= |conn.subs|)
      || (i < |conn.subs| && conn.subs[i].path in files && after.subs == conn.subs
          && after.phase == Sending(i, files[conn.subs[i].path].latest))
      || (i < |conn.subs| && after.phase == Flushing(i + 1) && after.subs == conn.subs[i := LatestOf(files, conn.subs[i])])
    case Sending(i, g) =>
      || (after.phase == conn.phase && after.subs == conn.subs)
      || (i < |conn.subs| && after.phase == Flushing(i + 1) && after.subs == conn.subs[i := Sub(conn.subs[i].path, g)])
  }

  /** In every step a connection moves along these phases; a baseline changes only in a flush, a flush begins
      only with a wake, and a wake comes only from a signal owed to the connection. */
  lemma PhasesFollow(w: World, a: Action, c: ConnId, after: World)
    requires after == Step(w, a) && c in w.conns && c in after.conns
    ensures Follows(w.files, w.conns[c], after.conns[c])
    ensures after.conns[c].woken && !w.conns[c].woken ==>
              a == Signal && w.task.Signalling? && w.task.todo != [] && w.task.todo[0] == c
    ensures w.conns[c].woken && !after.conns[c].woken ==> a == Flush(c)
  {
    if a.Look? || a.Sent? {
      FlushFollows(w, a, c, after);
    }
  }

  lemma FlushFollows(w: World, a: Action, c: ConnId, after: World)
    requires (a.Look? || a.Sent?) && after == Step(w, a) && c in w.conns && c in after.conns
    ensures Follows(w.files, w.conns[c], after.conns[c]) && after.conns[c].woken == w.conns[c].woken
  {
  }
}
