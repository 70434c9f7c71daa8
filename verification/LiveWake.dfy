/** Live-region fan-out (live_watch.rs and the wake arm of lib.rs): one registry task and
many connections, interleaved at every point where either can be suspended.

A wake is a channel of capacity one, so it is a flag. A generation's number stands
for the identity of its shared allocation; a republished text is a new generation. */
module LiveWake {
  import opened Wrappers

  type Path = nat
  type ConnId = nat
  type Gen = nat

  const MAX_SUBSCRIPTIONS_PER_CONNECTION: nat := 16

  datatype Sub = Sub(path: Path, baseline: Gen)

  /** Where a connection task is. While it sends, it is past borrowing the
      generation and has not yet advanced the baseline. */
  datatype Phase =
    | Resting
    | Asking(path: Path)
    | Answered(path: Path, current: Gen)
    | Flushing(upTo: nat)
    | Sending(upTo: nat, gen: Gen)

  datatype Conn = Conn(subs: seq<Sub>, woken: bool, phase: Phase)

  datatype Entry = Entry(latest: Gen, wakes: seq<ConnId>)

  /** What the registry task is doing: attaching a subscriber before or after its
      read, or signalling the wakes of a generation it has just published. */
  datatype Task =
    | Free
    | Serving(conn: ConnId, path: Path, done: bool)
    | Signalling(path: Path, todo: seq<ConnId>, attach: Option<ConnId>)

  datatype World = World(files: map<Path, Entry>, conns: map<ConnId, Conn>, task: Task, nextGen: Gen)

  datatype Action =
    | Connect(conn: ConnId)
    | Ask(conn: ConnId, path: Path)
    | BeginAttach(conn: ConnId, admitted: bool)
    | Publish(path: Path)
    | Signal
    | FinishAttach
    | Install(conn: ConnId)
    | Flush(conn: ConnId)
    | Look(conn: ConnId, oversize: bool)
    | Sent(conn: ConnId)
    | Unsubscribe(conn: ConnId)
    | End(conn: ConnId)
    | Reap(path: Path)

  function Start(): World {
    World(map[], map[], Free, 1)
  }

  /** Keep the wakes of connections that are still there. */
  function Open(wakes: seq<ConnId>, conns: map<ConnId, Conn>): (r: seq<ConnId>)
    ensures forall c :: c in r <==> c in wakes && c in conns
  {
    if wakes == [] then []
    else
      var rest := Open(wakes[1..], conns);
      assert wakes == [wakes[0]] + wakes[1..];
      (if wakes[0] in conns then [wakes[0]] else []) + rest
  }

  function WithConn(w: World, c: ConnId, conn: Conn): World {
    w.(conns := w.conns[c := conn])
  }

  /** Install the path if it is new, take a receiver, and start reading. */
  function Attach(w: World, c: ConnId, p: Path): World {
    if p in w.files then w.(task := Serving(c, p, false))
    else w.(files := w.files[p := Entry(w.nextGen, [])], nextGen := w.nextGen + 1, task := Serving(c, p, false))
  }

  /** Replace the shared value, then owe every open wake a signal. */
  function Replace(w: World, p: Path, attach: Option<ConnId>): World
    requires p in w.files
  {
    var wakes := Open(w.files[p].wakes, w.conns);
    w.(files := w.files[p := Entry(w.nextGen, wakes)], nextGen := w.nextGen + 1,
       task := Signalling(p, wakes, attach))
  }

  function SignalNext(w: World): World
    requires w.task.Signalling?
  {
    if w.task.todo == [] then
      w.(task := if w.task.attach.Some? then Serving(w.task.attach.value, w.task.path, true) else Free)
    else
      var c := w.task.todo[0];
      var told := w.(task := w.task.(todo := w.task.todo[1..]));
      if c in w.conns then WithConn(told, c, w.conns[c].(woken := true)) else told
  }

  /** Register the wake, then answer with the current generation. */
  function Finish(w: World): World
    requires w.task.Serving? && w.task.path in w.files
  {
    var c, p := w.task.conn, w.task.path;
    var entry := w.files[p].(wakes := w.files[p].wakes + [c]);
    var done := w.(files := w.files[p := entry], task := Free);
    if c in w.conns && w.conns[c].phase == Asking(p)
    then WithConn(done, c, w.conns[c].(phase := Answered(p, entry.latest))) else done
  }

  /** Visit one subscription of a flush. */
  function Visit(files: map<Path, Entry>, conn: Conn, oversize: bool): Conn
    requires conn.phase.Flushing?
  {
    var i := conn.phase.upTo;
    if i >= |conn.subs| then conn.(phase := Resting)
    else if conn.subs[i].path !in files then conn
    else
      var next := files[conn.subs[i].path].latest;
      if next == conn.subs[i].baseline then conn.(phase := Flushing(i + 1))
      else if oversize then
        conn.(subs := conn.subs[i := conn.subs[i].(baseline := next)], phase := Flushing(i + 1))
      else conn.(phase := Sending(i, next))
  }

  predicate Receives(conn: Conn, p: Path) {
    || (exists j :: 0 <= j < |conn.subs| && conn.subs[j].path == p)
    || (conn.phase.Answered? && conn.phase.path == p)
  }

  /** One step; an action that is not enabled changes nothing. */
  function Step(w: World, a: Action): World {
    match a
    case Connect(c) => if c in w.conns then w else WithConn(w, c, Conn([], false, Resting))
    case Ask(c, p) =>
      if c !in w.conns || w.conns[c].phase != Resting then w
      else if |w.conns[c].subs| >= MAX_SUBSCRIPTIONS_PER_CONNECTION then w.(conns := w.conns - {c})
      else WithConn(w, c, w.conns[c].(phase := Asking(p)))
    case BeginAttach(c, admitted) =>
      if w.task != Free || c !in w.conns || !w.conns[c].phase.Asking? then w
      else if admitted then Attach(w, c, w.conns[c].phase.path)
      else w.(conns := w.conns - {c})
    case Publish(p) =>
      if p !in w.files then w
      else if w.task == Free then Replace(w, p, None)
      else if w.task.Serving? && w.task.path == p && !w.task.done then Replace(w, p, Some(w.task.conn))
      else w
    case Signal => if w.task.Signalling? then SignalNext(w) else w
    case FinishAttach => if w.task.Serving? && w.task.path in w.files then Finish(w) else w
    case Install(c) =>
      if c in w.conns && w.conns[c].phase.Answered? then
        var conn := w.conns[c];
        WithConn(w, c, conn.(subs := conn.subs + [Sub(conn.phase.path, conn.phase.current)], phase := Resting))
      else w
    case Flush(c) =>
      if c in w.conns && w.conns[c].phase == Resting && w.conns[c].woken && w.conns[c].subs != []
      then WithConn(w, c, w.conns[c].(woken := false, phase := Flushing(0))) else w
    case Look(c, oversize) =>
      if c in w.conns && w.conns[c].phase.Flushing? then WithConn(w, c, Visit(w.files, w.conns[c], oversize)) else w
    case Sent(c) =>
      if c in w.conns && w.conns[c].phase.Sending? && w.conns[c].phase.upTo < |w.conns[c].subs| then
        var conn := w.conns[c];
        var i := conn.phase.upTo;
        WithConn(w, c, conn.(subs := conn.subs[i := conn.subs[i].(baseline := conn.phase.gen)],
                             phase := Flushing(i + 1)))
      else w
    case Unsubscribe(c) =>
      if c in w.conns && w.conns[c].phase == Resting then WithConn(w, c, w.conns[c].(subs := [])) else w
    case End(c) => w.(conns := w.conns - {c})
    case Reap(p) =>
      if w.task == Free && p in w.files && forall c :: c in w.conns ==> !Receives(w.conns[c], p)
      then w.(files := w.files - {p}) else w
  }

  // ---- the invariant ----

  /** The registry still owes the connection a signal for a generation of this path. */
  predicate Pending(task: Task, c: ConnId, p: Path) {
    task.Signalling? && task.path == p && c in task.todo
  }

  /** A running flush has not yet come to subscription `j`. */
  predicate Unvisited(phase: Phase, j: nat) {
    (phase.Flushing? && j >= phase.upTo) || (phase.Sending? && j > phase.upTo)
  }

  /** The generation subscription `j` has, or will have once the send in progress ends. */
  function Holding(conn: Conn, j: nat): Gen
    requires j < |conn.subs|
  {
    if conn.phase.Sending? && conn.phase.upTo == j then conn.phase.gen else conn.subs[j].baseline
  }

  ghost predicate Registered(files: map<Path, Entry>, c: ConnId, p: Path) {
    p in files && c in files[p].wakes
  }

  ghost predicate Informed(files: map<Path, Entry>, task: Task, c: ConnId, conn: Conn, p: Path, g: Gen) {
    Registered(files, c, p) && (files[p].latest == g || conn.woken || Pending(task, c, p))
  }

  ghost predicate SubOk(files: map<Path, Entry>, task: Task, c: ConnId, conn: Conn, j: nat)
    requires j < |conn.subs|
  {
    && Registered(files, c, conn.subs[j].path)
    && (Unvisited(conn.phase, j) || Informed(files, task, c, conn, conn.subs[j].path, Holding(conn, j)))
  }

  ghost predicate ConnOk(files: map<Path, Entry>, task: Task, c: ConnId, conn: Conn) {
    && (forall j :: 0 <= j < |conn.subs| ==> SubOk(files, task, c, conn, j))
    && (conn.phase.Answered? ==> Informed(files, task, c, conn, conn.phase.path, conn.phase.current))
    && (conn.phase.Sending? ==> conn.phase.upTo < |conn.subs|)
  }

  ghost predicate TaskOk(files: map<Path, Entry>, task: Task) {
    task != Free ==> task.path in files
  }

  ghost predicate Inv(w: World) {
    TaskOk(w.files, w.task) && forall c :: c in w.conns ==> ConnOk(w.files, w.task, c, w.conns[c])
  }

  /** What is promised of an installed subscription: it is up to date, or a wake is queued, or
      a publish is still about to signal it, or a running flush will still come to it or is
      sending it the latest generation. */
  ghost predicate NotLost(w: World, c: ConnId, j: nat)
    requires c in w.conns && j < |w.conns[c].subs|
  {
    var conn := w.conns[c];
    var p := conn.subs[j].path;
    && p in w.files
    && (|| w.files[p].latest == conn.subs[j].baseline
        || conn.woken
        || Pending(w.task, c, p)
        || Unvisited(conn.phase, j)
        || conn.phase == Sending(j, w.files[p].latest))
  }

  lemma InvMeansNotLost(w: World, c: ConnId, j: nat)
    requires Inv(w) && c in w.conns && j < |w.conns[c].subs|
    ensures NotLost(w, c, j)
  {
    assert SubOk(w.files, w.task, c, w.conns[c], j);
  }

  // ---- steps of one connection ----

  lemma OneConn(w: World, c: ConnId, conn: Conn)
    requires Inv(w) && ConnOk(w.files, w.task, c, conn)
    ensures Inv(WithConn(w, c, conn))
  {
  }

  lemma SubsUnchanged(files: map<Path, Entry>, task: Task, c: ConnId, conn: Conn, after: Conn)
    requires ConnOk(files, task, c, conn) && after.subs == conn.subs
    requires conn.woken ==> after.woken
    requires forall j :: Unvisited(conn.phase, j) ==> Unvisited(after.phase, j)
    requires !conn.phase.Sending? && !after.phase.Sending? && !after.phase.Answered?
    ensures ConnOk(files, task, c, after)
  {
    forall j | 0 <= j < |after.subs|
      ensures SubOk(files, task, c, after, j)
    {
      assert SubOk(files, task, c, conn, j);
    }
  }

  lemma InstallStep(w: World, c: ConnId)
    requires Inv(w)
    ensures Inv(Step(w, Install(c)))
  {
    if c in w.conns && w.conns[c].phase.Answered? {
      var conn := w.conns[c];
      var after := conn.(subs := conn.subs + [Sub(conn.phase.path, conn.phase.current)], phase := Resting);
      forall j | 0 <= j < |after.subs|
        ensures SubOk(w.files, w.task, c, after, j)
      {
        if j < |conn.subs| {
          assert SubOk(w.files, w.task, c, conn, j);
          assert after.subs[j] == conn.subs[j];
        }
      }
      OneConn(w, c, after);
    }
  }

  lemma FlushStep(w: World, c: ConnId)
    requires Inv(w)
    ensures Inv(Step(w, Flush(c)))
  {
    if c in w.conns && w.conns[c].phase == Resting && w.conns[c].woken && w.conns[c].subs != [] {
      var conn := w.conns[c];
      var after := conn.(woken := false, phase := Flushing(0));
      forall j | 0 <= j < |after.subs|
        ensures SubOk(w.files, w.task, c, after, j)
      {
        assert SubOk(w.files, w.task, c, conn, j);
      }
      OneConn(w, c, after);
    }
  }

  lemma VisitOk(files: map<Path, Entry>, task: Task, c: ConnId, conn: Conn, oversize: bool)
    requires ConnOk(files, task, c, conn) && conn.phase.Flushing?
    ensures ConnOk(files, task, c, Visit(files, conn, oversize))
  {
    var after := Visit(files, conn, oversize);
    forall j | 0 <= j < |after.subs|
      ensures SubOk(files, task, c, after, j)
    {
      assert SubOk(files, task, c, conn, j);
    }
  }

  lemma LookStep(w: World, c: ConnId, oversize: bool)
    requires Inv(w)
    ensures Inv(Step(w, Look(c, oversize)))
  {
    if c in w.conns && w.conns[c].phase.Flushing? {
      VisitOk(w.files, w.task, c, w.conns[c], oversize);
      OneConn(w, c, Visit(w.files, w.conns[c], oversize));
    }
  }

  lemma SentStep(w: World, c: ConnId)
    requires Inv(w)
    ensures Inv(Step(w, Sent(c)))
  {
    if c in w.conns && w.conns[c].phase.Sending? && w.conns[c].phase.upTo < |w.conns[c].subs| {
      var conn := w.conns[c];
      var i := conn.phase.upTo;
      var after := conn.(subs := conn.subs[i := conn.subs[i].(baseline := conn.phase.gen)], phase := Flushing(i + 1));
      forall j | 0 <= j < |after.subs|
        ensures SubOk(w.files, w.task, c, after, j)
      {
        assert SubOk(w.files, w.task, c, conn, j);
      }
      OneConn(w, c, after);
    }
  }

  // ---- steps of the registry ----

  /** What a connection relies on survives a step of the registry. */
  ghost predicate Carries(files: map<Path, Entry>, task: Task, after: map<Path, Entry>, next: Task, c: ConnId, p: Path) {
    Registered(files, c, p) ==>
      && Registered(after, c, p)
      && (Pending(next, c, p) || (after[p].latest == files[p].latest && !Pending(task, c, p)))
  }

  lemma CarriedConn(files: map<Path, Entry>, task: Task, after: map<Path, Entry>, next: Task, c: ConnId, conn: Conn)
    requires ConnOk(files, task, c, conn) && forall p :: Carries(files, task, after, next, c, p)
    ensures ConnOk(after, next, c, conn)
  {
    forall j | 0 <= j < |conn.subs|
      ensures SubOk(after, next, c, conn, j)
    {
      assert SubOk(files, task, c, conn, j);
      assert Carries(files, task, after, next, c, conn.subs[j].path);
    }
    if conn.phase.Answered? {
      assert Carries(files, task, after, next, c, conn.phase.path);
    }
  }

  lemma AttachStep(w: World, c: ConnId, p: Path)
    requires Inv(w) && w.task == Free
    ensures Inv(Attach(w, c, p))
  {
    var after := Attach(w, c, p);
    forall d | d in w.conns
      ensures ConnOk(after.files, after.task, d, w.conns[d])
    {
      CarriedConn(w.files, w.task, after.files, after.task, d, w.conns[d]);
    }
  }

  lemma ReplaceStep(w: World, p: Path, attach: Option<ConnId>)
    requires Inv(w) && p in w.files && !w.task.Signalling?
    ensures Inv(Replace(w, p, attach))
  {
    var after := Replace(w, p, attach);
    forall d | d in w.conns
      ensures ConnOk(after.files, after.task, d, w.conns[d])
    {
      CarriedConn(w.files, w.task, after.files, after.task, d, w.conns[d]);
    }
  }

  lemma SignalledConn(files: map<Path, Entry>, task: Task, next: Task, c: ConnId, conn: Conn)
    requires ConnOk(files, task, c, conn) && task.Signalling? && task.todo != []
    requires next == task.(todo := task.todo[1..])
    ensures ConnOk(files, next, c, if c == task.todo[0] then conn.(woken := true) else conn)
  {
    assert task.todo == [task.todo[0]] + task.todo[1..];
    var after := if c == task.todo[0] then conn.(woken := true) else conn;
    forall j | 0 <= j < |after.subs|
      ensures SubOk(files, next, c, after, j)
    {
      assert SubOk(files, task, c, conn, j);
    }
  }

  lemma SignalStep(w: World)
    requires Inv(w) && w.task.Signalling?
    ensures Inv(SignalNext(w))
  {
    var after := SignalNext(w);
    forall d | d in after.conns
      ensures ConnOk(after.files, after.task, d, after.conns[d])
    {
      if w.task.todo != [] {
        SignalledConn(w.files, w.task, after.task, d, w.conns[d]);
      } else {
        CarriedConn(w.files, w.task, after.files, after.task, d, w.conns[d]);
      }
    }
  }

  lemma FinishStep(w: World)
    requires Inv(w) && w.task.Serving? && w.task.path in w.files
    ensures Inv(Finish(w))
  {
    var c, p := w.task.conn, w.task.path;
    var entry := w.files[p].(wakes := w.files[p].wakes + [c]);
    var done := w.(files := w.files[p := entry], task := Free);
    forall d | d in w.conns
      ensures ConnOk(done.files, done.task, d, w.conns[d])
    {
      CarriedConn(w.files, w.task, done.files, done.task, d, w.conns[d]);
    }
    if c in w.conns && w.conns[c].phase == Asking(p) {
      var after := w.conns[c].(phase := Answered(p, entry.latest));
      forall j | 0 <= j < |after.subs|
        ensures SubOk(done.files, done.task, c, after, j)
      {
        assert SubOk(done.files, done.task, c, w.conns[c], j);
      }
      OneConn(done, c, after);
    }
  }

  lemma ReapStep(w: World, p: Path)
    requires Inv(w)
    ensures Inv(Step(w, Reap(p)))
  {
    if w.task == Free && p in w.files && forall c :: c in w.conns ==> !Receives(w.conns[c], p) {
      forall d | d in w.conns
        ensures ConnOk(w.files - {p}, w.task, d, w.conns[d])
      {
        var conn := w.conns[d];
        assert !Receives(conn, p);
        forall j | 0 <= j < |conn.subs|
          ensures SubOk(w.files - {p}, w.task, d, conn, j)
        {
          assert SubOk(w.files, w.task, d, conn, j);
        }
      }
    }
  }

  lemma ConnStep(w: World, a: Action)
    requires Inv(w) && (a.Connect? || a.Ask? || a.Unsubscribe? || a.End?)
    ensures Inv(Step(w, a))
  {
    if a.Ask? {
      if a.conn in w.conns && w.conns[a.conn].phase == Resting {
        var conn := w.conns[a.conn];
        SubsUnchanged(w.files, w.task, a.conn, conn, conn.(phase := Asking(a.path)));
        OneConn(w, a.conn, conn.(phase := Asking(a.path)));
      }
    } else if a.Connect? {
      if a.conn !in w.conns {
        OneConn(w, a.conn, Conn([], false, Resting));
      }
    } else if a.Unsubscribe? {
      if a.conn in w.conns && w.conns[a.conn].phase == Resting {
        OneConn(w, a.conn, w.conns[a.conn].(subs := []));
      }
    }
  }

  /** Every step keeps the invariant. */
  lemma StepKeepsInv(w: World, a: Action)
    requires Inv(w)
    ensures Inv(Step(w, a))
  {
    if a.Install? {
      InstallStep(w, a.conn);
    } else if a.Flush? {
      FlushStep(w, a.conn);
    } else if a.Look? {
      LookStep(w, a.conn, a.oversize);
    } else if a.Sent? {
      SentStep(w, a.conn);
    } else if a.Signal? {
      if w.task.Signalling? { SignalStep(w); }
    } else if a.Publish? {
      if a.path in w.files && !w.task.Signalling? {
        ReplaceStep(w, a.path, None);
        if w.task.Serving? { ReplaceStep(w, a.path, Some(w.task.conn)); }
      }
    } else if a.BeginAttach? {
      if w.task == Free && a.conn in w.conns && w.conns[a.conn].phase.Asking? {
        AttachStep(w, a.conn, w.conns[a.conn].phase.path);
      }
    } else if a.FinishAttach? {
      if w.task.Serving? && w.task.path in w.files { FinishStep(w); }
    } else if a.Reap? {
      ReapStep(w, a.path);
    } else {
      ConnStep(w, a);
    }
  }

  function Run(w: World, actions: seq<Action>): World {
    if actions == [] then w else Step(Run(w, actions[..|actions| - 1]), actions[|actions| - 1])
  }

  lemma {:induction false} RunKeepsInv(actions: seq<Action>)
    ensures Inv(Run(Start(), actions))
  {
    if actions != [] {
      RunKeepsInv(actions[..|actions| - 1]);
      StepKeepsInv(Run(Start(), actions[..|actions| - 1]), actions[|actions| - 1]);
    }
  }

  /** No wake is lost, in any interleaving. */
  lemma NoLostWake(actions: seq<Action>, c: ConnId, j: nat)
    requires c in Run(Start(), actions).conns && j < |Run(Start(), actions).conns[c].subs|
    ensures NotLost(Run(Start(), actions), c, j)
  {
    RunKeepsInv(actions);
    InvMeansNotLost(Run(Start(), actions), c, j);
  }

  /** When the registry and a connection have nothing left to do, the connection has everything. */
  lemma QuietMeansCurrent(actions: seq<Action>, c: ConnId, j: nat)
    requires var w := Run(Start(), actions);
             w.task == Free && c in w.conns && w.conns[c].phase == Resting && !w.conns[c].woken
             && j < |w.conns[c].subs|
    ensures var w := Run(Start(), actions);
            w.conns[c].subs[j].path in w.files
            && w.conns[c].subs[j].baseline == w.files[w.conns[c].subs[j].path].latest
  {
    NoLostWake(actions, c, j);
  }

  // ---- an attach and its own wake ----

  /** Signal every connection that is owed one. */
  function SignalAll(w: World): World
    requires w.task.Signalling?
    decreases |w.task.todo|
  {
    if w.task.todo == [] then SignalNext(w) else SignalAll(SignalNext(w))
  }

  lemma {:induction false} SignalAllWakes(w: World, c: ConnId)
    requires w.task.Signalling? && c in w.conns
    ensures c in SignalAll(w).conns
    ensures SignalAll(w).conns[c] == w.conns[c].(woken := w.conns[c].woken || c in w.task.todo)
    ensures SignalAll(w).files == w.files
    decreases |w.task.todo|
  {
    if w.task.todo != [] {
      assert w.task.todo == [w.task.todo[0]] + w.task.todo[1..];
      SignalAllWakes(SignalNext(w), c);
    }
  }

  /** An attach that publishes wakes its own connection exactly when that connection was already
      registered for the path; a first attach leaves no wake for the generation it returns. */
  lemma AttachWakesItselfIff(w: World)
    requires w.task.Serving? && !w.task.done && w.task.path in w.files
    requires w.task.conn in w.conns && w.conns[w.task.conn].phase == Asking(w.task.path)
    ensures var c, p := w.task.conn, w.task.path;
            var signalled := SignalAll(Replace(w, p, Some(c)));
            && signalled.task == Serving(c, p, true) && p in signalled.files
            && c in Finish(signalled).conns
            && Finish(signalled).conns[c].woken == (w.conns[c].woken || c in w.files[p].wakes)
            && Finish(signalled).conns[c].phase == Answered(p, w.nextGen)
  {
    var c, p := w.task.conn, w.task.path;
    var replaced := Replace(w, p, Some(c));
    SignalAllWakes(replaced, c);
    SignalAllEnds(replaced);
  }

  lemma {:induction false} SignalAllEnds(w: World)
    requires w.task.Signalling? && w.task.attach.Some?
    ensures SignalAll(w).task == Serving(w.task.attach.value, w.task.path, true)
    decreases |w.task.todo|
  {
    if w.task.todo != [] {
      SignalAllEnds(SignalNext(w));
    }
  }

  lemma RunStep(w: World, actions: seq<Action>, a: Action)
    ensures Run(w, actions + [a]) == Step(Run(w, actions), a)
  {
    assert (actions + [a])[..|actions|] == actions;
  }

  /** Subscribe to a path, then ask for it again. */
  function Reattaching(): seq<Action> {
    [] + [Connect(0)] + [Ask(0, 5)] + [BeginAttach(0, true)] + [FinishAttach] + [Install(0)] + [Ask(0, 5)]
    + [BeginAttach(0, true)]
  }

  lemma Overwrite(a: Conn, b: Conn)
    ensures (map[0 := a])[0 := b] == map[0 := b]
  {
  }

  lemma ReattachingRun()
    ensures Run(Start(), Reattaching())
            == World(map[5 := Entry(1, [0])], map[0 := Conn([Sub(5, 1)], false, Asking(5))], Serving(0, 5, false), 2)
  {
    var w := Start();
    var a1 := [] + [Connect(0)];
    var a2 := a1 + [Ask(0, 5)];
    var a3 := a2 + [BeginAttach(0, true)];
    var a4 := a3 + [FinishAttach];
    RunStep(w, [], Connect(0));
    RunStep(w, a1, Ask(0, 5));
    RunStep(w, a2, BeginAttach(0, true));
    RunStep(w, a3, FinishAttach);
    Overwrite(Conn([], false, Resting), Conn([], false, Asking(5)));
    Overwrite(Conn([], false, Asking(5)), Conn([], false, Answered(5, 1)));
    assert Run(w, a1) == World(map[], map[0 := Conn([], false, Resting)], Free, 1);
    assert Run(w, a2) == World(map[], map[0 := Conn([], false, Asking(5))], Free, 1);
    assert Run(w, a3) == World(map[5 := Entry(1, [])], map[0 := Conn([], false, Asking(5))], Serving(0, 5, false), 2);
    assert map[5 := Entry(1, [])][5 := Entry(1, [0])] == map[5 := Entry(1, [0])];
    assert [] + [0] == [0];
    assert Run(w, a4) == World(map[5 := Entry(1, [0])], map[0 := Conn([], false, Answered(5, 1))], Free, 2);
    ReattachingEnd(w, a4);
  }

  lemma ReattachingEnd(w: World, before: seq<Action>)
    requires Run(w, before) == World(map[5 := Entry(1, [0])], map[0 := Conn([], false, Answered(5, 1))], Free, 2)
    ensures Run(w, before + [Install(0)] + [Ask(0, 5)] + [BeginAttach(0, true)])
            == World(map[5 := Entry(1, [0])], map[0 := Conn([Sub(5, 1)], false, Asking(5))], Serving(0, 5, false), 2)
  {
    Overwrite(Conn([], false, Answered(5, 1)), Conn([Sub(5, 1)], false, Resting));
    Overwrite(Conn([Sub(5, 1)], false, Resting), Conn([Sub(5, 1)], false, Asking(5)));
    assert [] + [Sub(5, 1)] == [Sub(5, 1)];
    RunStep(w, before, Install(0));
    RunStep(w, before + [Install(0)], Ask(0, 5));
    RunStep(w, before + [Install(0)] + [Ask(0, 5)], BeginAttach(0, true));
  }

  /** The second attach reads a changed file: the connection is answered with the new generation and has
      a wake queued for it that was not queued before. */
  lemma ReattachWakesItself()
    ensures var before := Run(Start(), Reattaching());
            var after := Run(Start(), Reattaching() + [Publish(5)] + [Signal] + [Signal] + [FinishAttach]);
            && 0 in before.conns && !before.conns[0].woken
            && 0 in after.conns && after.conns[0].woken && after.conns[0].phase == Answered(5, 2)
  {
    ReattachingRun();
    var w, actions := Start(), Reattaching();
    RunStep(w, actions, Publish(5));
    RunStep(w, actions + [Publish(5)], Signal);
    RunStep(w, actions + [Publish(5)] + [Signal], Signal);
    RunStep(w, actions + [Publish(5)] + [Signal] + [Signal], FinishAttach);
    assert Open([0], map[0 := Conn([Sub(5, 1)], false, Asking(5))]) == [0] by {
      assert [0][1..] == [];
    }
    assert Run(w, actions + [Publish(5)]).task == Signalling(5, [0], Some(0));
    assert [0][1..] == [];
    assert Run(w, actions + [Publish(5)] + [Signal] + [Signal]).task == Serving(0, 5, true);
  }
}
