/** Concrete disciplined runs of the reducer from a new viewer, showing where it departs from its
comments. Every state here is reached by a run whose completions answer emitted effects. */
module ViewerRuns {
  import opened Wrappers
  import opened ViewerTypes
  import opened ViewerHistory
  import opened ViewerStep
  import opened ViewerOwnership
  import opened ViewerPressure
  import opened ViewerDiscipline

  // ---- reached states ----

  function NewViewer(): Viewer {
    Initial(80, 24)
  }

  ghost predicate ReachedBy(r: Trace, s: Viewer, log: set<ViewerEffect>) {
    && AnsweringRun(r) && r.states[0] == NewViewer()
    && r.states[|r.inputs|] == s && Log(r, |r.effects|) == log
  }

  /** A disciplined run from a new viewer ends in `s`, having emitted the effects in `log`. */
  ghost predicate Reached(s: Viewer, log: set<ViewerEffect>) {
    exists r :: ReachedBy(r, s, log)
  }

  lemma NewIsReached()
    ensures Reached(NewViewer(), {})
  {
    var r := Trace([NewViewer()], [], []);
    assert ReachedBy(r, NewViewer(), {});
  }

  function Extended(r: Trace, e: ViewerEvent, out: Out): Trace {
    Trace(r.states + [out.s], r.inputs + [Input.Input(e, ALL_PREPARED)], r.effects + [out.effects])
  }

  lemma {:induction false} LogOfPrefix(r: Trace, r': Trace, n: nat)
    requires n <= |r.effects| <= |r'.effects| && forall i :: 0 <= i < |r.effects| ==> r'.effects[i] == r.effects[i]
    ensures Log(r', n) == Log(r, n)
  {
    if n > 0 {
      LogOfPrefix(r, r', n - 1);
    }
  }

  lemma ExtendedIsRun(r: Trace, e: ViewerEvent, out: Out)
    requires IsRun(r) && out == Step(r.states[|r.inputs|], e, ALL_PREPARED)
    ensures IsRun(Extended(r, e, out))
  {
    var r' := Extended(r, e, out);
    forall i | 0 <= i < |r'.inputs|
      ensures StepAt(r', i)
    {
      if i < |r.inputs| { assert StepAt(r, i); }
    }
  }

  lemma ExtendedIsAnswered(r: Trace, e: ViewerEvent, out: Out, i: nat)
    requires |r.effects| == |r.inputs| && i <= |r.inputs|
    requires i < |r.inputs| ==> AnsweredAt(r, i)
    requires i == |r.inputs| ==> Answered(e, Log(r, |r.effects|))
    ensures AnsweredAt(Extended(r, e, out), i)
  {
    LogOfPrefix(r, Extended(r, e, out), i);
  }

  lemma ExtendedAnswers(r: Trace, e: ViewerEvent, out: Out)
    requires AnsweringRun(r) && out == Step(r.states[|r.inputs|], e, ALL_PREPARED) && CountersFit(out.s)
    requires Answered(e, Log(r, |r.effects|))
    ensures AnsweringRun(Extended(r, e, out))
  {
    ExtendedIsRun(r, e, out);
    forall i | 0 <= i <= |r.inputs|
      ensures AnsweredAt(Extended(r, e, out), i)
    {
      ExtendedIsAnswered(r, e, out, i);
    }
  }

  lemma ExtendedEnd(r: Trace, e: ViewerEvent, out: Out)
    requires |r.states| == |r.inputs| + 1 && |r.effects| == |r.inputs|
    ensures var r' := Extended(r, e, out);
            && r'.states[0] == r.states[0] && r'.states[|r'.inputs|] == out.s
            && Log(r', |r'.effects|) == Logged(Log(r, |r.effects|), out.effects)
  {
    var r' := Extended(r, e, out);
    LogOfPrefix(r, r', |r.effects|);
  }

  /** One more event leads from a reached state to a reached state. */
  lemma ReachStep(s: Viewer, log: set<ViewerEffect>, e: ViewerEvent, out: Out)
    requires Reached(s, log) && Answered(e, log) && out == Step(s, e, ALL_PREPARED) && CountersFit(out.s)
    ensures Reached(out.s, Logged(log, out.effects))
  {
    var r :| ReachedBy(r, s, log);
    ExtendedAnswers(r, e, out);
    ExtendedEnd(r, e, out);
    assert ReachedBy(Extended(r, e, out), out.s, Logged(log, out.effects));
  }

  lemma AnsweredBy(e: ViewerEvent, log: set<ViewerEffect>, f: ViewerEffect)
    requires f in log && Answers(e, f)
    ensures Answered(e, log)
  {
  }

  // ---- loading pages ----

  const SITE: Origin := 7

  function PageOf(k: nat): PageScope {
    PageScope(SITE, k)
  }

  /** The history after loading `k` pages. */
  function Pages(k: nat): (h: History)
    ensures |h| == k && forall i :: 0 <= i < k ==> h[i] == HistoryEntry(i + 1, PageOf(i + 1), 0, "")
  {
    if k == 0 then [] else Pages(k - 1) + [HistoryEntry(k, PageOf(k), 0, "")]
  }

  lemma {:induction false} PagesAreSmall(h: History)
    requires forall i :: 0 <= i < |h| ==> h[i].aml == ""
    ensures Bytes(h) == 0
  {
    if h != [] {
      PagesAreSmall(h[1..]);
    }
  }

  /** The viewer once the `k`th page has been committed. */
  function Loaded(k: nat): Viewer {
    if k == 0 then NewViewer()
    else
      NewViewer().(history := Pages(k), position := Some(k - 1), phase := Connecting, scope := Some(PageOf(k)),
                   currentUri := Some(0), connection := Dialing, generation := k, nextRequestId := k + 1,
                   nextHistoryId := k + 1, outstanding := {k})
  }

  function Navigating(k: nat): Viewer {
    Loaded(k).(phase := Connecting, scope := Some(PageOf(k + 1)), currentUri := Some(0), connection := Dialing,
               generation := k + 1, nextRequestId := k + 2, outstanding := {k + 1})
  }

  lemma NavigateStep(k: nat, out: Out)
    requires k < 100 && out == Step(Loaded(k), Navigate(0, SITE), ALL_PREPARED)
    ensures out.s == Navigating(k) && Fetch(Owner(PageOf(k + 1), k + 1), 0) in out.effects
  {
    var s := Loaded(k);
    assert Succ(k) == k + 1 && Succ(k + 1) == k + 2;
    var renewed := Renewed(s, PageOf(k + 1), 0, Append);
    RequestAges(renewed);
    assert {} + {k + 1} == {k + 1};
  }

  lemma AdmitStep(k: nat, out: Out)
    requires k < 100 && out == Step(Navigating(k), HistoryAdmissionRequested(Owner(PageOf(k + 1), k + 1), 0, ""), ALL_PREPARED)
    ensures out.s == Navigating(k).(pendingCommit := Some(PendingCommit(Owner(PageOf(k + 1), k + 1), k + 1, 0, "", Append)))
    ensures out.effects == [AdmitHistoryArtifact(Owner(PageOf(k + 1), k + 1), k + 1, false)]
  {
  }

  lemma CommitPlaces(k: nat)
    requires k < 100
    ensures CommitEntry(Pages(k), if k == 0 then None else Some(k - 1), Append, HistoryEntry(k + 1, PageOf(k + 1), 0, ""))
            == Commit(Pages(k + 1), Some(k), [])
  {
    var h, position := Pages(k), if k == 0 then None else Some(k - 1);
    var entry := HistoryEntry(k + 1, PageOf(k + 1), 0, "");
    assert h[..k] == h && h[k..] == [] && Ids([]) == [];
    assert Truncate(h, position) == Commit(h, position, []);
    assert Place(h, position, Append, entry) == Commit(h + [entry], Some(k), []);
    PagesAreSmall(Pages(k + 1));
    assert !OverBudget(Pages(k + 1));
  }

  lemma CommitStep(k: nat, s: Viewer, out: Out)
    requires k < 100
    requires s == Navigating(k).(pendingCommit := Some(PendingCommit(Owner(PageOf(k + 1), k + 1), k + 1, 0, "", Append)))
    requires out == Step(s, HistoryCommitted(Owner(PageOf(k + 1), k + 1), k + 1), ALL_PREPARED)
    ensures out.s == Loaded(k + 1)
  {
    CommitPlaces(k);
    assert Succ(k + 1) == k + 2;
    assert out == CommitPending(s, s.pendingCommit.value);
  }

  /** Loading one more page. */
  lemma LoadOne(k: nat, log: set<ViewerEffect>) returns (log': set<ViewerEffect>)
    requires k < 100 && Reached(Loaded(k), log)
    ensures Reached(Loaded(k + 1), log') && Fetch(Owner(PageOf(k + 1), k + 1), 0) in log'
  {
    var o := Owner(PageOf(k + 1), k + 1);
    var e1 := Navigate(0, SITE);
    var out1 := Step(Loaded(k), e1, ALL_PREPARED);
    NavigateStep(k, out1);
    ReachStep(Loaded(k), log, e1, out1);
    var log1 := Logged(log, out1.effects);
    var e2 := HistoryAdmissionRequested(o, 0, "");
    AnsweredBy(e2, log1, Fetch(o, 0));
    var out2 := Step(Navigating(k), e2, ALL_PREPARED);
    AdmitStep(k, out2);
    ReachStep(Navigating(k), log1, e2, out2);
    var log2 := Logged(log1, out2.effects);
    var e3 := HistoryCommitted(o, k + 1);
    assert out2.effects[0] in log2;
    AnsweredBy(e3, log2, AdmitHistoryArtifact(o, k + 1, false));
    var out3 := Step(out2.s, e3, ALL_PREPARED);
    CommitStep(k, out2.s, out3);
    ReachStep(out2.s, log2, e3, out3);
    log' := Logged(log2, out3.effects);
  }

  lemma {:induction false} LoadMany(k: nat) returns (log: set<ViewerEffect>)
    requires 0 < k <= 100
    ensures Reached(Loaded(k), log) && Fetch(Owner(PageOf(k), k), 0) in log
  {
    var before := {};
    if k == 1 {
      NewIsReached();
    } else {
      before := LoadMany(k - 1);
    }
    log := LoadOne(k - 1, before);
  }

  // ---- eviction under a pending activation ----

  /** The request that shows the second of three pages. */
  function Jumping(): Owner {
    Owner(PageOf(4), 4)
  }

  function Jumped(): Viewer {
    Loaded(3).(generation := 4, scope := Some(PageOf(4)), phase := Parsing, outstanding := {4}, nextRequestId := 5,
               history := Pages(3)[1 := HistoryEntry(2, PageOf(4), 0, "")],
               pendingHistory := Some(PendingActivation(1, 4, PageOf(2), Some(2), Some(PageOf(3)), Some(0), Connecting,
                                                        Dialing)))
  }

  lemma JumpStep(out: Out)
    requires out == Step(Loaded(3), JumpToHistory(1), ALL_PREPARED)
    ensures out.s == Jumped()
    ensures ActivateCachedHistory(Jumping(), HistoryEntry(2, PageOf(4), 0, "")) in out.effects
  {
    var s := Loaded(3);
    var showing := Showing(s, 1, PageOf(4), false);
    RequestAges(showing);
    assert {} + {4} == {4};
  }

  function Squeezed(): Viewer {
    Jumped().(history := [HistoryEntry(2, PageOf(4), 0, ""), HistoryEntry(3, PageOf(3), 0, "")], position := Some(1))
  }

  lemma SqueezeStep(out: Out)
    requires out == Step(Jumped(), HistoryEvictionRequested(Reported(0)), ALL_PREPARED)
    ensures out.s == Squeezed()
  {
    var s := Jumped();
    assert !Protected(s, s.history[0].id);
    assert Evictable(s, 0) == 0;
    assert Without(s.history, 0) == [s.history[1], s.history[2]];
  }

  /** Load three pages, jump to the second, evict the first under pressure. */
  lemma SqueezedIsReached() returns (log: set<ViewerEffect>)
    ensures Reached(Squeezed(), log)
    ensures ActivateCachedHistory(Jumping(), HistoryEntry(2, PageOf(4), 0, "")) in log
  {
    var log0 := LoadMany(3);
    var out1 := Step(Loaded(3), JumpToHistory(1), ALL_PREPARED);
    JumpStep(out1);
    ReachStep(Loaded(3), log0, JumpToHistory(1), out1);
    var log1 := Logged(log0, out1.effects);
    var evict := HistoryEvictionRequested(Reported(0));
    var out2 := Step(Jumped(), evict, ALL_PREPARED);
    SqueezeStep(out2);
    ReachStep(Jumped(), log1, evict, out2);
    log := Logged(log1, out2.effects);
  }

  /** Then the activation fails: the history keeps two pages but the position says the third. */
  lemma EvictionLeavesPositionDangling() returns (s: Viewer, log: set<ViewerEffect>)
    ensures Reached(s, log) && s == Step(Squeezed(), ParseFailed(Jumping(), Reported(1)), ALL_PREPARED).s
    ensures |s.history| == 2 && s.position == Some(2) && s.history[0].scope == PageOf(4)
  {
    var before := SqueezedIsReached();
    var e := ParseFailed(Jumping(), Reported(1));
    var out := Step(Squeezed(), e, ALL_PREPARED);
    AnsweredBy(e, before, ActivateCachedHistory(Jumping(), HistoryEntry(2, PageOf(4), 0, "")));
    ReachStep(Squeezed(), before, e, out);
    s, log := out.s, Logged(before, out.effects);
  }

  /** Or it succeeds: the second page is shown, and the history says the third is current. */
  lemma EvictionShowsWrongEntry() returns (s: Viewer, log: set<ViewerEffect>)
    ensures Reached(s, log) && s.phase == Ready && s.scope == Some(PageOf(4))
    ensures |s.history| == 2 && s.position == Some(1) && s.history[1].id == 3 && s.history[0] == HistoryEntry(2, PageOf(4), 0, "")
  {
    var o := Jumping();
    var log0 := SqueezedIsReached();
    var e1 := ParseCompleted(o);
    var out1 := Step(Squeezed(), e1, ALL_PREPARED);
    AnsweredBy(e1, log0, ActivateCachedHistory(o, HistoryEntry(2, PageOf(4), 0, "")));
    ReachStep(Squeezed(), log0, e1, out1);
    var log1 := Logged(log0, out1.effects);
    assert out1 == Out(Squeezed().(phase := Layout), [PrepareLayout(o)]);
    assert out1.effects[0] in log1;
    var e2 := LayoutPrepared(o, 0);
    var out2 := Step(out1.s, e2, ALL_PREPARED);
    AnsweredBy(e2, log1, PrepareLayout(o));
    ReachStep(out1.s, log1, e2, out2);
    var log2 := Logged(log1, out2.effects);
    assert out2 == Out(out1.s, [ActivateLayout(o)]);
    assert out2.effects[0] in log2;
    var e3 := LayoutActivated(o);
    var out3 := Step(out2.s, e3, ALL_PREPARED);
    AnsweredBy(e3, log2, ActivateLayout(o));
    ReachStep(out2.s, log2, e3, out3);
    s, log := out3.s, Logged(log2, out3.effects);
  }

  // ---- a retry that outlives its page ----

  function Stored(): Viewer {
    Loaded(2).(phase := Parsing, pressureRetry := Some(RetryParse(Owner(PageOf(2), 2))))
  }

  lemma RefuseStep(out: Out)
    requires out == Step(Loaded(2).(phase := Parsing),
                         PresentationFailed(Reported(0), Some(RetryParse(Owner(PageOf(2), 2)))), ALL_PREPARED)
    ensures out.s == Stored()
  {
  }

  lemma ParseStep(out: Out)
    requires out == Step(Loaded(2), FetchCompleted(Owner(PageOf(2), 2)), ALL_PREPARED)
    ensures out == Out(Loaded(2).(phase := Parsing), [Parse(Owner(PageOf(2), 2))])
  {
  }

  /** Load two pages; the parse of the second is refused for memory and stored. */
  lemma StoredIsReached() returns (log: set<ViewerEffect>)
    ensures Reached(Stored(), log)
  {
    var o := Owner(PageOf(2), 2);
    var log0 := LoadMany(2);
    var e1 := FetchCompleted(o);
    var out1 := Step(Loaded(2), e1, ALL_PREPARED);
    AnsweredBy(e1, log0, Fetch(o, 0));
    ParseStep(out1);
    ReachStep(Loaded(2), log0, e1, out1);
    var log1 := Logged(log0, out1.effects);
    assert out1.effects[0] in log1;
    var e2 := PresentationFailed(Reported(0), Some(RetryParse(o)));
    var out2 := Step(out1.s, e2, ALL_PREPARED);
    AnsweredBy(e2, log1, Parse(o));
    RefuseStep(out2);
    ReachStep(out1.s, log1, e2, out2);
    log := Logged(log1, out2.effects);
  }

  /** A step back shows the first page; when memory is released, the parse of the second is asked for again. */
  lemma RetiredRetryIsEmitted() returns (s: Viewer, log: set<ViewerEffect>, out: Out)
    ensures Reached(s, log) && s.scope == Some(PageOf(3))
    ensures out == Step(s, ResourceEvictionCompleted(Reported(0), true), ALL_PREPARED)
    ensures Reached(out.s, Logged(log, out.effects)) && Parse(Owner(PageOf(2), 2)) in out.effects
  {
    var before := StoredIsReached();
    var out1 := Step(Stored(), Back, ALL_PREPARED);
    BackStep(out1);
    ReachStep(Stored(), before, Back, out1);
    s, log := out1.s, Logged(before, out1.effects);
    var e := ResourceEvictionCompleted(Reported(0), true);
    out := Step(s, e, ALL_PREPARED);
    assert out.effects[0] == Parse(Owner(PageOf(2), 2));
    ReachStep(s, log, e, out);
  }

  lemma BackStep(out: Out)
    requires out == Step(Stored(), Back, ALL_PREPARED)
    ensures out.s.scope == Some(PageOf(3)) && out.s.pressureRetry == Stored().pressureRetry && CountersFit(out.s)
  {
    RequestAges(Showing(Stored(), 0, PageOf(3), false));
  }
}
