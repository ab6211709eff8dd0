// documentCapture.ts: one slot, four moments. Idle and pane-open captures give
// way to the one in flight, an apply waits for it, a finalize overtakes it.
//
// An async function runs in pieces, one per await. Each piece is a step here;
// between steps anything may happen in any order, so a run of the program is
// any sequence of enabled steps.

module DocumentCapture {
  import opened Wrappers
  import opened Collections

  datatype Moment = PaneOpen | Apply | Idle | Finalize

  /** What is compared before a send: the texts and the tracked changes, as sent. */
  type Content = string

  /** A capture's own run: waiting for the document, waiting for the reply, or settled. */
  datatype Phase = Reading | Sending(content: Content) | Settled

  /** `owned`: the capture that started it has yet to resume after it.
      `met`: the run an apply found in the slot when it was called. */
  datatype Run = Run(moment: Moment, phase: Phase, owned: bool, met: Option<nat>)

  /** An apply waiting for its turn: the run it met, and the run it awaits now. */
  datatype Waiter = Waiter(met: nat, awaiting: nat)

  /** A timer variable and the callbacks the browser still holds. */
  datatype Timer = Timer(handle: Option<nat>, live: set<nat>)

  /** How a (re)start of a timer can end: cancel and schedule may each throw. */
  datatype Restart = Restarted | CancelThrew | ScheduleThrew

  datatype State = State(
    running: Option<nat>,
    stopped: bool,
    lastSent: Option<Content>,
    timer: Timer,
    applyTimer: Timer,
    runs: seq<Run>,
    waiters: map<nat, Waiter>,
    calls: nat,
    handles: nat,
    finals: nat)

  datatype Event =
    | Call(moment: Moment, hasId: bool)
    | WaiterResumes(w: nat, hasId: bool)
    | ReadSettles(r: nat, reading: Option<Content>)
    | SendSettles(r: nat, enabled: Option<bool>)
    | OwnerResumes(r: nat)
    | Changed(how: Restart)
    | Applied(how: Restart)
    | IdleFires(h: nat, hasId: bool)
    | ApplyFires(h: nat, hasId: bool)

  const INIT := State(None, false, None, Timer(None, {}), Timer(None, {}), [], map[], 0, 0, 0)

  predicate SendsOnlyOnChange(m: Moment) {
    m == Idle || m == Apply
  }

  // ----- The pieces

  /** run() up to its first await: no document id settles it at once. */
  function Start(s: State, m: Moment, met: Option<nat>, hasId: bool): State {
    s.(runs := s.runs + [Run(m, if hasId then Reading else Settled, true, met)],
       running := Some(|s.runs|),
       finals := if m == Finalize then s.finals + 1 else s.finals)
  }

  /** capture() up to its first await. */
  function Capture(s: State, m: Moment, hasId: bool): State {
    if s.stopped then s
    else if m == Apply && s.running.Some? then
      s.(waiters := s.waiters[s.calls := Waiter(s.running.value, s.running.value)], calls := s.calls + 1)
    else if s.running.Some? && m != Finalize then s
    else Start(s, m, None, hasId)
  }

  /** The wait loop of an apply, once the run it awaits has settled. */
  function Resume(s: State, w: nat, hasId: bool): State
    requires w in s.waiters
  {
    var waiter := s.waiters[w];
    if s.running.Some? then s.(waiters := s.waiters[w := waiter.(awaiting := s.running.value)])
    else
      var s' := s.(waiters := s.waiters - {w});
      if s.stopped then s' else Start(s', Apply, Some(waiter.met), hasId)
  }

  function SetPhase(s: State, r: nat, p: Phase): State
    requires r < |s.runs|
  {
    s.(runs := s.runs[r := s.runs[r].(phase := p)])
  }

  function AfterRead(s: State, r: nat, reading: Option<Content>): State
    requires r < |s.runs|
  {
    match reading
    case None => SetPhase(s, r, Settled)
    case Some(c) =>
      SetPhase(s, r, if SendsOnlyOnChange(s.runs[r].moment) && s.lastSent == Some(c) then Settled else Sending(c))
  }

  function AfterSend(s: State, r: nat, enabled: Option<bool>): State
    requires r < |s.runs| && s.runs[r].phase.Sending?
  {
    match enabled
    case None => SetPhase(s, r, Settled)
    case Some(on) =>
      SetPhase(s, r, Settled).(lastSent := Some(s.runs[r].phase.content), stopped := s.stopped || !on)
  }

  /** capture() after its own run: only the latest run clears the slot. */
  function AfterOwn(s: State, r: nat): State
    requires r < |s.runs|
  {
    s.(runs := s.runs[r := s.runs[r].(owned := false)],
       running := if s.running == Some(r) then None else s.running)
  }

  function Rearm(t: Timer, next: nat, how: Restart): Timer {
    match how
    case CancelThrew => t
    case ScheduleThrew => if t.handle.Some? then t.(live := t.live - {t.handle.value}) else t
    case Restarted =>
      Timer(Some(next), (if t.handle.Some? then t.live - {t.handle.value} else t.live) + {next})
  }

  function Fired(t: Timer, h: nat): Timer {
    Timer(None, t.live - {h})
  }

  function Step(s: State, e: Event): Option<State> {
    match e
    case Call(m, hasId) => Some(Capture(s, m, hasId))
    case WaiterResumes(w, hasId) =>
      if w in s.waiters && s.waiters[w].awaiting < |s.runs| && s.runs[s.waiters[w].awaiting].phase.Settled?
      then Some(Resume(s, w, hasId)) else None
    case ReadSettles(r, reading) =>
      if r < |s.runs| && s.runs[r].phase.Reading? then Some(AfterRead(s, r, reading)) else None
    case SendSettles(r, enabled) =>
      if r < |s.runs| && s.runs[r].phase.Sending? then Some(AfterSend(s, r, enabled)) else None
    case OwnerResumes(r) =>
      if r < |s.runs| && s.runs[r].phase.Settled? && s.runs[r].owned then Some(AfterOwn(s, r)) else None
    case Changed(how) =>
      if s.stopped then Some(s) else Some(s.(timer := Rearm(s.timer, s.handles, how), handles := s.handles + 1))
    case Applied(how) =>
      if s.stopped then Some(s)
      else Some(s.(applyTimer := Rearm(s.applyTimer, s.handles, how), handles := s.handles + 1))
    case IdleFires(h, hasId) =>
      if h in s.timer.live then Some(Capture(s.(timer := Fired(s.timer, h)), Idle, hasId)) else None
    case ApplyFires(h, hasId) =>
      if h in s.applyTimer.live then Some(Capture(s.(applyTimer := Fired(s.applyTimer, h)), Apply, hasId)) else None
  }

  /** The state after a sequence of steps, when each was enabled in turn. */
  function After(s: State, es: seq<Event>): Option<State>
    decreases |es|
  {
    if es == [] then Some(s)
    else
      match Step(s, es[0])
      case None => None
      case Some(s') => After(s', es[1..])
  }

  ghost predicate Reachable(s: State) {
    exists es :: After(INIT, es) == Some(s)
  }

  // ----- What every reachable state keeps

  /** Runs in flight that do not hold the slot. */
  function Outside(s: State): set<nat> {
    set r: nat | r < |s.runs| && !s.runs[r].phase.Settled? && s.running != Some(r)
  }

  /** At most one callback pending, the one the variable names. */
  predicate Debounced(t: Timer, handles: nat) {
    && (t.handle.Some? ==> t.handle.value < handles)
    && (t.live == {} || (t.handle.Some? && t.live == {t.handle.value}))
  }

  ghost predicate Inv(s: State) {
    && (s.running.Some? ==> s.running.value < |s.runs| && s.runs[s.running.value].owned)
    && (forall r :: 0 <= r < |s.runs| && !s.runs[r].owned ==> s.runs[r].phase.Settled?)
    && (forall r :: 0 <= r < |s.runs| && s.runs[r].met.Some? ==>
          s.runs[r].met.value < r && s.runs[s.runs[r].met.value].phase.Settled?)
    && (forall w :: w in s.waiters ==>
          && w < s.calls && s.waiters[w].met < |s.runs| && s.waiters[w].awaiting < |s.runs|
          && (s.waiters[w].awaiting == s.waiters[w].met || s.runs[s.waiters[w].met].phase.Settled?))
    && |Outside(s)| <= s.finals
    && Debounced(s.timer, s.handles) && Debounced(s.applyTimer, s.handles)
  }

  lemma StartKeepsInv(s: State, m: Moment, met: Option<nat>, hasId: bool)
    requires Inv(s) && (s.running.None? || m == Finalize)
    requires met.Some? ==> met.value < |s.runs| && s.runs[met.value].phase.Settled?
    ensures Inv(Start(s, m, met, hasId))
  {
    var s' := Start(s, m, met, hasId);
    if s.running.Some? {
      SubsetSize(Outside(s'), Outside(s) + {s.running.value});
    } else {
      SubsetSize(Outside(s'), Outside(s));
    }
  }

  lemma CaptureKeepsInv(s: State, m: Moment, hasId: bool)
    requires Inv(s)
    ensures Inv(Capture(s, m, hasId))
  {
    var s' := Capture(s, m, hasId);
    if !s.stopped && m == Apply && s.running.Some? {
      assert Outside(s') == Outside(s);
    } else if !s.stopped && (s.running.None? || m == Finalize) {
      StartKeepsInv(s, m, None, hasId);
    }
  }

  lemma ResumeKeepsInv(s: State, w: nat, hasId: bool)
    requires Inv(s) && Step(s, WaiterResumes(w, hasId)).Some?
    ensures Inv(Resume(s, w, hasId))
  {
    if s.running.Some? {
      assert Outside(Resume(s, w, hasId)) == Outside(s);
    } else {
      var s' := s.(waiters := s.waiters - {w});
      assert Outside(s') == Outside(s);
      if !s.stopped {
        StartKeepsInv(s', Apply, Some(s.waiters[w].met), hasId);
      }
    }
  }

  lemma PhaseKeepsInv(s: State, r: nat, p: Phase)
    requires Inv(s) && r < |s.runs| && !s.runs[r].phase.Settled? 
    ensures Inv(SetPhase(s, r, p))
  {
    SubsetSize(Outside(SetPhase(s, r, p)), Outside(s));
  }

  lemma OwnKeepsInv(s: State, r: nat)
    requires Inv(s) && Step(s, OwnerResumes(r)).Some?
    ensures Inv(AfterOwn(s, r))
  {
    assert Outside(AfterOwn(s, r)) == Outside(s);
  }

  lemma SendKeepsInv(s: State, r: nat, enabled: Option<bool>)
    requires Inv(s) && Step(s, SendSettles(r, enabled)).Some?
    ensures Inv(AfterSend(s, r, enabled))
  {
    PhaseKeepsInv(s, r, Settled);
    assert Outside(AfterSend(s, r, enabled)) == Outside(SetPhase(s, r, Settled));
  }

  lemma RearmKeepsInv(s: State, t: Timer, a: Timer, handles: nat)
    requires Inv(s) && Debounced(t, handles) && Debounced(a, handles)
    ensures Inv(s.(timer := t, applyTimer := a, handles := handles))
  {
    assert Outside(s.(timer := t, applyTimer := a, handles := handles)) == Outside(s);
  }

  lemma FireKeepsInv(s: State, e: Event)
    requires Inv(s) && Step(s, e).Some? && (e.IdleFires? || e.ApplyFires?)
    ensures Inv(Step(s, e).value)
  {
    if e.IdleFires? {
      RearmKeepsInv(s, Fired(s.timer, e.h), s.applyTimer, s.handles);
      CaptureKeepsInv(s.(timer := Fired(s.timer, e.h)), Idle, e.hasId);
    } else {
      RearmKeepsInv(s, s.timer, Fired(s.applyTimer, e.h), s.handles);
      CaptureKeepsInv(s.(applyTimer := Fired(s.applyTimer, e.h)), Apply, e.hasId);
    }
  }

  lemma ReadKeepsInv(s: State, r: nat, reading: Option<Content>)
    requires Inv(s) && Step(s, ReadSettles(r, reading)).Some?
    ensures Inv(AfterRead(s, r, reading))
  {
    PhaseKeepsInv(s, r, AfterRead(s, r, reading).runs[r].phase);
  }

  lemma RestartKeepsInv(s: State, e: Event)
    requires Inv(s) && (e.Changed? || e.Applied?)
    ensures Inv(Step(s, e).value)
  {
    if e.Changed? {
      RearmKeepsInv(s, Rearm(s.timer, s.handles, e.how), s.applyTimer, s.handles + 1);
    } else {
      RearmKeepsInv(s, s.timer, Rearm(s.applyTimer, s.handles, e.how), s.handles + 1);
    }
  }

  lemma StepKeepsInv(s: State, e: Event)
    requires Inv(s) && Step(s, e).Some?
    ensures Inv(Step(s, e).value)
  {
    match e
    case Call(m, hasId) => CaptureKeepsInv(s, m, hasId);
    case WaiterResumes(w, hasId) => ResumeKeepsInv(s, w, hasId);
    case ReadSettles(r, reading) => ReadKeepsInv(s, r, reading);
    case SendSettles(r, enabled) => SendKeepsInv(s, r, enabled);
    case OwnerResumes(r) => OwnKeepsInv(s, r);
    case Changed(_) => RestartKeepsInv(s, e);
    case Applied(_) => RestartKeepsInv(s, e);
    case IdleFires(_, _) => FireKeepsInv(s, e);
    case ApplyFires(_, _) => FireKeepsInv(s, e);
  }

  lemma {:induction false} RunKeepsInv(s: State, es: seq<Event>)
    requires Inv(s) && After(s, es).Some?
    ensures Inv(After(s, es).value)
    decreases |es|
  {
    if es != [] {
      StepKeepsInv(s, es[0]);
      RunKeepsInv(Step(s, es[0]).value, es[1..]);
    }
  }

  lemma ReachableKeepsInv(s: State)
    requires Reachable(s)
    ensures Inv(s)
  {
    var es :| After(INIT, es) == Some(s);
    assert Outside(INIT) == {};
    RunKeepsInv(INIT, es);
  }

  // ----- No run starts after a reply turned capture off

  lemma {:induction false} StoppedIsFinal(s: State, es: seq<Event>)
    requires s.stopped && After(s, es).Some?
    ensures After(s, es).value.stopped && |After(s, es).value.runs| == |s.runs|
    decreases |es|
  {
    if es != [] {
      assert Step(s, es[0]).value.stopped && |Step(s, es[0]).value.runs| == |s.runs|;
      StoppedIsFinal(Step(s, es[0]).value, es[1..]);
    }
  }

  // ----- How far captures overlap

  ghost predicate AtMostOne(s: State) {
    forall i, j :: 0 <= i < j < |s.runs| ==> s.runs[i].phase.Settled? || s.runs[j].phase.Settled?
  }

  /** Runs in flight outside the slot never outnumber the finalize captures
      started, so before the first finalize at most one run is in flight. */
  lemma OverlapIsFinalize(s: State)
    requires Reachable(s)
    ensures |Outside(s)| <= s.finals
    ensures s.finals == 0 ==> AtMostOne(s)
  {
    ReachableKeepsInv(s);
    if s.finals == 0 {
      forall r | 0 <= r < |s.runs| && !s.runs[r].phase.Settled?
        ensures s.running == Some(r)
      {
        assert r !in Outside(s);
      }
    }
  }

  // ----- Who frees the slot

  /** Only the holder's own capture empties the slot, once its run has settled;
      only a finalize puts a new run over one still there. */
  lemma SlotIsFreedByItsHolder(s: State, e: Event)
    requires Step(s, e).Some? && s.running.Some?
    ensures var s' := Step(s, e).value;
            && (s'.running.None? ==> e == OwnerResumes(s.running.value) && s.running.value < |s.runs|
                                     && s.runs[s.running.value].phase.Settled?)
            && (s'.running.Some? && s'.running != s.running ==>
                  e.Call? && e.moment == Finalize && s'.running.value == |s.runs|)
  {
  }

  /** Nothing is left hanging: once every run has settled and every capture has
      resumed after its own, the slot is free and each waiting apply may go on. */
  lemma QuietMeansFree(s: State)
    requires Reachable(s)
    requires forall r :: 0 <= r < |s.runs| ==> s.runs[r].phase.Settled? && !s.runs[r].owned
    ensures s.running.None?
    ensures forall w, hasId :: w in s.waiters ==> Step(s, WaiterResumes(w, hasId)).Some?
  {
    ReachableKeepsInv(s);
  }

  // ----- Applies

  /** An apply that met a run in the slot reads only after that run has settled. */
  lemma ApplyReadsAfter(s: State, r: nat)
    requires Reachable(s) && r < |s.runs| && s.runs[r].met.Some?
    ensures s.runs[r].met.value < r && s.runs[s.runs[r].met.value].phase.Settled?
  {
    ReachableKeepsInv(s);
  }

  /** The run an apply is bound to is the slot's holder at its call, and it keeps
      that bond until it starts or capture has been turned off. */
  lemma ApplyIsNeverDropped(s: State, e: Event, w: nat)
    requires Reachable(s) && Step(s, e).Some? && w in s.waiters
    ensures var s' := Step(s, e).value;
            || (w in s'.waiters && s'.waiters[w].met == s.waiters[w].met)
            || (e.WaiterResumes? && s.stopped)
            || (e.WaiterResumes? && |s'.runs| == |s.runs| + 1 && s'.running == Some(|s.runs|)
                && s'.runs[|s.runs|].moment == Apply && s'.runs[|s.runs|].met == Some(s.waiters[w].met))
  {
    ReachableKeepsInv(s);
    if !e.WaiterResumes? {
      OthersKeepWaiters(s, e, w);
    }
  }

  lemma OthersKeepWaiters(s: State, e: Event, w: nat)
    requires w in s.waiters && w < s.calls && Step(s, e).Some? && !e.WaiterResumes?
    ensures w in Step(s, e).value.waiters && Step(s, e).value.waiters[w] == s.waiters[w]
  {
  }

  lemma ApplyWaitsForTheSlot(s: State, hasId: bool)
    requires s.running.Some? && !s.stopped
    ensures var s' := Step(s, Call(Apply, hasId)).value;
            s'.runs == s.runs && s.calls in s'.waiters && s'.waiters[s.calls].met == s.running.value
  {
  }

  /** The run a step starts. */
  predicate Starts(s: State, e: Event) {
    Step(s, e).Some? && |Step(s, e).value.runs| == |s.runs| + 1
  }

  /** The run in the slot, if any. */
  function Holder(s: State): set<nat> {
    if s.running.Some? then {s.running.value} else {}
  }

  /** The run a step overtakes: the one in the slot when a finalize takes it. */
  function TakenOver(s: State, e: Event): set<nat> {
    if e.Call? && e.moment == Finalize && !s.stopped then Holder(s) else {}
  }

  /** The runs overtaken on the way. */
  function Overtaken(s: State, es: seq<Event>): set<nat>
    decreases |es|
  {
    if es == [] then {}
    else
      match Step(s, es[0])
      case None => {}
      case Some(s') => TakenOver(s, es[0]) + Overtaken(s', es[1..])
  }

  /** Runs of `over` that are still in flight. */
  function InFlight(s: State, over: set<nat>): set<nat> {
    set r | r in over && r < |s.runs| && !s.runs[r].phase.Settled?
  }

  /** Outside the slot is in flight exactly what was overtaken. */
  ghost predicate OutsideIs(s: State, over: set<nat>) {
    Outside(s) == InFlight(s, over) && forall r :: r in over ==> r < |s.runs| && s.running != Some(r)
  }

  lemma StartOvertakes(s: State, m: Moment, met: Option<nat>, hasId: bool, over: set<nat>)
    requires Inv(s) && OutsideIs(s, over) && (s.running.None? || m == Finalize)
    ensures OutsideIs(Start(s, m, met, hasId), over + Holder(s))
  {
    var s' := Start(s, m, met, hasId);
    var over' := over + Holder(s);
    forall r: nat
      ensures r in Outside(s') <==> r in InFlight(s', over')
    {
      assert r in Outside(s) <==> r in InFlight(s, over);
    }
  }

  lemma CaptureOvertakes(s: State, m: Moment, hasId: bool, over: set<nat>)
    requires Inv(s) && OutsideIs(s, over)
    ensures OutsideIs(Capture(s, m, hasId), over + TakenOver(s, Call(m, hasId)))
  {
    if !s.stopped && (s.running.None? || m == Finalize) {
      StartOvertakes(s, m, None, hasId, over);
    } else {
      SameOutside(s, Capture(s, m, hasId), over);
    }
    assert over + {} == over;
  }

  lemma ResumeOvertakes(s: State, w: nat, hasId: bool, over: set<nat>)
    requires Inv(s) && OutsideIs(s, over) && Step(s, WaiterResumes(w, hasId)).Some?
    ensures OutsideIs(Resume(s, w, hasId), over)
  {
    var s' := s.(waiters := s.waiters - {w});
    if s.running.None? && !s.stopped {
      ResumeKeepsInv(s, w, hasId);
      SameOutside(s, s', over);
      StartOvertakes(s', Apply, Some(s.waiters[w].met), hasId, over);
      assert over + {} == over;
    } else {
      SameOutside(s, Resume(s, w, hasId), over);
    }
  }

  lemma SameOutside(s: State, s': State, over: set<nat>)
    requires OutsideIs(s, over) && s'.runs == s.runs && s'.running == s.running
    ensures OutsideIs(s', over)
  {
    assert Outside(s') == Outside(s);
  }

  lemma SettleOvertakes(s: State, e: Event, over: set<nat>)
    requires Inv(s) && OutsideIs(s, over) && Step(s, e).Some? && (e.ReadSettles? || e.SendSettles? || e.OwnerResumes?)
    ensures OutsideIs(Step(s, e).value, over)
  {
    var s' := Step(s, e).value;
    forall r: nat
      ensures r in Outside(s') <==> r in InFlight(s', over)
    {
      assert r in Outside(s) <==> r in InFlight(s, over);
    }
  }

  lemma FireOvertakes(s: State, e: Event, over: set<nat>)
    requires Inv(s) && OutsideIs(s, over) && Step(s, e).Some? && (e.IdleFires? || e.ApplyFires?)
    ensures OutsideIs(Step(s, e).value, over)
  {
    var fired := if e.IdleFires? then s.(timer := Fired(s.timer, e.h)) else s.(applyTimer := Fired(s.applyTimer, e.h));
    RearmKeepsInv(s, fired.timer, fired.applyTimer, s.handles);
    SameOutside(s, fired, over);
    var m := if e.IdleFires? then Idle else Apply;
    CaptureOvertakes(fired, m, e.hasId, over);
    assert over + {} == over;
  }

  lemma StepOvertakes(s: State, e: Event, over: set<nat>)
    requires Inv(s) && OutsideIs(s, over) && Step(s, e).Some?
    ensures OutsideIs(Step(s, e).value, over + TakenOver(s, e))
  {
    assert over + {} == over;
    match e
    case Call(m, hasId) => CaptureOvertakes(s, m, hasId, over);
    case WaiterResumes(w, hasId) => ResumeOvertakes(s, w, hasId, over);
    case ReadSettles(_, _) => SettleOvertakes(s, e, over);
    case SendSettles(_, _) => SettleOvertakes(s, e, over);
    case OwnerResumes(_) => SettleOvertakes(s, e, over);
    case Changed(_) => SameOutside(s, Step(s, e).value, over);
    case Applied(_) => SameOutside(s, Step(s, e).value, over);
    case IdleFires(_, _) => FireOvertakes(s, e, over);
    case ApplyFires(_, _) => FireOvertakes(s, e, over);
  }

  lemma {:induction false} RunOvertakes(s: State, es: seq<Event>, over: set<nat>)
    requires Inv(s) && OutsideIs(s, over) && After(s, es).Some?
    ensures OutsideIs(After(s, es).value, over + Overtaken(s, es))
    decreases |es|
  {
    if es == [] {
      assert over + {} == over;
    } else {
      StepKeepsInv(s, es[0]);
      StepOvertakes(s, es[0], over);
      var s', taken := Step(s, es[0]).value, TakenOver(s, es[0]);
      RunOvertakes(s', es[1..], over + taken);
      assert over + Overtaken(s, es) == over + taken + Overtaken(s', es[1..]);
    }
  }

  /** The runs in flight outside the slot are exactly the overtaken ones not yet settled. */
  lemma OutsideIsOvertaken(es: seq<Event>)
    requires After(INIT, es).Some?
    ensures Outside(After(INIT, es).value) == InFlight(After(INIT, es).value, Overtaken(INIT, es))
  {
    assert Outside(INIT) == {} && InFlight(INIT, {}) == {};
    RunOvertakes(INIT, es, {});
    assert {} + Overtaken(INIT, es) == Overtaken(INIT, es);
  }

  /** An apply's run starts beside no other run in flight exactly when every run
      a finalize overtook on the way has settled. */
  lemma ApplyStartsAlone(es: seq<Event>, e: Event)
    requires After(INIT, es).Some? && StartsApply(After(INIT, es).value, e)
    ensures var s := After(INIT, es).value;
            && (forall r :: 0 <= r < |s.runs| ==> Step(s, e).value.runs[r] == s.runs[r])
            && (AllSettled(s) <==> InFlight(s, Overtaken(INIT, es)) == {})
  {
    var s := After(INIT, es).value;
    SlotIsFreeAtStart(s, e);
    OutsideIsInFlight(s);
    OutsideIsOvertaken(es);
  }

  predicate AllSettled(s: State) {
    forall r :: 0 <= r < |s.runs| ==> s.runs[r].phase.Settled?
  }

  predicate StartsApply(s: State, e: Event) {
    Starts(s, e) && Step(s, e).value.runs[|s.runs|].moment == Apply
  }

  /** So without a finalize an apply always starts alone. */
  lemma NoFinalizeNothingOvertaken(s: State, es: seq<Event>)
    requires forall i :: 0 <= i < |es| ==> !(es[i].Call? && es[i].moment == Finalize)
    ensures Overtaken(s, es) == {}
    decreases |es|
  {
    if es != [] && Step(s, es[0]).Some? {
      NoFinalizeNothingOvertaken(Step(s, es[0]).value, es[1..]);
    }
  }

  lemma SlotIsFreeAtStart(s: State, e: Event)
    requires StartsApply(s, e)
    ensures s.running.None?
    ensures forall r :: 0 <= r < |s.runs| ==> Step(s, e).value.runs[r] == s.runs[r]
  {
  }

  lemma OutsideIsInFlight(s: State)
    requires s.running.None?
    ensures AllSettled(s) <==> Outside(s) == {}
  {
    if Outside(s) == {} {
      forall r | 0 <= r < |s.runs|
        ensures s.runs[r].phase.Settled?
      {
        assert r !in Outside(s);
      }
    }
  }

  const OVERTAKEN := [
    Call(PaneOpen, true), Call(Finalize, true), Call(Apply, true),
    ReadSettles(1, None), OwnerResumes(1), WaiterResumes(0, true)]

  /** So an apply can read beside a capture that was in flight before it: pane-open
      is overtaken by finalize, the apply waits for finalize only. */
  lemma ApplyMayReadAlongside()
    ensures After(INIT, OVERTAKEN).Some?
    ensures var s := After(INIT, OVERTAKEN).value;
            && |s.runs| == 3
            && s.runs[0] == Run(PaneOpen, Reading, true, None)
            && s.runs[2] == Run(Apply, Reading, true, Some(1))
  {
    var s1 := Step(INIT, OVERTAKEN[0]).value;
    var s2 := Step(s1, OVERTAKEN[1]).value;
    var s3 := Step(s2, OVERTAKEN[2]).value;
    var s4 := Step(s3, OVERTAKEN[3]).value;
    var s5 := Step(s4, OVERTAKEN[4]).value;
    var s6 := Step(s5, OVERTAKEN[5]).value;
    assert After(s6, []) == Some(s6);
    assert After(s5, OVERTAKEN[5..]) == Some(s6);
    assert After(s4, OVERTAKEN[4..]) == Some(s6) by { assert OVERTAKEN[4..][1..] == OVERTAKEN[5..]; }
    assert After(s3, OVERTAKEN[3..]) == Some(s6) by { assert OVERTAKEN[3..][1..] == OVERTAKEN[4..]; }
    assert After(s2, OVERTAKEN[2..]) == Some(s6) by { assert OVERTAKEN[2..][1..] == OVERTAKEN[3..]; }
    assert After(s1, OVERTAKEN[1..]) == Some(s6) by { assert OVERTAKEN[1..][1..] == OVERTAKEN[2..]; }
  }

  // ----- Sends and timers

  /** Idle and apply send only what is not what was last sent; pane-open and finalize always send. */
  lemma SendsWhenDue(s: State, r: nat, c: Content)
    requires r < |s.runs| && s.runs[r].phase.Reading?
    ensures Step(s, ReadSettles(r, Some(c))).Some?
    ensures Step(s, ReadSettles(r, Some(c))).value.runs[r].phase == Sending(c)
            <==> (s.runs[r].moment == PaneOpen || s.runs[r].moment == Finalize || s.lastSent != Some(c))
  {
  }

  /** Edits or applies in a row leave at most one callback pending of each kind,
      the one its variable names, and neither kind touches the other's. */
  lemma TimersAreDebounced(s: State, how: Restart)
    requires Reachable(s)
    ensures s.timer.live == {} || (s.timer.handle.Some? && s.timer.live == {s.timer.handle.value})
    ensures s.applyTimer.live == {} || (s.applyTimer.handle.Some? && s.applyTimer.live == {s.applyTimer.handle.value})
    ensures Step(s, Changed(how)).value.applyTimer == s.applyTimer
    ensures Step(s, Applied(how)).value.timer == s.timer
  {
    ReachableKeepsInv(s);
  }

  // ----- createDocumentCapture

  class Capturer {
    var running: Option<nat>
    var stopped: bool
    var lastSent: Option<Content>
    var timer: Timer
    var applyTimer: Timer
    // What the runtime keeps: promises, suspended applies, timer callbacks.
    var runs: seq<Run>
    var waiters: map<nat, Waiter>
    var calls: nat
    var handles: nat
    var finals: nat

    ghost function View(): State
      reads this
    {
      State(running, stopped, lastSent, timer, applyTimer, runs, waiters, calls, handles, finals)
    }

    constructor ()
      ensures View() == INIT
    {
      running, stopped, lastSent := None, false, None;
      timer, applyTimer := Timer(None, {}), Timer(None, {});
      runs, waiters, calls, handles, finals := [], map[], 0, 0, 0;
    }

    method StartRun(m: Moment, met: Option<nat>, hasId: bool)
      modifies this
      ensures View() == Start(old(View()), m, met, hasId)
    {
      running := Some(|runs|);
      runs := runs + [Run(m, if hasId then Reading else Settled, true, met)];
      if m == Finalize {
        finals := finals + 1;
      }
    }

    method CallCapture(m: Moment, hasId: bool)
      modifies this
      ensures Step(old(View()), Call(m, hasId)) == Some(View())
    {
      if stopped {
        return;
      }
      if m == Apply {
        if running.Some? {
          waiters := waiters[calls := Waiter(running.value, running.value)];
          calls := calls + 1;
          return;
        }
      } else if running.Some? && m != Finalize {
        return;
      }
      StartRun(m, None, hasId);
    }

    method ResumeWaiter(w: nat, hasId: bool)
      requires Step(View(), WaiterResumes(w, hasId)).Some?
      modifies this
      ensures Step(old(View()), WaiterResumes(w, hasId)) == Some(View())
    {
      var waiter := waiters[w];
      if running.Some? {
        waiters := waiters[w := waiter.(awaiting := running.value)];
        return;
      }
      waiters := waiters - {w};
      if stopped {
        return;
      }
      StartRun(Apply, Some(waiter.met), hasId);
    }

    method SettleRead(r: nat, reading: Option<Content>)
      requires Step(View(), ReadSettles(r, reading)).Some?
      modifies this
      ensures Step(old(View()), ReadSettles(r, reading)) == Some(View())
    {
      var next := Settled;
      if reading.Some? && !(SendsOnlyOnChange(runs[r].moment) && lastSent == Some(reading.value)) {
        next := Sending(reading.value);
      }
      runs := runs[r := runs[r].(phase := next)];
    }

    method SettleSend(r: nat, enabled: Option<bool>)
      requires Step(View(), SendSettles(r, enabled)).Some?
      modifies this
      ensures Step(old(View()), SendSettles(r, enabled)) == Some(View())
      ensures stopped <==> old(stopped) || enabled == Some(false)
      ensures lastSent == if enabled.Some? then Some(old(runs)[r].phase.content) else old(lastSent)
    {
      if enabled.Some? {
        lastSent := Some(runs[r].phase.content);
        if !enabled.value {
          stopped := true;
        }
      }
      runs := runs[r := runs[r].(phase := Settled)];
    }

    method ResumeOwner(r: nat)
      requires Step(View(), OwnerResumes(r)).Some?
      modifies this
      ensures Step(old(View()), OwnerResumes(r)) == Some(View())
    {
      runs := runs[r := runs[r].(owned := false)];
      if running == Some(r) {
        running := None;
      }
    }

    method NoteChange(how: Restart)
      modifies this
      ensures Step(old(View()), Changed(how)) == Some(View())
    {
      if stopped {
        return;
      }
      timer := Rearm(timer, handles, how);
      handles := handles + 1;
    }

    method NoteApply(how: Restart)
      modifies this
      ensures Step(old(View()), Applied(how)) == Some(View())
    {
      if stopped {
        return;
      }
      applyTimer := Rearm(applyTimer, handles, how);
      handles := handles + 1;
    }

    method FireIdle(h: nat, hasId: bool)
      requires h in timer.live
      modifies this
      ensures Step(old(View()), IdleFires(h, hasId)) == Some(View())
    {
      timer := Fired(timer, h);
      CallCapture(Idle, hasId);
    }

    method FireApply(h: nat, hasId: bool)
      requires h in applyTimer.live
      modifies this
      ensures Step(old(View()), ApplyFires(h, hasId)) == Some(View())
    {
      applyTimer := Fired(applyTimer, h);
      CallCapture(Apply, hasId);
    }
  }
}
