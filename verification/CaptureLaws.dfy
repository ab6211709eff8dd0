// What a capture's protocol comes to, told from the events: what was sent last,
// when capture is off for good, which event starts which run, and what each
// debounce still has pending.

module CaptureLaws {
  import opened Wrappers
  import opened DocumentCapture

  // ----- One step after another

  lemma {:induction false} AfterBoth(s: State, es: seq<Event>, fs: seq<Event>)
    ensures After(s, es + fs) ==
            match After(s, es)
            case None => None
            case Some(s') => After(s', fs)
    decreases |es|
  {
    if es == [] {
      assert es + fs == fs;
    } else {
      assert (es + fs)[1..] == es[1..] + fs;
      if Step(s, es[0]).Some? {
        AfterBoth(Step(s, es[0]).value, es[1..], fs);
      }
    }
  }

  /** The last of a run's steps: what was before it, and the step itself. */
  lemma AfterLast(s: State, es: seq<Event>)
    requires es != [] && After(s, es).Some?
    ensures var n := |es| - 1;
            After(s, es[..n]).Some? && Step(After(s, es[..n]).value, es[n]) == After(s, es)
  {
    var n := |es| - 1;
    assert es == es[..n] + [es[n]];
    AfterBoth(s, es[..n], [es[n]]);
    if After(s, es[..n]).Some? && Step(After(s, es[..n]).value, es[n]).Some? {
      assert [es[n]][1..] == [];
    }
  }

  // ----- Off for good

  /** A reply that turns capture off. */
  predicate Disables(e: Event) {
    e.SendSettles? && e.enabled == Some(false)
  }

  lemma StepStopsIff(s: State, e: Event)
    requires Step(s, e).Some?
    ensures Step(s, e).value.stopped <==> s.stopped || Disables(e)
  {
  }

  /** Capture is off exactly when it was, or some reply turned it off. */
  lemma {:induction false} StoppedIff(s: State, es: seq<Event>)
    requires After(s, es).Some?
    ensures After(s, es).value.stopped <==> s.stopped || exists i :: 0 <= i < |es| && Disables(es[i])
    decreases |es|
  {
    if es != [] {
      var rest := es[1..];
      StepStopsIff(s, es[0]);
      StoppedIff(Step(s, es[0]).value, rest);
      if i :| 0 <= i < |rest| && Disables(rest[i]) {
        assert Disables(es[i + 1]);
      }
      if i :| 0 < i < |es| && Disables(es[i]) {
        assert Disables(rest[i - 1]);
      }
    }
  }

  /** No run starts after a reply that turned capture off. */
  lemma NoRunAfterDisabling(s: State, es: seq<Event>, i: nat)
    requires After(s, es).Some? && i < |es| && Disables(es[i])
    ensures After(s, es[..i + 1]).Some? && After(s, es[..i + 1]).value.stopped
    ensures |After(s, es).value.runs| == |After(s, es[..i + 1]).value.runs|
  {
    var upto := es[..i + 1];
    assert es == upto + es[i + 1..];
    AfterBoth(s, upto, es[i + 1..]);
    assert Disables(upto[i]);
    StoppedIff(s, upto);
    StoppedIsFinal(After(s, upto).value, es[i + 1..]);
  }

  // ----- What was sent last

  /** What run r last read. */
  function ReadBy(es: seq<Event>, r: nat): Option<Content> {
    if es == [] then None
    else
      var n := |es| - 1;
      match es[n]
      case ReadSettles(x, reading) => if x == r then reading else ReadBy(es[..n], r)
      case _ => ReadBy(es[..n], r)
  }

  /** The content of the last send that was answered. */
  function LastAnswered(es: seq<Event>): Option<Content> {
    if es == [] then None
    else
      var n := |es| - 1;
      match es[n]
      case SendSettles(r, Some(_)) => ReadBy(es[..n], r)
      case _ => LastAnswered(es[..n])
  }

  ghost predicate SendsWhatItRead(s: State, es: seq<Event>) {
    forall r :: 0 <= r < |s.runs| && s.runs[r].phase.Sending? ==> ReadBy(es, r) == Some(s.runs[r].phase.content)
  }

  lemma SendingStays(s: State, e: Event, r: nat)
    requires Step(s, e).Some? && r < |Step(s, e).value.runs| && Step(s, e).value.runs[r].phase.Sending?
    ensures var c := Step(s, e).value.runs[r].phase.content;
            if e.ReadSettles? && e.r == r then e.reading == Some(c)
            else r < |s.runs| && s.runs[r].phase == Sending(c)
  {
  }

  lemma ReadOn(es: seq<Event>, r: nat)
    requires es != []
    ensures var e := es[|es| - 1];
            ReadBy(es, r) == if e.ReadSettles? && e.r == r then e.reading else ReadBy(es[..|es| - 1], r)
  {
  }

  lemma StepSendsWhatItRead(s: State, es: seq<Event>)
    requires es != [] && SendsWhatItRead(s, es[..|es| - 1]) && Step(s, es[|es| - 1]).Some?
    ensures SendsWhatItRead(Step(s, es[|es| - 1]).value, es)
  {
    var e := es[|es| - 1];
    var s' := Step(s, e).value;
    forall r | 0 <= r < |s'.runs| && s'.runs[r].phase.Sending?
      ensures ReadBy(es, r) == Some(s'.runs[r].phase.content)
    {
      SendingStays(s, e, r);
      ReadOn(es, r);
    }
  }

  lemma StepSent(s: State, e: Event)
    requires Step(s, e).Some?
    ensures Step(s, e).value.lastSent ==
            if e.SendSettles? && e.enabled.Some? then Some(s.runs[e.r].phase.content) else s.lastSent
  {
  }

  /** What is compared before a send is the content of the last send the server answered. */
  lemma {:induction false} LastSentIs(es: seq<Event>)
    requires After(INIT, es).Some?
    ensures SendsWhatItRead(After(INIT, es).value, es)
    ensures After(INIT, es).value.lastSent == LastAnswered(es)
    decreases |es|
  {
    if es != [] {
      var n := |es| - 1;
      AfterLast(INIT, es);
      LastSentIs(es[..n]);
      StepSendsWhatItRead(After(INIT, es[..n]).value, es);
      StepSent(After(INIT, es[..n]).value, es[n]);
    }
  }

  // ----- Which runs start, and how they go on

  /** The capture an event makes, when it makes one. */
  function Moments(s: State, e: Event): set<Moment> {
    match e
    case Call(m, _) => {m}
    case IdleFires(_, _) => {Idle}
    case ApplyFires(_, _) => {Apply}
    case WaiterResumes(_, _) => {Apply}
    case _ => {}
  }

  /** A step starts a run exactly when it makes a capture, capture is on, and the
      slot is free or a finalize takes it. The run holds the slot; without a
      document id it settles at once. */
  lemma StartsIff(s: State, e: Event)
    requires Step(s, e).Some?
    ensures var s' := Step(s, e).value;
            && (|s'.runs| == |s.runs| + 1 <==>
                  !s.stopped && Moments(s, e) != {} && (s.running.None? || Moments(s, e) == {Finalize}))
            && (|s'.runs| != |s.runs| + 1 ==> |s'.runs| == |s.runs|)
            && (|s'.runs| == |s.runs| + 1 ==>
                  var run := s'.runs[|s.runs|];
                  && s'.running == Some(|s.runs|) && {run.moment} == Moments(s, e) && run.owned
                  && run.phase == (if e.hasId then Reading else Settled)
                  && run.met == (if e.WaiterResumes? then Some(s.waiters[e.w].met) else None))
  {
  }

  /** A run's phase changes only by its own read and its own reply, the reply
      settling it, and a failed read too. */
  lemma RunsGoTheirWay(s: State, e: Event, r: nat)
    requires Step(s, e).Some? && r < |s.runs|
    ensures var was, now := s.runs[r], Step(s, e).value.runs[r];
            && now.moment == was.moment && now.met == was.met
            && now.owned == (was.owned && e != OwnerResumes(r))
            && (now.phase != was.phase ==> (e.ReadSettles? || e.SendSettles?) && e.r == r)
            && (e.SendSettles? && e.r == r ==> now.phase == Settled)
            && (e.ReadSettles? && e.r == r && e.reading.None? ==> now.phase == Settled)
            && (e.ReadSettles? && e.r == r && now.phase != Settled ==>
                  e.reading.Some? && now.phase == Sending(e.reading.value))
  {
  }

  /** An apply that finds the slot taken is the newest waiter and awaits the
      holder; one that resumes to find it taken again awaits the new holder. */
  lemma WaitersAwaitTheHolder(s: State, e: Event, w: nat)
    requires Step(s, e).Some? && w in Step(s, e).value.waiters
    ensures var now := Step(s, e).value.waiters[w];
            || (w in s.waiters && now == s.waiters[w])
            || (w in s.waiters && e.WaiterResumes? && e.w == w && s.running == Some(now.awaiting)
                && now.met == s.waiters[w].met)
            || (w == s.calls && Moments(s, e) == {Apply} && !s.stopped && s.running == Some(now.awaiting)
                && now.met == now.awaiting)
  {
  }

  /** An apply that resumes waits on for the holder of the slot, if there is one, and else no longer. */
  lemma WaiterGoesOn(s: State, w: nat, hasId: bool)
    requires Step(s, WaiterResumes(w, hasId)).Some?
    ensures var s' := Step(s, WaiterResumes(w, hasId)).value;
            && (w in s'.waiters <==> s.running.Some?)
            && (s.running.Some? ==> s'.waiters[w] == Waiter(s.waiters[w].met, s.running.value))
  {
  }

  /** An apply waits exactly when capture is on and the slot is taken. */
  lemma ApplyWaitsIff(s: State, e: Event)
    requires Reachable(s) && Step(s, e).Some? && Moments(s, e) == {Apply} && !e.WaiterResumes?
    ensures s.calls in Step(s, e).value.waiters <==> !s.stopped && s.running.Some?
  {
    ReachableKeepsInv(s);
  }

  // ----- What is pending

  /** What an arming does to the callbacks pending: the one before is replaced, or
      lost when the new one could not be scheduled, or left when it could not be cancelled. */
  ghost predicate Rearmed(was: Timer, now: Timer, next: nat, how: Restart) {
    match how
    case Restarted => now.handle == Some(next) && now.live == {next}
    case ScheduleThrew => now.live == {} && now.handle == was.handle
    case CancelThrew => now == was
  }

  /** While capture is on, an edit re-arms the idle debounce and an apply its own. */
  lemma ArmedAgain(s: State, how: Restart)
    requires Reachable(s) && !s.stopped
    ensures Rearmed(s.timer, Step(s, Changed(how)).value.timer, s.handles, how)
    ensures Rearmed(s.applyTimer, Step(s, Applied(how)).value.applyTimer, s.handles, how)
  {
    ReachableKeepsInv(s);
  }

  ghost predicate Alone(t: Timer, h: nat) {
    t.live == {h} && t.handle == Some(h)
  }

  lemma FiredIsAlone(s: State, e: Event)
    requires Reachable(s) && Step(s, e).Some?
    ensures e.IdleFires? ==> Alone(s.timer, e.h)
    ensures e.ApplyFires? ==> Alone(s.applyTimer, e.h)
  {
    ReachableKeepsInv(s);
  }

  /** What a capture leaves alone. */
  lemma CaptureKeepsTimers(s: State, m: Moment, hasId: bool)
    ensures Capture(s, m, hasId).timer == s.timer && Capture(s, m, hasId).applyTimer == s.applyTimer
  {
  }

  /** Nothing else touches a debounce but its own callback, which leaves none pending. */
  lemma IdleStays(s: State, e: Event)
    requires Reachable(s) && Step(s, e).Some?
    ensures !e.IdleFires? && (!e.Changed? || s.stopped) ==> Step(s, e).value.timer == s.timer
    ensures e.IdleFires? ==> Step(s, e).value.timer == Timer(None, {})
  {
    FiredIsAlone(s, e);
    if e.IdleFires? {
      CaptureKeepsTimers(s.(timer := Fired(s.timer, e.h)), Idle, e.hasId);
    }
  }

  lemma ApplyStays(s: State, e: Event)
    requires Reachable(s) && Step(s, e).Some?
    ensures !e.ApplyFires? && (!e.Applied? || s.stopped) ==> Step(s, e).value.applyTimer == s.applyTimer
    ensures e.ApplyFires? ==> Step(s, e).value.applyTimer == Timer(None, {})
  {
    FiredIsAlone(s, e);
    if e.ApplyFires? {
      CaptureKeepsTimers(s.(applyTimer := Fired(s.applyTimer, e.h)), Apply, e.hasId);
    }
  }

  /** Whether the idle debounce has a callback pending after the events: armed by
      an edit while capture was on, and neither fired nor lost since. */
  ghost predicate IdlePending(es: seq<Event>) {
    if es == [] then false
    else
      var init := es[..|es| - 1];
      match es[|es| - 1]
      case Changed(how) =>
        if (exists i :: 0 <= i < |init| && Disables(init[i])) || how.CancelThrew? then IdlePending(init)
        else how.Restarted?
      case IdleFires(_, _) => false
      case _ => IdlePending(init)
  }

  ghost predicate ApplyPending(es: seq<Event>) {
    if es == [] then false
    else
      var init := es[..|es| - 1];
      match es[|es| - 1]
      case Applied(how) =>
        if (exists i :: 0 <= i < |init| && Disables(init[i])) || how.CancelThrew? then ApplyPending(init)
        else how.Restarted?
      case ApplyFires(_, _) => false
      case _ => ApplyPending(init)
  }

  /** An edit's copy is owed until it is captured: so the debounces tell. */
  lemma {:induction false} PendingIs(es: seq<Event>)
    requires After(INIT, es).Some?
    ensures After(INIT, es).value.timer.live != {} <==> IdlePending(es)
    ensures After(INIT, es).value.applyTimer.live != {} <==> ApplyPending(es)
    decreases |es|
  {
    if es != [] {
      var n := |es| - 1;
      AfterLast(INIT, es);
      PendingIs(es[..n]);
      StoppedIff(INIT, es[..n]);
      PendingOn(After(INIT, es[..n]).value, es[n]);
    }
  }

  lemma PendingOn(s: State, e: Event)
    requires Reachable(s) && Step(s, e).Some?
    ensures var s' := Step(s, e).value;
            && (s'.timer.live != {} <==>
                  if e.Changed? && !s.stopped && !e.how.CancelThrew? then e.how.Restarted?
                  else !e.IdleFires? && s.timer.live != {})
            && (s'.applyTimer.live != {} <==>
                  if e.Applied? && !s.stopped && !e.how.CancelThrew? then e.how.Restarted?
                  else !e.ApplyFires? && s.applyTimer.live != {})
  {
    IdleStays(s, e);
    ApplyStays(s, e);
    if !s.stopped && (e.Changed? || e.Applied?) {
      ArmedAgain(s, e.how);
    }
  }
}
