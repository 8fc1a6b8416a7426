/**
 The app as a whole: the controller state together with the main queue onto
 which the event tap and the hotkey monitors schedule their requests. Every
 stimulus the app reacts to is an `Op`; `Step` applies one, `Run` a sequence.
 The properties here are the ones that hold across operations: the
 invariant, mutual exclusion of the modes, agreement with the abstract
 three-state machine, idempotence of the guarded transitions, and the
 teardown guarantees of quit and termination.
 */
module Session {
  import opened Types
  import opened PowerAssertion
  import opened KeyboardPolicy
  import opened Controller
  import opened Elapsed

  datatype System = System(app: State, queue: seq<Request>)

  datatype SysOutcome = SysOutcome(sys: System, fx: seq<Effect>)

  /** The stimuli the app reacts to. */
  datatype Op =
    | HotkeyOp(ev: KeyEvent)          // a key-down seen by the global or local monitor
    | TapOp(ev: KeyEvent)             // the keyboard tap's callback receives an event
    | MainQueueOp                     // the main queue runs the oldest scheduled request
    | MenuToggleMode                  // menu item calling toggleMode directly
    | MenuTogglePreventSleep          // menu item calling togglePreventSleepMode directly
    | ClickOp(c: Click)
    | ToggleBlockKeyboardOp
    | ToggleAutoReSleepOp
    | ToggleShowTimerOp
    | ReSleepTickOp                   // the 5-second timer fires
    | DelayedSleepOp                  // a scheduled 0.8-second display-off fires

  /** The main-queue work a request stands for. */
  function Dispatch(s: State, req: Request, o: Oracle): (r: Outcome)
    ensures req == ExitScreenOffReq ==> !r.st.isScreenOff
    ensures req == ToggleModeReq ==> !r.st.isPreventSleep && (r.st.isScreenOff <==> !s.isScreenOff)
    ensures req == TogglePreventSleepReq ==> (r.st.isPreventSleep <==> !s.isPreventSleep)
    ensures Inv(s) ==> Inv(r.st)
  {
    match req
    case ExitScreenOffReq => ExitScreenOffMode(s)
    case ToggleModeReq => ToggleMode(s, o)
    case TogglePreventSleepReq => TogglePreventSleepMode(s, o)
  }

  function Enqueue(q: seq<Request>, req: Option<Request>): seq<Request> {
    if req.Some? then q + [req.value] else q
  }

  /** One stimulus. Monitors and the tap only schedule work; the main queue
      performs it later, in order. */
  function Step(sys: System, op: Op, o: Oracle): (r: SysOutcome)
    ensures Inv(sys.app) ==> Inv(r.sys.app)
    ensures op.HotkeyOp? || op.TapOp? ==> r.sys.app == sys.app
  {
    var s := sys.app;
    match op
    case HotkeyOp(ev) =>
      SysOutcome(System(s, Enqueue(sys.queue, HandleHotkeyEvent(ev).request)), [])
    case TapOp(ev) =>
      var v := EventFate(ev, s.isScreenOff, s.blockKeyboard, s.tapInstalled);
      SysOutcome(System(s, Enqueue(sys.queue, v.request)), if v.reEnableTap then [ReEnableTap] else [])
    case MainQueueOp =>
      if sys.queue == [] then SysOutcome(sys, [])
      else
        var r := Dispatch(s, sys.queue[0], o);
        SysOutcome(System(r.st, sys.queue[1..]), r.fx)
    case MenuToggleMode =>
      var r := ToggleMode(s, o);
      SysOutcome(System(r.st, sys.queue), r.fx)
    case MenuTogglePreventSleep =>
      var r := TogglePreventSleepMode(s, o);
      SysOutcome(System(r.st, sys.queue), r.fx)
    case ClickOp(c) =>
      var r := OnStatusBarClick(s, c, o);
      SysOutcome(System(r.st, sys.queue), r.fx)
    case ToggleBlockKeyboardOp =>
      var r := ToggleBlockKeyboard(s, o);
      SysOutcome(System(r.st, sys.queue), r.fx)
    case ToggleAutoReSleepOp =>
      var r := ToggleAutoReSleep(s);
      SysOutcome(System(r.st, sys.queue), r.fx)
    case ToggleShowTimerOp =>
      var r := ToggleShowTimer(s);
      SysOutcome(System(r.st, sys.queue), r.fx)
    case ReSleepTickOp =>
      SysOutcome(sys, if s.reSleepTimer then ReSleepTick(s) else [])
    case DelayedSleepOp =>
      SysOutcome(sys, DelayedDisplaySleep(s))
  }

  /** Applies a sequence of stimuli, each with the operating system's
      answers for it, collecting the effects in order. */
  function Run(sys: System, steps: seq<(Op, Oracle)>): (r: SysOutcome)
    ensures Inv(sys.app) ==> Inv(r.sys.app)
    ensures Inv(sys.app) ==> !(r.sys.app.isScreenOff && r.sys.app.isPreventSleep)
    decreases |steps|
  {
    if steps == [] then SysOutcome(sys, [])
    else
      var first := Step(sys, steps[0].0, steps[0].1);
      var rest := Run(first.sys, steps[1..]);
      SysOutcome(rest.sys, first.fx + rest.fx)
  }

  const Launched := System(Init, [])

  /** Mutual exclusion: from launch, no sequence of stimuli ever has both
      modes on, and every slot holds exactly what its mode needs. */
  lemma ModesNeverCoexist(steps: seq<(Op, Oracle)>)
    ensures var s := Run(Launched, steps).sys.app;
            && !(s.isScreenOff && s.isPreventSleep)
            && (s.isScreenOff ==> HoldsOne(s.screenOffSlot))
            && (!s.isScreenOff ==> IsEmpty(s.screenOffSlot))
            && (s.isPreventSleep ==> HoldsOne(s.preventSleepSlot))
            && (!s.isPreventSleep ==> IsEmpty(s.preventSleepSlot))
  {
    InitInv();
  }

  // ── Agreement with the abstract mode machine ──────────────────────

  /** The three-state machine the app implements, independent of resources. */
  function RefRequest(m: Mode, req: Request): Mode {
    match req
    case ExitScreenOffReq => if m == ScreenOffMode then NormalMode else m
    case ToggleModeReq => if m == ScreenOffMode then NormalMode else ScreenOffMode
    case TogglePreventSleepReq => if m == PreventSleepMode then NormalMode else PreventSleepMode
  }

  function RefStep(m: Mode, op: Op, queue: seq<Request>): Mode {
    match op
    case MainQueueOp => if queue == [] then m else RefRequest(m, queue[0])
    case MenuToggleMode => RefRequest(m, ToggleModeReq)
    case MenuTogglePreventSleep => RefRequest(m, TogglePreventSleepReq)
    case ClickOp(c) =>
      if c == LeftMouseUp then (if m == NormalMode then PreventSleepMode else NormalMode) else m
    case _ => m
  }

  /** Every stimulus moves the mode exactly as the abstract machine does. */
  lemma StepFollowsReference(sys: System, op: Op, o: Oracle)
    requires Inv(sys.app)
    ensures ModeOf(Step(sys, op, o).sys.app) == RefStep(ModeOf(sys.app), op, sys.queue)
  {
    var s := sys.app;
    match op
    case MainQueueOp =>
      if sys.queue != [] {
        RequestFollowsReference(s, sys.queue[0], o);
      }
    case MenuToggleMode =>
      RequestFollowsReference(s, ToggleModeReq, o);
    case MenuTogglePreventSleep =>
      RequestFollowsReference(s, TogglePreventSleepReq, o);
    case _ =>
  }

  lemma RequestFollowsReference(s: State, req: Request, o: Oracle)
    requires Inv(s)
    ensures ModeOf(Dispatch(s, req, o).st) == RefRequest(ModeOf(s), req)
  {
    match req
    case ExitScreenOffReq =>
    case ToggleModeReq =>
    case TogglePreventSleepReq =>
      if s.isPreventSleep {
        assert StopPreventSleep(s).st.isScreenOff == s.isScreenOff;
      }
  }

  // ── Idempotent guards ─────────────────────────────────────────────

  /** Entering ScreenOff a second time does nothing. */
  lemma EnterIdempotent(s: State, o: Oracle, o': Oracle)
    ensures var once := EnterScreenOffMode(s, o).st;
            EnterScreenOffMode(once, o') == Outcome(once, [])
  {
  }

  /** Leaving ScreenOff a second time does nothing and releases nothing. */
  lemma ExitIdempotent(s: State)
    ensures var once := ExitScreenOffMode(s).st;
            ExitScreenOffMode(once) == Outcome(once, [])
  {
  }

  /** Starting PreventSleep a second time does nothing. */
  lemma StartPreventSleepIdempotent(s: State, o: Oracle, o': Oracle)
    ensures var once := StartPreventSleep(s, o).st;
            StartPreventSleep(once, o') == Outcome(once, [])
  {
  }

  /** Stopping PreventSleep a second time does nothing. */
  lemma StopPreventSleepIdempotent(s: State)
    ensures var once := StopPreventSleep(s).st;
            StopPreventSleep(once) == Outcome(once, [])
  {
  }

  // ── Status item ───────────────────────────────────────────────────

  /** Under the invariant the icon shows a clock exactly when a mode is on
      and the timer display is enabled. */
  lemma ClockShownIffModeOn(s: State, now: int)
    requires Inv(s)
    ensures var icon := StatusIcon(s, now);
            (icon.SunIcon? <==> ModeOf(s) == NormalMode)
            && (!icon.SunIcon? && icon.clock.Some? <==> ModeOf(s) != NormalMode && s.showTimer)
  {
  }

  /** Right after entering ScreenOff the clock, if shown, reads 0:00. */
  lemma EnterStartsClockAtZero(s: State, o: Oracle)
    requires !s.isScreenOff
    ensures StatusIcon(EnterScreenOffMode(s, o).st, o.now)
         == MoonIcon(if s.showTimer then Some(Hms(0, 0, 0)) else None)
  {
    var st := EnterScreenOffMode(s, o).st;
    assert st.isScreenOff && st.startTime == Some(o.now) && st.showTimer == s.showTimer;
    assert ElapsedSeconds(o.now, o.now) == 0;
    SplitUnique(0, 0, 0, 0);
  }

  /** Toggling the timer display shows or hides the clock and nothing else. */
  lemma ToggleShowTimerFlipsClock(s: State, now: int)
    requires Inv(s) && ModeOf(s) != NormalMode
    ensures var before := StatusIcon(s, now);
            var after := StatusIcon(ToggleShowTimer(s).st, now);
            && (after.clock.Some? <==> !before.clock.Some?)
            && (after.MoonIcon? <==> before.MoonIcon?)
  {
  }

  // ── Watchdog and delayed display-off ──────────────────────────────

  /** Under the invariant the re-sleep timer exists exactly when a tick
      would put the display to sleep. */
  lemma TickFiresIffWatchdogLive(s: State)
    requires Inv(s)
    ensures ReSleepTick(s) != [] <==> s.reSleepTimer
  {
  }

  /** A tick that fires after ScreenOff was left finds the mode off and
      issues nothing. */
  lemma NoTickAfterExit(s: State)
    ensures ReSleepTick(ExitScreenOffMode(s).st) == []
  {
  }

  /** A tick after auto re-sleep was switched off issues nothing. */
  lemma NoTickAfterDisablingReSleep(s: State)
    requires s.autoReSleep
    ensures ReSleepTick(ToggleAutoReSleep(s).st) == []
  {
  }

  /** The delayed display-off does not re-check the mode: scheduled on entry,
      it still turns the display off if ScreenOff was left before it fired. */
  lemma DelayedSleepOutlivesExit(s: State, o: Oracle)
    requires !s.isScreenOff
    ensures var entered := EnterScreenOffMode(s, o);
            var left := ExitScreenOffMode(entered.st);
            && ScheduleDisplaySleep in entered.fx
            && ModeOf(left.st) == ModeOf(s)
            && exists e :: e in DelayedDisplaySleep(left.st) && IsDisplayOff(e)
  {
    EnterEffects(s, o);
    var entered := EnterScreenOffMode(s, o);
    assert entered.fx[|entered.fx| - 2] == ScheduleDisplaySleep;
    assert IsDisplayOff(DelayedDisplaySleep(ExitScreenOffMode(entered.st).st)[0]);
  }

  // ── Helper that never launched ────────────────────────────────────

  /** Leaving ScreenOff aborts the app exactly when its slot records a helper
      that never launched. Then only the slot's release takes place: the tap
      stays installed, the display is not woken and nobody is told. */
  lemma ExitAbortsIffUnlaunched(s: State)
    requires s.isScreenOff
    ensures Aborts(ExitScreenOffMode(s).fx) <==> HoldsUnlaunched(s.screenOffSlot)
    ensures HoldsUnlaunched(s.screenOffSlot) ==> Performed(ExitScreenOffMode(s).fx) == AllowSleep(s).fx
    ensures !HoldsUnlaunched(s.screenOffSlot) ==> Performed(ExitScreenOffMode(s).fx) == ExitScreenOffMode(s).fx
  {
    var a := AllowSleep(s.(isScreenOff := false));
    var b := StopEventTap(a.st);
    var rest := b.fx + [RunCommand(DisplayWakeCommand), Notify(ScreenOffEnded)];
    assert ExitScreenOffMode(s).fx == a.fx + rest;
    assert !Aborts(rest);
    ReleaseAbortsIffUnlaunched(ScreenOffSlot, s.screenOffSlot);
    PerformedAppend(a.fx, rest);
  }

  /** Entering ScreenOff when neither the native assertion nor the helper can
      be started, then toggling again, ends the app at the helper's
      termination: nothing after it in the run takes place. */
  lemma FailedLaunchAbortsOnExit(o: Oracle, o': Oracle)
    requires !o.nativeOk && !o.helperRuns
    ensures var on := Step(Launched, MenuToggleMode, o);
            var off := Step(on.sys, MenuToggleMode, o');
            && ModeOf(on.sys.app) == ScreenOffMode
            && !Aborts(on.fx)
            && Performed(on.fx + off.fx) == on.fx + [TerminateUnlaunched(ScreenOffSlot)]
  {
    var on := Step(Launched, MenuToggleMode, o);
    assert HoldsUnlaunched(on.sys.app.screenOffSlot);
    assert forall e :: e in on.fx ==> !IsAbort(e);
    var off := Step(on.sys, MenuToggleMode, o');
    assert off.fx == ExitScreenOffMode(on.sys.app).fx;
    ExitAbortsIffUnlaunched(on.sys.app);
    PerformedAppend(on.fx, off.fx);
  }

  /** Once a step aborts, no later step of the run takes place. */
  lemma AbortEndsRun(sys: System, steps: seq<(Op, Oracle)>)
    requires |steps| > 0 && Aborts(Step(sys, steps[0].0, steps[0].1).fx)
    ensures Performed(Run(sys, steps).fx) == Performed(Step(sys, steps[0].0, steps[0].1).fx)
  {
    var first := Step(sys, steps[0].0, steps[0].1);
    PerformedAppend(first.fx, Run(first.sys, steps[1..]).fx);
  }

  // ── Keyboard ──────────────────────────────────────────────────────

  /** The emergency combination, delivered while the keyboard is locked, is
      consumed and the main queue then brings the app back to Normal. */
  lemma EmergencyExitScenario(sys: System, ev: KeyEvent, o: Oracle)
    requires Inv(sys.app) && sys.app.isScreenOff && sys.app.blockKeyboard && sys.queue == []
    requires ev.kind == KeyDown && IsEmergencyExitCombo(ev)
    ensures !EventFate(ev, sys.app.isScreenOff, sys.app.blockKeyboard, sys.app.tapInstalled).pass
    ensures var tapped := Step(sys, TapOp(ev), o);
            var done := Step(tapped.sys, MainQueueOp, o);
            && tapped.sys.queue == [ExitScreenOffReq]
            && ModeOf(done.sys.app) == NormalMode
            && !done.sys.app.tapInstalled
            && IsEmpty(done.sys.app.screenOffSlot)
  {
  }

  /** The emergency exit is the ScreenOff exit, not a return to Normal: the
      request waits on the main queue, and if PreventSleep is switched on from
      the menu before it runs, the app stays in PreventSleep afterwards. */
  lemma QueuedExitLeavesPreventSleepOn(ok: Oracle, ev: KeyEvent)
    requires ok.axTrusted && ok.tapOk
    requires ev.kind == KeyDown && IsEmergencyExitCombo(ev)
    ensures var on := Step(Launched, MenuToggleMode, ok).sys;
            var tapped := Step(on, TapOp(ev), ok).sys;
            var switched := Step(tapped, MenuTogglePreventSleep, ok).sys;
            var done := Step(switched, MainQueueOp, ok).sys;
            && ModeOf(on.app) == ScreenOffMode
            && tapped.queue == [ExitScreenOffReq]
            && ModeOf(switched.app) == PreventSleepMode
            && ModeOf(done.app) == PreventSleepMode
            && done.queue == []
  {
    var on := Step(Launched, MenuToggleMode, ok).sys;
    assert on.app.isScreenOff && on.app.blockKeyboard && on.app.tapInstalled;
    var tapped := Step(on, TapOp(ev), ok).sys;
    var switched := Step(tapped, MenuTogglePreventSleep, ok).sys;
    assert switched.app.isPreventSleep && !switched.app.isScreenOff;
  }

  /** The tap only ever blocks while it is supposed to: under the invariant a
      key event is consumed exactly when ScreenOff is on with the keyboard
      locked. */
  lemma ConsumesOnlyWhileLocked(s: State, ev: KeyEvent)
    requires Inv(s) && ev.kind in TapMask
    ensures !EventFate(ev, s.isScreenOff, s.blockKeyboard, s.tapInstalled).pass
            <==> s.isScreenOff && s.blockKeyboard
  {
  }

  // ── Scenarios ─────────────────────────────────────────────────────

  /** Entering ScreenOff with default settings and a cooperative system
      takes the native assertion, installs the tap and starts the watchdog;
      when accessibility is later revoked, switching the lock off and on
      again leaves it off while ScreenOff continues. */
  lemma RevokedAccessibilityScenario(ok: Oracle, denied: Oracle)
    requires ok.nativeOk && ok.axTrusted && ok.tapOk
    requires !denied.axTrusted
    ensures var on := ToggleMode(Init, ok).st;
            var off := ToggleBlockKeyboard(on, denied).st;
            var again := ToggleBlockKeyboard(off, denied);
            && on.isScreenOff && on.screenOffSlot.native && on.tapInstalled
            && on.reSleepTimer && on.startTime == Some(ok.now)
            && again.st.isScreenOff && !again.st.blockKeyboard && !again.st.tapInstalled
            && Notify(AccessibilityRequired) in again.fx
  {
  }

  /** PreventSleep from Normal holds its own slot with no tap and no
      watchdog; toggling again releases it and returns to Normal. */
  lemma PreventSleepRoundTrip(o: Oracle, o': Oracle)
    ensures var on := TogglePreventSleepMode(Init, o);
            var off := TogglePreventSleepMode(on.st, o');
            && ModeOf(on.st) == PreventSleepMode
            && HoldsOne(on.st.preventSleepSlot) && IsEmpty(on.st.screenOffSlot)
            && !on.st.tapInstalled && !on.st.reSleepTimer
            && ModeOf(off.st) == NormalMode && IsEmpty(off.st.preventSleepSlot)
            && (ReleaseAssertion(PreventSleepSlot) in off.fx <==> o.nativeOk)
            && (TerminateHelper(PreventSleepSlot) in off.fx <==> !o.nativeOk && o.helperRuns)
            && (TerminateUnlaunched(PreventSleepSlot) in off.fx <==> !o.nativeOk && !o.helperRuns)
  {
  }

  // ── Quit and termination ──────────────────────────────────────────

  /** Quitting from any consistent state reaches Normal with nothing held,
      so the termination hook that follows only removes the monitors. */
  lemma QuitThenCleanup(s: State)
    requires Inv(s)
    ensures var q := QuitApp(s);
            var c := Cleanup(q.st);
            && ModeOf(c.st) == NormalMode
            && IsEmpty(c.st.screenOffSlot) && IsEmpty(c.st.preventSleepSlot)
            && !c.st.tapInstalled && !c.st.uiTimer && !c.st.reSleepTimer
            && c.st.startTime.None?
            && c.fx == [RemoveMonitors]
  {
  }

  /** Termination without the Quit item (the hook alone) still releases every
      slot and the tap, but leaves the mode flags and timers as they were. */
  lemma CleanupAloneKeepsMode(s: State)
    ensures var c := Cleanup(s).st;
            && IsEmpty(c.screenOffSlot) && IsEmpty(c.preventSleepSlot) && !c.tapInstalled
            && ModeOf(c) == ModeOf(s) && c.uiTimer == s.uiTimer && c.reSleepTimer == s.reSleepTimer
  {
  }
}
