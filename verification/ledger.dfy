/**
 Resource accounting over effect lists. Each native assertion, each helper
 process and the event tap is a resource; an effect acquires (+1) or gives
 back (-1) at most one of them. The lemmas show that every transition's
 effects change the count by exactly what its state change says is now held
 or no longer held, so over any run from launch nothing is acquired that the
 state does not record, and nothing outlives the mode that took it.
 */
module Ledger {
  import opened Types
  import opened PowerAssertion
  import opened Controller
  import opened Session

  datatype Resource = NativeRes(kind: SlotKind) | HelperRes(kind: SlotKind) | TapRes

  function Delta(e: Effect, res: Resource): int {
    match e
    case CreateAssertion(k) => if res == NativeRes(k) then 1 else 0
    case ReleaseAssertion(k) => if res == NativeRes(k) then -1 else 0
    case SpawnHelper(k, _) => if res == HelperRes(k) then 1 else 0
    case TerminateHelper(k) => if res == HelperRes(k) then -1 else 0
    case TerminateUnlaunched(k) => if res == HelperRes(k) then -1 else 0
    case InstallTap(_) => if res == TapRes then 1 else 0
    case RemoveTap => if res == TapRes then -1 else 0
    case _ => 0
  }

  /** Acquisitions minus releases of `res` in an effect list. */
  function Net(fx: seq<Effect>, res: Resource): int {
    if fx == [] then 0 else Delta(fx[0], res) + Net(fx[1..], res)
  }

  lemma {:induction false} NetAppend(a: seq<Effect>, b: seq<Effect>, res: Resource)
    ensures Net(a + b, res) == Net(a, res) + Net(b, res)
  {
    if a == [] {
      assert a + b == b;
    } else {
      assert (a + b)[1..] == a[1..] + b;
      NetAppend(a[1..], b, res);
    }
  }

  /** Effects that are not acquisitions or releases leave the count alone. */
  lemma {:induction false} NetNeutral(fx: seq<Effect>, res: Resource)
    requires forall i :: 0 <= i < |fx| ==> Delta(fx[i], res) == 0
    ensures Net(fx, res) == 0
  {
    if fx != [] {
      NetNeutral(fx[1..], res);
    }
  }

  /** What slot `sl`, serving as slot `k`, holds of `res`: 0 or 1. */
  function SlotHeld(sl: Slot, k: SlotKind, res: Resource): int {
    if res == NativeRes(k) then (if sl.native then 1 else 0)
    else if res == HelperRes(k) then (if sl.helper.Some? then 1 else 0)
    else 0
  }

  /** What the app holds of `res`: 0 or 1. */
  function Held(s: State, res: Resource): int {
    SlotHeld(s.screenOffSlot, ScreenOffSlot, res)
    + SlotHeld(s.preventSleepSlot, PreventSleepSlot, res)
    + (if res == TapRes && s.tapInstalled then 1 else 0)
  }

  /** The effects of a transition account exactly for its change in holdings. */
  predicate Balanced(s: State, r: Outcome, res: Resource) {
    Held(r.st, res) == Held(s, res) + Net(r.fx, res)
  }

  // ── Slots ─────────────────────────────────────────────────────────

  /** Acquiring into an empty slot issues exactly the acquisition it records. */
  lemma AcquireBalanced(k: SlotKind, sl: Slot, nativeOk: bool, helperRuns: bool, res: Resource)
    requires IsEmpty(sl)
    ensures var (sl', fx) := Acquire(k, sl, nativeOk, helperRuns);
            SlotHeld(sl', k, res) == SlotHeld(sl, k, res) + Net(fx, res)
  {
    var (sl', fx) := Acquire(k, sl, nativeOk, helperRuns);
    assert fx[1..] == [];
  }

  /** Releasing issues exactly one release per held resource of the slot. */
  lemma ReleaseBalanced(k: SlotKind, sl: Slot, res: Resource)
    ensures Net(Release(k, sl).1, res) == -SlotHeld(sl, k, res)
  {
    var fxNative := if sl.native then [ReleaseAssertion(k)] else [];
    var fxHelper := match sl.helper
      case None => []
      case Some(h) => if h.running then [TerminateHelper(k)] else [TerminateUnlaunched(k)];
    assert Release(k, sl).1 == fxNative + fxHelper;
    NetAppend(fxNative, fxHelper, res);
    if sl.native { assert fxNative[1..] == []; }
    if sl.helper.Some? { assert fxHelper[1..] == []; }
  }

  lemma PreventSleepBalanced(s: State, o: Oracle, res: Resource)
    requires IsEmpty(s.screenOffSlot)
    ensures Balanced(s, PreventSleep(s, o), res)
  {
    AcquireBalanced(ScreenOffSlot, s.screenOffSlot, o.nativeOk, o.helperRuns, res);
  }

  lemma AllowSleepBalanced(s: State, res: Resource)
    ensures Balanced(s, AllowSleep(s), res)
  {
    ReleaseBalanced(ScreenOffSlot, s.screenOffSlot, res);
  }

  lemma PreventDisplayAndSystemSleepBalanced(s: State, o: Oracle, res: Resource)
    requires IsEmpty(s.preventSleepSlot)
    ensures Balanced(s, PreventDisplayAndSystemSleep(s, o), res)
  {
    AcquireBalanced(PreventSleepSlot, s.preventSleepSlot, o.nativeOk, o.helperRuns, res);
  }

  lemma AllowDisplayAndSystemSleepBalanced(s: State, res: Resource)
    ensures Balanced(s, AllowDisplayAndSystemSleep(s), res)
  {
    ReleaseBalanced(PreventSleepSlot, s.preventSleepSlot, res);
  }

  // ── Tap ───────────────────────────────────────────────────────────

  lemma StartEventTapBalanced(s: State, o: Oracle, res: Resource)
    requires !s.tapInstalled
    ensures Balanced(s, StartEventTap(s, o), res)
  {
    var r := StartEventTap(s, o);
    if |r.fx| > 0 { assert r.fx[1..] == []; }
  }

  lemma StopEventTapBalanced(s: State, res: Resource)
    ensures Balanced(s, StopEventTap(s), res)
  {
    var r := StopEventTap(s);
    if |r.fx| > 0 { assert r.fx[1..] == []; }
  }

  // ── Modes ─────────────────────────────────────────────────────────

  lemma EnterMarkersNeutral(bk: bool, res: Resource)
    ensures Net([DimBacklight, ScheduleDisplaySleep, Notify(ScreenOffStarted(bk))], res) == 0
  {
    NetNeutral([DimBacklight, ScheduleDisplaySleep, Notify(ScreenOffStarted(bk))], res);
  }

  lemma EnterBalanced(s: State, o: Oracle, res: Resource)
    requires Inv(s)
    ensures Balanced(s, EnterScreenOffMode(s, o), res)
  {
    if !s.isScreenOff {
      var r := EnterScreenOffMode(s, o);
      var s1 := s.(isScreenOff := true, startTime := Some(o.now));
      var a := PreventSleep(s1, o);
      PreventSleepBalanced(s1, o, res);
      assert Held(a.st, res) == Held(s, res) + Net(a.fx, res);
      var b := if a.st.blockKeyboard then StartEventTap(a.st, o) else Outcome(a.st, []);
      if a.st.blockKeyboard {
        StartEventTapBalanced(a.st, o, res);
      }
      assert Held(b.st, res) == Held(a.st, res) + Net(b.fx, res);
      var tail := [DimBacklight, ScheduleDisplaySleep, Notify(ScreenOffStarted(r.st.blockKeyboard))];
      assert r.fx == a.fx + b.fx + tail;
      assert Held(r.st, res) == Held(b.st, res);
      NetAppend(a.fx + b.fx, tail, res);
      NetAppend(a.fx, b.fx, res);
      EnterMarkersNeutral(r.st.blockKeyboard, res);
    }
  }

  lemma ExitBalanced(s: State, res: Resource)
    ensures Balanced(s, ExitScreenOffMode(s), res)
  {
    if s.isScreenOff {
      var s1 := s.(isScreenOff := false);
      var a := AllowSleep(s1);
      AllowSleepBalanced(s1, res);
      var b := StopEventTap(a.st);
      StopEventTapBalanced(a.st, res);
      var tail := [RunCommand(DisplayWakeCommand), Notify(ScreenOffEnded)];
      assert ExitScreenOffMode(s).fx == a.fx + b.fx + tail;
      NetAppend(a.fx + b.fx, tail, res);
      NetAppend(a.fx, b.fx, res);
      NetNeutral(tail, res);
    }
  }

  lemma StopPreventSleepBalanced(s: State, res: Resource)
    ensures Balanced(s, StopPreventSleep(s), res)
  {
    if s.isPreventSleep {
      var s1 := s.(isPreventSleep := false);
      var a := AllowDisplayAndSystemSleep(s1);
      AllowDisplayAndSystemSleepBalanced(s1, res);
      var tail := [Notify(PreventSleepEnded)];
      assert StopPreventSleep(s).fx == a.fx + tail;
      NetAppend(a.fx, tail, res);
      assert tail[1..] == [];
    }
  }

  lemma StartPreventSleepBalanced(s: State, o: Oracle, res: Resource)
    requires Inv(s)
    ensures Balanced(s, StartPreventSleep(s, o), res)
  {
    var a := if s.isScreenOff then ExitScreenOffMode(s) else Outcome(s, []);
    ExitBalanced(s, res);
    if !a.st.isPreventSleep {
      var s1 := a.st.(isPreventSleep := true, startTime := Some(o.now));
      var b := PreventDisplayAndSystemSleep(s1, o);
      PreventDisplayAndSystemSleepBalanced(s1, o, res);
      var tail := b.fx + [Notify(PreventSleepStarted)];
      assert StartPreventSleep(s, o).fx == a.fx + tail;
      NetAppend(a.fx, tail, res);
      NetAppend(b.fx, [Notify(PreventSleepStarted)], res);
      assert [Notify(PreventSleepStarted)][1..] == [];
    }
  }

  lemma ToggleModeBalanced(s: State, o: Oracle, res: Resource)
    requires Inv(s)
    ensures Balanced(s, ToggleMode(s, o), res)
  {
    var a := if s.isPreventSleep then StopPreventSleep(s) else Outcome(s, []);
    StopPreventSleepBalanced(s, res);
    if a.st.isScreenOff {
      ExitBalanced(a.st, res);
    } else {
      EnterBalanced(a.st, o, res);
    }
    var b := if a.st.isScreenOff then ExitScreenOffMode(a.st) else EnterScreenOffMode(a.st, o);
    NetAppend(a.fx, b.fx, res);
  }

  lemma TogglePreventSleepModeBalanced(s: State, o: Oracle, res: Resource)
    requires Inv(s)
    ensures Balanced(s, TogglePreventSleepMode(s, o), res)
  {
    if s.isPreventSleep {
      StopPreventSleepBalanced(s, res);
    } else {
      StartPreventSleepBalanced(s, o, res);
    }
  }

  lemma ToggleBlockKeyboardBalanced(s: State, o: Oracle, res: Resource)
    requires Inv(s)
    ensures Balanced(s, ToggleBlockKeyboard(s, o), res)
  {
    var s1 := s.(blockKeyboard := !s.blockKeyboard);
    if s1.isScreenOff {
      if s1.blockKeyboard {
        StartEventTapBalanced(s1, o, res);
      } else {
        StopEventTapBalanced(s1, res);
      }
    }
  }

  lemma DispatchBalanced(s: State, req: Request, o: Oracle, res: Resource)
    requires Inv(s)
    ensures Balanced(s, Dispatch(s, req, o), res)
  {
    match req
    case ExitScreenOffReq => ExitBalanced(s, res);
    case ToggleModeReq => ToggleModeBalanced(s, o, res);
    case TogglePreventSleepReq => TogglePreventSleepModeBalanced(s, o, res);
  }

  /** Termination releases exactly one of everything held, whatever the mode. */
  lemma CleanupReleasesHeld(s: State, res: Resource)
    ensures Net(Cleanup(s).fx, res) == -Held(s, res)
    ensures Held(Cleanup(s).st, res) == 0
  {
    var a := AllowSleep(s);
    AllowSleepBalanced(s, res);
    var b := AllowDisplayAndSystemSleep(a.st);
    AllowDisplayAndSystemSleepBalanced(a.st, res);
    var c := StopEventTap(b.st);
    StopEventTapBalanced(b.st, res);
    assert Cleanup(s).fx == a.fx + b.fx + c.fx + [RemoveMonitors];
    NetAppend(a.fx + b.fx + c.fx, [RemoveMonitors], res);
    NetAppend(a.fx + b.fx, c.fx, res);
    NetAppend(a.fx, b.fx, res);
    assert [RemoveMonitors][1..] == [];
  }

  lemma QuitBalanced(s: State, res: Resource)
    ensures Balanced(s, QuitApp(s), res)
  {
    var a := if s.isScreenOff then ExitScreenOffMode(s) else Outcome(s, []);
    ExitBalanced(s, res);
    var b := if a.st.isPreventSleep then StopPreventSleep(a.st) else Outcome(a.st, []);
    StopPreventSleepBalanced(a.st, res);
    assert QuitApp(s).fx == a.fx + b.fx + [Terminate];
    NetAppend(a.fx + b.fx, [Terminate], res);
    NetAppend(a.fx, b.fx, res);
    assert [Terminate][1..] == [];
  }

  lemma ClickBalanced(s: State, c: Click, o: Oracle, res: Resource)
    requires Inv(s)
    ensures Balanced(s, OnStatusBarClick(s, c, o), res)
  {
    if c == LeftMouseUp {
      if s.isScreenOff {
        ExitBalanced(s, res);
      } else if s.isPreventSleep {
        StopPreventSleepBalanced(s, res);
      } else {
        StartPreventSleepBalanced(s, o, res);
      }
    } else if c == RightMouseUp {
      assert [ShowMenu][1..] == [];
    }
  }

  // ── Whole runs ────────────────────────────────────────────────────

  /** One stimulus accounts exactly for its change in holdings. */
  lemma StepBalanced(sys: System, op: Op, o: Oracle, res: Resource)
    requires Inv(sys.app)
    ensures Held(Step(sys, op, o).sys.app, res) == Held(sys.app, res) + Net(Step(sys, op, o).fx, res)
  {
    var s := sys.app;
    match op
    case HotkeyOp(ev) =>
    case TapOp(ev) =>
      NetNeutral(Step(sys, op, o).fx, res);
    case MainQueueOp =>
      if sys.queue != [] {
        DispatchBalanced(s, sys.queue[0], o, res);
      }
    case MenuToggleMode => ToggleModeBalanced(s, o, res);
    case MenuTogglePreventSleep => TogglePreventSleepModeBalanced(s, o, res);
    case ClickOp(c) => ClickBalanced(s, c, o, res);
    case ToggleBlockKeyboardOp => ToggleBlockKeyboardBalanced(s, o, res);
    case ToggleAutoReSleepOp =>
    case ToggleShowTimerOp =>
    case ReSleepTickOp =>
      NetNeutral(Step(sys, op, o).fx, res);
    case DelayedSleepOp =>
      NetNeutral(DelayedDisplaySleep(s), res);
  }

  /** Over any run the effects account exactly for the change in holdings. */
  lemma {:induction false} RunBalanced(sys: System, steps: seq<(Op, Oracle)>, res: Resource)
    requires Inv(sys.app)
    ensures Held(Run(sys, steps).sys.app, res) == Held(sys.app, res) + Net(Run(sys, steps).fx, res)
    decreases |steps|
  {
    if steps != [] {
      var first := Step(sys, steps[0].0, steps[0].1);
      StepBalanced(sys, steps[0].0, steps[0].1, res);
      RunBalanced(first.sys, steps[1..], res);
      NetAppend(first.fx, Run(first.sys, steps[1..]).fx, res);
    }
  }

  /** From launch, every resource acquired and not yet given back is one the
      current mode owns; back in Normal, every acquisition has been matched
      by exactly one release. */
  lemma {:induction false} NothingOutlivesItsMode(steps: seq<(Op, Oracle)>, res: Resource)
    ensures var r := Run(Launched, steps);
            && Net(r.fx, res) == Held(r.sys.app, res)
            && (ModeOf(r.sys.app) == NormalMode ==> Net(r.fx, res) == 0)
  {
    InitInv();
    RunBalanced(Launched, steps, res);
  }

  /** Quitting after any run, followed by the termination hook, leaves every
      acquisition of the whole session matched by exactly one release. */
  lemma {:induction false} QuitLeavesNothingHeld(steps: seq<(Op, Oracle)>, res: Resource)
    ensures var r := Run(Launched, steps);
            var q := QuitApp(r.sys.app);
            var c := Cleanup(q.st);
            Net(r.fx + q.fx + c.fx, res) == 0
  {
    var r := Run(Launched, steps);
    var q := QuitApp(r.sys.app);
    InitInv();
    RunBalanced(Launched, steps, res);
    QuitBalanced(r.sys.app, res);
    CleanupReleasesHeld(q.st, res);
    NetAppend(r.fx + q.fx, Cleanup(q.st).fx, res);
    NetAppend(r.fx, q.fx, res);
  }
}
