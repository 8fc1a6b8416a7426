/**
 The mode state machine of the menu-bar app: the AppDelegate's fields as an
 immutable record and its transitions as pure functions. The outcomes the
 operating system decides (assertion creation, helper launch, accessibility
 trust, event-tap creation, the clock) arrive in an `Oracle`. A call whose
 result the app keeps, or that changes the outside world, leaves as an
 `Effect`, in order; the accessibility query and a failed assertion or tap
 creation leave none.
 */
module Controller {
  import opened Types
  import opened PowerAssertion
  import opened Elapsed

  datatype State = State(
    isScreenOff: bool,
    isPreventSleep: bool,
    startTime: Option<int>,        // milliseconds; present while a mode runs
    blockKeyboard: bool,
    autoReSleep: bool,
    showTimer: bool,
    screenOffSlot: Slot,
    preventSleepSlot: Slot,
    tapInstalled: bool,            // eventTap != nil
    uiTimer: bool,                 // uiTimer != nil
    reSleepTimer: bool)            // reSleepTimer != nil

  /** What the operating system answers during one transition. */
  datatype Oracle = Oracle(
    nativeOk: bool,                // IOPMAssertionCreateWithName succeeds
    helperRuns: bool,              // the fallback caffeinate's run() succeeds
    axTrusted: bool,               // AXIsProcessTrustedWithOptions
    tapOk: bool,                   // CGEvent.tapCreate returns a tap
    now: int)                      // Date(), in milliseconds

  datatype Outcome = Outcome(st: State, fx: seq<Effect>)

  datatype Mode = NormalMode | ScreenOffMode | PreventSleepMode

  function ModeOf(s: State): Mode {
    if s.isScreenOff then ScreenOffMode
    else if s.isPreventSleep then PreventSleepMode
    else NormalMode
  }

  /** The state at launch: no mode, every preference on, nothing held. */
  const Init := State(false, false, None, true, true, true, EmptySlot, EmptySlot, false, false, false)

  /** The consistency the transitions maintain between the mode flags and
      the resources they own. */
  predicate Inv(s: State) {
    && !(s.isScreenOff && s.isPreventSleep)
    && (s.startTime.Some? <==> s.isScreenOff || s.isPreventSleep)
    && (if s.isScreenOff then HoldsOne(s.screenOffSlot) else IsEmpty(s.screenOffSlot))
    && (if s.isPreventSleep then HoldsOne(s.preventSleepSlot) else IsEmpty(s.preventSleepSlot))
    && (s.tapInstalled <==> s.isScreenOff && s.blockKeyboard)
    && (s.uiTimer <==> s.isScreenOff || s.isPreventSleep)
    && (s.reSleepTimer <==> s.isScreenOff && s.autoReSleep)
  }

  /** Every `first`-slot effect is issued before every `second`-slot effect. */
  predicate SlotOrdered(fx: seq<Effect>, first: SlotKind, second: SlotKind) {
    forall i, j :: 0 <= i < |fx| && 0 <= j < |fx| && TouchesSlot(fx[i], first) && TouchesSlot(fx[j], second) ==> i < j
  }

  predicate EndsWith(fx: seq<Effect>, e: Effect) {
    |fx| > 0 && fx[|fx| - 1] == e
  }

  predicate NoneTouch(fx: seq<Effect>, k: SlotKind) {
    forall e :: e in fx ==> !TouchesSlot(e, k)
  }

  /** True of every effect that belongs to ScreenOff: its slot or the tap. */
  predicate OwnedByScreenOff(e: Effect) {
    TouchesSlot(e, ScreenOffSlot) || e.InstallTap? || e.RemoveTap?
  }

  /** Every teardown of slot `k` (or of the tap) is issued before every
      effect on slot `k2`. */
  predicate TeardownFirst(fx: seq<Effect>, k: SlotKind, k2: SlotKind) {
    forall i, j :: 0 <= i < |fx| && 0 <= j < |fx| && IsTeardown(fx[i], k) && TouchesSlot(fx[j], k2) ==> i < j
  }

  /** Every PreventSleep-slot effect is issued before every effect ScreenOff
      owns, the tap included. */
  predicate PreventSleepFirst(fx: seq<Effect>) {
    forall i, j :: 0 <= i < |fx| && 0 <= j < |fx| && TouchesSlot(fx[i], PreventSleepSlot) && OwnedByScreenOff(fx[j]) ==> i < j
  }

  lemma ConcatTeardownFirst(a: seq<Effect>, b: seq<Effect>, k: SlotKind, k2: SlotKind)
    requires NoneTouch(a, k2)
    requires forall e :: e in b ==> !IsTeardown(e, k)
    ensures TeardownFirst(a + b, k, k2)
  {
    var fx := a + b;
    assert forall n :: 0 <= n < |a| ==> fx[n] == a[n] && fx[n] in a;
    assert forall n :: |a| <= n < |fx| ==> fx[n] == b[n - |a|] && fx[n] in b;
  }

  lemma ConcatPreventSleepFirst(a: seq<Effect>, b: seq<Effect>)
    requires forall i :: 0 <= i < |a| ==> !OwnedByScreenOff(a[i])
    requires NoneTouch(b, PreventSleepSlot)
    ensures PreventSleepFirst(a + b)
  {
    var fx := a + b;
    assert forall n :: 0 <= n < |a| ==> fx[n] == a[n] && fx[n] in a;
    assert forall n :: |a| <= n < |fx| ==> fx[n] == b[n - |a|] && fx[n] in b;
  }

  lemma ConcatOrdered(a: seq<Effect>, b: seq<Effect>, first: SlotKind, second: SlotKind)
    requires NoneTouch(a, second) && NoneTouch(b, first)
    ensures SlotOrdered(a + b, first, second)
  {
    var fx := a + b;
    assert forall k :: 0 <= k < |a| ==> fx[k] == a[k] && fx[k] in a;
    assert forall k :: |a| <= k < |fx| ==> fx[k] == b[k - |a|] && fx[k] in b;
  }

  lemma InitInv()
    ensures Inv(Init) && ModeOf(Init) == NormalMode
  {
  }

  // ── Power-assertion slots ─────────────────────────────────────────

  /** ScreenOff slot: system-idle assertion, falling back to `caffeinate -i`. */
  function PreventSleep(s: State, o: Oracle): (r: Outcome)
    ensures r.st == s.(screenOffSlot := r.st.screenOffSlot)
    ensures r.st.screenOffSlot.native <==> o.nativeOk
    ensures IsEmpty(s.screenOffSlot) ==> HoldsOne(r.st.screenOffSlot)
    ensures !o.nativeOk ==>
              r.st.screenOffSlot.helper == Some(Helper(Command(CaffeinatePath, ["-i"]), o.helperRuns))
    ensures forall e :: e in r.fx ==> TouchesSlot(e, ScreenOffSlot)
  {
    var (sl, fx) := Acquire(ScreenOffSlot, s.screenOffSlot, o.nativeOk, o.helperRuns);
    Outcome(s.(screenOffSlot := sl), fx)
  }

  /** Releases the ScreenOff slot; safe when nothing is held. */
  function AllowSleep(s: State): (r: Outcome)
    ensures r.st == s.(screenOffSlot := EmptySlot)
    ensures ReleaseAssertion(ScreenOffSlot) in r.fx <==> s.screenOffSlot.native
    ensures TerminateHelper(ScreenOffSlot) in r.fx <==> s.screenOffSlot.helper.Some? && s.screenOffSlot.helper.value.running
    ensures TerminateUnlaunched(ScreenOffSlot) in r.fx <==> HoldsUnlaunched(s.screenOffSlot)
    ensures forall e :: e in r.fx ==> TouchesSlot(e, ScreenOffSlot) && IsTeardown(e, ScreenOffSlot)
  {
    var (sl, fx) := Release(ScreenOffSlot, s.screenOffSlot);
    Outcome(s.(screenOffSlot := sl), fx)
  }

  /** PreventSleep slot: display-idle assertion, falling back to `caffeinate -d -i`. */
  function PreventDisplayAndSystemSleep(s: State, o: Oracle): (r: Outcome)
    ensures r.st == s.(preventSleepSlot := r.st.preventSleepSlot)
    ensures r.st.preventSleepSlot.native <==> o.nativeOk
    ensures IsEmpty(s.preventSleepSlot) ==> HoldsOne(r.st.preventSleepSlot)
    ensures !o.nativeOk ==>
              r.st.preventSleepSlot.helper == Some(Helper(Command(CaffeinatePath, ["-d", "-i"]), o.helperRuns))
    ensures forall e :: e in r.fx ==> TouchesSlot(e, PreventSleepSlot)
  {
    var (sl, fx) := Acquire(PreventSleepSlot, s.preventSleepSlot, o.nativeOk, o.helperRuns);
    Outcome(s.(preventSleepSlot := sl), fx)
  }

  /** Releases the PreventSleep slot; safe when nothing is held. */
  function AllowDisplayAndSystemSleep(s: State): (r: Outcome)
    ensures r.st == s.(preventSleepSlot := EmptySlot)
    ensures ReleaseAssertion(PreventSleepSlot) in r.fx <==> s.preventSleepSlot.native
    ensures TerminateHelper(PreventSleepSlot) in r.fx <==> s.preventSleepSlot.helper.Some? && s.preventSleepSlot.helper.value.running
    ensures TerminateUnlaunched(PreventSleepSlot) in r.fx <==> HoldsUnlaunched(s.preventSleepSlot)
    ensures forall e :: e in r.fx ==> TouchesSlot(e, PreventSleepSlot) && IsTeardown(e, PreventSleepSlot)
  {
    var (sl, fx) := Release(PreventSleepSlot, s.preventSleepSlot);
    Outcome(s.(preventSleepSlot := sl), fx)
  }

  // ── Event tap ─────────────────────────────────────────────────────

  /** Installs the keyboard tap. Without accessibility trust the user is
      told and keyboard locking is switched off; if the tap cannot be created
      locking is switched off silently. The mode is never affected. */
  function StartEventTap(s: State, o: Oracle): (r: Outcome)
    ensures r.st == s.(blockKeyboard := r.st.blockKeyboard, tapInstalled := r.st.tapInstalled)
    ensures r.st.tapInstalled <==> s.tapInstalled || (o.axTrusted && o.tapOk)
    ensures r.st.blockKeyboard <==> s.blockKeyboard && o.axTrusted && o.tapOk
    ensures InstallTap(TapMask) in r.fx <==> o.axTrusted && o.tapOk
    ensures Notify(AccessibilityRequired) in r.fx <==> !o.axTrusted
    ensures NoneTouch(r.fx, ScreenOffSlot) && NoneTouch(r.fx, PreventSleepSlot)
  {
    if !o.axTrusted then
      Outcome(s.(blockKeyboard := false), [Notify(AccessibilityRequired)])
    else if !o.tapOk then
      Outcome(s.(blockKeyboard := false), [])
    else
      Outcome(s.(tapInstalled := true), [InstallTap(TapMask)])
  }

  /** Removes the tap if one is installed; otherwise does nothing. */
  function StopEventTap(s: State): (r: Outcome)
    ensures r.st == s.(tapInstalled := false)
    ensures RemoveTap in r.fx <==> s.tapInstalled
    ensures forall e :: e in r.fx ==> e == RemoveTap
  {
    if s.tapInstalled then Outcome(s.(tapInstalled := false), [RemoveTap])
    else Outcome(s, [])
  }

  // ── ScreenOff mode ────────────────────────────────────────────────

  /** Enters ScreenOff: records the start, takes the ScreenOff slot, locks
      the keyboard if asked, dims the backlight, starts the status timer,
      schedules the display-off and starts the re-sleep watchdog if enabled.
      Does nothing when already in ScreenOff. */
  function EnterScreenOffMode(s: State, o: Oracle): (r: Outcome)
    ensures s.isScreenOff ==> r == Outcome(s, [])
    ensures r.st.isScreenOff
    ensures r.st.isPreventSleep == s.isPreventSleep && r.st.preventSleepSlot == s.preventSleepSlot
    ensures r.st.autoReSleep == s.autoReSleep && r.st.showTimer == s.showTimer
    ensures NoneTouch(r.fx, PreventSleepSlot)
    ensures !s.isScreenOff ==>
              && r.st.startTime == Some(o.now)
              && (r.st.screenOffSlot.native <==> o.nativeOk)
              && (IsEmpty(s.screenOffSlot) ==> HoldsOne(r.st.screenOffSlot))
              && (r.st.blockKeyboard <==> s.blockKeyboard && o.axTrusted && o.tapOk)
              && (r.st.tapInstalled <==> s.tapInstalled || r.st.blockKeyboard)
              && r.st.uiTimer
              && (r.st.reSleepTimer <==> s.reSleepTimer || s.autoReSleep)
    ensures Inv(s) && !s.isPreventSleep ==> Inv(r.st)
  {
    if s.isScreenOff then Outcome(s, [])
    else
      var s1 := s.(isScreenOff := true, startTime := Some(o.now));
      var a := PreventSleep(s1, o);
      var b := if a.st.blockKeyboard then StartEventTap(a.st, o) else Outcome(a.st, []);
      var s4 := b.st.(uiTimer := true);
      var s5 := if s4.autoReSleep then s4.(reSleepTimer := true) else s4;
      Outcome(s5, a.fx + b.fx + [DimBacklight, ScheduleDisplaySleep, Notify(ScreenOffStarted(s5.blockKeyboard))])
  }

  /** Entering acquires the ScreenOff slot first, then tries the tap, then
      dims the backlight and schedules the display-off; the notification
      reports whether the keyboard ended up locked. */
  lemma EnterEffects(s: State, o: Oracle)
    requires !s.isScreenOff
    ensures var r := EnterScreenOffMode(s, o);
            && |r.fx| >= 4
            && TouchesSlot(r.fx[0], ScreenOffSlot)
            && r.fx[|r.fx| - 3] == DimBacklight
            && r.fx[|r.fx| - 2] == ScheduleDisplaySleep
            && r.fx[|r.fx| - 1] == Notify(ScreenOffStarted(r.st.blockKeyboard))
            && (InstallTap(TapMask) in r.fx <==> s.blockKeyboard && o.axTrusted && o.tapOk)
  {
    var a := PreventSleep(s.(isScreenOff := true, startTime := Some(o.now)), o);
    var b := if a.st.blockKeyboard then StartEventTap(a.st, o) else Outcome(a.st, []);
    assert |a.fx| == 1;
    assert InstallTap(TapMask) !in a.fx;
  }

  /** Leaves ScreenOff: releases the ScreenOff slot, removes the tap, stops
      both timers, wakes the display and clears the start time. Does nothing
      when not in ScreenOff. */
  function ExitScreenOffMode(s: State): (r: Outcome)
    ensures !s.isScreenOff ==> r == Outcome(s, [])
    ensures !r.st.isScreenOff
    ensures s.isScreenOff ==>
              r.st == s.(isScreenOff := false, startTime := None, screenOffSlot := EmptySlot,
                         tapInstalled := false, uiTimer := false, reSleepTimer := false)
    ensures NoneTouch(r.fx, PreventSleepSlot)
    ensures Inv(s) ==> Inv(r.st)
  {
    if !s.isScreenOff then Outcome(s, [])
    else
      var s1 := s.(isScreenOff := false);
      var a := AllowSleep(s1);
      var b := StopEventTap(a.st);
      var s3 := b.st.(uiTimer := false, reSleepTimer := false, startTime := None);
      Outcome(s3, a.fx + b.fx + [RunCommand(DisplayWakeCommand), Notify(ScreenOffEnded)])
  }

  /** The exit sequence first gives back what ScreenOff held (nothing but
      slot and tap teardown), then wakes the display, then notifies. */
  lemma ExitTearsDown(s: State)
    requires s.isScreenOff
    ensures var fx := ExitScreenOffMode(s).fx;
            && |fx| >= 2 && IsDisplayWake(fx[|fx| - 2]) && fx[|fx| - 1] == Notify(ScreenOffEnded)
            && (forall i :: 0 <= i < |fx| - 2 ==> IsTeardown(fx[i], ScreenOffSlot))
  {
    var a := AllowSleep(s.(isScreenOff := false));
    var b := StopEventTap(a.st);
    var pre := a.fx + b.fx;
    var fx := pre + [RunCommand(DisplayWakeCommand), Notify(ScreenOffEnded)];
    assert ExitScreenOffMode(s).fx == fx;
    assert forall i :: 0 <= i < |pre| ==> fx[i] == pre[i] && fx[i] in pre;
  }

  /** The ScreenOff toggle (Cmd+Shift+L, menu): stops PreventSleep first,
      then enters ScreenOff or leaves it. */
  function ToggleMode(s: State, o: Oracle): (r: Outcome)
    ensures !r.st.isPreventSleep
    ensures r.st.isScreenOff <==> !s.isScreenOff
    ensures SlotOrdered(r.fx, PreventSleepSlot, ScreenOffSlot)
    ensures PreventSleepFirst(r.fx)
    ensures !s.isPreventSleep ==> NoneTouch(r.fx, PreventSleepSlot)
    ensures Inv(s) ==> Inv(r.st)
  {
    var a := if s.isPreventSleep then StopPreventSleep(s) else Outcome(s, []);
    var b := if a.st.isScreenOff then ExitScreenOffMode(a.st) else EnterScreenOffMode(a.st, o);
    ConcatOrdered(a.fx, b.fx, PreventSleepSlot, ScreenOffSlot);
    ConcatPreventSleepFirst(a.fx, b.fx);
    Outcome(b.st, a.fx + b.fx)
  }

  // ── PreventSleep mode ─────────────────────────────────────────────

  /** The PreventSleep toggle (Cmd+Shift+P, menu). */
  function TogglePreventSleepMode(s: State, o: Oracle): (r: Outcome)
    ensures r.st.isPreventSleep <==> !s.isPreventSleep
    ensures !(r.st.isScreenOff && r.st.isPreventSleep)
    ensures Inv(s) ==> Inv(r.st)
  {
    if s.isPreventSleep then StopPreventSleep(s) else StartPreventSleep(s, o)
  }

  /** Enters PreventSleep, leaving ScreenOff first if it is active. Does
      nothing more when PreventSleep is already on. */
  function StartPreventSleep(s: State, o: Oracle): (r: Outcome)
    ensures r.st.isPreventSleep && !r.st.isScreenOff
    ensures !s.isScreenOff && s.isPreventSleep ==> r == Outcome(s, [])
    ensures !s.isPreventSleep ==>
              && r.st.startTime == Some(o.now)
              && (r.st.preventSleepSlot.native <==> o.nativeOk)
              && (IsEmpty(s.preventSleepSlot) ==> HoldsOne(r.st.preventSleepSlot))
              && r.st.uiTimer
              && EndsWith(r.fx, Notify(PreventSleepStarted))
    ensures r.st.blockKeyboard == s.blockKeyboard && r.st.autoReSleep == s.autoReSleep
            && r.st.showTimer == s.showTimer
    ensures SlotOrdered(r.fx, ScreenOffSlot, PreventSleepSlot)
    ensures TeardownFirst(r.fx, ScreenOffSlot, PreventSleepSlot)
    ensures !s.isScreenOff ==> NoneTouch(r.fx, ScreenOffSlot)
    ensures Inv(s) ==> Inv(r.st)
  {
    var a := if s.isScreenOff then ExitScreenOffMode(s) else Outcome(s, []);
    if a.st.isPreventSleep then
      ConcatOrdered(a.fx, [], ScreenOffSlot, PreventSleepSlot);
      ConcatTeardownFirst(a.fx, [], ScreenOffSlot, PreventSleepSlot);
      assert a.fx + [] == a.fx;
      a
    else
      var s1 := a.st.(isPreventSleep := true, startTime := Some(o.now));
      var b := PreventDisplayAndSystemSleep(s1, o);
      var tail := b.fx + [Notify(PreventSleepStarted)];
      ConcatOrdered(a.fx, tail, ScreenOffSlot, PreventSleepSlot);
      ConcatTeardownFirst(a.fx, tail, ScreenOffSlot, PreventSleepSlot);
      Outcome(b.st.(uiTimer := true), a.fx + tail)
  }

  /** Leaves PreventSleep: releases its slot, stops the status timer and
      clears the start time. Does nothing when PreventSleep is off. */
  function StopPreventSleep(s: State): (r: Outcome)
    ensures !s.isPreventSleep ==> r == Outcome(s, [])
    ensures !r.st.isPreventSleep
    ensures s.isPreventSleep ==>
              r.st == s.(isPreventSleep := false, preventSleepSlot := EmptySlot, uiTimer := false, startTime := None)
    ensures s.isPreventSleep ==>
              && (ReleaseAssertion(PreventSleepSlot) in r.fx <==> s.preventSleepSlot.native)
              && (TerminateHelper(PreventSleepSlot) in r.fx <==> s.preventSleepSlot.helper.Some? && s.preventSleepSlot.helper.value.running)
              && (TerminateUnlaunched(PreventSleepSlot) in r.fx <==> HoldsUnlaunched(s.preventSleepSlot))
              && EndsWith(r.fx, Notify(PreventSleepEnded))
    ensures NoneTouch(r.fx, ScreenOffSlot)
    ensures forall i :: 0 <= i < |r.fx| ==> !OwnedByScreenOff(r.fx[i])
    ensures Inv(s) ==> Inv(r.st)
  {
    if !s.isPreventSleep then Outcome(s, [])
    else
      var s1 := s.(isPreventSleep := false);
      var a := AllowDisplayAndSystemSleep(s1);
      Outcome(a.st.(uiTimer := false, startTime := None), a.fx + [Notify(PreventSleepEnded)])
  }

  // ── Status item ───────────────────────────────────────────────────

  /** The mouse event behind a status-item action, if AppKit reports one. */
  datatype Click = NoCurrentEvent | RightMouseUp | LeftMouseUp

  /** Right click opens the menu; left click leaves ScreenOff, or else
      toggles PreventSleep. */
  function OnStatusBarClick(s: State, c: Click, o: Oracle): (r: Outcome)
    ensures c != LeftMouseUp ==> r.st == s
    ensures c == NoCurrentEvent ==> r == Outcome(s, [])
    ensures c == RightMouseUp ==> r.fx == [ShowMenu]
    ensures c == LeftMouseUp ==> !(r.st.isScreenOff && r.st.isPreventSleep)
    ensures c == LeftMouseUp && Inv(s) ==>
              ModeOf(r.st) == (if ModeOf(s) == NormalMode then PreventSleepMode else NormalMode)
    ensures Inv(s) ==> Inv(r.st)
  {
    match c
    case NoCurrentEvent => Outcome(s, [])
    case RightMouseUp => Outcome(s, [ShowMenu])
    case LeftMouseUp =>
      if s.isScreenOff then ExitScreenOffMode(s)
      else if s.isPreventSleep then StopPreventSleep(s)
      else StartPreventSleep(s, o)
  }

  // ── Settings ──────────────────────────────────────────────────────

  /** Flips keyboard locking; while in ScreenOff the tap follows the new
      setting at once (and an install failure turns the setting back off). */
  function ToggleBlockKeyboard(s: State, o: Oracle): (r: Outcome)
    ensures r.st == s.(blockKeyboard := r.st.blockKeyboard, tapInstalled := r.st.tapInstalled)
    ensures !s.isScreenOff ==> r.st.blockKeyboard == !s.blockKeyboard && r.st.tapInstalled == s.tapInstalled && r.fx == []
    ensures s.isScreenOff && s.blockKeyboard ==> !r.st.blockKeyboard && !r.st.tapInstalled
    ensures s.isScreenOff && !s.blockKeyboard ==>
              && (r.st.blockKeyboard <==> o.axTrusted && o.tapOk)
              && (r.st.tapInstalled <==> s.tapInstalled || r.st.blockKeyboard)
    ensures Inv(s) ==> Inv(r.st)
  {
    var s1 := s.(blockKeyboard := !s.blockKeyboard);
    if s1.isScreenOff then
      if s1.blockKeyboard then StartEventTap(s1, o) else StopEventTap(s1)
    else
      Outcome(s1, [])
  }

  /** Flips automatic re-sleep; while in ScreenOff the watchdog is started
      or cancelled to match. */
  function ToggleAutoReSleep(s: State): (r: Outcome)
    ensures r.st == s.(autoReSleep := !s.autoReSleep, reSleepTimer := r.st.reSleepTimer)
    ensures s.isScreenOff ==> r.st.reSleepTimer == r.st.autoReSleep
    ensures !s.isScreenOff ==> r.st.reSleepTimer == s.reSleepTimer
    ensures r.fx == []
    ensures Inv(s) ==> Inv(r.st)
  {
    var s1 := s.(autoReSleep := !s.autoReSleep);
    if s1.isScreenOff then
      if s1.autoReSleep then Outcome(s1.(reSleepTimer := true), [])
      else Outcome(s1.(reSleepTimer := false), [])
    else
      Outcome(s1, [])
  }

  /** Flips the timer display; nothing else changes. */
  function ToggleShowTimer(s: State): (r: Outcome)
    ensures r.st == s.(showTimer := !s.showTimer) && r.fx == []
    ensures Inv(s) ==> Inv(r.st)
  {
    Outcome(s.(showTimer := !s.showTimer), [])
  }

  /** The status item's icon: sun in Normal, moon in ScreenOff, cup in
      PreventSleep; the two mode icons carry the elapsed clock when the timer
      display is on and a start time is recorded. */
  datatype Icon = SunIcon | MoonIcon(clock: Option<Hms>) | CupIcon(clock: Option<Hms>)

  /** What `updateIcon` shows at time `now` (milliseconds). */
  function StatusIcon(s: State, now: int): (r: Icon)
    ensures r.MoonIcon? <==> s.isScreenOff
    ensures r.CupIcon? <==> !s.isScreenOff && s.isPreventSleep
    ensures !r.SunIcon? ==> (r.clock.Some? <==> s.showTimer && s.startTime.Some?)
    ensures !r.SunIcon? && r.clock.Some? && now >= s.startTime.value ==>
              var c := r.clock.value;
              var secs := c.h * 3600 + c.m * 60 + c.s;
              && secs * 1000 <= now - s.startTime.value < secs * 1000 + 1000
              && c.h >= 0 && 0 <= c.m < 60 && 0 <= c.s < 60
  {
    var clock := if s.showTimer && s.startTime.Some?
                 then Some(Split(ElapsedSeconds(s.startTime.value, now))) else None;
    if s.isScreenOff then MoonIcon(clock)
    else if s.isPreventSleep then CupIcon(clock)
    else SunIcon
  }

  // ── Display watchdog ──────────────────────────────────────────────

  /** One firing of the 5-second re-sleep timer: the display is put to sleep
      again only if ScreenOff and auto re-sleep both still hold at fire time. */
  function ReSleepTick(s: State): (fx: seq<Effect>)
    ensures fx == [] || fx == [RunCommand(DisplaySleepCommand)]
    ensures fx != [] <==> s.isScreenOff && s.autoReSleep
  {
    if s.isScreenOff && s.autoReSleep then [RunCommand(DisplaySleepCommand)] else []
  }

  /** The display-off scheduled 0.8 s after entering ScreenOff. It does not
      look at the mode when it fires. */
  function DelayedDisplaySleep(s: State): (r: seq<Effect>)
    ensures |r| == 1 && IsDisplayOff(r[0])
  {
    [RunCommand(DisplaySleepCommand)]
  }

  // ── Quit and termination ──────────────────────────────────────────

  /** The Quit menu item: leave whichever mode is on, then ask the
      application to terminate. */
  function QuitApp(s: State): (r: Outcome)
    ensures ModeOf(r.st) == NormalMode
    ensures EndsWith(r.fx, Terminate)
    ensures Inv(s) ==> Inv(r.st)
  {
    var a := if s.isScreenOff then ExitScreenOffMode(s) else Outcome(s, []);
    var b := if a.st.isPreventSleep then StopPreventSleep(a.st) else Outcome(a.st, []);
    Outcome(b.st, a.fx + b.fx + [Terminate])
  }

  /** Termination hook: releases both slots and the tap whatever the mode,
      and removes the hotkey monitors. The mode flags and timers are left as
      they are. */
  function Cleanup(s: State): (r: Outcome)
    ensures r.st == s.(screenOffSlot := EmptySlot, preventSleepSlot := EmptySlot, tapInstalled := false)
    ensures EndsWith(r.fx, RemoveMonitors)
  {
    var a := AllowSleep(s);
    var b := AllowDisplayAndSystemSleep(a.st);
    var c := StopEventTap(b.st);
    Outcome(c.st, a.fx + b.fx + c.fx + [RemoveMonitors])
  }
}
