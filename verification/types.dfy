/**
 Shared vocabulary of the ScreenControl model: keyboard events as the event
 tap and the hotkey monitors see them, the two power-assertion slots, the
 external commands the app launches, the main-queue requests and the ordered
 effects that transitions hand to the operating system.
 */
module Types {

  datatype Option<T> = None | Some(value: T)

  /** Modifier flags of a keyboard event (CGEventFlags / NSEvent.ModifierFlags,
      already restricted to the device-independent bits). */
  datatype Modifier = MaskCommand | MaskControl | MaskShift | MaskAlternate

  /** The event types a session event tap can hand to its callback. */
  datatype EventType =
    | KeyDown
    | KeyUp
    | FlagsChanged
    | TapDisabledByTimeout
    | TapDisabledByUserInput
    | OtherEvent

  datatype KeyEvent = KeyEvent(kind: EventType, flags: set<Modifier>, keyCode: int)

  /** Virtual key codes the app recognises. */
  const EscapeKeyCode := 53
  const LKeyCode := 37
  const PKeyCode := 35

  /** Event types the keyboard tap subscribes to: key-down and key-up only, so
      modifier-only (flags-changed) events never reach it. */
  const TapMask: set<EventType> := {KeyDown, KeyUp}

  predicate IsTapDisabled(t: EventType) {
    t == TapDisabledByTimeout || t == TapDisabledByUserInput
  }

  /** Cmd+Ctrl+Esc: the emergency exit recognised inside the event tap. */
  predicate IsEmergencyExitCombo(ev: KeyEvent) {
    {MaskCommand, MaskControl} <= ev.flags && ev.keyCode == EscapeKeyCode
  }

  /** Cmd+Shift+L: toggles ScreenOff mode. */
  predicate IsToggleModeCombo(ev: KeyEvent) {
    {MaskCommand, MaskShift} <= ev.flags && ev.keyCode == LKeyCode
  }

  /** Cmd+Shift+P: toggles PreventSleep mode. */
  predicate IsPreventSleepCombo(ev: KeyEvent) {
    {MaskCommand, MaskShift} <= ev.flags && ev.keyCode == PKeyCode
  }

  /** The two independent power-assertion slots. The ScreenOff slot asks IOKit
      for "PreventUserIdleSystemSleep" (the system stays awake, the display
      may sleep); the PreventSleep slot asks for "PreventUserIdleDisplaySleep"
      (both stay awake). The type string itself is not modelled: the slot kind
      carried by each effect determines it. */
  datatype SlotKind = ScreenOffSlot | PreventSleepSlot

  /** An external program invocation: executable path and argument list. */
  datatype Command = Command(path: string, args: seq<string>)

  const CaffeinatePath := "/usr/bin/caffeinate"
  const PmsetPath := "/usr/bin/pmset"

  /** Fallback helper started when the native assertion cannot be created. */
  function HelperCommand(k: SlotKind): (c: Command)
    ensures c.path == CaffeinatePath
    ensures "-i" in c.args
    ensures "-d" in c.args <==> k == PreventSleepSlot
  {
    match k
    case ScreenOffSlot => Command(CaffeinatePath, ["-i"])
    case PreventSleepSlot => Command(CaffeinatePath, ["-d", "-i"])
  }

  /** One-shot display commands: sleep the display now, and wake it by
      declaring user activity for one second (no synthetic keystroke). */
  const DisplaySleepCommand := Command(PmsetPath, ["displaysleepnow"])
  const DisplayWakeCommand := Command(CaffeinatePath, ["-u", "-t", "1"])

  /** User notifications the app posts (their text is presentation). */
  datatype Note =
    | ScreenOffStarted(keyboardLocked: bool)
    | ScreenOffEnded
    | PreventSleepStarted
    | PreventSleepEnded
    | AccessibilityRequired

  /** Work that the event tap or a hotkey monitor schedules on the main queue
      instead of mutating state itself. */
  datatype Request = ExitScreenOffReq | ToggleModeReq | TogglePreventSleepReq

  /** Side effects handed to the operating system, in the order issued. */
  datatype Effect =
    | CreateAssertion(kind: SlotKind)        // a native assertion was created and is now held
    | ReleaseAssertion(kind: SlotKind)
    | SpawnHelper(kind: SlotKind, cmd: Command)
    | TerminateHelper(kind: SlotKind)        // terminate() on a helper whose run() succeeded
    | TerminateUnlaunched(kind: SlotKind)    // terminate() on a helper whose run() failed (`IsAbort`)
    | InstallTap(mask: set<EventType>)
    | RemoveTap
    | ReEnableTap
    | DimBacklight
    | ScheduleDisplaySleep                   // display-off after a fixed 0.8 s delay
    | RunCommand(cmd: Command)               // a one-shot pmset or caffeinate call
    | Notify(note: Note)
    | ShowMenu
    | RemoveMonitors
    | Terminate

  /** `terminate()` sent to a process object that was never launched raises an
      Objective-C exception, which Swift cannot catch: the app aborts there,
      and no later effect of that transition or of any later one happens. */
  predicate IsAbort(e: Effect) {
    e.TerminateUnlaunched?
  }

  predicate Aborts(fx: seq<Effect>) {
    exists i :: 0 <= i < |fx| && IsAbort(fx[i])
  }

  /** The effects that actually take place: `fx` up to and including its
      first abort, or all of `fx` when nothing aborts. */
  function Performed(fx: seq<Effect>): (r: seq<Effect>)
    ensures |r| <= |fx| && r == fx[..|r|]
    ensures forall i :: 0 <= i < |r| - 1 ==> !IsAbort(r[i])
    ensures !Aborts(fx) ==> r == fx
    ensures Aborts(fx) ==> |r| > 0 && IsAbort(r[|r| - 1])
  {
    if fx == [] then []
    else if IsAbort(fx[0]) then [fx[0]]
    else [fx[0]] + Performed(fx[1..])
  }

  /** Effects issued after an abort never take place; before it, all do. */
  lemma {:induction false} PerformedAppend(a: seq<Effect>, b: seq<Effect>)
    ensures Aborts(a + b) <==> Aborts(a) || Aborts(b)
    ensures Aborts(a) ==> Performed(a + b) == Performed(a)
    ensures !Aborts(a) ==> Performed(a + b) == a + Performed(b)
  {
    if a == [] {
      assert a + b == b;
    } else {
      assert (a + b)[0] == a[0];
      assert (a + b)[1..] == a[1..] + b;
      PerformedAppend(a[1..], b);
      if Aborts(a + b) && !IsAbort(a[0]) {
        var i :| 0 <= i < |a + b| && IsAbort((a + b)[i]);
        assert IsAbort((a[1..] + b)[i - 1]);
      }
      if Aborts(a[1..]) {
        var i :| 0 <= i < |a[1..]| && IsAbort(a[1..][i]);
        assert IsAbort(a[i + 1]);
      }
      if Aborts(a) && !IsAbort(a[0]) {
        var i :| 0 <= i < |a| && IsAbort(a[i]);
        assert IsAbort(a[1..][i - 1]);
      }
      if Aborts(b) {
        var i :| 0 <= i < |b| && IsAbort(b[i]);
        assert IsAbort((a + b)[|a| + i]);
      }
      if IsAbort(a[0]) {
        assert IsAbort((a + b)[0]);
      }
    }
  }

  predicate IsDisplayOff(e: Effect) {
    e == RunCommand(DisplaySleepCommand)
  }

  predicate IsDisplayWake(e: Effect) {
    e == RunCommand(DisplayWakeCommand)
  }

  /** True of the effects that give back something the slot or the tap held. */
  predicate IsTeardown(e: Effect, k: SlotKind) {
    e == ReleaseAssertion(k) || e == TerminateHelper(k) || e == TerminateUnlaunched(k) || e == RemoveTap
  }

  /** True of the effects that touch slot `k` at all. */
  predicate TouchesSlot(e: Effect, k: SlotKind) {
    match e
    case CreateAssertion(k') => k' == k
    case ReleaseAssertion(k') => k' == k
    case SpawnHelper(k', _) => k' == k
    case TerminateHelper(k') => k' == k
    case TerminateUnlaunched(k') => k' == k
    case _ => false
  }
}
