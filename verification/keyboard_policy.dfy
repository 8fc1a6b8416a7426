/**
 The pure decisions made on keyboard input: the event tap's per-event policy
 (pass or consume, plus a requested main-queue action) and the hotkey
 dispatcher shared by the global and local monitors.
 */
module KeyboardPolicy {
  import opened Types

  /** What the tap callback does with one event. `request` is work scheduled
      on the main queue; the callback itself never changes the mode. */
  datatype Verdict = Verdict(pass: bool, reEnableTap: bool, request: Option<Request>)

  /** True when the tap is actively blocking: ScreenOff mode with keyboard
      locking enabled. */
  predicate Blocking(isScreenOff: bool, blockKeyboard: bool) {
    isScreenOff && blockKeyboard
  }

  /** The tap callback's policy, its cases tried in order: a tap-disabled
      notification re-enables the tap (if one is installed) and passes; an
      inactive lock passes; Cmd+Ctrl+Esc is consumed and requests the
      ScreenOff exit; Cmd+Shift+L is consumed and requests the mode toggle;
      everything else is consumed. */
  function ProcessKeyboardEvent(ev: KeyEvent, isScreenOff: bool, blockKeyboard: bool, tapInstalled: bool): (v: Verdict)
    ensures v.pass <==> IsTapDisabled(ev.kind) || !Blocking(isScreenOff, blockKeyboard)
    ensures v.reEnableTap <==> IsTapDisabled(ev.kind) && tapInstalled
    ensures v.request.Some? ==> !v.pass
    ensures v.request == Some(ExitScreenOffReq) <==> !v.pass && IsEmergencyExitCombo(ev)
    ensures v.request == Some(ToggleModeReq) <==>
              !v.pass && !IsEmergencyExitCombo(ev) && IsToggleModeCombo(ev)
    ensures v.request != Some(TogglePreventSleepReq)
  {
    if IsTapDisabled(ev.kind) then
      Verdict(true, tapInstalled, None)
    else if !(isScreenOff && blockKeyboard) then
      Verdict(true, false, None)
    else if {MaskCommand, MaskControl} <= ev.flags && ev.keyCode == 53 then
      Verdict(false, false, Some(ExitScreenOffReq))
    else if {MaskCommand, MaskShift} <= ev.flags && ev.keyCode == 37 then
      Verdict(false, false, Some(ToggleModeReq))
    else
      Verdict(false, false, None)
  }

  /** Whether the tap's callback is invoked for an event of this type at all:
      subscribed types, plus the tap-disabled notifications the system always
      delivers. */
  predicate TapDelivers(t: EventType) {
    t in TapMask || IsTapDisabled(t)
  }

  /** Fate of a keyboard event arriving at the session: it reaches the policy
      only if a tap is installed and subscribed to its type. */
  function EventFate(ev: KeyEvent, isScreenOff: bool, blockKeyboard: bool, tapInstalled: bool): (v: Verdict)
    ensures !tapInstalled || !TapDelivers(ev.kind) ==> v == Verdict(true, false, None)
    ensures !v.pass <==> tapInstalled && ev.kind in TapMask && Blocking(isScreenOff, blockKeyboard)
    ensures v.reEnableTap <==> tapInstalled && IsTapDisabled(ev.kind)
    ensures v.request.Some? ==> !v.pass
  {
    if tapInstalled && TapDelivers(ev.kind) then
      ProcessKeyboardEvent(ev, isScreenOff, blockKeyboard, tapInstalled)
    else
      Verdict(true, false, None)
  }

  /** While the lock is active, every key-down or key-up is consumed, the
      whitelisted combinations included; only they produce a request. */
  lemma BlockingConsumesAllKeys(ev: KeyEvent)
    requires ev.kind in TapMask
    ensures var v := EventFate(ev, true, true, true);
            !v.pass
            && (v.request.Some? <==> IsEmergencyExitCombo(ev) || IsToggleModeCombo(ev))
  {
  }

  /** Modifier-only events are outside the tap mask, so held modifiers always
      reach the rest of the system. */
  lemma ModifiersAlwaysPass(ev: KeyEvent, isScreenOff: bool, blockKeyboard: bool, tapInstalled: bool)
    requires ev.kind == FlagsChanged
    ensures EventFate(ev, isScreenOff, blockKeyboard, tapInstalled).pass
  {
  }

  /** Outcome of the hotkey dispatcher: whether it recognised the event and
      which main-queue action it scheduled. */
  datatype HotkeyResult = HotkeyResult(handled: bool, request: Option<Request>)

  /** Cmd+Shift+L schedules the ScreenOff toggle, Cmd+Shift+P the
      PreventSleep toggle; any other event is not handled. */
  function HandleHotkeyEvent(ev: KeyEvent): (r: HotkeyResult)
    ensures r.handled <==> r.request.Some?
    ensures r.request == Some(ToggleModeReq) <==> IsToggleModeCombo(ev)
    ensures r.request == Some(TogglePreventSleepReq) <==> IsPreventSleepCombo(ev)
    ensures r.request != Some(ExitScreenOffReq)
  {
    if {MaskCommand, MaskShift} <= ev.flags && ev.keyCode == 37 then
      HotkeyResult(true, Some(ToggleModeReq))
    else if {MaskCommand, MaskShift} <= ev.flags && ev.keyCode == 35 then
      HotkeyResult(true, Some(TogglePreventSleepReq))
    else
      HotkeyResult(false, None)
  }

  /** The in-app monitor swallows the events the dispatcher handled and
      returns the rest unchanged; the global monitor only observes. */
  function LocalMonitor(ev: KeyEvent): (r: Option<KeyEvent>)
    ensures r.None? <==> IsToggleModeCombo(ev) || IsPreventSleepCombo(ev)
    ensures r.Some? ==> r.value == ev
  {
    if HandleHotkeyEvent(ev).handled then None else Some(ev)
  }
}
