# ScreenControl mode state machine in Dafny

ScreenControl is a macOS menu-bar app with three modes:

- **Normal**: nothing is held.
- **ScreenOff**: the display is off and a power assertion keeps the system awake. When keyboard locking is on and accessibility is granted, a keyboard event tap swallows key presses. When auto re-sleep is on, a watchdog runs `pmset displaysleepnow` every 5 seconds, whatever the display's state.
- **PreventSleep**: a display-and-system assertion keeps the screen on.

Each mode owns one power-assertion slot. A slot holds a native IOKit assertion or, when creating that fails, a `caffeinate` helper process. ScreenOff also owns the event tap and two timers.

This project models the app's state as an immutable record and every transition as a pure function. What the operating system decides is passed in as an `Oracle`:

- whether the native assertion can be created;
- whether the helper process starts;
- whether accessibility is trusted;
- whether the tap can be created;
- the clock.

Each transition returns an ordered list of `Effect`s for the calls whose result the app keeps or that change the outside world: a created or released assertion, a spawned or terminated helper, an installed or removed tap, a `pmset` or `caffeinate -u` run, a notification, termination. Three calls leave no effect: the accessibility check, an assertion creation that fails, and a tap creation that fails. Their outcomes appear only through the `Oracle` and the resulting state. A helper whose launch fails is still recorded, and releasing it later issues `TerminateUnlaunched`, at which the app aborts. `Types.Performed` cuts an effect list at that point.

Modules:

- `Types`: key events, combinations and key codes, slot kinds, the helper command lines, effects, and `Performed`, the part of an effect list that takes place before the app aborts.
- `PowerAssertion`: one assertion slot, with its acquire and release.
- `KeyboardPolicy`: the event tap's per-event policy and the hotkey dispatcher.
- `Elapsed`: the status item's h/m/s read-out, using Swift's truncating `/` and `%`.
- `Controller`: the AppDelegate state, the invariant `Inv`, each transition, and the status icon with its clock.
- `Session`: the app with its main queue. `Step` applies one stimulus and `Run` a sequence. Lemmas cover mutual exclusion, agreement with the abstract three-mode machine, idempotence, the watchdog and keyboard scenarios, and quit/termination.
- `Ledger`: resource accounting over effect lists. Every transition's effects acquire or release exactly what its state change says. So over any run from launch, the net count of acquisitions of each resource equals what the current mode holds: zero in Normal, and zero after quit and termination.

Notable behaviours of the code that the model keeps:

- The termination hook (`cleanup`) releases both slots and the tap. It does not reset the mode flags or the timers.
- The emergency exit (Cmd+Ctrl+Esc) queues the ScreenOff exit, not a general return to Normal. The request runs later on the main queue. If PreventSleep was switched on from the menu in between, the exit finds ScreenOff already off and the app stays in PreventSleep (`Session.QueuedExitLeavesPreventSleepOn`).
- A helper whose `run()` fails (line 467 or 422) is still kept, and release sends it `terminate()` (line 472 or 427) without checking that it launched. Foundation raises an Objective-C exception for `terminate()` on a process that was never launched, and Swift cannot catch it, so the app aborts there. Entering ScreenOff when neither the native assertion nor the helper starts, then leaving it by any path, ends the app at that call. The tap is then not removed, the display not woken and no notification sent (`Session.ExitAbortsIffUnlaunched`, `Session.FailedLaunchAbortsOnExit`).
- The 0.8-second delayed display-off scheduled on entry does not re-check the mode. `Session.DelayedSleepOutlivesExit` shows it can still turn the display off after ScreenOff was left.

## Model

| member | source | states |
|---|---|---|
| Types.HelperCommand | ScreenControlApp.swift:463-469 | the fallback helper is `/usr/bin/caffeinate`; it always asks for `-i`, and asks for `-d` exactly for the PreventSleep slot (see also lines 418-424) |
| PowerAssertion.Acquire | ScreenControlApp.swift:435-451 | the native flag is set exactly when creation succeeds; then no helper is spawned; on failure exactly one helper with the slot's command line is recorded, whether or not it runs; from an empty slot exactly one thing is held |
| PowerAssertion.Release | ScreenControlApp.swift:454-474 | the slot ends empty; a native release is issued iff the native assertion was held; a recorded helper is sent `terminate()` whether or not it launched, as a normal termination iff it launched and as an aborting one iff its `run()` failed; nothing else is issued; an empty slot issues nothing |
| PowerAssertion.ReleaseIdempotent | ScreenControlApp.swift:471-474 | a second release finds the slot empty and issues nothing |
| PowerAssertion.ReleaseAbortsIffUnlaunched | ScreenControlApp.swift:463-474 | a release aborts the app iff the slot records a helper whose launch failed; the abort is the release's last effect, so a native release before it still happens |
| PowerAssertion.AcquireReleaseRoundTrip | ScreenControlApp.swift:435-474 | acquire then release on an empty slot ends empty and gives back exactly the one thing acquired |
| KeyboardPolicy.ProcessKeyboardEvent | ScreenControlApp.swift:558-592 | an event passes iff it is a tap-disabled notification or the lock is inactive; the tap is re-enabled iff the event is tap-disabled and a tap exists; only consumed events request anything; the exit request is made iff Cmd+Ctrl+Esc is consumed; the toggle request iff Cmd+Shift+L is consumed and it is not the exit combination; PreventSleep is never requested |
| KeyboardPolicy.BlockingConsumesAllKeys | ScreenControlApp.swift:571-591 | with the lock active every key-down and key-up is consumed, and a request is made exactly for the two whitelisted combinations |
| KeyboardPolicy.EventFate | ScreenControlApp.swift:521-523 | without a tap, or for a type the tap does not receive, the event passes untouched; an event is consumed iff a tap is installed, the type is key-down or key-up, and the lock is active; the tap is re-enabled iff one is installed and the event is a tap-disabled notification; only consumed events request work |
| KeyboardPolicy.ModifiersAlwaysPass | ScreenControlApp.swift:521-523 | modifier-only events are outside the tap mask, so they pass in every state |
| KeyboardPolicy.HandleHotkeyEvent | ScreenControlApp.swift:113-125 | the event is handled iff something is scheduled; the ScreenOff toggle is scheduled iff Cmd+Shift+L; the PreventSleep toggle iff Cmd+Shift+P; never the emergency exit |
| KeyboardPolicy.LocalMonitor | ScreenControlApp.swift:106-109 | the in-app monitor swallows exactly the two hotkeys and returns every other event unchanged |
| Elapsed.SwiftDiv | ScreenControlApp.swift:137 | Swift's quotient truncates toward zero: it is the largest multiple below a non-negative dividend and the smallest above a negative one |
| Elapsed.SwiftRem | ScreenControlApp.swift:139 | the remainder completes the truncating quotient to the dividend and takes the dividend's sign |
| Elapsed.ElapsedSeconds | ScreenControlApp.swift:136 | the whole seconds of a non-negative interval in milliseconds: the interval lies within one second above that count |
| Elapsed.Split | ScreenControlApp.swift:136-139 | hours, minutes and seconds recombine to the elapsed seconds; for a non-negative count minutes and seconds lie in 0..59; for a negative one they lie in -59..0 |
| Elapsed.SplitUnique | ScreenControlApp.swift:137-139 | the split is the only clock reading with minutes and seconds in 0..59 that recombines to the count |
| Elapsed.RemUnique | ScreenControlApp.swift:137-139 | a quotient/remainder pair whose remainder follows the dividend's sign is the one Swift computes |
| Elapsed.ShowsHours | ScreenControlApp.swift:140-142 | the hour field is shown iff at least 3600 seconds have elapsed |
| Controller.InitInv | ScreenControlApp.swift:37-62 | the launch state (no mode, all settings on, nothing held) satisfies the invariant |
| Controller.PreventSleep | ScreenControlApp.swift:435-451 | only the ScreenOff slot changes; it holds the native assertion iff creation succeeded, otherwise a `caffeinate -i` helper; every effect concerns that slot |
| Controller.AllowSleep | ScreenControlApp.swift:454-474 | only the ScreenOff slot changes and it ends empty; its native assertion is released iff held; its helper is terminated normally iff it launched, and with an abort iff its launch failed |
| Controller.PreventDisplayAndSystemSleep | ScreenControlApp.swift:390-407 | only the PreventSleep slot changes; it holds the native assertion iff creation succeeded, otherwise a `caffeinate -d -i` helper |
| Controller.AllowDisplayAndSystemSleep | ScreenControlApp.swift:409-429 | only the PreventSleep slot changes and it ends empty; the native release is issued iff held; the helper is terminated normally iff it launched, and with an abort iff its launch failed |
| Controller.StartEventTap | ScreenControlApp.swift:507-544 | only the lock setting and the tap change; the tap is installed with the key-down/key-up mask iff accessibility is trusted and creation succeeds, else the lock setting turns off; the user is told iff trust is missing |
| Controller.StopEventTap | ScreenControlApp.swift:546-555 | the tap is gone afterwards, a removal is issued iff one was installed, and nothing else changes |
| Controller.EnterScreenOffMode | ScreenControlApp.swift:278-313 | a no-op when already in ScreenOff; otherwise records the start, takes the ScreenOff slot, installs the tap iff locking is on and allowed, starts the status timer, starts the watchdog iff auto re-sleep is on, and never touches PreventSleep; preserves the invariant from Normal |
| Controller.EnterEffects | ScreenControlApp.swift:283-311 | on entry the slot is taken first, the tap tried next, then the backlight dimmed and the display-off scheduled; the notification is last and reports whether the keyboard ended up locked |
| Controller.ExitScreenOffMode | ScreenControlApp.swift:315-336 | a no-op outside ScreenOff; otherwise exactly the mode flag, start time, ScreenOff slot, tap and both timers are cleared, the PreventSleep slot is untouched, and the invariant is kept |
| Controller.ExitTearsDown | ScreenControlApp.swift:318-334 | every effect before the display wake is slot or tap teardown; the wake comes after them and the notification last |
| Controller.ToggleMode | ScreenControlApp.swift:272-276 | afterwards PreventSleep is off and ScreenOff is flipped; every PreventSleep-slot effect precedes every effect ScreenOff owns, its slot and the tap installation or removal alike; the invariant is kept |
| Controller.TogglePreventSleepMode | ScreenControlApp.swift:342-344 | PreventSleep is flipped, the two modes never end up together, and the invariant is kept |
| Controller.StartPreventSleep | ScreenControlApp.swift:346-368 | ends in PreventSleep without ScreenOff; a no-op when already there; on entry records the start, takes the PreventSleep slot and notifies last; every ScreenOff slot release and tap removal precedes every PreventSleep-slot effect; settings unchanged; invariant kept |
| Controller.StopPreventSleep | ScreenControlApp.swift:370-384 | a no-op outside PreventSleep; otherwise exactly the mode flag, slot, status timer and start time are cleared, release and termination match what was held, the notification is last, and nothing ScreenOff owns (slot or tap) is touched |
| Controller.OnStatusBarClick | ScreenControlApp.swift:164-180 | a missing event changes and issues nothing; a right click only shows the menu; a left click goes ScreenOff to Normal, PreventSleep to Normal, and Normal to PreventSleep; the invariant is kept |
| Controller.ToggleBlockKeyboard | ScreenControlApp.swift:613-618 | only the lock setting and the tap change; outside ScreenOff only the setting flips; in ScreenOff turning it off removes the tap, and turning it on installs it iff trust and creation allow |
| Controller.ToggleAutoReSleep | ScreenControlApp.swift:620-630 | only the setting and the watchdog change; in ScreenOff the watchdog runs iff the new setting is on; outside ScreenOff it is untouched |
| Controller.ToggleShowTimer | ScreenControlApp.swift:632-635 | only the timer-display setting flips and nothing is issued |
| Controller.StatusIcon | ScreenControlApp.swift:132-162 | the icon is the moon iff ScreenOff, the cup iff PreventSleep alone, the sun otherwise; a mode icon carries a clock iff the timer display is on and a start is recorded; the clock's reading is the whole seconds elapsed since the start, with minutes and seconds below sixty |
| Controller.DelayedDisplaySleep | ScreenControlApp.swift:298-300 | the delayed display-off issues exactly one display-off, and it takes no state into account |
| Controller.ReSleepTick | ScreenControlApp.swift:495-501 | a watchdog firing issues one display-off iff ScreenOff and auto re-sleep both hold at fire time, and nothing otherwise |
| Controller.QuitApp | ScreenControlApp.swift:715-719 | ends in Normal with the invariant kept, and the termination request is the last effect |
| Controller.Cleanup | ScreenControlApp.swift:721-727 | both slots end empty and the tap removed while the mode flags, timers and settings stay as they were; monitor removal is last |
| Session.Dispatch | ScreenControlApp.swift:578-588 | the exit request leaves ScreenOff off; the toggle request flips ScreenOff and leaves PreventSleep off; the PreventSleep request flips PreventSleep; the invariant is kept |
| Types.Performed | ScreenControlApp.swift:471-474 | the effects that take place are a prefix of those issued: all of them when nothing aborts, otherwise exactly those up to and including the first abort |
| Types.PerformedAppend | ScreenControlApp.swift:471-474 | of two effect lists in sequence, the second takes place only when the first does not abort, and the pair aborts iff either does |
| Session.Step | ScreenControlApp.swift:101-111 | every stimulus keeps the invariant; the monitors and the tap never change the app state themselves, they only schedule work |
| Session.Run | ScreenControlApp.swift:272-276 | any sequence of stimuli from a consistent state keeps the invariant, so the two modes are never on together |
| Session.ModesNeverCoexist | ScreenControlApp.swift:346-352 | from launch the two modes are never on together, and each slot holds exactly one thing while its mode is on and nothing otherwise |
| Session.StepFollowsReference | ScreenControlApp.swift:164-180 | every stimulus moves the mode exactly as the abstract three-mode machine does |
| Session.RequestFollowsReference | ScreenControlApp.swift:342-344 | each main-queue request moves the mode exactly as the abstract machine does |
| Session.EnterIdempotent | ScreenControlApp.swift:279 | entering ScreenOff twice changes nothing the second time |
| Session.ExitIdempotent | ScreenControlApp.swift:316 | leaving ScreenOff twice changes and issues nothing the second time |
| Session.StartPreventSleepIdempotent | ScreenControlApp.swift:350 | starting PreventSleep twice changes nothing the second time |
| Session.StopPreventSleepIdempotent | ScreenControlApp.swift:371 | stopping PreventSleep twice changes nothing the second time |
| Session.ClockShownIffModeOn | ScreenControlApp.swift:132-162 | under the invariant the sun is shown iff in Normal, and a clock iff a mode is on with the timer display enabled |
| Session.EnterStartsClockAtZero | ScreenControlApp.swift:280-281 | right after entering ScreenOff the moon's clock, if shown, reads zero |
| Session.ToggleShowTimerFlipsClock | ScreenControlApp.swift:632-635 | in a mode, toggling the timer display shows or hides the clock and keeps the icon |
| Session.TickFiresIffWatchdogLive | ScreenControlApp.swift:303 | under the invariant the watchdog timer exists exactly when a firing would turn the display off |
| Session.NoTickAfterExit | ScreenControlApp.swift:327 | after the ScreenOff exit, a watchdog firing issues nothing |
| Session.NoTickAfterDisablingReSleep | ScreenControlApp.swift:626-627 | after auto re-sleep is switched off, a watchdog firing issues nothing |
| Session.DelayedSleepOutlivesExit | ScreenControlApp.swift:298-300 | entry schedules the delayed display-off, and it still turns the display off when it fires after the exit has already restored the previous mode |
| Session.ExitAbortsIffUnlaunched | ScreenControlApp.swift:315-336 | leaving ScreenOff aborts iff its slot records a helper whose launch failed; then only the slot's release takes place, with no tap removal, display wake or notification; otherwise every effect of the exit takes place |
| Session.FailedLaunchAbortsOnExit | ScreenControlApp.swift:463-474 | from launch, entering ScreenOff with both the native assertion and the helper launch failing does not abort; toggling again aborts at the helper's termination, and nothing after it takes place |
| Session.AbortEndsRun | ScreenControlApp.swift:471-474 | once a step aborts, nothing later in the run takes place |
| Session.EmergencyExitScenario | ScreenControlApp.swift:579-582 | with the lock active Cmd+Ctrl+Esc is consumed and queues the exit; the main queue then reaches Normal with the tap removed and the slot empty |
| Session.QueuedExitLeavesPreventSleepOn | ScreenControlApp.swift:579-582 | from launch: enter ScreenOff, press Cmd+Ctrl+Esc (the exit is queued), turn PreventSleep on from the menu, then run the queue; the app ends in PreventSleep with the queue empty |
| Session.ConsumesOnlyWhileLocked | ScreenControlApp.swift:571-573 | under the invariant a key event is consumed iff ScreenOff is on with the keyboard locked |
| Session.RevokedAccessibilityScenario | ScreenControlApp.swift:510-518 | ScreenOff entered under full permission holds the native assertion, tap and watchdog; after trust is revoked, locking cannot be switched back on, the user is told, and ScreenOff continues |
| Session.PreventSleepRoundTrip | ScreenControlApp.swift:346-384 | PreventSleep from Normal holds its own slot with no tap and no watchdog; toggling again returns to Normal and gives back exactly what was held |
| Session.QuitThenCleanup | ScreenControlApp.swift:715-727 | after quit from any consistent state, termination finds nothing held and issues only the monitor removal |
| Session.CleanupAloneKeepsMode | ScreenControlApp.swift:721-727 | termination without quit releases both slots and the tap but leaves the mode and the timers as they were |
| Ledger.AcquireBalanced | ScreenControlApp.swift:435-451 | acquiring into an empty slot issues exactly the acquisition the slot then records |
| Ledger.ReleaseBalanced | ScreenControlApp.swift:454-474 | a release issues exactly one give-back for each resource the slot held |
| Ledger.PreventSleepBalanced | ScreenControlApp.swift:435-451 | the ScreenOff acquisition's effects account exactly for the change in holdings |
| Ledger.AllowSleepBalanced | ScreenControlApp.swift:454-461 | the ScreenOff release's effects account exactly for the change in holdings |
| Ledger.PreventDisplayAndSystemSleepBalanced | ScreenControlApp.swift:390-407 | the PreventSleep acquisition's effects account exactly for the change in holdings |
| Ledger.AllowDisplayAndSystemSleepBalanced | ScreenControlApp.swift:409-416 | the PreventSleep release's effects account exactly for the change in holdings |
| Ledger.StartEventTapBalanced | ScreenControlApp.swift:539-542 | installing the tap issues exactly one installation iff the tap is then recorded |
| Ledger.StopEventTapBalanced | ScreenControlApp.swift:546-555 | removing the tap issues exactly one removal iff one was recorded |
| Ledger.EnterBalanced | ScreenControlApp.swift:278-313 | entering ScreenOff acquires exactly what the new state holds beyond the old |
| Ledger.ExitBalanced | ScreenControlApp.swift:315-336 | leaving ScreenOff gives back exactly what the old state held beyond the new |
| Ledger.StartPreventSleepBalanced | ScreenControlApp.swift:346-368 | starting PreventSleep, including a ScreenOff exit, is balanced |
| Ledger.StopPreventSleepBalanced | ScreenControlApp.swift:370-384 | stopping PreventSleep is balanced |
| Ledger.ToggleModeBalanced | ScreenControlApp.swift:272-276 | the ScreenOff toggle is balanced |
| Ledger.TogglePreventSleepModeBalanced | ScreenControlApp.swift:342-344 | the PreventSleep toggle is balanced |
| Ledger.ClickBalanced | ScreenControlApp.swift:164-180 | a status-item click is balanced |
| Ledger.ToggleBlockKeyboardBalanced | ScreenControlApp.swift:613-618 | switching the lock installs or removes exactly the tap the state then records |
| Ledger.DispatchBalanced | ScreenControlApp.swift:578-588 | every main-queue request is balanced |
| Ledger.QuitBalanced | ScreenControlApp.swift:715-719 | quitting gives back exactly what the mode held |
| Ledger.CleanupReleasesHeld | ScreenControlApp.swift:721-727 | termination issues exactly one give-back for each resource held, whatever the mode, and nothing is held afterwards |
| Ledger.StepBalanced | ScreenControlApp.swift:101-111 | every stimulus's effects account exactly for its change in holdings |
| Ledger.RunBalanced | ScreenControlApp.swift:272-384 | over any run, the net acquisitions of each resource equal the change in holdings |
| Ledger.NothingOutlivesItsMode | ScreenControlApp.swift:315-384 | from launch, the net acquisitions of each resource equal what the current mode holds, and are zero whenever the app is in Normal |
| Ledger.QuitLeavesNothingHeld | ScreenControlApp.swift:715-727 | after any run, quit followed by termination leaves every acquisition matched by exactly one give-back |

## Left out

- AppKit presentation is not modelled: the title strings and their formatting, menu construction, `showContextMenu`, and `showHelp`. `StatusIcon` keeps which icon is shown and the h/m/s clock it carries. A right click appears only as a `ShowMenu` effect. The 1-second `uiTimer` refresh is the flag `uiTimer`; `StatusIcon` gives what any refresh at time `now` shows.
- Notification delivery is not modelled: `notify` is an effect carrying which event it reports, not its text.
- IOKit, `CGEvent.tapCreate` and run-loop sources, `AXIsProcessTrustedWithOptions`, and `Process` launches are foreign calls. Their outcomes are `Oracle` inputs. Successful acquisitions and all releases are effects. A failed assertion creation, the accessibility query, and a failed tap creation issue no effect of their own. Assertion IDs and the IOKit assertion-type strings are not modelled; the slot kind determines the type.
- The `print` logging to standard output is not modelled. It changes no state.
- The keyboard-backlight AppleScript loop (lines 598-607) is a background, cosmetic job and appears only as one `DimBacklight` effect.
- Timers, `Date`, and the main-queue hops are concurrency and real time. A timer is a flag that says whether it exists, and time is integer milliseconds supplied by the oracle. `DispatchQueue.main.async` is a FIFO queue of requests. The 0.8-second `asyncAfter` is a stimulus `DelayedSleepOp` that may fire at any point, which over-approximates its timing.
- The `Unmanaged` refcon and the C callback trampoline (lines 8-17) are left out: the tap's callback is the policy function called directly.
- Launch set-up (notification authorisation, status-item creation, monitor registration) is left out: the run starts from the state after launch.
- Ledger.NothingOutlivesItsMode: counts every effect a run lists, including those after a `TerminateUnlaunched`, which the aborted app never performs. The same holds for the other `Ledger` results and for `Session.Run`, which continue past an abort with the code's next calls; `Types.Performed` gives what actually takes place. What the operating system reclaims when the process dies is not modelled.
- The hotkey monitors are over-approximated. `HotkeyOp` accepts an event of any kind at any time. The real monitors see only key-down events (lines 103 and 106), and never see events the tap consumed. Allowing more stimuli only strengthens the invariant and ledger results, which hold for every sequence.
