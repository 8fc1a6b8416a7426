/**
 One power-assertion slot: the native IOKit assertion flag and the optional
 fallback `caffeinate` helper process. Both slots of the app (ScreenOff and
 PreventSleep) share this logic; they differ only in the assertion type and
 the helper's arguments (see `Types.HelperCommand`).
 */
module PowerAssertion {
  import opened Types

  /** A spawned helper; `running` records whether `run()` succeeded. The
      process object is kept in the slot either way. */
  datatype Helper = Helper(cmd: Command, running: bool)

  datatype Slot = Slot(native: bool, helper: Option<Helper>)

  const EmptySlot := Slot(false, None)

  predicate IsEmpty(sl: Slot) {
    !sl.native && sl.helper.None?
  }

  /** The slot holds exactly one of the native assertion or a helper. */
  predicate HoldsOne(sl: Slot) {
    sl.native != sl.helper.Some?
  }

  /** Attempts a native assertion (its success is `nativeOk`); on failure
      starts the helper for slot `k` and records it whether or not it runs. */
  function Acquire(k: SlotKind, sl: Slot, nativeOk: bool, helperRuns: bool): (r: (Slot, seq<Effect>))
    ensures r.0.native <==> nativeOk
    ensures IsEmpty(sl) ==> HoldsOne(r.0)
    ensures nativeOk ==> r.0.helper == sl.helper && r.1 == [CreateAssertion(k)]
    ensures !nativeOk ==> r.0.helper == Some(Helper(HelperCommand(k), helperRuns))
    ensures !nativeOk ==> r.1 == [SpawnHelper(k, HelperCommand(k))]
    ensures forall e :: e in r.1 ==> TouchesSlot(e, k)
  {
    if nativeOk then
      (Slot(true, sl.helper), [CreateAssertion(k)])
    else
      (Slot(false, Some(Helper(HelperCommand(k), helperRuns))), [SpawnHelper(k, HelperCommand(k))])
  }

  /** True when the slot records a helper whose `run()` failed. */
  predicate HoldsUnlaunched(sl: Slot) {
    sl.helper.Some? && !sl.helper.value.running
  }

  /** Releases the native assertion if held, then sends `terminate()` to the
      recorded helper, if any; the slot ends empty. The code does not check
      whether the helper ever launched, so a helper whose `run()` failed gets
      `TerminateUnlaunched`, at which the app aborts. */
  function Release(k: SlotKind, sl: Slot): (r: (Slot, seq<Effect>))
    ensures IsEmpty(r.0)
    ensures ReleaseAssertion(k) in r.1 <==> sl.native
    ensures TerminateHelper(k) in r.1 <==> sl.helper.Some? && sl.helper.value.running
    ensures TerminateUnlaunched(k) in r.1 <==> HoldsUnlaunched(sl)
    ensures forall e :: e in r.1 ==> e == ReleaseAssertion(k) || e == TerminateHelper(k) || e == TerminateUnlaunched(k)
    ensures IsEmpty(sl) ==> r.1 == []
  {
    var fxNative := if sl.native then [ReleaseAssertion(k)] else [];
    var fxHelper := match sl.helper
      case None => []
      case Some(h) => if h.running then [TerminateHelper(k)] else [TerminateUnlaunched(k)];
    (EmptySlot, fxNative + fxHelper)
  }

  /** Releasing twice is harmless: the second release issues nothing. */
  lemma ReleaseIdempotent(k: SlotKind, sl: Slot)
    ensures Release(k, Release(k, sl).0) == (EmptySlot, [])
  {
  }

  /** Releasing aborts the app exactly when the slot records a helper that
      never launched, and the abort is the release's last effect, so the
      native release (if any) still takes place before it. */
  lemma ReleaseAbortsIffUnlaunched(k: SlotKind, sl: Slot)
    ensures Aborts(Release(k, sl).1) <==> HoldsUnlaunched(sl)
    ensures Performed(Release(k, sl).1) == Release(k, sl).1
  {
    var fx := Release(k, sl).1;
    if HoldsUnlaunched(sl) {
      assert IsAbort(fx[|fx| - 1]);
    }
  }

  /** Acquire then release on an empty slot undoes exactly what was acquired. */
  lemma AcquireReleaseRoundTrip(k: SlotKind, nativeOk: bool, helperRuns: bool)
    ensures var a := Acquire(k, EmptySlot, nativeOk, helperRuns);
            var r := Release(k, a.0);
            r.0 == EmptySlot
            && r.1 == (if nativeOk then [ReleaseAssertion(k)]
                       else if helperRuns then [TerminateHelper(k)]
                       else [TerminateUnlaunched(k)])
  {
  }
}
