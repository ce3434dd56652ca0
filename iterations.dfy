/** The two iterations side by side: where the older union and the newer record
    report the same coarse state, and the two places where they differ. */
module Iterations {
  import opened Options
  import opened Runtime
  import Rec = IntrospectRecord
  import New = IntrospectFeatures
  import Old = LegacyFeatures
  import OldStatus = LegacyStatus

  /** The older label names the same state as the newer summary ("unknown" is
      the older word for "undetermined"). */
  predicate SameState(oldLabel: string, summary: string) {
    oldLabel == summary || (oldLabel == "unknown" && summary == "undetermined")
  }

  /** Free-threading: both iterations agree unless the build flag is neither
      0 nor 1 (from 3.13 on). */
  lemma FreeThreadingAgrees(sig: Signals)
    requires Before(sig.version, Py313) || sig.pyGilDisabled == Some(0) || sig.pyGilDisabled == Some(1)
    ensures SameState(Old.Label(Old.FreeThreadingStatus(sig)),
                      Rec.Summary(New.FreeThreadingFeature(sig).value.status))
  {
    Old.LabelOf(Old.FreeThreadingStatus(sig));
  }

  /** Free-threading, flag unreadable: the older iteration reports Unknown, the
      newer one (which only tests for 0) reports it available. */
  lemma FreeThreadingUnreadableFlagDiffers(sig: Signals)
    requires !Before(sig.version, Py313) && sig.pyGilDisabled.None?
    ensures Old.FreeThreadingStatus(sig) == OldStatus.Unknown(Old.FtNoConfig)
    ensures New.FreeThreadingFeature(sig).value.status.available == Some(true)
  {
  }

  /** Free-threading, any other flag value: older "unavailable", newer available. */
  lemma FreeThreadingOtherFlagDiffers(sig: Signals)
    requires !Before(sig.version, Py313) && sig.pyGilDisabled.Some?
    requires sig.pyGilDisabled != Some(0) && sig.pyGilDisabled != Some(1)
    ensures Old.FreeThreadingStatus(sig) == OldStatus.Unavailable(Old.FtNotBuilt)
    ensures New.FreeThreadingFeature(sig).value.status.available == Some(true)
  {
  }

  /** JIT: both iterations agree when the runtime is consistent (enabled
      implies available) and the JIT is off or inspected deeply. */
  lemma JitAgrees(sig: Signals, jitIntrospection: string)
    requires sig.jitEnabled ==> sig.jitAvailable
    requires Before(sig.version, Py314) || !sig.jitEnabled || jitIntrospection == "deep"
    ensures SameState(Old.Label(Old.JitStatus(sig, jitIntrospection)),
                      Rec.Summary(New.JitFeature(sig, jitIntrospection == "deep").value.status))
  {
    Old.LabelOf(Old.JitStatus(sig, jitIntrospection));
  }

  /** JIT enabled under stable introspection: the older iteration says
      "available", the newer one "enabled". */
  lemma JitStableEnabledDiffers(sig: Signals, jitIntrospection: string)
    requires !Before(sig.version, Py314) && sig.jitAvailable && sig.jitEnabled
    requires jitIntrospection != "deep"
    ensures Old.Label(Old.JitStatus(sig, jitIntrospection)) == "available"
    ensures Rec.Summary(New.JitFeature(sig, false).value.status) == "enabled"
  {
    Old.LabelOf(Old.JitStatus(sig, jitIntrospection));
  }

  /** JIT reported enabled but not available: the older iteration asks
      `is_enabled()` first and reports it on, the newer one asks
      `is_available()` first and reports it unavailable. */
  lemma JitInconsistentRuntimeDiffers(sig: Signals, jitIntrospection: string)
    requires !Before(sig.version, Py314) && sig.jitEnabled && !sig.jitAvailable
    ensures Old.JitStatus(sig, jitIntrospection) in {OldStatus.Active, OldStatus.Inactive, OldStatus.Available}
    ensures New.JitFeature(sig, jitIntrospection == "deep").value.status.available == Some(false)
  {
  }
}
