/** `runtime_introspect._features`: the two resolvers, which build a record
    `Status` step by step (each `dataclasses.replace` re-validates the record),
    and the `snapshot`/`diagnostics` facade. */
module IntrospectFeatures {
  import opened Options
  import opened Text
  import opened Runtime
  import opened IntrospectRecord

  datatype Feature = Feature(name: string, status: Status)

  const FreeThreadingName := "free-threading"
  const JitName := "JIT"

  const FtTooOld := "only exists in Python 3.13 and newer"
  const FtNotBuilt := "this interpreter was built without free-threading support"
  const FtForcedGil := "global locking is forced by envvar PYTHON_GIL=1"
  const FtIncompatible :=
    "most likely, one or more already loaded extension(s) did not declare compatibility"
  const FtForcedNoGil := "forced by envvar PYTHON_GIL=0"
  const FtNotForced := "no forcing detected"

  const JitTooOld := "JIT compilation only exists in Python 3.13 and newer"
  const JitNoApi := "no introspection API known for Python 3.13"
  const JitNotBuilt := "this interpreter was built without JIT compilation support"
  const JitForcedOff := "forced by envvar PYTHON_JIT=0"
  const JitUnset := "envvar PYTHON_JIT is unset"

  /** `_get_free_threading_feature`. Every intermediate record goes through the
      constructor's check; the result is never an error, so no intermediate
      record is invalid. */
  function FreeThreadingFeature(sig: Signals): (r: Result<Feature>)
    ensures r.Ok?
    ensures r.value.name == FreeThreadingName
    ensures Valid(r.value.status)
    ensures r.value.status.active.None?
  {
    var st :- Instantiate(Undetermined);
    var ft := Feature(FreeThreadingName, st);
    if Before(sig.version, Py313) then
      var st :- Instantiate(st.(available := Some(false), details := Some(FtTooOld)));
      Ok(ft.(status := st))
    else if sig.pyGilDisabled == Some(0) then
      var st :- Instantiate(st.(available := Some(false), details := Some(FtNotBuilt)));
      Ok(ft.(status := st))
    else
      var st :- Instantiate(st.(available := Some(true)));
      if sig.gilEnabled then
        var details := if sig.pythonGil == Some("1") then FtForcedGil else FtIncompatible;
        var st :- Instantiate(st.(enabled := Some(false), details := Some(details)));
        Ok(ft.(status := st))
      else
        var st :- Instantiate(st.(enabled := Some(true)));
        var details := if sig.pythonGil == Some("0") then FtForcedNoGil else FtNotForced;
        var st :- Instantiate(st.(details := Some(details)));
        Ok(ft.(status := st))
  }

  /** `_get_jit_feature(deep_introspection)`, built the same way. */
  function JitFeature(sig: Signals, deep: bool): (r: Result<Feature>)
    ensures r.Ok?
    ensures r.value.name == JitName
    ensures Valid(r.value.status)
  {
    var st :- Instantiate(Undetermined);
    var ft := Feature(JitName, st);
    if Before(sig.version, Py313) then
      var st :- Instantiate(st.(available := Some(false), details := Some(JitTooOld)));
      Ok(ft.(status := st))
    else if sig.version == Py313 then
      var st :- Instantiate(st.(details := Some(JitNoApi)));
      Ok(ft.(status := st))
    else if !sig.jitAvailable then
      var st :- Instantiate(st.(available := Some(false), details := Some(JitNotBuilt)));
      Ok(ft.(status := st))
    else
      var st :- Instantiate(st.(available := Some(true)));
      if !sig.jitEnabled then
        var details :=
          if sig.pythonJit == Some("0") then Some(JitForcedOff)
          else if sig.pythonJit.None? then Some(JitUnset)
          else None;
        var st :- Instantiate(st.(enabled := Some(false), details := details));
        Ok(ft.(status := st))
      else
        var st :- Instantiate(st.(enabled := Some(true)));
        if deep then
          var st :- Instantiate(st.(active := Some(sig.jitActive)));
          Ok(ft.(status := st))
        else if sig.pythonJit != Some("0") && sig.pythonJit.Some? then
          var st :- Instantiate(st.(details := Some("by envvar PYTHON_JIT=" + sig.pythonJit.value)));
          Ok(ft.(status := st))
        else
          Ok(ft.(status := st))
  }

  /** Free-threading availability: decided by the version and the build flag
      alone, where only a flag equal to 0 means "built without"; when available,
      `enabled` is the negation of the live GIL query. */
  lemma FreeThreadingAvailability(sig: Signals)
    ensures var s := FreeThreadingFeature(sig).value.status;
      && s.available.Some?
      && (s.available == Some(false) <==> Before(sig.version, Py313) || sig.pyGilDisabled == Some(0))
      && (s.available == Some(false) ==> s.enabled.None?)
      && (s.available == Some(true) ==> s.enabled == Some(!sig.gilEnabled))
  {
  }

  /** Free-threading details, each message exactly when its condition holds. */
  lemma FreeThreadingDetails(sig: Signals)
    ensures var s := FreeThreadingFeature(sig).value.status;
      && (Before(sig.version, Py313) ==> s.details == Some(FtTooOld))
      && (!Before(sig.version, Py313) && sig.pyGilDisabled == Some(0) ==> s.details == Some(FtNotBuilt))
      && (s.enabled == Some(false) ==>
            (s.details == Some(FtForcedGil) <==> sig.pythonGil == Some("1")) &&
            (s.details == Some(FtIncompatible) <==> sig.pythonGil != Some("1")))
      && (s.enabled == Some(true) ==>
            (s.details == Some(FtForcedNoGil) <==> sig.pythonGil == Some("0")) &&
            (s.details == Some(FtNotForced) <==> sig.pythonGil != Some("0")))
  {
  }

  /** Below 3.13 the free-threading result depends on the version only. */
  lemma FreeThreadingOnlyVersionBefore313(sig: Signals, sig': Signals)
    requires sig.version == sig'.version && Before(sig.version, Py313)
    ensures FreeThreadingFeature(sig) == FreeThreadingFeature(sig')
  {
  }

  /** JIT availability: false below 3.13, fully undetermined at 3.13, and from
      3.14 on the answer of `sys._jit.is_available()`. */
  lemma JitAvailability(sig: Signals, deep: bool)
    ensures var s := JitFeature(sig, deep).value.status;
      && (Before(sig.version, Py313) ==>
            s == Status(Some(false), None, None, Some(JitTooOld)))
      && (sig.version == Py313 ==>
            s == Status(None, None, None, Some(JitNoApi)))
      && (!Before(sig.version, Py314) ==> s.available == Some(sig.jitAvailable))
      && (!Before(sig.version, Py314) && !sig.jitAvailable ==>
            s == Status(Some(false), None, None, Some(JitNotBuilt)))
  {
  }

  /** Below 3.14 the JIT result depends on the version only: no JIT signal, no
      override and not even the introspection depth is consulted. */
  lemma JitOnlyVersionBefore314(sig: Signals, deep: bool, sig': Signals, deep': bool)
    requires sig.version == sig'.version && Before(sig.version, Py314)
    ensures JitFeature(sig, deep) == JitFeature(sig', deep')
  {
  }

  /** An available JIT that is not enabled: `enabled` is false and the details
      say why, when the override explains it. */
  lemma JitDisabledDetails(sig: Signals, deep: bool)
    requires !Before(sig.version, Py314) && sig.jitAvailable && !sig.jitEnabled
    ensures var s := JitFeature(sig, deep).value.status;
      && s.available == Some(true) && s.enabled == Some(false) && s.active.None?
      && (s.details == Some(JitForcedOff) <==> sig.pythonJit == Some("0"))
      && (s.details == Some(JitUnset) <==> sig.pythonJit.None?)
      && (s.details.None? <==> sig.pythonJit.Some? && sig.pythonJit != Some("0"))
  {
  }

  /** An enabled JIT under deep introspection reports the live activity query. */
  lemma JitDeepReportsActivity(sig: Signals)
    requires !Before(sig.version, Py314) && sig.jitAvailable && sig.jitEnabled
    ensures JitFeature(sig, true).value.status ==
      Status(Some(true), Some(true), Some(sig.jitActive), None)
  {
  }

  /** An enabled JIT under stable introspection leaves `active` unset and names
      the override that turned it on, if any. */
  lemma JitStableEnabled(sig: Signals)
    requires !Before(sig.version, Py314) && sig.jitAvailable && sig.jitEnabled
    ensures var s := JitFeature(sig, false).value.status;
      && s.available == Some(true) && s.enabled == Some(true) && s.active.None?
      && (s.details.Some? <==> sig.pythonJit.Some? && sig.pythonJit != Some("0"))
      && (s.details.Some? ==> s.details == Some("by envvar PYTHON_JIT=" + sig.pythonJit.value))
  {
  }

  /** The live activity query matters only under deep introspection. */
  lemma JitStableIgnoresActivity(sig: Signals)
    ensures JitFeature(sig, false) == JitFeature(sig.(jitActive := !sig.jitActive), false)
  {
  }

  /** `snapshot`, a method of a feature set that passed the host guard: the
      free-threading feature, then the JIT feature; only the mode "deep" selects
      deep introspection. */
  function Snapshot(fs: FeatureSet, sig: Signals, jitIntrospection: string): (r: seq<Feature>)
    ensures |r| == 2
    ensures r[0].name == FreeThreadingName && r[1].name == JitName
    ensures forall i :: 0 <= i < |r| ==> Valid(r[i].status)
    ensures r[0] == FreeThreadingFeature(sig).value
    ensures r[1] == JitFeature(sig, jitIntrospection == "deep").value
  {
    [FreeThreadingFeature(sig).value, JitFeature(sig, jitIntrospection == "deep").value]
  }

  /** Every mode other than "deep" behaves as "stable". */
  lemma OnlyDeepIsDeep(fs: FeatureSet, sig: Signals, jitIntrospection: string)
    requires jitIntrospection != "deep"
    ensures Snapshot(fs, sig, jitIntrospection) == Snapshot(fs, sig, "stable")
  {
  }

  /** The rendering `str(status)` is not part of this model; what is known of it
      is that it shows the summary word of a valid status. */
  ghost predicate RendersSummary(render: Status -> string) {
    forall s :: Valid(s) ==> IsInfix(Summary(s), render(s))
  }

  /** `Feature.diagnostic`: the name, a colon, and the rendered status. */
  function Diagnostic(ft: Feature, render: Status -> string): (r: string)
    ensures IsPrefix(ft.name + ": ", r)
  {
    ft.name + ": " + render(ft.status)
  }

  /** A diagnostic shows the summary word of its (valid) status. */
  lemma {:induction false} DiagnosticShowsSummary(ft: Feature, render: Status -> string)
    requires RendersSummary(render) && Valid(ft.status)
    ensures IsInfix(Summary(ft.status), Diagnostic(ft, render))
  {
    assert Diagnostic(ft, render) == (ft.name + ": ") + render(ft.status);
    InfixOfAppend(Summary(ft.status), ft.name + ": ", render(ft.status));
  }

  /** `diagnostics`: one diagnostic per snapshot feature, in the same order. */
  function Diagnostics(fs: FeatureSet, sig: Signals, jitIntrospection: string, render: Status -> string): (r: seq<string>)
    ensures |r| == |Snapshot(fs, sig, jitIntrospection)| == 2
    ensures forall i :: 0 <= i < |r| ==> r[i] == Diagnostic(Snapshot(fs, sig, jitIntrospection)[i], render)
  {
    var features := Snapshot(fs, sig, jitIntrospection);
    seq(|features|, i requires 0 <= i < |features| => Diagnostic(features[i], render))
  }

  /** The two diagnostics start with "free-threading: " and "JIT: " and show
      the summary of their feature; the JIT one shows one of the words the
      version and mode allow. */
  lemma DiagnosticsShowSummaries(fs: FeatureSet, sig: Signals, jitIntrospection: string, render: Status -> string)
    requires RendersSummary(render)
    ensures var d := Diagnostics(fs, sig, jitIntrospection, render);
      var jit := Summary(JitFeature(sig, jitIntrospection == "deep").value.status);
      && IsPrefix("free-threading: ", d[0]) && IsPrefix("JIT: ", d[1])
      && IsInfix(Summary(FreeThreadingFeature(sig).value.status), d[0])
      && IsInfix(jit, d[1])
      && (Before(sig.version, Py314) ==> jit in {"unavailable", "undetermined"})
      && (!Before(sig.version, Py314) && jitIntrospection != "deep" ==>
            jit in {"unavailable", "disabled", "enabled"})
      && (!Before(sig.version, Py314) && jitIntrospection == "deep" ==>
            jit in {"unavailable", "disabled", "inactive", "active"})
  {
    var features := Snapshot(fs, sig, jitIntrospection);
    DiagnosticShowsSummary(features[0], render);
    DiagnosticShowsSummary(features[1], render);
  }

  /** The runtime honours the environment overrides: PYTHON_GIL=1 keeps the GIL,
      PYTHON_GIL=0 removes it, and an available JIT is on exactly under
      PYTHON_JIT=1 and off when the variable is "0" or unset. */
  predicate HonoursOverrides(sig: Signals) {
    && (sig.pythonGil == Some("1") ==> sig.gilEnabled)
    && (sig.pythonGil == Some("0") ==> !sig.gilEnabled)
    && (sig.jitAvailable && sig.pythonJit == Some("1") ==> sig.jitEnabled)
    && (sig.jitAvailable && (sig.pythonJit == Some("0") || sig.pythonJit.None?) ==> !sig.jitEnabled)
  }

  /** With overrides honoured, the summaries are the ones the environment
      variables select. */
  lemma OverridesDecideSummaries(sig: Signals)
    requires HonoursOverrides(sig)
    ensures var ft := Summary(FreeThreadingFeature(sig).value.status);
      var jit := Summary(JitFeature(sig, false).value.status);
      && (Before(sig.version, Py313) || sig.pyGilDisabled == Some(0) ==> ft == "unavailable")
      && (!Before(sig.version, Py313) && sig.pyGilDisabled != Some(0) ==>
            (sig.pythonGil == Some("1") ==> ft == "disabled") &&
            (sig.pythonGil == Some("0") ==> ft == "enabled") &&
            ft in {"enabled", "disabled"})
      && (sig.version == Py313 ==> jit == "undetermined")
      && (!Before(sig.version, Py314) && !sig.jitAvailable ==> jit == "unavailable")
      && (!Before(sig.version, Py314) && sig.jitAvailable ==>
            (sig.pythonJit == Some("1") ==> jit == "enabled") &&
            (sig.pythonJit == Some("0") || sig.pythonJit.None? ==> jit == "disabled"))
  {
  }
}
