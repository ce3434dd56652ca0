/** `runtime_features_introspection._features`: one decision tree building the
    two statuses, a `match` rendering them, and diagnostics sorted by lowercased
    feature name. */
module LegacyFeatures {
  import opened Options
  import opened Text
  import opened Runtime
  import opened LegacyStatus

  datatype Feature = Feature(name: string, status: Status)

  const FreeThreadingName := "free-threading"
  const JitName := "JIT compilation"

  const FtTooOld := "free-threading only exists in Python 3.13 and newer"
  const FtNoConfig := "failed to introspect build configuration"
  const FtForcedGil := "global locking is forced by envvar PYTHON_GIL=1"
  // the source joins two literals without a space between "extension(s)" and "already"
  const FtIncompatible :=
    "most likely, one or more extension(s)already loaded did not declare compatibility"
  const FtForcedNoGil := "forced by envvar PYTHON_GIL=0"
  const FtNotForced := "no forcing detected"
  const FtNotBuilt := "this interpreter was built without free-threading support"

  const JitTooOld := "JIT compilation only exists in Python 3.13 and newer"
  const JitNoApi := "no introspection API known for Python 3.13"
  const JitNotBuilt := "this interpreter was built without JIT compilation support"
  const JitUnknownReason := "reason is unknown"

  /** The lowercased class name of the variant. */
  function Label(s: Status): string {
    Lower(ClassName(s))
  }

  /** The part of `Feature.diagnostic` after "<name>: ". */
  function Message(s: Status): string {
    match s
    case Active | Inactive | Available => Label(s)
    case Enabled(d) => Label(s) + ", " + d
    case Disabled(_) | Unavailable(_) | Unknown(_) => Label(s) + " (" + s.reason + ")"
  }

  /** The label of each variant spelled out. */
  lemma LabelOf(s: Status)
    ensures s.Active? ==> Label(s) == "active"
    ensures s.Inactive? ==> Label(s) == "inactive"
    ensures s.Enabled? ==> Label(s) == "enabled"
    ensures s.Disabled? ==> Label(s) == "disabled"
    ensures s.Available? ==> Label(s) == "available"
    ensures s.Unavailable? ==> Label(s) == "unavailable"
    ensures s.Unknown? ==> Label(s) == "unknown"
  {
  }

  /** The message of each variant spelled out. */
  lemma MessageOf(s: Status)
    ensures s == Active ==> Message(s) == "active"
    ensures s == Inactive ==> Message(s) == "inactive"
    ensures s == Available ==> Message(s) == "available"
    ensures s.Enabled? ==> Message(s) == "enabled, " + s.detail
    ensures s.Disabled? ==> Message(s) == "disabled (" + s.reason + ")"
    ensures s.Unavailable? ==> Message(s) == "unavailable (" + s.reason + ")"
    ensures s.Unknown? ==> Message(s) == "unknown (" + s.reason + ")"
  {
    LabelOf(s);
  }

  /** The first three letters of each message tell the variants apart. */
  lemma MessageStem(s: Status)
    ensures |Message(s)| >= 3
    ensures Message(s)[..3] == match s
      case Active => "act"
      case Inactive => "ina"
      case Enabled(_) => "ena"
      case Disabled(_) => "dis"
      case Available => "ava"
      case Unavailable(_) => "una"
      case Unknown(_) => "unk"
  {
  }

  /** The rendering loses nothing: distinct statuses have distinct messages. */
  lemma MessageInjective(s: Status, t: Status)
    requires Message(s) == Message(t)
    ensures s == t
  {
    MessageStem(s);
    MessageStem(t);
    assert Rank(s) == Rank(t);
    MessageOf(s);
    MessageOf(t);
    var m := Message(s);
    match s
    case Enabled(d) =>
      assert d == m[9..] == t.detail;
    case Disabled(r) =>
      assert r == m[10..|m| - 1] == t.reason;
    case Unavailable(r) =>
      assert r == m[13..|m| - 1] == t.reason;
    case Unknown(r) =>
      assert r == m[9..|m| - 1] == t.reason;
    case _ =>
  }

  /** `Feature.diagnostic`. */
  function Diagnostic(ft: Feature): (r: string)
    ensures IsPrefix(ft.name + ": ", r)
  {
    ft.name + ": " + Message(ft.status)
  }

  /** Two features of the same name have the same diagnostic only if they are
      the same feature. */
  lemma DiagnosticInjective(f: Feature, g: Feature)
    requires f.name == g.name && Diagnostic(f) == Diagnostic(g)
    ensures f == g
  {
    var n := |f.name + ": "|;
    assert Message(f.status) == Diagnostic(f)[n..];
    assert Message(g.status) == Diagnostic(g)[n..];
    MessageInjective(f.status, g.status);
  }

  /** The free-threading half of `snapshot`. */
  function FreeThreadingStatus(sig: Signals): (r: Status)
    ensures !r.Active? && !r.Inactive? && !r.Available?
  {
    if Before(sig.version, Py313) then
      Unavailable(FtTooOld)
    else if sig.pyGilDisabled.None? then
      Unknown(FtNoConfig)
    else if sig.pyGilDisabled == Some(1) then
      if sig.gilEnabled then
        if sig.pythonGil == Some("1") then Disabled(FtForcedGil) else Disabled(FtIncompatible)
      else
        if sig.pythonGil == Some("0") then Enabled(FtForcedNoGil) else Enabled(FtNotForced)
    else
      Unavailable(FtNotBuilt)
  }

  /** Free-threading outcomes and the conditions that produce each. */
  lemma FreeThreadingCases(sig: Signals)
    ensures var s := FreeThreadingStatus(sig);
      var built := !Before(sig.version, Py313) && sig.pyGilDisabled == Some(1);
      && (s == Unavailable(FtTooOld) <==> Before(sig.version, Py313))
      && (s == Unknown(FtNoConfig) <==> !Before(sig.version, Py313) && sig.pyGilDisabled.None?)
      && (s == Unavailable(FtNotBuilt) <==>
            !Before(sig.version, Py313) && sig.pyGilDisabled.Some? && sig.pyGilDisabled != Some(1))
      && (s.Disabled? <==> built && sig.gilEnabled)
      && (s.Enabled? <==> built && !sig.gilEnabled)
      && (s.Disabled? ==> (s.reason == FtForcedGil <==> sig.pythonGil == Some("1")))
      && (s.Disabled? ==> (s.reason == FtIncompatible <==> sig.pythonGil != Some("1")))
      && (s.Enabled? ==> (s.detail == FtForcedNoGil <==> sig.pythonGil == Some("0")))
      && (s.Enabled? ==> (s.detail == FtNotForced <==> sig.pythonGil != Some("0")))
  {
  }

  /** The JIT half of `snapshot`; an enabled JIT under stable introspection is
      reported as `Available`. */
  function JitStatus(sig: Signals, jitIntrospection: string): (r: Status)
    ensures !r.Enabled?
    ensures r.Active? || r.Inactive? ==> jitIntrospection == "deep"
  {
    if Before(sig.version, Py313) then
      Unavailable(JitTooOld)
    else if sig.version == Py313 then
      Unknown(JitNoApi)
    else if sig.jitEnabled then
      if jitIntrospection == "deep" then
        if sig.jitActive then Active else Inactive
      else
        Available
    else if !sig.jitAvailable then
      Unavailable(JitNotBuilt)
    else
      Disabled(JitUnknownReason)
  }

  /** JIT outcomes and the conditions that produce each: from 3.14 the enabled
      query is asked first, the available query only when the JIT is off. */
  lemma JitCases(sig: Signals, jitIntrospection: string)
    ensures var s := JitStatus(sig, jitIntrospection);
      var late := !Before(sig.version, Py314);
      && (s == Unavailable(JitTooOld) <==> Before(sig.version, Py313))
      && (s == Unknown(JitNoApi) <==> sig.version == Py313)
      && (s == Active <==> late && sig.jitEnabled && jitIntrospection == "deep" && sig.jitActive)
      && (s == Inactive <==> late && sig.jitEnabled && jitIntrospection == "deep" && !sig.jitActive)
      && (s == Available <==> late && sig.jitEnabled && jitIntrospection != "deep")
      && (s == Unavailable(JitNotBuilt) <==> late && !sig.jitEnabled && !sig.jitAvailable)
      && (s == Disabled(JitUnknownReason) <==> late && !sig.jitEnabled && sig.jitAvailable)
  {
  }

  /** `snapshot`: a set of exactly two features, one per name. It is a static
      method, so it takes no feature set and the host guard does not run. */
  function Snapshot(sig: Signals, jitIntrospection: string): (r: set<Feature>)
    ensures |r| == 2
    ensures (set f | f in r :: f.name) == {FreeThreadingName, JitName}
    ensures Feature(FreeThreadingName, FreeThreadingStatus(sig)) in r
    ensures Feature(JitName, JitStatus(sig, jitIntrospection)) in r
  {
    var ft := Feature(FreeThreadingName, FreeThreadingStatus(sig));
    var jit := Feature(JitName, JitStatus(sig, jitIntrospection));
    assert ft != jit;
    {ft, jit}
  }

  /** The sort key of `diagnostics`. */
  function Key(f: Feature): string {
    Lower(f.name)
  }

  ghost predicate Minimal(m: Feature, s: set<Feature>) {
    forall g :: g in s ==> !Less(Key(g), Key(m))
  }

  ghost predicate SortedByKey(r: seq<Feature>) {
    forall i, j :: 0 <= i < j < |r| ==> !Less(Key(r[j]), Key(r[i]))
  }

  /** Every finite non-empty set of features has one whose key no other key
      precedes. */
  lemma {:induction false} MinimalExists(s: set<Feature>)
    requires s != {}
    ensures exists m :: m in s && Minimal(m, s)
    decreases s
  {
    var x :| x in s;
    if s == {x} {
      LessIrreflexive(Key(x));
      assert Minimal(x, s);
    } else {
      MinimalExists(s - {x});
      var m :| m in s - {x} && Minimal(m, s - {x});
      if Less(Key(x), Key(m)) {
        forall g | g in s
          ensures !Less(Key(g), Key(x))
        {
          if g == x {
            LessIrreflexive(Key(x));
          } else if Less(Key(g), Key(x)) {
            LessTransitive(Key(g), Key(x), Key(m));
          }
        }
        assert Minimal(x, s);
      } else {
        assert Minimal(m, s);
      }
    }
  }

  /** `sorted(s, key=lambda ft: ft.name.lower())` on a set: every element once,
      keys in non-decreasing order. Which of two elements with equal keys comes
      first is not determined, as with the iteration order of a frozenset. */
  ghost function SortedByLowerName(s: set<Feature>): (r: seq<Feature>)
    ensures |r| == |s|
    ensures forall f :: f in r <==> f in s
    ensures SortedByKey(r)
    decreases s
  {
    if s == {} then []
    else
      MinimalExists(s);
      var m :| m in s && Minimal(m, s);
      [m] + SortedByLowerName(s - {m})
  }

  /** `diagnostics`, a method of a feature set that passed the host guard: the
      diagnostic of every feature of the snapshot, sorted by lowercased name. */
  ghost function Diagnostics(fs: FeatureSet, sig: Signals, jitIntrospection: string): (r: seq<string>)
    ensures |r| == 2
  {
    var features := SortedByLowerName(Snapshot(sig, jitIntrospection));
    seq(|features|, i requires 0 <= i < |features| => Diagnostic(features[i]))
  }

  /** "free-threading" sorts before "jit compilation", so the free-threading
      diagnostic comes first. */
  lemma DiagnosticsOrder(fs: FeatureSet, sig: Signals, jitIntrospection: string)
    ensures Diagnostics(fs, sig, jitIntrospection) ==
      [Diagnostic(Feature(FreeThreadingName, FreeThreadingStatus(sig))),
       Diagnostic(Feature(JitName, JitStatus(sig, jitIntrospection)))]
  {
    var ft := Feature(FreeThreadingName, FreeThreadingStatus(sig));
    var jit := Feature(JitName, JitStatus(sig, jitIntrospection));
    var s := Snapshot(sig, jitIntrospection);
    assert s == {ft, jit};
    var r := SortedByLowerName(s);
    assert Key(ft)[0] == 'f' && Key(jit)[0] == 'j';
    assert Less(Key(ft), Key(jit));
    assert r[0] in s && r[1] in s;
    assert r[0] == ft;
    assert r[1] == jit;
  }
}
