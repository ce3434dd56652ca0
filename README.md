# runtime-introspect, modelled in Dafny

The repository reports the state of two CPython toggles: free-threading (running
without the global interpreter lock) and the JIT compiler. It holds two iterations of
the same design, and this project models both.

- `runtime_introspect` is the newer package. Each feature's state is a record
  `Status(available, enabled, active, details)`. The first three fields are
  tri-states (`True`, `False` or `None`), and construction rejects a record that
  breaks the nesting availability → enablement → activity. Two resolvers build
  the record by successive `dataclasses.replace` calls, and every call
  re-validates it. `snapshot` lists the free-threading feature, then the JIT
  feature. `diagnostics` renders each one as `"<name>: <status>"`. The package's
  `_status.py` also declares a seven-variant tagged union.
- `runtime_features_introspection` is the older package. A feature's state is
  one of seven variants. A single decision tree in `snapshot` builds a
  `frozenset` of the two features. `diagnostic` renders a status with a `match`
  on its variant. `diagnostics` sorts the features by lowercased name.

Everything the resolvers read from the interpreter is a field of the value
`Runtime.Signals`:

- the version, as (major, minor);
- the `Py_GIL_DISABLED` build flag;
- the `PYTHON_GIL` and `PYTHON_JIT` environment variables;
- the live queries `sys._is_gil_enabled()` and `sys._jit.is_available()`,
  `is_enabled()` and `is_active()`.

Each resolver is then a total function of these inputs.

Modules:

- `Options`: `Option`, and `Result` for operations that raise.
- `Text`: `str.lower()`, Python's string order, and substring search.
- `Runtime`: the version, the signals, and the CPython host guard.
- `IntrospectStatus` and `IntrospectRecord`: the newer package's union and its record.
- `IntrospectFeatures`: the newer package's resolvers, snapshot and diagnostics.
- `LegacyStatus` and `LegacyFeatures`: the older package.
- `Iterations`: lemmas relating the two packages.

No file of this version defines the record `Status`.
`src/runtime_introspect/_features.py:8` imports `Status` from
`runtime_introspect._status`, but src/runtime_introspect/_status.py declares only
the tagged union.
The record's constructor check, its error messages, its field name `details` and its
`summary` therefore come from `tests/test_status.py` and `tests/test_features.py:21-26`.

Where the two packages disagree, or the code disagrees with its tests, the model
follows the code:

- An unreadable `Py_GIL_DISABLED` (`None`) makes the newer resolver report
  free-threading available, because it tests only `== 0`. The older resolver
  reports `Unknown` for it (src/runtime_features_introspection/_features.py:66-71).
- `snapshot` (src/runtime_introspect/_features.py:126-132,
  src/runtime_features_introspection/_features.py:54-57) treats every mode other
  than `"deep"` as stable and raises
  nothing for an unknown mode. The tests, written for a later API, expect a
  `ValueError` (tests/test_features.py:166-178).
- The newer `snapshot` returns a list, which the tests index by position
  (tests/test_features.py:126, 146). The older one returns a `frozenset`.
- The older resolver reports an enabled JIT under stable introspection as
  `Available`, not `Enabled`.
- A `Py_GIL_DISABLED` value other than 0, 1 or `None` makes the older resolver
  report `Unavailable` and the newer one report free-threading available
  (`Iterations.FreeThreadingOtherFlagDiffers`).
- From 3.14 the older JIT branch asks `is_enabled()` before `is_available()`
  (src/runtime_features_introspection/_features.py:104-110). The newer one asks in
  the opposite order (src/runtime_introspect/_features.py:93-103). So for a JIT
  reported enabled but not available, the older code says Active, Inactive or
  Available, and the newer code says available=False
  (`Iterations.JitInconsistentRuntimeDiffers`).
- The older "extension(s)already loaded" message keeps the missing space that
  comes from joining two string literals.

## Model

| member | source | states |
|---|---|---|
| `Runtime.Before` | src/runtime_introspect/_features.py:34 | `sys.version_info < (3, 13)` as a lexicographic comparison of (major, minor). It has no contract; `PastPy313IsAtLeastPy314` and the resolver lemmas characterise it. |
| `Text.Lower` | src/runtime_features_introspection/_features.py:32 | `str.lower()` on ASCII keeps the length and leaves no capital letter. |
| `Text.LowerIdempotent` | src/runtime_features_introspection/_features.py:32 | Lowering twice gives the same result as lowering once. |
| `Text.LowerWithoutCapitals` | src/runtime_features_introspection/_features.py:131 | A string with no capital letter is its own lowercase, so a name such as "free-threading" is its own sort key. |
| `Text.Less` | src/runtime_features_introspection/_features.py:129-132 | Python's `str` order that `sorted` uses: lexicographic by code point, with a proper prefix the smaller. It has no contract; `LessIrreflexive` and `LessTransitive` characterise it. |
| `Text.LessIrreflexive` | src/runtime_features_introspection/_features.py:129-132 | No string sorts before itself. |
| `Text.LessTransitive` | src/runtime_features_introspection/_features.py:129-132 | The string order is transitive. |
| `Runtime.NewFeatureSet` | src/runtime_introspect/_features.py:23-27 | Building a feature set succeeds exactly when the implementation name is "cpython". Otherwise it fails with the "can only be instantiated from a CPython interpreter" message. |
| `Runtime.PastPy313IsAtLeastPy314` | src/runtime_introspect/_features.py:79-90 | A version that is neither below 3.13 nor exactly 3.13 is at least 3.14, as the resolver asserts. |
| `IntrospectStatus.DeclaredOrder` | src/runtime_introspect/_status.py:49-52 | The union's declared order runs from most to least accurate. At equal accuracy the positive variant comes before the privative one. Equal positions mean the same variant. |
| `LegacyStatus.ClassName` | src/runtime_features_introspection/_status.py:10-39 | `status.__class__.__name__`, the declared name of each variant. It has no contract; `LegacyStatus.DeclaredOrder` ties it to the declared position. |
| `LegacyStatus.DeclaredOrder` | src/runtime_features_introspection/_status.py:42-45 | The same order facts hold for the older union. Equal positions mean equal class names. |
| `IntrospectRecord.Valid` | tests/test_status.py:26-59 | The nesting rule the constructor enforces. It has no contract; `Instantiate` and `ValidCombinations` characterise it. |
| `IntrospectRecord.Instantiate` | tests/test_status.py:26-59 | Construction succeeds exactly for valid records and returns the record unchanged. The availability error is raised exactly when `available` is not True and `enabled` or `active` is set. The enablement error is raised exactly when `available` is True, `enabled` is not True and `active` is set. So the first check wins. |
| `IntrospectRecord.Summary` | tests/test_status.py:9-23 | `Status.summary` is always one of the seven summary words. `SummaryOfValid` and `SummaryDeterminesState` characterise which word. |
| `IntrospectRecord.SummaryOfValid` | tests/test_status.py:9-23 | On valid records each of the seven summary words holds exactly for its own tri-state combination, and the deepest set field decides. |
| `IntrospectRecord.SummaryDeterminesState` | tests/test_status.py:9-23 | Two valid records with the same summary have equal `available`, `enabled` and `active`. |
| `IntrospectRecord.ValidCombinations` | tests/test_status.py:9-59 | A record is valid exactly when its tri-states are one of the seven combinations the tests list. |
| `IntrospectFeatures.FreeThreadingFeature` | src/runtime_introspect/_features.py:29-72 | For every input, no `replace` step fails. The feature is named "free-threading", its status is valid, and `active` is never set. |
| `IntrospectFeatures.FreeThreadingAvailability` | src/runtime_introspect/_features.py:34-66 | `available` is always set. It is False exactly below 3.13 or when the flag equals 0, and then `enabled` is unset. Otherwise, even when the flag is unreadable, `enabled` is the negation of the GIL query. |
| `IntrospectFeatures.FreeThreadingDetails` | src/runtime_introspect/_features.py:34-71 | Below 3.13, and for a flag of 0, the details are the fixed texts. When disabled, the details are the PYTHON_GIL=1 text exactly when PYTHON_GIL is "1", and the extension text otherwise. When enabled, they are "forced by envvar PYTHON_GIL=0" exactly when PYTHON_GIL is "0", and "no forcing detected" otherwise. |
| `IntrospectFeatures.FreeThreadingOnlyVersionBefore313` | src/runtime_introspect/_features.py:34-38 | Below 3.13 the free-threading result depends on the version alone. |
| `IntrospectFeatures.JitFeature` | src/runtime_introspect/_features.py:74-124 | For every input and mode, no `replace` step fails. The feature is named "JIT" and its status is valid. |
| `IntrospectFeatures.JitAvailability` | src/runtime_introspect/_features.py:79-99 | Below 3.13 the JIT status is available=False with its details. At 3.13 it is fully undetermined, with "no introspection API known for Python 3.13". From 3.14 `available` equals `is_available()`, and a JIT that is not built gives available=False. |
| `IntrospectFeatures.JitOnlyVersionBefore314` | src/runtime_introspect/_features.py:79-91 | Below 3.14 the JIT result depends on the version alone. No JIT query, no override and not even the mode is consulted. |
| `IntrospectFeatures.JitDisabledDetails` | src/runtime_introspect/_features.py:101-112 | An available JIT that is not enabled gives enabled=False with `active` unset. The details are the PYTHON_JIT=0 text exactly when the variable is "0", the "unset" text exactly when it is unset, and absent exactly for any other value. |
| `IntrospectFeatures.JitDeepReportsActivity` | src/runtime_introspect/_features.py:114-117 | An enabled JIT under deep introspection has status (True, True, `is_active()`) with no details. |
| `IntrospectFeatures.JitStableEnabled` | src/runtime_introspect/_features.py:114-124 | An enabled JIT under stable introspection leaves `active` unset. Its details are "by envvar PYTHON_JIT=<v>" exactly when PYTHON_JIT is set to something other than "0". |
| `IntrospectFeatures.JitStableIgnoresActivity` | src/runtime_introspect/_features.py:114-124 | Under stable introspection the result does not depend on the activity query. |
| `IntrospectFeatures.Snapshot` | src/runtime_introspect/_features.py:126-132 | It takes the feature set, since `snapshot` is an instance method. The snapshot has exactly two features with valid statuses: "free-threading", then "JIT". The JIT feature uses deep introspection exactly when the mode is "deep". |
| `IntrospectFeatures.OnlyDeepIsDeep` | src/runtime_introspect/_features.py:131 | Every mode other than "deep" gives the same snapshot as "stable". |
| `IntrospectFeatures.Diagnostic` | src/runtime_introspect/_features.py:16-18 | A diagnostic starts with the feature name followed by ": ". |
| `IntrospectFeatures.DiagnosticShowsSummary` | src/runtime_introspect/_features.py:16-18 | If the rendering shows the summary word of a valid status, the diagnostic of a feature with a valid status contains that status's summary. |
| `IntrospectFeatures.Diagnostics` | src/runtime_introspect/_features.py:134-139 | It takes the feature set, since `diagnostics` is an instance method. There are two diagnostics, one per snapshot feature, in snapshot order. |
| `IntrospectFeatures.DiagnosticsShowSummaries` | tests/test_features.py:150-164 | The diagnostics start with "free-threading: " and "JIT: " and contain their summaries. Below 3.14 the JIT summary is "unavailable" or "undetermined". From 3.14 "active" and "inactive" occur only under deep introspection, and "available" never occurs. |
| `IntrospectFeatures.OverridesDecideSummaries` | tests/test_features.py:117-148 | Suppose the runtime honours PYTHON_GIL and PYTHON_JIT. Then the free-threading summary is "unavailable" without support, and otherwise "disabled" under PYTHON_GIL=1 and "enabled" under 0. The stable JIT summary is "undetermined" at 3.13 and "unavailable" when the JIT is not built. Otherwise it is "enabled" under PYTHON_JIT=1 and "disabled" when the variable is "0" or unset. |
| `LegacyFeatures.Label` | src/runtime_features_introspection/_features.py:32 | The lowercased class name. It has no contract; `LabelOf` spells it out per variant. |
| `LegacyFeatures.LabelOf` | src/runtime_features_introspection/_features.py:32 | The lowercased class name of each of the seven variants, spelled out. |
| `LegacyFeatures.Message` | src/runtime_features_introspection/_features.py:34-42 | The `match` rendering after "<name>: ". It has no contract; `MessageOf` and `MessageInjective` characterise it. |
| `LegacyFeatures.MessageOf` | src/runtime_features_introspection/_features.py:30-43 | Active, Inactive and Available render as their lowercased names, and Enabled as "enabled, <detail>". Disabled, Unavailable and Unknown render as "<name> (<reason>)". |
| `LegacyFeatures.MessageInjective` | src/runtime_features_introspection/_features.py:34-40 | Two statuses with the same rendering are equal, so the rendering loses no information. |
| `LegacyFeatures.Diagnostic` | src/runtime_features_introspection/_features.py:30-43 | A diagnostic starts with the feature name followed by ": ". |
| `LegacyFeatures.DiagnosticInjective` | src/runtime_features_introspection/_features.py:30-43 | Two features with the same name and the same diagnostic are equal. |
| `LegacyFeatures.FreeThreadingStatus` | src/runtime_features_introspection/_features.py:58-93 | The free-threading status is never Active, Inactive or Available. |
| `LegacyFeatures.FreeThreadingCases` | src/runtime_features_introspection/_features.py:58-93 | Unavailable holds exactly below 3.13. Unknown holds exactly for an unreadable flag. "Built without" holds exactly for any flag value other than 1. Disabled or Enabled follows the GIL query when the flag is 1. The reasons and details follow PYTHON_GIL in both directions. |
| `LegacyFeatures.JitStatus` | src/runtime_features_introspection/_features.py:95-115 | The JIT status is never Enabled. Active and Inactive occur only in "deep" mode. |
| `LegacyFeatures.JitCases` | src/runtime_features_introspection/_features.py:95-115 | The JIT status is Unavailable below 3.13 and Unknown at 3.13. From 3.14 the enabled query comes first: deep mode gives Active or Inactive from the activity query, and other modes give Available. Otherwise the status is Unavailable when the JIT is not built and Disabled("reason is unknown") when it is. |
| `LegacyFeatures.Snapshot` | src/runtime_features_introspection/_features.py:117-122 | Being a static method, it takes no feature set. The snapshot is a set of exactly two features, named "free-threading" and "JIT compilation", carrying their two statuses. |
| `LegacyFeatures.SortedByLowerName` | src/runtime_features_introspection/_features.py:127-132 | The model of Python's `sorted` over a set: every element appears once, and the lowercased names never decrease. |
| `LegacyFeatures.Diagnostics` | src/runtime_features_introspection/_features.py:124-133 | It takes the feature set, since `diagnostics` is an instance method. There are exactly two diagnostics. |
| `LegacyFeatures.DiagnosticsOrder` | src/runtime_features_introspection/_features.py:124-133 | The diagnostics are the free-threading diagnostic, then the JIT diagnostic, because "free-threading" sorts before "jit compilation". |
| `Iterations.FreeThreadingAgrees` | src/runtime_features_introspection/_features.py:58-93 | Below 3.13, or with a flag of 0 or 1, the older label and the newer summary name the same state. |
| `Iterations.FreeThreadingUnreadableFlagDiffers` | src/runtime_introspect/_features.py:45 | From 3.13 with an unreadable flag, the older code reports Unknown and the newer code reports free-threading available. |
| `Iterations.FreeThreadingOtherFlagDiffers` | src/runtime_introspect/_features.py:45-53 | From 3.13 with a flag other than 0 or 1, the older code reports "built without" and the newer code reports it available. |
| `Iterations.JitAgrees` | src/runtime_features_introspection/_features.py:95-115 | For a consistent runtime (enabled implies available), both packages name the same JIT state. This holds below 3.14, when the JIT is off, or under deep introspection. |
| `Iterations.JitInconsistentRuntimeDiffers` | src/runtime_features_introspection/_features.py:104-113 | From 3.14, for a JIT reported enabled but not available, the older package says Active, Inactive or Available, while the newer one says available=False (src/runtime_introspect/_features.py:93-99). |
| `Iterations.JitStableEnabledDiffers` | src/runtime_features_introspection/_features.py:104-108 | For an enabled JIT under stable introspection, the older package says "available" and the newer one says "enabled". |

## Left out

- The runtime reads are not modelled as calls: `os.getenv`, `sysconfig.get_config_var`, `sys._is_gil_enabled`, `sys._jit.*` and `sys.implementation.name` are foreign introspection calls. They are the fields of `Runtime.Signals` and the argument of `Runtime.NewFeatureSet`. The independence lemmas show which reads each branch consults.
- `IntrospectFeatures.Diagnostic`: the newer `Status.__str__` is not part of this model, so the rendering is a parameter. The only property used for it is that it shows the summary word (`RendersSummary`).
- The tests' later API is not modelled, because src/runtime_introspect/_features.py defines none of it: `VALID_INTROSPECTIONS`, the "unstable-inspect-activity" mode, the `ValueError` for an invalid `introspection`, and the `label` spelling of `summary` in `tests/test_features.py`.
- `Options.Result`: `Err` carries only the message, not the exception class: `TypeError` for the host guard (src/runtime_introspect/_features.py:25) and `ValueError` for the record (tests/test_status.py:58). Each message comes from exactly one raise site, so the class can be recovered from it.
- The subprocess tests and their `eval` round trip of the printed snapshot are process plumbing.
- Dataclass mechanics are not modelled: `repr` text, the errors for assigning to frozen instances, `slots`, hashing. Dafny datatypes are immutable and compare structurally, which is what the frozen dataclasses provide.
- `Text.Lower` lowercases ASCII letters only. Python's `str.lower()` covers all of Unicode, but every name involved here is ASCII.
- `LegacyFeatures.SortedByLowerName`: when two keys are equal, it leaves their order open, as the iteration order of a `frozenset` does. The two feature names here have different keys.
- `Runtime.Version` keeps only (major, minor). Comparing that pair against (3, 13) and (3, 14) decides the same as comparing the full `sys.version_info` tuple.
- `IntrospectFeatures.Snapshot`, `IntrospectFeatures.Diagnostics`, `LegacyFeatures.Snapshot` and `LegacyFeatures.Diagnostics` make the mode an explicit argument. Dafny has no keyword defaults, so the source's default call `snapshot()` is `Snapshot(fs, sig, "stable")` in the newer model and `Snapshot(sig, "stable")` in the older one.
- Typing-only constructs (`Literal`, `TypeAlias`, `cast`, `assert_never`) have no runtime behaviour. The `match` fallback that calls `assert_never` is unreachable, because the Dafny `match` is exhaustive.
