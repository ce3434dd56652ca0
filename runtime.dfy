/** What the resolvers read from the running interpreter, supplied as a value:
    the version, the build configuration, the two environment overrides and the
    live queries of the `sys` module. */
module Runtime {
  import opened Options

  /** `sys.version_info[:2]`. The source compares the whole `version_info` tuple
      with a pair; a longer tuple with an equal prefix compares greater, so the
      comparison is decided by (major, minor) alone. */
  datatype Version = Version(major: nat, minor: nat)

  /** `v < w` on version tuples: lexicographic. */
  predicate Before(v: Version, w: Version) {
    v.major < w.major || (v.major == w.major && v.minor < w.minor)
  }

  const Py313 := Version(3, 13)
  const Py314 := Version(3, 14)

  /** Past the two early exits (`< (3, 13)` and `[:2] == (3, 13)`) the version is
      at least 3.14, as the resolvers assert. */
  lemma PastPy313IsAtLeastPy314(v: Version)
    requires !Before(v, Py313) && v != Py313
    ensures !Before(v, Py314)
  {
  }

  datatype Signals = Signals(
    version: Version,            // sys.version_info
    pyGilDisabled: Option<int>,  // sysconfig.get_config_var("Py_GIL_DISABLED")
    pythonGil: Option<string>,   // os.getenv("PYTHON_GIL")
    pythonJit: Option<string>,   // os.getenv("PYTHON_JIT")
    gilEnabled: bool,            // sys._is_gil_enabled()
    jitAvailable: bool,          // sys._jit.is_available()
    jitEnabled: bool,            // sys._jit.is_enabled()
    jitActive: bool              // sys._jit.is_active()
  )

  const WrongHost := "CPythonFeatureSet can only be instantiated from a CPython interpreter"

  /** A `CPythonFeatureSet`. It holds no data; only `NewFeatureSet` builds one,
      and the members that model its instance methods take it as an argument. */
  datatype FeatureSet = FeatureSet

  /** The construction-time guard on `sys.implementation.name`: a `TypeError`
      outside CPython. Both packages use the same check. */
  function NewFeatureSet(implementationName: string): (r: Result<FeatureSet>)
    ensures r.Ok? <==> implementationName == "cpython"
    ensures r.Err? ==> r.error == WrongHost
  {
    if implementationName != "cpython" then Err(WrongHost) else Ok(FeatureSet)
  }
}
