/** The record `Status(available, enabled, active, details)` that the resolvers
    of `runtime_introspect._features` build. Each of the first three fields is a
    tri-state (`True`, `False` or `None`); construction rejects values that break
    the nesting availability -> enablement -> activity. */
module IntrospectRecord {
  import opened Options

  datatype Status = Status(
    available: Option<bool>,
    enabled: Option<bool>,
    active: Option<bool>,
    details: Option<string>)

  const AvailabilityError :=
    "Cannot instantiate a Status with available!=True and (enabled!=None or active!=None)"
  const EnablementError :=
    "Cannot instantiate a Status with enabled!=True and active!=None"

  /** The nesting invariant: nothing is enabled or active unless available, and
      nothing is active unless enabled. */
  predicate Valid(s: Status) {
    && (s.available != Some(true) ==> s.enabled.None? && s.active.None?)
    && (s.enabled != Some(true) ==> s.active.None?)
  }

  /** Constructing (or `dataclasses.replace`-ing into) the value `s`: a
      `ValueError` unless `s` is valid; the availability check runs first. */
  function Instantiate(s: Status): (r: Result<Status>)
    ensures r.Ok? <==> Valid(s)
    ensures r.Ok? ==> r.value == s
    ensures r.Err? ==> r.error in {AvailabilityError, EnablementError}
    ensures r == Err(AvailabilityError) <==>
      s.available != Some(true) && (s.enabled.Some? || s.active.Some?)
    ensures r == Err(EnablementError) <==>
      s.available == Some(true) && s.enabled != Some(true) && s.active.Some?
  {
    if s.available != Some(true) && (s.enabled.Some? || s.active.Some?) then
      Err(AvailabilityError)
    else if s.enabled != Some(true) && s.active.Some? then
      Err(EnablementError)
    else
      Ok(s)
  }

  const Undetermined := Status(None, None, None, None)

  /** The coarse label: the deepest field that is set decides it. */
  function Summary(s: Status): (r: string)
    ensures r in {"undetermined", "unavailable", "available", "disabled", "enabled", "inactive", "active"}
  {
    if s.active.Some? then (if s.active.value then "active" else "inactive")
    else if s.enabled.Some? then (if s.enabled.value then "enabled" else "disabled")
    else if s.available.Some? then (if s.available.value then "available" else "unavailable")
    else "undetermined"
  }

  /** Exactly seven (available, enabled, active) combinations are valid, and each
      has its own summary word, whatever the details. */
  lemma SummaryOfValid(s: Status)
    requires Valid(s)
    ensures Summary(s) == "undetermined" <==> s.available.None?
    ensures Summary(s) == "unavailable" <==> s.available == Some(false)
    ensures Summary(s) == "available" <==> s.available == Some(true) && s.enabled.None?
    ensures Summary(s) == "disabled" <==> s.available == Some(true) && s.enabled == Some(false)
    ensures Summary(s) == "enabled" <==> s.available == Some(true) && s.enabled == Some(true) && s.active.None?
    ensures Summary(s) == "inactive" <==> s.available == Some(true) && s.enabled == Some(true) && s.active == Some(false)
    ensures Summary(s) == "active" <==> s.available == Some(true) && s.enabled == Some(true) && s.active == Some(true)
  {
  }

  /** Two valid statuses with the same summary agree on all three tri-states:
      the summary loses nothing but the details. */
  lemma SummaryDeterminesState(s: Status, t: Status)
    requires Valid(s) && Valid(t)
    requires Summary(s) == Summary(t)
    ensures s.available == t.available && s.enabled == t.enabled && s.active == t.active
  {
    SummaryOfValid(s);
    SummaryOfValid(t);
  }

  /** A valid status is one of the seven combinations of the source's tests. */
  lemma ValidCombinations(s: Status)
    ensures Valid(s) <==>
      (s.available, s.enabled, s.active) in {
        (None, None, None), (Some(false), None, None), (Some(true), None, None),
        (Some(true), Some(false), None), (Some(true), Some(true), None),
        (Some(true), Some(true), Some(false)), (Some(true), Some(true), Some(true))
      }
  {
    var triple := (s.available, s.enabled, s.active);
    match triple
    case (None, None, None) =>
    case (Some(false), None, None) =>
    case (Some(true), None, None) =>
    case (Some(true), Some(false), None) =>
    case (Some(true), Some(true), None) =>
    case (Some(true), Some(true), Some(false)) =>
    case (Some(true), Some(true), Some(true)) =>
    case _ =>
  }
}
