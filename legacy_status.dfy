/** The tagged union of `runtime_features_introspection._status`: seven frozen
    variants, values compared structurally. Here `Enabled.detail` is required. */
module LegacyStatus {

  /** Declared from most to least accurate; privative variants last at equal
      accuracy. */
  datatype Status =
    | Active
    | Inactive
    | Enabled(detail: string)
    | Disabled(reason: string)
    | Available
    | Unavailable(reason: string)
    | Unknown(reason: string)

  /** `status.__class__.__name__`. */
  function ClassName(s: Status): string {
    match s
    case Active => "Active"
    case Inactive => "Inactive"
    case Enabled(_) => "Enabled"
    case Disabled(_) => "Disabled"
    case Available => "Available"
    case Unavailable(_) => "Unavailable"
    case Unknown(_) => "Unknown"
  }

  /** Position of the variant in the declared union. */
  function Rank(s: Status): (r: nat)
    ensures r < 7
  {
    match s
    case Active => 0
    case Inactive => 1
    case Enabled(_) => 2
    case Disabled(_) => 3
    case Available => 4
    case Unavailable(_) => 5
    case Unknown(_) => 6
  }

  /** How deep a level of availability -> enablement -> activity the variant
      reports on. */
  function Accuracy(s: Status): nat {
    match s
    case Active | Inactive => 3
    case Enabled(_) | Disabled(_) => 2
    case Available | Unavailable(_) => 1
    case Unknown(_) => 0
  }

  predicate Privative(s: Status) {
    s.Inactive? || s.Disabled? || s.Unavailable? || s.Unknown?
  }

  /** The declared order runs from most to least accurate, the positive variant
      first at equal accuracy; and the class name identifies the variant. */
  lemma DeclaredOrder(s: Status, t: Status)
    ensures Rank(s) < Rank(t) ==>
      Accuracy(s) > Accuracy(t) || (Accuracy(s) == Accuracy(t) && !Privative(s) && Privative(t))
    ensures Rank(s) == Rank(t) <==> ClassName(s) == ClassName(t)
  {
  }
}
