/** The tagged union of `runtime_introspect._status`: seven frozen variants,
    values compared structurally. `Enabled.detail` may be absent. */
module IntrospectStatus {
  import opened Options

  /** Declared from most to least accurate; at equal accuracy the privative
      variant follows its positive counterpart. */
  datatype Status =
    | Active
    | Inactive
    | Enabled(detail: Option<string>)
    | Disabled(reason: string)
    | Available
    | Unavailable(reason: string)
    | Unknown(reason: string)

  /** Position of the variant in the declared union. */
  function Rank(s: Status): (r: nat)
    ensures r < 7
  {
    match s
    case Active => 0
    case Inactive => 1
    case Enabled(_) => 2
    case Disabled(_) => 3
    case Available => 4
    case Unavailable(_) => 5
    case Unknown(_) => 6
  }

  /** How deep a level of availability -> enablement -> activity the variant
      reports on. */
  function Accuracy(s: Status): nat {
    match s
    case Active | Inactive => 3
    case Enabled(_) | Disabled(_) => 2
    case Available | Unavailable(_) => 1
    case Unknown(_) => 0
  }

  predicate Privative(s: Status) {
    s.Inactive? || s.Disabled? || s.Unavailable? || s.Unknown?
  }

  /** The declared order runs from most to least accurate, the positive variant
      first at equal accuracy; and it tells variants apart. */
  lemma DeclaredOrder(s: Status, t: Status)
    ensures Rank(s) < Rank(t) ==>
      Accuracy(s) > Accuracy(t) || (Accuracy(s) == Accuracy(t) && !Privative(s) && Privative(t))
    ensures Rank(s) == Rank(t) <==>
      (s.Active? && t.Active?) || (s.Inactive? && t.Inactive?) || (s.Enabled? && t.Enabled?) ||
      (s.Disabled? && t.Disabled?) || (s.Available? && t.Available?) ||
      (s.Unavailable? && t.Unavailable?) || (s.Unknown? && t.Unknown?)
  {
  }
}
