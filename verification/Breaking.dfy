/** The vocabulary of the breaking-change report. */
module Breaking {
  import opened Wrappers

  /** How a change moves the set of data the contract permits. */
  datatype Direction = Tightens | Loosens | Both | Undetermined | Untested

  datatype Level = Info | Warning | Error

  /** Who a change breaks: consumers relying on v1's guarantees, or the producer whose data passed v1. */
  datatype Perspective = Consumer | Producer

  datatype ChangeType = Added | Removed | Updated

  datatype ChangelogEntry = ChangelogEntry(
    path: string, kind: ChangeType, oldValue: Option<string>, newValue: Option<string>)

  /** A computed direction, or the exception that ended the computation. */
  datatype Grading = Graded(direction: Direction) | Raises

  /**
   * The true direction from the values `before` accepts to the values `after` accepts, over all integers
   * or over all reals.
   */
  ghost function TrueDirection(before: real -> bool, after: real -> bool, integers: bool): Direction {
    var loosens := exists x :: Separates(after, before, integers, x);
    var tightens := exists x :: Separates(before, after, integers, x);
    DirectionOf(loosens, tightens)
  }

  /** A value of the domain that `accepts` takes and `rejects` does not. */
  ghost predicate Separates(accepts: real -> bool, rejects: real -> bool, integers: bool, x: real) {
    InDomain(x, integers) && accepts(x) && !rejects(x)
  }

  function DirectionOf(loosens: bool, tightens: bool): Direction {
    if loosens && tightens then Both
    else if loosens then Loosens
    else if tightens then Tightens
    else Untested
  }

  predicate InDomain(x: real, integers: bool) {
    integers ==> x == x.Floor as real
  }

  function Mirror(d: Direction): Direction {
    match d
    case Tightens => Loosens
    case Loosens => Tightens
    case _ => d
  }

  /** Accepting less, and missing `x`, is tightening. */
  lemma LessIsTightening(before: real -> bool, after: real -> bool, integers: bool, x: real)
    requires forall y :: after(y) ==> before(y)
    requires InDomain(x, integers) && before(x) && !after(x)
    ensures TrueDirection(before, after, integers) == Tightens
    ensures TrueDirection(after, before, integers) == Loosens
  {
    assert Separates(before, after, integers, x);
  }
}
