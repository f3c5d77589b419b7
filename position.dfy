/** `src/model/Position.ts`: a fretboard coordinate, compared field by field. */
module Positions {
  import opened Util

  /** A (fret, string) pair. The constructor stores both numbers unchanged; string 0 is
      the first string of the tuning's stored order. */
  datatype Position = Position(fret: int, stringIndex: int) {

    /** Same fret and same string. */
    predicate Equals(other: Position) {
      fret == other.fret && stringIndex == other.stringIndex
    }
  }

  /** `equals` is structural equality, hence reflexive, symmetric and transitive. */
  lemma EqualsIsIdentity(a: Position, b: Position, c: Position)
    ensures a.Equals(b) <==> a == b
    ensures a.Equals(a)
    ensures a.Equals(b) ==> b.Equals(a)
    ensures a.Equals(b) && b.Equals(c) ==> a.Equals(c)
  {
  }

  /** `PositionSet` is `ValueObjectSet<Position>`. */
  type PositionSet = ValueObjectSet<Position>
}
