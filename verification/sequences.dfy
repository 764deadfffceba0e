/** Notions about sequences that several modules share. */
module Sequences {

  ghost predicate Distinct<T>(xs: seq<T>)
  {
    forall i, j | 0 <= i < j < |xs| :: xs[i] != xs[j]
  }

  function Members<T(==)>(xs: seq<T>): set<T>
  {
    set x | x in xs
  }
}
