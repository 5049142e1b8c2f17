/** Sequences taken from their end, as histories are. */
module Sequences {

  function Front<T>(xs: seq<T>): seq<T>
    requires xs != []
  {
    xs[..|xs| - 1]
  }

  function Last<T>(xs: seq<T>): T
    requires xs != []
  {
    xs[|xs| - 1]
  }

  /** `longer` is `base` with some elements inserted, all of which are `extra`. */
  predicate Padded<T(==)>(longer: seq<T>, base: seq<T>, extra: T -> bool) {
    if longer == [] then base == []
    else
      || (extra(Last(longer)) && Padded(Front(longer), base, extra))
      || (base != [] && Last(longer) == Last(base) && Padded(Front(longer), Front(base), extra))
  }

  lemma {:induction false} PaddedWithNothing<T>(xs: seq<T>, extra: T -> bool)
    ensures Padded(xs, xs, extra)
  {
    if xs != [] {
      PaddedWithNothing(Front(xs), extra);
    }
  }
}
