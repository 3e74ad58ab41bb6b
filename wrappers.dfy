/** Nullable values of the source (`null` references, missing dictionary
    entries, `default(T)` returns) are modelled with `Option`; `NoDuplicates`
    is the uniqueness of a sequence's elements. */
module Wrappers {

  datatype Option<+T> = None | Some(value: T) {
    function GetOr(default: T): T {
      match this
      case Some(v) => v
      case None => default
    }
  }

  /** No element occurs twice. */
  predicate NoDuplicates<T(==)>(s: seq<T>) {
    forall a, b :: 0 <= a < b < |s| ==> s[a] != s[b]
  }
}
