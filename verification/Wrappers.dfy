/** The optional value the C++ code writes as `std::optional`, and the law of joining lists. */
module Wrappers {
  datatype Option<+T> = None | Some(value: T) {
    /** `value_or`. */
    function GetOr(default: T): T {
      match this
      case Some(v) => v
      case None => default
    }
  }

  lemma JoinLists<T>(a: seq<T>, b: seq<T>, c: seq<T>)
    ensures (a + b) + c == a + (b + c)
  {
  }
}
