/** Optional values, standing in for Ruby's `nil`. */
module Wrappers {

  /** `None` is Ruby's `nil`; `Some(v)` is a present value. */
  datatype Option<+T> = None | Some(value: T) {

    /** The value, or a default when it is `nil`. */
    function GetOr(default: T): T {
      match this
      case Some(v) => v
      case None => default
    }
  }

  /** The element at index `i` of a Ruby array, or `nil` past its end. */
  function Nth<T>(xs: seq<T>, i: nat): (r: Option<T>)
    ensures r.Some? <==> i < |xs|
    ensures r.Some? ==> r.value == xs[i]
  {
    if i < |xs| then Some(xs[i]) else None
  }

  /** Ruby's `list.first` on an array that may be empty: the first element or `nil`. */
  function First<T>(xs: seq<T>): (r: Option<T>)
    ensures r.None? <==> |xs| == 0
    ensures r.Some? ==> r.value == xs[0]
  {
    if |xs| == 0 then None else Some(xs[0])
  }
}
