/** Optional values: the model's stand-in for the source's nullable references. */
module Wrappers {

  /** `None` plays the part of a Java `null`; `Some(v)` a present value. */
  datatype Option<+T> = None | Some(value: T) {

    /** Applies `f` to a present value and leaves an absent one absent. */
    function Map<U>(f: T -> U): Option<U>
    {
      match this
      case None => None
      case Some(v) => Some(f(v))
    }
  }
}
