/** Small definitions shared by all components. */
module Basics {

  datatype Option<T> = None | Some(value: T)

  type Byte = x: int | 0 <= x < 256

  /** Names the facts a closed predicate hides: a predicate of the form
      forall k {:trigger Key(k, x)} :: Key(k, x) ==> P(x) says P(x), but a proof sees that only where
      it mentions Key(0, x). */
  ghost predicate Key<T>(k: int, what: T) { k == 0 }
}
