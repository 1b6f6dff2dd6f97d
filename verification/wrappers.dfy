/** The optional-value datatype used for Python's `None`. */
module Wrappers {

  /** `None` or `Some(value)`; stands for a Python variable that may hold `None`. */
  datatype Option<+T> = None | Some(value: T)

  /** The zero- or one-element sequence holding the value of `o`. */
  function ToSeq<T>(o: Option<T>): seq<T> {
    match o
    case None => []
    case Some(v) => [v]
  }
}
