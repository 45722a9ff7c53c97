/** Absence and failure values used in place of Python's None and exceptions. */
module Wrappers {

  /** A value that may be missing: Python's `None` versus a present value. */
  datatype Option<+T> = None | Some(value: T) {

    /** The present value, or `default` when there is none. */
    function GetOr(default: T): T {
      match this
      case Some(v) => v
      case None => default
    }
  }

  /** The outcome of a call that may raise: a value, or the exception's message. */
  datatype Result<+T> = Ok(value: T) | Err(message: string)

  /** The zero-or-one element sequence holding an optional value. */
  function AsSeq<T>(o: Option<T>): (s: seq<T>)
    ensures |s| <= 1
    ensures o.Some? <==> |s| == 1
    ensures o.Some? ==> s[0] == o.value
  {
    match o
    case Some(v) => [v]
    case None => []
  }
}
