/** Option and Result values for the Java code's `null` returns and exceptions, and one law of sequences. */
module Wrappers {

  /** A Java reference that may be `null`. */
  datatype Option<+T> = None | Some(value: T)

  /** A computation that either finishes or throws; the Java exception text is not modelled. */
  datatype Result<+T> = Ok(value: T) | Err

  /** Appending is associative; stated once so that long chains of `+` need not be re-bracketed inline. */
  lemma Associative<T>(a: seq<T>, b: seq<T>, c: seq<T>)
    ensures a + (b + c) == a + b + c
  {
  }
}
