/** The optional value used throughout the model for the source's `X | None`, and one fact about sequences. */
module Wrappers {
  datatype Option<+T> = None | Some(value: T)

  lemma Regroup<T>(x: seq<T>, y: seq<T>, z: seq<T>)
    ensures x + (y + z) == x + y + z
  {
  }
}
