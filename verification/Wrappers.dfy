/** The conventional optional value, and a law of sequences that needs saying. */
module Wrappers {

  datatype Option<+T> = None | Some(value: T)

  lemma Associative<T>(x: seq<T>, y: seq<T>, z: seq<T>)
    ensures x + (y + z) == (x + y) + z
  {
  }
}
