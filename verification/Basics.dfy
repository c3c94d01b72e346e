/** What the other modules share. */
module Basics {

  /** A pointer that may be NULL, or a search that may fail. */
  datatype Option<+T> = None | Some(value: T)

  lemma Regroup<T>(a: seq<T>, b: seq<T>, c: seq<T>)
    ensures (a + b) + c == a + (b + c)
  {
  }
}
