/** Small shared vocabulary. */
module Basics {

  /** A value that may be absent: Python's `None`. */
  datatype Option<+T> = None | Some(value: T)

  function Min(x: int, y: int): int { if x <= y then x else y }

  function Max(x: int, y: int): int { if x >= y then x else y }

  lemma AppendAssociates<T>(x: seq<T>, y: seq<T>, z: seq<T>)
    ensures x + (y + z) == (x + y) + z
  {
  }
}
