/** Optional and failing results, the largest 64-bit integer, and a law of sequences. */
module Wrappers {
  datatype Option<+T> = None | Some(value: T)

  const MAX_U64: nat := 0xFFFF_FFFF_FFFF_FFFF

  datatype Result<+T, +R> = Ok(value: T) | Err(error: R)

  lemma Assoc<T>(a: seq<T>, b: seq<T>, c: seq<T>)
    ensures a + (b + c) == a + b + c
  {
  }
}
