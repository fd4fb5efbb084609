/** Small definitions that several models share. */
module Common {

  /** A value that may be missing. */
  datatype Option<T> = None | Some(value: T)

  function Min(x: int, y: int): int { if x < y then x else y }

  function Max(x: int, y: int): int { if x < y then y else x }

  /** The sequence with the elements from position at on overwritten by the chunk, as memcpy leaves it. */
  function Spliced<T>(s: seq<T>, at: nat, chunk: seq<T>): (r: seq<T>)
    requires at + |chunk| <= |s|
    ensures |r| == |s|
  {
    s[..at] + chunk + s[at + |chunk|..]
  }
}
