/** Small value types shared by every module of the model: the usual Option and
    Result wrappers, Rust's u64 range, byte strings, and sequence reversal. */
module Common {

  datatype Option<+T> = None | Some(value: T)

  /** A Rust `Result`: `Err` carries the error the source returns (or, for the
      error kinds whose names start with `Panic`, the panic it raises). */
  datatype Result<+T, +E> = Ok(value: T) | Err(error: E)

  const U64_MAX: int := 0xFFFF_FFFF_FFFF_FFFF

  /** Rust's `u64`. Arithmetic whose exact result leaves this range is a panic
      in the source (overflow checks); the model spells out each such case. */
  type U64 = x: int | 0 <= x <= U64_MAX

  type Bytes = seq<bv8>

  function Min(a: int, b: int): (m: int)
    ensures m <= a && m <= b && (m == a || m == b)
  {
    if a <= b then a else b
  }

  /** `Vec::reverse`: the elements of `s` in the opposite order. */
  function Reversed<T>(s: seq<T>): (r: seq<T>)
    ensures |r| == |s|
    ensures forall i :: 0 <= i < |s| ==> r[i] == s[|s| - 1 - i]
  {
    if s == [] then [] else Reversed(s[1..]) + [s[0]]
  }
}
