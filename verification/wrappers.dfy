/** Failure-compatible result types shared by every module of the model. */
module Wrappers {

  /** An optional value; used for the "not a number" delta sentinel and for unset variables. */
  datatype Option<+T> = None | Some(value: T)

  /** Either a value or the diagnostic of the fatal check that stopped the program. */
  datatype Result<+T, +E> = Success(value: T) | Failure(error: E) {

    predicate IsFailure() {
      Failure?
    }

    function PropagateFailure<U>(): Result<U, E>
      requires Failure?
    {
      Failure(error)
    }

    function Extract(): T
      requires Success?
    {
      value
    }
  }
}

/** `std::vector::resize` on an immutable sequence. */
module Buffers {

  /** Keeps the first `n` elements of `s` and pads with `fill` when `s` is shorter. */
  function Resize<T>(s: seq<T>, n: nat, fill: T): (r: seq<T>)
    ensures |r| == n
    ensures forall i :: 0 <= i < n && i < |s| ==> r[i] == s[i]
    ensures forall i :: |s| <= i < n ==> r[i] == fill
  {
    if n <= |s| then s[..n] else s + seq(n - |s|, _ => fill)
  }
}
