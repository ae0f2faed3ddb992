/** Result types and small counting functions shared by the models. */
module Wrappers {
  datatype Option<+T> = None | Some(value: T)

  datatype Result<+T, +E> = Success(value: T) | Failure(error: E)

  /** What becomes of one remote command: it is answered, it never arrives, or it takes effect and the answer is lost. */
  datatype Link = Up | Down | ReplyLost

  function Max(a: int, b: int): int {
    if a < b then b else a
  }

  function RealMin(a: real, b: real): real {
    if a < b then a else b
  }

  /** The least integer that is not below x. */
  function Ceil(x: real): (n: int)
    ensures n as real - 1.0 < x <= n as real
  {
    -((-x).Floor)
  }

  /** Nanosecond durations are cut to whole milliseconds toward zero. */
  function Milliseconds(ns: int): (ms: int)
    ensures ns >= 0 ==> ms * 1_000_000 <= ns < (ms + 1) * 1_000_000
    ensures ns <= 0 ==> (ms - 1) * 1_000_000 < ns <= ms * 1_000_000
  {
    if ns >= 0 then ns / 1_000_000 else -((-ns) / 1_000_000)
  }

  /** How many of marks[lo..hi] are true. */
  function Count(marks: seq<bool>, lo: int, hi: int): (n: nat)
    requires 0 <= lo <= hi <= |marks|
    decreases hi
  {
    if lo == hi then 0
    else Count(marks, lo, hi - 1) + if marks[hi - 1] then 1 else 0
  }

  predicate Nondecreasing(times: seq<int>) {
    forall i, j :: 0 <= i <= j < |times| ==> times[i] <= times[j]
  }

  lemma NondecreasingPrefix(times: seq<int>, n: int)
    requires Nondecreasing(times) && 0 <= n <= |times|
    ensures Nondecreasing(times[..n])
  {}
}
