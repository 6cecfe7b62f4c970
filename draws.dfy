/**
 The generator's random stream, replaced by the values it will produce.

 The Go code draws from a Mersenne-Twister source in two ways: `Float64()`,
 a real in [0, 1), and `Intn(n)`, an integer in [0, n). Here the stream is a
 sequence of such results, given in advance; every operation takes what it
 consumes from the front.
 */
module Draws {

  /** A result of `Float64()`. */
  type Unit = r: real | 0.0 <= r < 1.0

  datatype Draw = FloatDraw(f: Unit) | IntDraw(j: int)

  /** The next m draws are `Float64()` results. */
  predicate FloatsAhead(ds: seq<Draw>, m: int) {
    m <= |ds| && forall k :: 0 <= k < m ==> ds[k].FloatDraw?
  }

  function Floats(ds: seq<Draw>, m: nat): (us: seq<Unit>)
    requires FloatsAhead(ds, m)
    ensures |us| == m && forall k :: 0 <= k < m ==> us[k] == ds[k].f
  {
    seq(m, k requires 0 <= k < m => ds[k].f)
  }

  /** How many `Intn` calls shuffling a slice of length n makes. */
  function SwapCount(n: int): nat {
    if n > 1 then n - 1 else 0
  }

  function Ints(ds: seq<Draw>, m: nat): (js: seq<int>)
    requires m <= |ds| && forall k :: 0 <= k < m ==> ds[k].IntDraw?
    ensures |js| == m && forall k :: 0 <= k < m ==> js[k] == ds[k].j
  {
    seq(m, k requires 0 <= k < m => ds[k].j)
  }

  /**
   The `Intn` results for the swap loop iterations i, i-1, ..., 1 of
   `ShuffleInt`: one per iteration, each below its i.
   */
  predicate StepDraws(i: int, js: seq<int>) {
    |js| == (if i > 0 then i else 0) &&
    forall k :: 0 <= k < |js| ==> 0 <= js[k] < i - k
  }

  /** The `Intn` results for shuffling a slice of length n. */
  predicate SwapDraws(n: int, js: seq<int>) {
    StepDraws(n - 1, js)
  }

  /** The next draws are the `Intn` results a shuffle of length n consumes, each in range. */
  predicate SwapsAhead(ds: seq<Draw>, n: int) {
    SwapCount(n) <= |ds| &&
    (forall k :: 0 <= k < SwapCount(n) ==> ds[k].IntDraw?) &&
    SwapDraws(n, Ints(ds, SwapCount(n)))
  }

  lemma SwapDrawAt(ds: seq<Draw>, n: int, k: int)
    requires SwapsAhead(ds, n) && 0 <= k < SwapCount(n)
    ensures ds[k].IntDraw? && 0 <= ds[k].j < n - 1 - k
    ensures Ints(ds, SwapCount(n))[k] == ds[k].j
  {
  }
}
