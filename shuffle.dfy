/**
 The swap loop of `ShuffleInt`, given the values its `Intn(i)` calls return.

 The loop runs i from len-1 down to 1 and swaps positions i and j, where j is
 the result of `Intn(i)` and so lies in [0, i). The draws are listed in the
 order the loop takes them: js[0] for i = len-1, js[1] for i = len-2, and so on.
 Because j never equals i, this is Sattolo's variant of the Fisher-Yates
 shuffle: it never leaves an element where it was.
 */
module Shuffle {
  import opened Draws

  function Swap(s: seq<int>, i: int, j: int): (r: seq<int>)
    requires 0 <= i < |s| && 0 <= j < |s|
    ensures |r| == |s| && r[i] == s[j] && r[j] == s[i]
    ensures forall k :: 0 <= k < |s| && k != i && k != j ==> r[k] == s[k]
    ensures multiset(r) == multiset(s)
  {
    s[i := s[j]][j := s[i]]
  }

  /** The remaining loop iterations i, i-1, ..., 1 applied to s. */
  function Steps(s: seq<int>, i: int, js: seq<int>): (r: seq<int>)
    requires i < |s| && StepDraws(i, js)
    ensures |r| == |s| && multiset(r) == multiset(s)
    ensures i >= 0 ==> r[i + 1..] == s[i + 1..]
    decreases i
  {
    if i <= 0 then s else Steps(Swap(s, i, js[0]), i - 1, js[1..])
  }

  /** One iteration of the loop, and the draws left for the rest. */
  lemma StepsUnfold(s: seq<int>, i: int, js: seq<int>)
    requires 0 < i < |s| && StepDraws(i, js)
    ensures StepDraws(i - 1, js[1..])
    ensures Steps(s, i, js) == Steps(Swap(s, i, js[0]), i - 1, js[1..])
  {
  }

  /** What `ShuffleInt` returns for arr when its draws are js. */
  function Shuffled(arr: seq<int>, js: seq<int>): (r: seq<int>)
    requires SwapDraws(|arr|, js)
    ensures |r| == |arr| && multiset(r) == multiset(arr)
  {
    Steps(arr, |arr| - 1, js)
  }

  predicate Distinct(s: seq<int>) {
    forall p, q :: 0 <= p < q < |s| ==> s[p] != s[q]
  }

  function Iota(n: nat): (r: seq<int>)
    ensures |r| == n && forall k :: 0 <= k < n ==> r[k] == k
  {
    seq(n, k => k)
  }

  predicate Indexes(t: seq<int>, n: int) {
    forall k :: 0 <= k < |t| ==> 0 <= t[k] < n
  }

  /** The elements of s at the positions t lists. */
  function Gather(s: seq<int>, t: seq<int>): (r: seq<int>)
    requires Indexes(t, |s|)
    ensures |r| == |t| && forall k :: 0 <= k < |t| ==> r[k] == s[t[k]]
  {
    seq(|t|, k requires 0 <= k < |t| => s[t[k]])
  }

  /** Shuffling only moves positions: shuffling s is gathering s along the shuffled positions. */
  lemma {:induction false} StepsGather(s: seq<int>, t: seq<int>, i: int, js: seq<int>)
    requires |t| == |s| && Indexes(t, |s|) && i < |t| && StepDraws(i, js)
    ensures Indexes(Steps(t, i, js), |s|)
    ensures Steps(Gather(s, t), i, js) == Gather(s, Steps(t, i, js))
    decreases i
  {
    if i > 0 {
      var t' := Swap(t, i, js[0]);
      assert Gather(s, t') == Swap(Gather(s, t), i, js[0]);
      StepsGather(s, t', i - 1, js[1..]);
    }
  }

  /**
   The invariant of the swap loop on positions, before iteration i: no finished
   position (above i) holds its own index, and every open position holds its
   own index or one above i.
   */
  predicate MovedAbove(t: seq<int>, i: int) {
    i < |t| &&
    (forall p :: 0 <= p < |t| && i < p ==> t[p] != p) &&
    (forall p :: 0 <= p <= i ==> t[p] == p || t[p] > i)
  }

  /** An iteration i > 1 keeps the invariant. */
  lemma SwapKeepsMovedAbove(t: seq<int>, i: int, j: int)
    requires 1 < i < |t| && 0 <= j < i && MovedAbove(t, i)
    ensures MovedAbove(Swap(t, i, j), i - 1)
  {
    var t' := Swap(t, i, j);
    forall p | i - 1 < p < |t|
      ensures t'[p] != p
    {
      if p > i {
        assert t'[p] == t[p];
      }
    }
    forall p | 0 <= p <= i - 1
      ensures t'[p] == p || t'[p] > i - 1
    {
      if p != j {
        assert t'[p] == t[p];
      }
    }
  }

  /** The last iteration (i = 1, so j = 0) leaves no position holding its own index. */
  lemma LastSwapMovesAll(t: seq<int>)
    requires 1 < |t| && MovedAbove(t, 1)
    ensures forall p :: 0 <= p < |t| ==> Swap(t, 1, 0)[p] != p
  {
    var t' := Swap(t, 1, 0);
    forall p | 0 <= p < |t|
      ensures t'[p] != p
    {
      if p > 1 {
        assert t'[p] == t[p];
      }
    }
  }

  /** From the invariant before iteration i, every position ends up holding another index. */
  lemma {:induction false} StepsMoveEveryPosition(t: seq<int>, i: int, js: seq<int>)
    requires 1 <= i < |t| && StepDraws(i, js) && MovedAbove(t, i)
    ensures forall p :: 0 <= p < |t| ==> Steps(t, i, js)[p] != p
    decreases i
  {
    StepsUnfold(t, i, js);
    if i == 1 {
      LastSwapMovesAll(t);
    } else {
      SwapKeepsMovedAbove(t, i, js[0]);
      StepsMoveEveryPosition(Swap(t, i, js[0]), i - 1, js[1..]);
    }
  }

  /**
   With at least two elements, all distinct, `ShuffleInt` moves every element: the element
   that ends at position p never started there. So for distinct elements the
   result differs from the input at every position, and the identity order
   can never come out.
   */
  lemma ShuffleMovesEveryElement(arr: seq<int>, js: seq<int>)
    requires SwapDraws(|arr|, js) && |arr| >= 2 && Distinct(arr)
    ensures forall p :: 0 <= p < |arr| ==> Shuffled(arr, js)[p] != arr[p]
    ensures Shuffled(arr, js) != arr
  {
    var n := |arr|;
    var id := Iota(n);
    assert Gather(arr, id) == arr;
    StepsGather(arr, id, n - 1, js);
    assert MovedAbove(id, n - 1);
    StepsMoveEveryPosition(id, n - 1, js);
    var t := Steps(id, n - 1, js);
    var r := Gather(arr, t);
    assert Shuffled(arr, js) == r;
    forall p | 0 <= p < n
      ensures r[p] != arr[p]
    {
      assert r[p] == arr[t[p]] && t[p] != p;
    }
    assert r[0] != arr[0];
  }
}
