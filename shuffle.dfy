/**
 * The Fisher-Yates shuffle, in place. `Math.floor(Math.random() * (i + 1))`
 * is replaced by an oracle: `js[i]` is the index drawn at step `i`, which is
 * at most `i`.
 */
module Shuffle {
  function Swap<T>(s: seq<T>, i: nat, j: nat): (r: seq<T>)
    requires i < |s| && j < |s|
    ensures |r| == |s|
  {
    s[i := s[j]][j := s[i]]
  }

  lemma SwapPermutes<T>(s: seq<T>, i: nat, j: nat)
    requires i < |s| && j < |s|
    ensures multiset(Swap(s, i, j)) == multiset(s)
  {
  }

  predicate ValidDraws(js: seq<nat>, n: nat) {
    |js| == n && forall i :: 0 <= i < n ==> js[i] <= i
  }

  /** The steps `i, i - 1, ..., 1` of the shuffle applied to `s`. */
  function Steps<T>(s: seq<T>, js: seq<nat>, i: int): (r: seq<T>)
    requires ValidDraws(js, |s|) && i < |s|
    ensures |r| == |s|
    decreases i
  {
    if i <= 0 then s else Steps(Swap(s, i, js[i]), js, i - 1)
  }

  /** The whole shuffle of `s`, as the loop computes it. */
  function FisherYates<T>(s: seq<T>, js: seq<nat>): (r: seq<T>)
    requires ValidDraws(js, |s|)
    ensures multiset(r) == multiset(s)
    ensures |s| <= 1 ==> r == s
  {
    StepsPermute(s, js, |s| - 1);
    Steps(s, js, |s| - 1)
  }

  /** Every step is a swap, so the result is a permutation of the input. */
  lemma {:induction false} StepsPermute<T>(s: seq<T>, js: seq<nat>, i: int)
    requires ValidDraws(js, |s|) && i < |s|
    ensures multiset(Steps(s, js, i)) == multiset(s)
    decreases i
  {
    if i > 0 {
      SwapPermutes(s, i, js[i]);
      StepsPermute(Swap(s, i, js[i]), js, i - 1);
    }
  }

  /** Steps at or below `i` never touch a position above `i`. */
  lemma {:induction false} StepsKeepAbove<T>(s: seq<T>, js: seq<nat>, i: int, k: nat)
    requires ValidDraws(js, |s|) && i < k < |s|
    ensures Steps(s, js, i)[k] == s[k]
    decreases i
  {
    if i > 0 {
      StepsKeepAbove(Swap(s, i, js[i]), js, i - 1, k);
    }
  }

  lemma StepsKeepAboveAll<T>(s: seq<T>, js: seq<nat>, i: int)
    requires ValidDraws(js, |s|) && i < |s|
    ensures forall k :: 0 <= i < k < |s| ==> Steps(s, js, i)[k] == s[k]
  {
    forall k | 0 <= i < k < |s| ensures Steps(s, js, i)[k] == s[k] {
      StepsKeepAbove(s, js, i, k);
    }
  }

  /** `shuffleArray`: shuffles `a` in place and returns the same array. */
  method ShuffleArray<T>(a: array<T>, js: seq<nat>) returns (r: array<T>)
    requires ValidDraws(js, a.Length)
    modifies a
    ensures r == a
    ensures a[..] == FisherYates(old(a[..]), js)
  {
    ghost var result := FisherYates(a[..], js);
    var i := a.Length - 1;
    while i > 0
      invariant -1 <= i < a.Length
      invariant Steps(a[..], js, i) == result
      invariant forall k :: i < k < a.Length ==> a[k] == result[k]
      decreases i
    {
      var j := js[i];
      ghost var next := Swap(a[..], i, j);
      a[i], a[j] := a[j], a[i];
      assert a[..] == next;
      StepsKeepAboveAll(next, js, i - 1);
      i := i - 1;
    }
    return a;
  }
}
