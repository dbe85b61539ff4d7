/** Facts about sequence slices that the solver is slow to find unaided. */
module Slices {
  /** A slice of a slice is a slice. */
  lemma SliceOfSlice<T>(s: seq<T>, from: nat, to: nat, i: nat, j: nat)
    requires from <= to <= |s| && i <= j <= to - from
    ensures s[from..to][i..j] == s[from + i..from + j]
  {
    var inner, outer := s[from..to][i..j], s[from + i..from + j];
    assert forall k :: 0 <= k < j - i ==> inner[k] == s[from + i + k] == outer[k];
  }

  /** Adjacent slices join. */
  lemma JoinSlices<T>(s: seq<T>, i: nat, j: nat, k: nat)
    requires i <= j <= k <= |s|
    ensures s[i..k] == s[i..j] + s[j..k]
  {
  }

  /** The three parts of a concatenation, read back by position. */
  lemma ThreeParts<T>(a: seq<T>, b: seq<T>, c: seq<T>)
    ensures var s := a + b + c;
            && s[..|a|] == a && s[|a|..|a| + |b|] == b && s[|a| + |b|..] == c
  {
  }

  /** A slice of the second part of a concatenation. */
  lemma SliceOfSecond<T>(first: seq<T>, second: seq<T>, i: nat, j: nat)
    requires i <= j <= |second|
    ensures (first + second)[|first| + i..|first| + j] == second[i..j]
  {
    var s := first + second;
    assert forall k :: i <= k < j ==> s[|first| + k] == second[k];
  }
}
