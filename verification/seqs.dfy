/** Element-wise mapping over sequences, built the way a loop pushes onto an array. */
module Seqs {
  /** `f` applied to each element of `s`, in order. */
  function Map<A, B>(s: seq<A>, f: A -> B): (r: seq<B>)
    ensures |r| == |s|
  {
    if |s| == 0 then [] else Map(s[..|s| - 1], f) + [f(s[|s| - 1])]
  }

  /** Each position of the result holds `f` of the element at that position. */
  lemma {:induction false} MapAt<A, B>(s: seq<A>, f: A -> B, i: nat)
    requires i < |s|
    ensures Map(s, f)[i] == f(s[i])
  {
    var n := |s| - 1;
    if i < n {
      MapAt(s[..n], f, i);
      assert s[..n][i] == s[i];
    }
  }

  /** Mapping one more element appends its image. */
  lemma MapSnoc<A, B>(s: seq<A>, f: A -> B, i: nat)
    requires i < |s|
    ensures Map(s[..i + 1], f) == Map(s[..i], f) + [f(s[i])]
  {
    assert s[..i + 1][..i] == s[..i];
  }
}
