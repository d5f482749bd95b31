// Facts about concatenation and slicing that the proofs name.

module Seqs {

  lemma HeadTail<T>(xs: seq<T>, ys: seq<T>)
    requires xs != []
    ensures [xs[0]] + (xs[1..] + ys) == xs + ys
  {
  }

  lemma Assoc<T>(xs: seq<T>, ys: seq<T>, zs: seq<T>)
    ensures xs + (ys + zs) == (xs + ys) + zs
  {
  }

  lemma TakeSuffix<T>(xs: seq<T>, ys: seq<T>, k: nat)
    requires |xs| <= k <= |xs + ys|
    ensures (xs + ys)[..k] == xs + ys[..k - |xs|]
  {
  }

  lemma TakePrefix<T>(xs: seq<T>, ys: seq<T>, k: nat)
    requires k <= |xs|
    ensures (xs + ys)[..k] == xs[..k]
  {
  }

  lemma DropTwice<T>(xs: seq<T>, n: nat)
    requires n < |xs|
    ensures xs[1..][n..] == xs[n + 1..]
  {
  }
}
