/**
 * The comparator shuffle `sort(() => Math.random() - 0.5)` used on a fresh copy
 * of a question list. The random draws are a parameter `rolls`; the model
 * reorders an array in place by swaps and promises only that the result is a
 * permutation of the input, not any particular distribution.
 */
module Shuffle {
  import Seqs

  /** Reorders `a` in place, one swap per position, guided by `rolls`. */
  method Reorder<T>(a: array<T>, rolls: seq<nat>)
    modifies a
    ensures multiset(a[..]) == multiset(old(a[..]))
  {
    var i := a.Length;
    while i > 1
      invariant 0 <= i <= a.Length
      invariant multiset(a[..]) == multiset(old(a[..]))
    {
      i := i - 1;
      var j := if i < |rolls| then rolls[i] % (i + 1) else i;
      a[i], a[j] := a[j], a[i];
    }
  }

  /** `[...s].sort(random comparator)`: a copy of `s` in some order, leaving `s` itself alone. */
  method ShuffledCopy<T>(s: seq<T>, rolls: seq<nat>) returns (r: seq<T>)
    ensures |r| == |s|
    ensures multiset(r) == multiset(s)
    ensures Seqs.NoDuplicates(s) ==> Seqs.NoDuplicates(r)
  {
    var a := new T[|s|](i requires 0 <= i < |s| => s[i]);
    assert a[..] == s;
    Reorder(a, rolls);
    r := a[..];
    assert |r| == |multiset(r)| == |multiset(s)| == |s|;
    if Seqs.NoDuplicates(s) {
      Seqs.PermutationNoDuplicates(s, r);
    }
  }
}
