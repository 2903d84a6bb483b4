/**
 * The Fisher-Yates shuffle of Utilities/ListUtilities.cs.
 *
 * The random source is an oracle: at step i the game draws a partner index
 * i + offs[i], where offs[i] is the truncated product of a number in [0, 1)
 * with the n - i positions left, so 0 <= offs[i] < n - i.
 */
module Shuffle {

  /** One draw per position, each within the positions still to be shuffled. */
  predicate ValidOffsets(offs: seq<nat>, n: nat)
  {
    |offs| == n && forall i :: 0 <= i < n ==> offs[i] < n - i
  }

  /** The sequence with positions i and j exchanged. */
  function Swap<T>(s: seq<T>, i: nat, j: nat): (r: seq<T>)
    requires i < |s| && j < |s|
    ensures |r| == |s| && r[i] == s[j] && r[j] == s[i]
    ensures forall k :: 0 <= k < |s| && k != i && k != j ==> r[k] == s[k]
  {
    s[i := s[j]][j := s[i]]
  }

  lemma SwapPermutes<T>(s: seq<T>, i: nat, j: nat)
    requires i < |s| && j < |s|
    ensures multiset(Swap(s, i, j)) == multiset(s)
  {
  }

  /** The shuffle from step i on: swap position i with its drawn partner, then go on with i + 1. */
  function ShuffleFrom<T>(s: seq<T>, offs: seq<nat>, i: nat): (r: seq<T>)
    requires i <= |s| && ValidOffsets(offs, |s|)
    ensures |r| == |s|
    decreases |s| - i
  {
    if i == |s| then s else ShuffleFrom(Swap(s, i, i + offs[i]), offs, i + 1)
  }

  /** Each step only exchanges two elements, so the shuffle keeps the multiset of elements. */
  lemma {:induction false} ShuffleFromPermutes<T>(s: seq<T>, offs: seq<nat>, i: nat)
    requires i <= |s| && ValidOffsets(offs, |s|)
    ensures multiset(ShuffleFrom(s, offs, i)) == multiset(s)
    decreases |s| - i
  {
    if i < |s| {
      SwapPermutes(s, i, i + offs[i]);
      ShuffleFromPermutes(Swap(s, i, i + offs[i]), offs, i + 1);
    }
  }

  lemma ShuffleStep<T>(s: seq<T>, offs: seq<nat>, i: nat)
    requires i < |s| && ValidOffsets(offs, |s|)
    ensures ShuffleFrom(s, offs, i) == ShuffleFrom(Swap(s, i, i + offs[i]), offs, i + 1)
  {
  }

  /** The list after a whole shuffle driven by the draws offs. */
  function Shuffled<T>(s: seq<T>, offs: seq<nat>): (r: seq<T>)
    requires ValidOffsets(offs, |s|)
    ensures |r| == |s|
  {
    ShuffleFrom(s, offs, 0)
  }

  /** A shuffle is a permutation: the same elements, each as often as before. */
  lemma ShuffledPermutes<T>(s: seq<T>, offs: seq<nat>)
    requires ValidOffsets(offs, |s|)
    ensures multiset(Shuffled(s, offs)) == multiset(s)
  {
    ShuffleFromPermutes(s, offs, 0);
  }

  /** A list of zero or one element comes back as it was. */
  lemma ShortListUnchanged<T>(s: seq<T>, offs: seq<nat>)
    requires ValidOffsets(offs, |s|) && |s| <= 1
    ensures Shuffled(s, offs) == s
  {
    if |s| == 1 {
      assert offs[0] == 0;
      assert Swap(s, 0, 0) == s;
      assert ShuffleFrom(s, offs, 0) == ShuffleFrom(s, offs, 1);
    }
  }

  /** Every list can be reached: the draws that leave the list as it is are valid. */
  lemma IdentityDrawsValid(n: nat)
    ensures ValidOffsets(seq(n, i => 0), n)
  {
  }

  /** The in-place shuffle; the list keeps its identity and length, and ends as a permutation of its old contents. */
  method ShuffleList<T>(a: array<T>, offs: seq<nat>)
    requires ValidOffsets(offs, a.Length)
    modifies a
    ensures a[..] == Shuffled(old(a[..]), offs)
    ensures multiset(a[..]) == multiset(old(a[..]))
  {
    ghost var orig := a[..];
    var n := a.Length;
    var index := 0;
    while index < n
      invariant 0 <= index <= n
      invariant ShuffleFrom(a[..], offs, index) == ShuffleFrom(orig, offs, 0)
    {
      var r := index + offs[index];
      ghost var before := a[..];
      var thing := a[r];
      a[r] := a[index];
      a[index] := thing;
      assert a[..] == Swap(before, index, r);
      index := index + 1;
    }
    assert ShuffleFrom(a[..], offs, n) == a[..];
    ShuffleFromPermutes(orig, offs, 0);
  }
}
