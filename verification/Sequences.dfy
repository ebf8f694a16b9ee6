/** The two sequence operations the list controller builds new lists with:
    dropping one position (items.filter((_, index) => index !== i)) and
    exchanging two positions (the destructuring swap on a copy). */
module Sequences {

  /** items.filter((_, index) => index !== i): keeps, in order, every element
      whose position differs from i. A position outside the list drops
      nothing. */
  function WithoutIndex<T>(s: seq<T>, i: int): (r: seq<T>)
    ensures |r| == if 0 <= i < |s| then |s| - 1 else |s|
    decreases |s|
  {
    if s == [] then []
    else (if i == 0 then [] else [s[0]]) + WithoutIndex(s[1..], i - 1)
  }

  /** Filtering out position i is splicing the prefix before i onto the
      suffix after it. */
  lemma {:induction false} WithoutIndexIsSplice<T>(s: seq<T>, i: int)
    requires 0 <= i < |s|
    ensures WithoutIndex(s, i) == s[..i] + s[i + 1..]
    decreases |s|
  {
    if i > 0 {
      WithoutIndexIsSplice(s[1..], i - 1);
      assert s[1..][..i - 1] == s[1..i];
      assert s[1..][i..] == s[i + 1..];
      assert s[..i] == [s[0]] + s[1..i];
    } else {
      WithoutIndexOutside(s[1..], -1);
    }
  }

  /** Filtering with a position no element has keeps the whole list. */
  lemma {:induction false} WithoutIndexOutside<T>(s: seq<T>, i: int)
    requires i < 0 || |s| <= i
    ensures WithoutIndex(s, i) == s
    decreases |s|
  {
    if s != [] {
      WithoutIndexOutside(s[1..], i - 1);
    }
  }

  /** Dropping position i removes exactly one copy of s[i]. */
  lemma {:induction false} WithoutIndexMultiset<T>(s: seq<T>, i: int)
    requires 0 <= i < |s|
    ensures multiset(WithoutIndex(s, i)) + multiset{s[i]} == multiset(s)
  {
    WithoutIndexIsSplice(s, i);
    SpliceMultiset(s[..i], s[i], s[i + 1..]);
    assert s[..i] + [s[i]] + s[i + 1..] == s;
  }

  lemma SpliceMultiset<T>(pre: seq<T>, x: T, post: seq<T>)
    ensures multiset(pre + post) + multiset{x} == multiset(pre + [x] + post)
  {
  }

  /** [a[i], a[j]] = [a[j], a[i]] on a copy of s. */
  function Swap<T>(s: seq<T>, i: nat, j: nat): (r: seq<T>)
    requires i < |s| && j < |s|
    ensures |r| == |s| && r[i] == s[j] && r[j] == s[i]
    ensures forall k :: 0 <= k < |s| && k != i && k != j ==> r[k] == s[k]
    ensures multiset(r) == multiset(s)
  {
    s[i := s[j]][j := s[i]]
  }

  /** Swapping the same two positions again restores the list. */
  lemma SwapSelfInverse<T>(s: seq<T>, i: nat, j: nat)
    requires i < |s| && j < |s|
    ensures Swap(Swap(s, i, j), i, j) == s
  {
  }

  /** The order of the two positions does not matter. */
  lemma SwapSymmetric<T>(s: seq<T>, i: nat, j: nat)
    requires i < |s| && j < |s|
    ensures Swap(s, i, j) == Swap(s, j, i)
  {
  }
}
