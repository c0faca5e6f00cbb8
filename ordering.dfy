/**
 The order of search results: higher score first, and among equal scores the
 smaller doc_id first. Both sorts of the search use it, once on candidate
 postings keyed by their document's relevance and once on ranked results
 keyed by their rank. `SortByKey` stands in for `std::sort`.
 */
module Ordering {

  /** The sort key of one result: its score and its document. */
  datatype Rank = Rank(score: real, doc: nat)

  /** `x` goes strictly before `y`. */
  predicate Before(x: Rank, y: Rank)
  {
    x.score > y.score || (x.score == y.score && x.doc < y.doc)
  }

  /** `x` may go before `y`: `y` does not go strictly before `x`. */
  predicate NotAfter(x: Rank, y: Rank)
  {
    !Before(y, x)
  }

  /** `Before` is a strict total order on keys, as `std::sort` needs of its comparator. */
  lemma BeforeIsStrictTotalOrder(x: Rank, y: Rank, z: Rank)
    ensures !Before(x, x)
    ensures Before(x, y) ==> !Before(y, x)
    ensures x != y ==> Before(x, y) || Before(y, x)
    ensures Before(x, y) && Before(y, z) ==> Before(x, z)
  {
  }

  /** `s` is in non-descending key order. */
  ghost predicate SortedBy<T>(s: seq<T>, key: T -> Rank)
  {
    forall i, j :: 0 <= i < j < |s| ==> NotAfter(key(s[i]), key(s[j]))
  }

  /** `s` is in strictly ascending key order: sorted, and no two elements share a key. */
  ghost predicate StrictlySortedBy<T>(s: seq<T>, key: T -> Rank)
  {
    forall i, j :: 0 <= i < j < |s| ==> Before(key(s[i]), key(s[j]))
  }

  /** No two elements of `s` share a key. */
  ghost predicate DistinctKeys<T>(s: seq<T>, key: T -> Rank)
  {
    forall i, j :: 0 <= i < j < |s| ==> key(s[i]) != key(s[j])
  }

  /** Sorted with distinct keys is strictly sorted. */
  lemma StrictlySorted<T>(s: seq<T>, key: T -> Rank)
    requires SortedBy(s, key) && DistinctKeys(s, key)
    ensures StrictlySortedBy(s, key)
  {
    forall i, j | 0 <= i < j < |s|
      ensures Before(key(s[i]), key(s[j]))
    {
      BeforeIsStrictTotalOrder(key(s[i]), key(s[j]), key(s[j]));
    }
  }

  /** An element that occurs twice in `s` sits at two distinct positions. */
  lemma {:induction false} TwiceAtTwoPositions<T>(s: seq<T>, x: T)
    requires multiset(s)[x] >= 2
    ensures exists i, j :: 0 <= i < j < |s| && s[i] == x && s[j] == x
    decreases |s|
  {
    var n := |s| - 1;
    assert s == s[..n] + [s[n]];
    if s[n] == x {
      assert x in multiset(s[..n]);
      var i :| 0 <= i < n && s[..n][i] == x;
      assert s[i] == x;
    } else {
      TwiceAtTwoPositions(s[..n], x);
      var i, j :| 0 <= i < j < n && s[..n][i] == x && s[..n][j] == x;
      assert s[i] == x && s[j] == x;
    }
  }

  /** A permutation of a sequence with distinct keys has distinct keys. */
  lemma PermutationKeepsDistinctKeys<T>(s: seq<T>, t: seq<T>, key: T -> Rank)
    requires multiset(s) == multiset(t)
    requires DistinctKeys(s, key)
    ensures DistinctKeys(t, key)
  {
    forall i, j | 0 <= i < j < |t|
      ensures key(t[i]) != key(t[j])
    {
      if t[i] == t[j] {
        assert multiset(t)[t[i]] >= 2 by {
          assert t == t[..j] + [t[j]] + t[j + 1..];
          assert t[i] in multiset(t[..j]) by { assert t[..j][i] == t[i]; }
        }
        TwiceAtTwoPositions(s, t[i]);
      } else {
        assert t[i] in multiset(s) && t[j] in multiset(s);
        var p :| 0 <= p < |s| && s[p] == t[i];
        var q :| 0 <= q < |s| && s[q] == t[j];
        assert p != q;
      }
    }
  }

  /** Sorts `a` in place by `key` (insertion sort by adjacent swaps). */
  method SortByKey<T>(a: array<T>, key: T -> Rank)
    modifies a
    ensures SortedBy(a[..], key)
    ensures multiset(a[..]) == multiset(old(a[..]))
  {
    var i := 0;
    while i < a.Length
      invariant 0 <= i <= a.Length
      invariant forall p, q :: 0 <= p < q < i ==> NotAfter(key(a[p]), key(a[q]))
      invariant multiset(a[..]) == multiset(old(a[..]))
    {
      InsertIntoPrefix(a, key, i);
      i := i + 1;
    }
  }

  /** Swaps `a[i]` down into the sorted prefix before it, so that `a[..i + 1]` is sorted. */
  method InsertIntoPrefix<T>(a: array<T>, key: T -> Rank, i: nat)
    requires i < a.Length
    requires forall p, q :: 0 <= p < q < i ==> NotAfter(key(a[p]), key(a[q]))
    modifies a
    ensures forall p, q :: 0 <= p < q <= i ==> NotAfter(key(a[p]), key(a[q]))
    ensures multiset(a[..]) == multiset(old(a[..]))
  {
    var j := i;
    while j > 0 && Before(key(a[j]), key(a[j - 1]))
      invariant 0 <= j <= i
      invariant forall p, q :: 0 <= p < q <= i && p != j && q != j ==> NotAfter(key(a[p]), key(a[q]))
      invariant forall q :: j < q <= i ==> Before(key(a[j]), key(a[q]))
      invariant multiset(a[..]) == multiset(old(a[..]))
    {
      a[j - 1], a[j] := a[j], a[j - 1];
      j := j - 1;
    }
    forall p | 0 <= p < j
      ensures NotAfter(key(a[p]), key(a[j]))
    {
      BeforeIsStrictTotalOrder(key(a[j]), key(a[j - 1]), key(a[p]));
    }
  }
}
