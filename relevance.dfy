/**
 Relevance of documents for a batch of queries.

 One relevance map serves the whole batch: for every query, every word of it
 (repeats included) and every posting of that word, the posting's count is
 added to its document's entry. The map is then divided by its largest value.
 `main.cpp` accumulates in `float`; the sums are whole counts, so they are
 kept here as exact naturals and the quotient as an exact real.
 */
module Relevance {
  import opened Text
  import opened Postings

  /** Every stored posting records at least one occurrence. */
  ghost predicate AllCountsPositive(freq: FreqDictionary)
  {
    forall w :: w in freq ==> PositiveCounts(freq[w])
  }

  /** Sum of document `d`'s counts over the posting lists of `words`, repeats included. */
  function WordsSum(freq: FreqDictionary, words: seq<string>, d: nat): nat
  {
    if words == [] then 0
    else
      var n := |words| - 1;
      WordsSum(freq, words[..n], d) + PostingSum(PostingsOf(freq, words[n]), d)
  }

  /** Sum of document `d`'s counts over every word of every query of the batch. */
  function BatchSum(freq: FreqDictionary, queries: seq<string>, d: nat): nat
  {
    if queries == [] then 0
    else
      var n := |queries| - 1;
      BatchSum(freq, queries[..n], d) + WordsSum(freq, Words(queries[n]), d)
  }

  /** Documents that some posting of some word of the batch points to. */
  ghost function MatchedDocs(freq: FreqDictionary, queries: seq<string>): set<nat>
  {
    set q, w, e | q in queries && w in Words(q) && e in PostingsOf(freq, w) :: e.doc_id
  }

  /** The pooled relevance map of the batch: each matched document with its sum. */
  ghost function Pooled(freq: FreqDictionary, queries: seq<string>): map<nat, nat>
  {
    map d | d in MatchedDocs(freq, queries) :: BatchSum(freq, queries, d)
  }

  /** A map's value at `d`, or 0 when `d` is not a key (what `operator[]` reads for a new key). */
  function Get(m: map<nat, nat>, d: nat): nat
  {
    if d in m then m[d] else 0
  }

  /** Repeating words repeats their contribution. */
  lemma {:induction false} WordsSumAppend(freq: FreqDictionary, u: seq<string>, v: seq<string>, d: nat)
    ensures WordsSum(freq, u + v, d) == WordsSum(freq, u, d) + WordsSum(freq, v, d)
    decreases |v|
  {
    if v != [] {
      var n := |v| - 1;
      assert (u + v)[..|u| + n] == u + v[..n];
      WordsSumAppend(freq, u, v[..n], d);
    } else {
      assert u + v == u;
    }
  }

  /**
   Relevance is pooled across the batch: the sum for two batches run as one is
   the sum of their sums, so a query's words add to every other query's ranks.
   */
  lemma {:induction false} BatchSumAppend(freq: FreqDictionary, u: seq<string>, v: seq<string>, d: nat)
    ensures BatchSum(freq, u + v, d) == BatchSum(freq, u, d) + BatchSum(freq, v, d)
    decreases |v|
  {
    if v != [] {
      var n := |v| - 1;
      assert (u + v)[..|u| + n] == u + v[..n];
      BatchSumAppend(freq, u, v[..n], d);
    } else {
      assert u + v == u;
    }
  }

  /** A posting of a word contributes its count to that word list's sum. */
  lemma {:induction false} WordsSumAtLeast(freq: FreqDictionary, words: seq<string>, j: nat, e: Entry)
    requires j < |words| && e in PostingsOf(freq, words[j])
    ensures WordsSum(freq, words, e.doc_id) >= e.count
    decreases |words|
  {
    var n := |words| - 1;
    if j == n {
      var ps := PostingsOf(freq, words[n]);
      var i :| 0 <= i < |ps| && ps[i] == e;
      PostingSumAtLeast(ps, i);
    } else {
      WordsSumAtLeast(freq, words[..n], j, e);
    }
  }

  /** With positive counts, a document's word-list sum is positive exactly when some word has a posting for it. */
  lemma {:induction false} WordsSumPositive(freq: FreqDictionary, words: seq<string>, d: nat)
    requires AllCountsPositive(freq)
    ensures WordsSum(freq, words, d) > 0 <==> exists w :: w in words && HasPosting(PostingsOf(freq, w), d)
    decreases |words|
  {
    if words != [] {
      var n := |words| - 1;
      WordsSumPositive(freq, words[..n], d);
      var ps := PostingsOf(freq, words[n]);
      assert PositiveCounts(ps);
      PostingSumPositive(ps, d);
      assert words == words[..n] + [words[n]];
      assert forall w :: w in words <==> w in words[..n] || w == words[n];
    }
  }

  /** With positive counts, a document's batch sum is positive exactly when some query word has a posting for it. */
  lemma {:induction false} BatchSumPositive(freq: FreqDictionary, queries: seq<string>, d: nat)
    requires AllCountsPositive(freq)
    ensures BatchSum(freq, queries, d) > 0 <==> d in MatchedDocs(freq, queries)
    decreases |queries|
  {
    if queries != [] {
      var n := |queries| - 1;
      BatchSumPositive(freq, queries[..n], d);
      WordsSumPositive(freq, Words(queries[n]), d);
      assert queries == queries[..n] + [queries[n]];
      assert forall q :: q in queries <==> q in queries[..n] || q == queries[n];
      if d in MatchedDocs(freq, queries) {
        var q, w, e :| q in queries && w in Words(q) && e in PostingsOf(freq, w) && e.doc_id == d;
        if q != queries[n] {
          assert d in MatchedDocs(freq, queries[..n]);
        }
      }
      if d in MatchedDocs(freq, queries[..n]) {
        var q, w, e :| q in queries[..n] && w in Words(q) && e in PostingsOf(freq, w) && e.doc_id == d;
        assert q in queries;
      }
    }
  }

  /**
   The pooled map holds, for every document, the sum of its counts over every
   word occurrence of the batch, and has a key exactly for the documents with
   a positive sum.
   */
  lemma PooledIsBatchSum(freq: FreqDictionary, queries: seq<string>, d: nat)
    requires AllCountsPositive(freq)
    ensures d in Pooled(freq, queries) <==> BatchSum(freq, queries, d) > 0
    ensures Get(Pooled(freq, queries), d) == BatchSum(freq, queries, d)
  {
    BatchSumPositive(freq, queries, d);
  }

  /** Every value of the pooled map is positive. */
  lemma PooledPositive(freq: FreqDictionary, queries: seq<string>)
    requires AllCountsPositive(freq)
    ensures forall d :: d in Pooled(freq, queries) ==> Pooled(freq, queries)[d] > 0
  {
    forall d | d in Pooled(freq, queries)
      ensures Pooled(freq, queries)[d] > 0
    {
      PooledIsBatchSum(freq, queries, d);
    }
  }

  /** The largest value of `m`, or 0 for an empty map. */
  ghost function MaxValue(m: map<nat, nat>): (r: nat)
    ensures forall d :: d in m ==> m[d] <= r
    ensures m != map[] ==> exists d :: d in m && m[d] == r
    ensures m == map[] ==> r == 0
    decreases |m|
  {
    if m == map[] then 0
    else
      var k :| k in m;
      var rest := m - {k};
      assert |rest| < |m| by {
        assert rest.Keys == m.Keys - {k};
      }
      var r := MaxValue(rest);
      assert forall d :: d in m ==> d == k || (d in rest && rest[d] == m[d]);
      if m[k] < r then r else m[k]
  }

  /** Positive values divided by the batch maximum: the normalised relevance map. */
  ghost function Normalized(m: map<nat, nat>): map<nat, real>
    requires forall d :: d in m ==> m[d] > 0
  {
    map d | d in m :: m[d] as real / MaxValue(m) as real
  }

  /** The ranks of a batch: its pooled relevance normalised by the batch maximum. */
  ghost function BatchRanks(freq: FreqDictionary, queries: seq<string>): map<nat, real>
    requires AllCountsPositive(freq)
  {
    PooledPositive(freq, queries);
    Normalized(Pooled(freq, queries))
  }

  /**
   Every normalised value lies in (0, 1]; it is exactly 1 for the documents of
   maximal relevance and only for them; a non-empty map has such a document.
   */
  lemma NormalizedInUnitInterval(m: map<nat, nat>)
    requires forall d :: d in m ==> m[d] > 0
    ensures Normalized(m).Keys == m.Keys
    ensures forall d :: d in m ==> 0.0 < Normalized(m)[d] <= 1.0
    ensures forall d :: d in m ==> (Normalized(m)[d] == 1.0 <==> m[d] == MaxValue(m))
    ensures m != map[] ==> exists d :: d in m && Normalized(m)[d] == 1.0
  {
    var mx := MaxValue(m);
    forall d | d in m
      ensures 0.0 < Normalized(m)[d] <= 1.0
      ensures Normalized(m)[d] == 1.0 <==> m[d] == mx
    {
      QuotientBounds(m[d], mx);
    }
  }

  /** Normalising keeps the order of relevance: ranks compare as the sums do. */
  lemma NormalizedKeepsOrder(m: map<nat, nat>, d1: nat, d2: nat)
    requires forall d :: d in m ==> m[d] > 0
    requires d1 in m && d2 in m
    ensures Normalized(m)[d1] < Normalized(m)[d2] <==> m[d1] < m[d2]
    ensures Normalized(m)[d1] == Normalized(m)[d2] <==> m[d1] == m[d2]
  {
    var mx := MaxValue(m) as real;
    var x, y := m[d1] as real, m[d2] as real;
    assert mx > 0.0;
    if x < y {
      DivideKeepsOrder(x, y, mx);
    } else if y < x {
      DivideKeepsOrder(y, x, mx);
    }
  }

  /** Dividing by a positive number keeps a strict order. */
  lemma DivideKeepsOrder(x: real, y: real, z: real)
    requires x < y && z > 0.0
    ensures x / z < y / z
  {
    assert (x / z) * z == x && (y / z) * z == y;
  }

  /** For 0 < a <= m, the quotient a / m lies in (0, 1] and is 1 exactly when a == m. */
  lemma QuotientBounds(a: nat, m: nat)
    requires 0 < a <= m
    ensures 0.0 < a as real / m as real <= 1.0
    ensures a as real / m as real == 1.0 <==> a == m
  {
    var q := a as real / m as real;
    assert q * m as real == a as real;
  }

  /**
   Pass 1 helper: the largest relevance in the map, scanning every entry and
   keeping the running maximum, which starts at 0.
   */
  method MaxRelevance(rel: map<nat, nat>) returns (mx: int)
    ensures mx == MaxValue(rel)
  {
    mx := 0;
    var todo := rel.Keys;
    while todo != {}
      invariant todo <= rel.Keys
      invariant 0 <= mx
      invariant forall d :: d in rel && d !in todo ==> rel[d] <= mx
      invariant mx == 0 || exists d :: d in rel && d !in todo && rel[d] == mx
      decreases todo
    {
      var d :| d in todo;
      if mx < rel[d] {
        mx := rel[d];
      }
      todo := todo - {d};
    }
    ghost var r := MaxValue(rel);
    if rel != map[] {
      ghost var d :| d in rel && rel[d] == r;
      assert r <= mx;
    }
  }

  /**
   Divides every relevance in the map by the maximum, entry by entry. An
   empty map has no entry, so nothing is divided.
   */
  method Normalize(rel: map<nat, nat>, mx: int) returns (norm: map<nat, real>)
    requires forall d :: d in rel ==> rel[d] > 0
    requires mx == MaxValue(rel)
    ensures norm == Normalized(rel)
  {
    norm := map[];
    var todo := rel.Keys;
    while todo != {}
      invariant todo <= rel.Keys
      invariant norm.Keys == rel.Keys - todo
      invariant forall d :: d in norm ==> norm[d] == rel[d] as real / mx as real
      decreases todo
    {
      var d :| d in todo;
      norm := norm[d := rel[d] as real / mx as real];
      todo := todo - {d};
    }
  }
}
