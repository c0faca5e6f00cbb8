/**
 The ranking engine: answers a batch of queries against a built index.

 Pass 1 pools the relevance of every document over the words of all the
 queries of the batch and normalises it by the batch maximum. Pass 2 answers
 each query from the posting list of its first word with the strictly
 longest list: candidates sorted by rank descending then doc_id ascending,
 cut after `limit` entries (never cut when `limit` is 0 or negative), and
 sorted again the same way.
 */
module Search {
  import opened Text
  import opened Postings
  import opened Index
  import opened Ordering
  import opened Relevance

  /** A ranked result: a document and its normalised relevance. */
  datatype RelativeIndex = RelativeIndex(doc_id: nat, rank: real)

  /** A document's normalised relevance, or 0 for a document the map lacks (what `operator[]` reads). */
  function RankOf(norm: map<nat, real>, d: nat): real
  {
    if d in norm then norm[d] else 0.0
  }

  /** Sort key of a candidate posting: its document's rank, then its doc_id. */
  function EntryKey(norm: map<nat, real>, e: Entry): Rank
  {
    Rank(RankOf(norm, e.doc_id), e.doc_id)
  }

  /** Sort key of a ranked result: its rank, then its doc_id. */
  function ResultKey(r: RelativeIndex): Rank
  {
    Rank(r.rank, r.doc_id)
  }

  /** Index of the first word whose posting list is strictly longer than those of all words before it and no shorter than any. */
  function FirstLongest(freq: FreqDictionary, words: seq<string>): (k: nat)
    requires words != []
    ensures k < |words|
    ensures forall j :: 0 <= j < |words| ==> |PostingsOf(freq, words[j])| <= |PostingsOf(freq, words[k])|
    ensures forall j :: 0 <= j < k ==> |PostingsOf(freq, words[j])| < |PostingsOf(freq, words[k])|
  {
    if |words| == 1 then 0
    else
      var n := |words| - 1;
      var k := FirstLongest(freq, words[..n]);
      if |PostingsOf(freq, words[k])| < |PostingsOf(freq, words[n])| then n else k
  }

  /** Extending the words by one moves the choice to the new word exactly when its list is strictly longer. */
  lemma FirstLongestStep(freq: FreqDictionary, words: seq<string>, j: nat)
    requires 0 < j < |words|
    ensures FirstLongest(freq, words[..j + 1])
         == if |PostingsOf(freq, words[FirstLongest(freq, words[..j])])| < |PostingsOf(freq, words[j])|
            then j else FirstLongest(freq, words[..j])
  {
    assert words[..j + 1][..j] == words[..j];
  }

  /** One step of the scan for the longest list: the running choice after `words[j]` is the first longest of `words[..j + 1]`. */
  lemma LongestStep(freq: FreqDictionary, words: seq<string>, j: nat, longest: int, raw: seq<Entry>, list: seq<Entry>)
    requires j < |words| && list == PostingsOf(freq, words[j])
    requires j == 0 ==> longest == 0 && raw == PostingsOf(freq, words[0])
    requires j > 0 ==> longest == |raw| && raw == PostingsOf(freq, words[FirstLongest(freq, words[..j])])
    ensures var raw' := if longest < |list| then list else raw;
            && raw' == PostingsOf(freq, words[FirstLongest(freq, words[..j + 1])])
            && (if longest < |list| then |list| else longest) == |raw'|
  {
    if j == 0 {
      assert FirstLongest(freq, words[..1]) == 0;
    } else {
      FirstLongestStep(freq, words, j);
    }
  }

  /** The candidates of a query: the posting list of its first word with the longest list. */
  function Candidates(freq: FreqDictionary, query: string): seq<Entry>
    requires Words(query) != []
  {
    var words := Words(query);
    PostingsOf(freq, words[FirstLongest(freq, words)])
  }

  /** Number of results a query keeps: `limit` when it is positive and smaller than the candidate count, else all. */
  function Kept(limit: int, candidates: nat): nat
  {
    if 1 <= limit < candidates then limit else candidates
  }

  /** Document `d` has a result in `answer`. */
  predicate HasDoc(answer: seq<RelativeIndex>, d: nat)
  {
    exists i :: 0 <= i < |answer| && answer[i].doc_id == d
  }

  /**
   `answer` is the ranked answer for `candidates`: the right number of
   results, strictly ordered by rank descending then doc_id ascending, each
   a candidate carrying its document's rank, and ahead of every candidate
   left out.
   */
  ghost predicate IsAnswer(answer: seq<RelativeIndex>, candidates: seq<Entry>, norm: map<nat, real>, limit: int)
  {
    && |answer| == Kept(limit, |candidates|)
    && StrictlySortedBy(answer, ResultKey)
    && (forall i :: 0 <= i < |answer| ==>
          answer[i].rank == RankOf(norm, answer[i].doc_id) && HasPosting(candidates, answer[i].doc_id))
    && (forall c, i :: c in candidates && 0 <= i < |answer| && !HasDoc(answer, c.doc_id) ==>
          Before(ResultKey(answer[i]), EntryKey(norm, c)))
  }

  /** `Kept` is `min(limit, n)` for a positive limit and `n` otherwise. */
  lemma KeptCount(limit: int, n: nat)
    ensures limit >= 1 ==> Kept(limit, n) == if limit < n then limit else n
    ensures limit <= 0 ==> Kept(limit, n) == n
    ensures Kept(limit, n) <= n
  {
  }

  /**
   The sorted candidates, truncated to `Kept` entries and sorted again, form
   the answer. `sorted` is the candidates after the first sort, `kept` its
   ranked prefix, `answer` that prefix after the second sort.
   */
  lemma TopKAnswer(candidates: seq<Entry>, sorted: seq<Entry>, kept: seq<RelativeIndex>,
                   answer: seq<RelativeIndex>, norm: map<nat, real>, limit: int, key: Entry -> Rank)
    requires DistinctDocs(candidates)
    requires forall e :: key(e) == EntryKey(norm, e)
    requires |sorted| == |candidates|
    requires multiset(sorted) == multiset(candidates) && SortedBy(sorted, key)
    requires |kept| == Kept(limit, |candidates|)
    requires forall p :: 0 <= p < |kept| ==> kept[p] == RelativeIndex(sorted[p].doc_id, RankOf(norm, sorted[p].doc_id))
    requires multiset(answer) == multiset(kept) && SortedBy(answer, ResultKey)
    ensures IsAnswer(answer, candidates, norm, limit)
  {
    assert DistinctKeys(candidates, key);
    PermutationKeepsDistinctKeys(candidates, sorted, key);
    StrictlySorted(sorted, key);
    KeptCount(limit, |candidates|);
    assert |answer| == |kept| by {
      assert |multiset(answer)| == |multiset(kept)|;
    }
    AnswerStrictlySorted(sorted, kept, answer, norm, key);
    AnswerFromKept(candidates, sorted, kept, answer, norm);
    AnswerAheadOfRest(candidates, sorted, kept, answer, norm, key);
  }

  /** The re-sorted prefix is strictly ordered: its results come from postings of distinct documents. */
  lemma AnswerStrictlySorted(sorted: seq<Entry>, kept: seq<RelativeIndex>, answer: seq<RelativeIndex>,
                             norm: map<nat, real>, key: Entry -> Rank)
    requires forall e :: key(e) == EntryKey(norm, e)
    requires DistinctKeys(sorted, key) && |kept| <= |sorted|
    requires forall p :: 0 <= p < |kept| ==> kept[p] == RelativeIndex(sorted[p].doc_id, RankOf(norm, sorted[p].doc_id))
    requires multiset(answer) == multiset(kept) && SortedBy(answer, ResultKey)
    ensures StrictlySortedBy(answer, ResultKey)
  {
    assert DistinctKeys(kept, ResultKey) by {
      forall p, q | 0 <= p < q < |kept|
        ensures ResultKey(kept[p]) != ResultKey(kept[q])
      {
        assert ResultKey(kept[p]) == key(sorted[p]) && ResultKey(kept[q]) == key(sorted[q]);
      }
    }
    PermutationKeepsDistinctKeys(kept, answer, ResultKey);
    StrictlySorted(answer, ResultKey);
  }

  /** Each result is a candidate's document carrying that document's rank. */
  lemma AnswerFromKept(candidates: seq<Entry>, sorted: seq<Entry>, kept: seq<RelativeIndex>,
                       answer: seq<RelativeIndex>, norm: map<nat, real>)
    requires multiset(sorted) == multiset(candidates) && |kept| <= |sorted|
    requires forall p :: 0 <= p < |kept| ==> kept[p] == RelativeIndex(sorted[p].doc_id, RankOf(norm, sorted[p].doc_id))
    requires multiset(answer) == multiset(kept)
    ensures forall i :: 0 <= i < |answer| ==>
              answer[i].rank == RankOf(norm, answer[i].doc_id) && HasPosting(candidates, answer[i].doc_id)
  {
    forall i | 0 <= i < |answer|
      ensures answer[i].rank == RankOf(norm, answer[i].doc_id) && HasPosting(candidates, answer[i].doc_id)
    {
      assert answer[i] in multiset(kept);
      var p :| 0 <= p < |kept| && kept[p] == answer[i];
      assert sorted[p] in multiset(candidates);
      assert sorted[p] in candidates;
    }
  }

  /** Every candidate without a result lies past the cut, so every result goes before it. */
  lemma AnswerAheadOfRest(candidates: seq<Entry>, sorted: seq<Entry>, kept: seq<RelativeIndex>,
                          answer: seq<RelativeIndex>, norm: map<nat, real>, key: Entry -> Rank)
    requires forall e :: key(e) == EntryKey(norm, e)
    requires multiset(sorted) == multiset(candidates) && StrictlySortedBy(sorted, key) && |kept| <= |sorted|
    requires forall p :: 0 <= p < |kept| ==> kept[p] == RelativeIndex(sorted[p].doc_id, RankOf(norm, sorted[p].doc_id))
    requires multiset(answer) == multiset(kept)
    ensures forall c, i :: c in candidates && 0 <= i < |answer| && !HasDoc(answer, c.doc_id) ==>
              Before(ResultKey(answer[i]), EntryKey(norm, c))
  {
    forall q | 0 <= q < |kept|
      ensures HasDoc(answer, sorted[q].doc_id)
    {
      assert kept[q] in multiset(answer);
      var r :| 0 <= r < |answer| && answer[r] == kept[q];
    }
    forall c, i | c in candidates && 0 <= i < |answer| && !HasDoc(answer, c.doc_id)
      ensures Before(ResultKey(answer[i]), EntryKey(norm, c))
    {
      assert answer[i] in multiset(kept);
      var p :| 0 <= p < |kept| && kept[p] == answer[i];
      assert c in multiset(sorted);
      var q :| 0 <= q < |sorted| && sorted[q] == c;
      assert q >= |kept|;
      assert Before(key(sorted[p]), key(sorted[q]));
    }
  }

  /**
   Where two answers first differ, the first one's result cannot go strictly
   before the second one's.
   */
  lemma AnswerFirstDifference(a1: seq<RelativeIndex>, a2: seq<RelativeIndex>, candidates: seq<Entry>,
                              norm: map<nat, real>, limit: int, i: nat)
    requires IsAnswer(a1, candidates, norm, limit) && IsAnswer(a2, candidates, norm, limit)
    requires i < |a1| && a1[..i] == a2[..i]
    ensures !Before(ResultKey(a1[i]), ResultKey(a2[i]))
  {
    var d := a1[i].doc_id;
    if HasDoc(a2, d) {
      var j :| 0 <= j < |a2| && a2[j].doc_id == d;
      // a result is determined by its document
      assert a2[j] == a1[i];
      forall p | 0 <= p < i
        ensures a2[p] != a1[i]
      {
        assert a2[p] == a2[..i][p] == a1[..i][p] == a1[p];
      }
      if j > i {
        assert Before(ResultKey(a2[i]), ResultKey(a2[j]));
      }
    } else {
      var c :| c in candidates && c.doc_id == d;
      assert EntryKey(norm, c) == ResultKey(a1[i]);
      assert Before(ResultKey(a2[i]), EntryKey(norm, c));
    }
  }

  /** Two answers agree on every prefix. */
  lemma {:induction false} AnswerPrefix(a1: seq<RelativeIndex>, a2: seq<RelativeIndex>, candidates: seq<Entry>,
                                        norm: map<nat, real>, limit: int, i: nat)
    requires IsAnswer(a1, candidates, norm, limit) && IsAnswer(a2, candidates, norm, limit)
    requires i <= |a1|
    ensures a1[..i] == a2[..i]
    decreases i
  {
    if i > 0 {
      AnswerPrefix(a1, a2, candidates, norm, limit, i - 1);
      AnswerFirstDifference(a1, a2, candidates, norm, limit, i - 1);
      AnswerFirstDifference(a2, a1, candidates, norm, limit, i - 1);
      BeforeIsStrictTotalOrder(ResultKey(a1[i - 1]), ResultKey(a2[i - 1]), ResultKey(a1[i - 1]));
      assert a1[..i] == a1[..i - 1] + [a1[i - 1]];
      assert a2[..i] == a2[..i - 1] + [a2[i - 1]];
    }
  }

  /**
   The answer is determined: the candidates, the ranks and the limit admit
   exactly one ranked answer, the top `Kept` candidates in rank order.
   */
  lemma AnswerUnique(a1: seq<RelativeIndex>, a2: seq<RelativeIndex>, candidates: seq<Entry>,
                     norm: map<nat, real>, limit: int)
    requires IsAnswer(a1, candidates, norm, limit) && IsAnswer(a2, candidates, norm, limit)
    ensures a1 == a2
  {
    AnswerPrefix(a1, a2, candidates, norm, limit, |a1|);
    assert a1[..|a1|] == a1 && a2[..|a2|] == a2;
  }

  /** No document has two results in an answer. */
  lemma AnswerDistinctDocs(answer: seq<RelativeIndex>, candidates: seq<Entry>, norm: map<nat, real>, limit: int)
    requires IsAnswer(answer, candidates, norm, limit)
    ensures forall i, j :: 0 <= i < j < |answer| ==> answer[i].doc_id != answer[j].doc_id
  {
    forall i, j | 0 <= i < j < |answer|
      ensures answer[i].doc_id != answer[j].doc_id
    {
      assert Before(ResultKey(answer[i]), ResultKey(answer[j]));
    }
  }

  /** Every candidate of a query of the batch is a document of the pooled relevance map. */
  lemma CandidatesArePooled(freq: FreqDictionary, queries: seq<string>, i: nat, e: Entry)
    requires i < |queries| && Words(queries[i]) != []
    requires e in Candidates(freq, queries[i])
    ensures e.doc_id in Pooled(freq, queries)
  {
    var words := Words(queries[i]);
    var w := words[FirstLongest(freq, words)];
    assert queries[i] in queries && w in Words(queries[i]) && e in PostingsOf(freq, w);
    assert e.doc_id in MatchedDocs(freq, queries);
  }

  /**
   Every result of a query of the batch is a pooled document, and its rank
   lies in (0, 1].
   */
  lemma AnswerRanksInUnitInterval(freq: FreqDictionary, queries: seq<string>, i: nat,
                                  answer: seq<RelativeIndex>, limit: int)
    requires AllCountsPositive(freq)
    requires i < |queries| && Words(queries[i]) != []
    requires IsAnswer(answer, Candidates(freq, queries[i]), BatchRanks(freq, queries), limit)
    ensures forall r :: r in answer ==> r.doc_id in Pooled(freq, queries) && 0.0 < r.rank <= 1.0
  {
    var pooled := Pooled(freq, queries);
    PooledPositive(freq, queries);
    NormalizedInUnitInterval(pooled);
    forall r | r in answer
      ensures r.doc_id in pooled && 0.0 < r.rank <= 1.0
    {
      var k :| 0 <= k < |answer| && answer[k] == r;
      var e :| e in Candidates(freq, queries[i]) && e.doc_id == r.doc_id;
      CandidatesArePooled(freq, queries, i, e);
    }
  }

  /** The ranking engine over one index. */
  class SearchServer {
    const index: InvertedIndex

    /** A server answering from `idx`. */
    constructor (idx: InvertedIndex)
      ensures index == idx
    {
      index := idx;
    }

    /**
     Pass 1: adds the count of every posting of every word of every query
     into one map shared by the whole batch.
     */
    method PoolRelevance(queries: seq<string>) returns (rel: map<nat, nat>)
      requires index.Valid()
      ensures rel == Pooled(index.freq, queries)
      ensures forall d :: d in rel ==> rel[d] == BatchSum(index.freq, queries, d) && rel[d] > 0
    {
      ghost var freq := index.freq;
      rel := map[];
      var i := 0;
      while i < |queries|
        invariant i <= |queries|
        invariant forall d: nat :: Get(rel, d) == BatchSum(freq, queries[..i], d)
        invariant forall d :: d in rel ==> rel[d] > 0
      {
        var words := SplitWords(queries[i]);
        var j := 0;
        while j < |words|
          invariant j <= |words|
          invariant forall d: nat :: Get(rel, d) == BatchSum(freq, queries[..i], d) + WordsSum(freq, words[..j], d)
          invariant forall d :: d in rel ==> rel[d] > 0
        {
          var raw := index.GetWordCount(words[j]);
          rel := AddPostings(rel, raw);
          assert words[..j + 1][..j] == words[..j];
          j := j + 1;
        }
        assert words[..j] == words;
        assert queries[..i + 1][..i] == queries[..i];
        i := i + 1;
      }
      assert queries[..i] == queries;
      PooledMatches(freq, queries, rel);
    }

    /** Pass 1, one word: adds each posting's count to its document's relevance. */
    static method AddPostings(rel: map<nat, nat>, raw: seq<Entry>) returns (rel': map<nat, nat>)
      requires PositiveCounts(raw)
      requires forall d :: d in rel ==> rel[d] > 0
      ensures forall d: nat :: Get(rel', d) == Get(rel, d) + PostingSum(raw, d)
      ensures forall d :: d in rel' ==> rel'[d] > 0
    {
      rel' := rel;
      var k := 0;
      while k < |raw|
        invariant k <= |raw|
        invariant forall d: nat :: Get(rel', d) == Get(rel, d) + PostingSum(raw[..k], d)
        invariant forall d :: d in rel' ==> rel'[d] > 0
      {
        var e := raw[k];
        assert raw[..k + 1] == raw[..k] + [e];
        forall d: nat
          ensures PostingSum(raw[..k + 1], d) == PostingSum(raw[..k], d) + (if e.doc_id == d then e.count else 0)
        {
          PostingSumAppend(raw[..k], e, d);
        }
        rel' := rel'[e.doc_id := Get(rel', e.doc_id) + e.count];
        k := k + 1;
      }
      assert raw[..k] == raw;
    }

    /**
     Pass 2, candidate choice: the posting list of the first word whose list
     is strictly longer than every list seen before it.
     */
    method PickCandidates(words: seq<string>) returns (raw: seq<Entry>)
      requires words != []
      ensures raw == PostingsOf(index.freq, words[FirstLongest(index.freq, words)])
    {
      ghost var freq := index.freq;
      var longest := 0;
      raw := index.GetWordCount(words[0]);
      var j := 0;
      while j < |words|
        invariant j <= |words|
        invariant j == 0 ==> longest == 0 && raw == PostingsOf(freq, words[0])
        invariant j > 0 ==> longest == |raw| && raw == PostingsOf(freq, words[FirstLongest(freq, words[..j])])
      {
        var list := index.GetWordCount(words[j]);
        LongestStep(freq, words, j, longest, raw, list);
        if longest < |list| {
          longest := |list|;
          raw := list;
        }
        j := j + 1;
      }
      assert words[..j] == words;
    }

    /**
     Pass 2, truncation: copies the sorted candidates into ranked results,
     stopping once the counter reaches `limit` (which never happens for a
     limit of 0 or less).
     */
    method TakeRanked(sorted: array<Entry>, norm: map<nat, real>, limit: int) returns (kept: seq<RelativeIndex>)
      ensures |kept| == Kept(limit, sorted.Length)
      ensures forall p :: 0 <= p < |kept| ==>
                kept[p] == RelativeIndex(sorted[p].doc_id, RankOf(norm, sorted[p].doc_id))
    {
      kept := [];
      var i := 0;
      var k := 0;
      while k < sorted.Length
        invariant k <= sorted.Length && i == k == |kept|
        invariant 1 <= limit ==> k <= limit
        invariant k == Kept(limit, sorted.Length) ==> k == sorted.Length
        invariant forall p :: 0 <= p < k ==>
                    kept[p] == RelativeIndex(sorted[p].doc_id, RankOf(norm, sorted[p].doc_id))
      {
        var e := sorted[k];
        kept := kept + [RelativeIndex(e.doc_id, RankOf(norm, e.doc_id))];
        i := i + 1;
        k := k + 1;
        if i == limit {
          break;
        }
      }
    }

    /** Pass 2 for one query: chooses, sorts, truncates and sorts again. */
    method AnswerQuery(query: string, norm: map<nat, real>, limit: int) returns (answer: seq<RelativeIndex>)
      requires index.Valid()
      requires Words(query) != []
      ensures IsAnswer(answer, Candidates(index.freq, query), norm, limit)
    {
      var words := SplitWords(query);
      var raw := PickCandidates(words);
      var sorted := new Entry[|raw|](p requires 0 <= p < |raw| => raw[p]);
      assert sorted[..] == raw;
      var key := (e: Entry) => EntryKey(norm, e);
      SortByKey(sorted, key);
      var kept := TakeRanked(sorted, norm, limit);
      var ranked := new RelativeIndex[|kept|](p requires 0 <= p < |kept| => kept[p]);
      assert ranked[..] == kept;
      SortByKey(ranked, ResultKey);
      answer := ranked[..];
      TopKAnswer(raw, sorted[..], kept, answer, norm, limit, key);
    }

    /**
     Answers a batch of queries: one ranked list per query, in query order,
     all ranked by the relevance pooled over the whole batch.
     */
    method Search(queries: seq<string>, limit: int) returns (result: seq<seq<RelativeIndex>>)
      requires index.Valid()
      requires forall q :: q in queries ==> Words(q) != []
      ensures |result| == |queries|
      ensures forall i :: 0 <= i < |queries| ==>
                IsAnswer(result[i], Candidates(index.freq, queries[i]), BatchRanks(index.freq, queries), limit)
    {
      var rel := PoolRelevance(queries);
      var mx := MaxRelevance(rel);
      var norm := Normalize(rel, mx);
      result := AnswerAll(queries, norm, limit);
    }

    /** Pass 2 for the batch: one answer per query, in query order, all against the same ranks. */
    method AnswerAll(queries: seq<string>, norm: map<nat, real>, limit: int) returns (result: seq<seq<RelativeIndex>>)
      requires index.Valid()
      requires forall q :: q in queries ==> Words(q) != []
      ensures |result| == |queries|
      ensures forall i :: 0 <= i < |queries| ==> IsAnswer(result[i], Candidates(index.freq, queries[i]), norm, limit)
    {
      result := [];
      var i := 0;
      while i < |queries|
        invariant i <= |queries| && |result| == i
        invariant forall p :: 0 <= p < i ==> IsAnswer(result[p], Candidates(index.freq, queries[p]), norm, limit)
      {
        assert queries[i] in queries;
        var answer := AnswerQuery(queries[i], norm, limit);
        result := result + [answer];
        i := i + 1;
      }
    }
  }

  /** A map that agrees with the batch sums, with keys exactly where they are positive, is the pooled map. */
  lemma PooledMatches(freq: FreqDictionary, queries: seq<string>, rel: map<nat, nat>)
    requires AllCountsPositive(freq)
    requires forall d: nat :: Get(rel, d) == BatchSum(freq, queries, d)
    requires forall d :: d in rel ==> rel[d] > 0
    ensures rel == Pooled(freq, queries)
    ensures forall d :: d in rel ==> rel[d] == BatchSum(freq, queries, d) && rel[d] > 0
  {
    var pooled := Pooled(freq, queries);
    forall d: nat
      ensures d in rel <==> d in pooled
      ensures d in rel ==> rel[d] == pooled[d]
    {
      PooledIsBatchSum(freq, queries, d);
    }
    assert rel.Keys == pooled.Keys;
  }
}
