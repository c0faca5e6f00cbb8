/**
 The ranking of a small document base, worked through end to end: four
 documents about milk and water (and one about coffee), and a batch of two
 queries, "milk water" and "sugar", answered with a limit of 5.
 */
module Scenario {
  import opened Text
  import opened Postings
  import opened Index
  import opened Ordering
  import opened Relevance
  import opened Search

  /** Words joined by single spaces. */
  function Spaced(ws: seq<string>): string
    requires ws != []
  {
    if |ws| == 1 then ws[0] else ws[0] + " " + Spaced(ws[1..])
  }

  /** Splitting words joined by a separator gives the words back. */
  lemma {:induction false} RunsOfSpaced(ws: seq<string>, k: CharClass)
    requires ws != [] && !InClass(' ', k)
    requires forall i :: 0 <= i < |ws| ==> ws[i] != [] && AllIn(ws[i], k)
    ensures Runs(Spaced(ws), k) == ws
    decreases |ws|
  {
    RunsOfWord(ws[0], k);
    if |ws| > 1 {
      RunsSplit(ws[0], ' ', Spaced(ws[1..]), k);
      RunsOfSpaced(ws[1..], k);
    }
  }

  /** Words drawn from a vocabulary of non-empty class-`k` words are themselves non-empty class-`k` words. */
  lemma WordsFrom(t: seq<string>, vocab: set<string>, k: CharClass)
    requires forall w :: w in vocab ==> w != [] && AllIn(w, k)
    requires forall i :: 0 <= i < |t| ==> t[i] in vocab
    ensures forall i :: 0 <= i < |t| ==> t[i] != [] && AllIn(t[i], k)
  {
  }

  /**
   The documents: "milk milk milk milk water water water", "milk water water",
   "milk milk milk milk milk water water water water water" and
   "americano cappuccino", written as their words joined by spaces.
   */
  function MilkDocs(): seq<string>
  {
    [ Spaced(["milk", "milk", "milk", "milk", "water", "water", "water"]),
      Spaced(["milk", "water", "water"]),
      Spaced(["milk", "milk", "milk", "milk", "milk", "water", "water", "water", "water", "water"]),
      Spaced(["americano", "cappuccino"]) ]
  }

  /** The batch of queries, "milk water" and "sugar". */
  function MilkQueries(): seq<string>
  {
    [Spaced(["milk", "water"]), Spaced(["sugar"])]
  }

  /** The tokens of the first document. */
  lemma Doc0Tokens()
    ensures Tokens(MilkDocs()[0]) == ["milk", "milk", "milk", "milk", "water", "water", "water"]
  {
    var t := ["milk", "milk", "milk", "milk", "water", "water", "water"];
    assert AllIn("milk", WordChars) && AllIn("water", WordChars);
    WordsFrom(t, {"milk", "water"}, WordChars);
    RunsOfSpaced(t, WordChars);
  }

  /** The tokens of the second document. */
  lemma Doc1Tokens()
    ensures Tokens(MilkDocs()[1]) == ["milk", "water", "water"]
  {
    var t := ["milk", "water", "water"];
    assert AllIn("milk", WordChars) && AllIn("water", WordChars);
    WordsFrom(t, {"milk", "water"}, WordChars);
    RunsOfSpaced(t, WordChars);
  }

  /** The tokens of the third document. */
  lemma Doc2Tokens()
    ensures Tokens(MilkDocs()[2]) == ["milk", "milk", "milk", "milk", "milk", "water", "water", "water", "water", "water"]
  {
    var t := ["milk", "milk", "milk", "milk", "milk", "water", "water", "water", "water", "water"];
    assert AllIn("milk", WordChars) && AllIn("water", WordChars);
    WordsFrom(t, {"milk", "water"}, WordChars);
    RunsOfSpaced(t, WordChars);
  }

  /** The tokens of the fourth document. */
  lemma Doc3Tokens()
    ensures Tokens(MilkDocs()[3]) == ["americano", "cappuccino"]
  {
    var t := ["americano", "cappuccino"];
    assert AllIn("americano", WordChars) && AllIn("cappuccino", WordChars);
    WordsFrom(t, {"americano", "cappuccino"}, WordChars);
    RunsOfSpaced(t, WordChars);
  }

  /** The words of each query. */
  lemma MilkWords()
    ensures Words(MilkQueries()[0]) == ["milk", "water"]
    ensures Words(MilkQueries()[1]) == ["sugar"]
  {
    assert AllIn("milk", NonSpace) && AllIn("water", NonSpace) && AllIn("sugar", NonSpace);
    WordsFrom(["milk", "water"], {"milk", "water"}, NonSpace);
    WordsFrom(["sugar"], {"sugar"}, NonSpace);
    RunsOfSpaced(["milk", "water"], NonSpace);
    RunsOfSpaced(["sugar"], NonSpace);
  }

  /** `docs` are four documents with the tokens of the milk documents. */
  ghost predicate MilkTokenized(docs: seq<string>)
  {
    && |docs| == 4
    && Tokens(docs[0]) == ["milk", "milk", "milk", "milk", "water", "water", "water"]
    && Tokens(docs[1]) == ["milk", "water", "water"]
    && Tokens(docs[2]) == ["milk", "milk", "milk", "milk", "milk", "water", "water", "water", "water", "water"]
    && Tokens(docs[3]) == ["americano", "cappuccino"]
  }

  /** The milk documents have those tokens. */
  lemma MilkDocsTokenized(docs: seq<string>)
    requires docs == MilkDocs()
    ensures MilkTokenized(docs)
  {
    Doc0Tokens();
    Doc1Tokens();
    Doc2Tokens();
    Doc3Tokens();
  }

  /** Occurrences of the query words in the first document. */
  lemma Doc0Counts(text: string)
    requires Tokens(text) == ["milk", "milk", "milk", "milk", "water", "water", "water"]
    ensures Occurrences("milk", text) == 4 && Occurrences("water", text) == 3
    ensures Occurrences("sugar", text) == 0
  {
  }

  /** Occurrences of the query words in the second document. */
  lemma Doc1Counts(text: string)
    requires Tokens(text) == ["milk", "water", "water"]
    ensures Occurrences("milk", text) == 1 && Occurrences("water", text) == 2
    ensures Occurrences("sugar", text) == 0
  {
  }

  /** Occurrences of the query words in the third document. */
  lemma Doc2Counts(text: string)
    requires Tokens(text) == ["milk", "milk", "milk", "milk", "milk", "water", "water", "water", "water", "water"]
    ensures Occurrences("milk", text) == 5 && Occurrences("water", text) == 5
    ensures Occurrences("sugar", text) == 0
  {
  }

  /** Occurrences of the query words in the fourth document. */
  lemma Doc3Counts(text: string)
    requires Tokens(text) == ["americano", "cappuccino"]
    ensures Occurrences("milk", text) == 0 && Occurrences("water", text) == 0
    ensures Occurrences("sugar", text) == 0
  {
  }

  /** `docs` are four documents where the query words occur as in the milk documents. */
  ghost predicate MilkCounted(docs: seq<string>)
  {
    && |docs| == 4
    && forall d :: 0 <= d < 4 ==>
         && Occurrences("milk", docs[d]) == [4, 1, 5, 0][d]
         && Occurrences("water", docs[d]) == [3, 2, 5, 0][d]
         && Occurrences("sugar", docs[d]) == 0
  }

  /** Documents with the milk documents' tokens have their word counts. */
  lemma MilkDocsCounted(docs: seq<string>)
    requires MilkTokenized(docs)
    ensures MilkCounted(docs)
  {
    Doc0Counts(docs[0]);
    Doc1Counts(docs[1]);
    Doc2Counts(docs[2]);
    Doc3Counts(docs[3]);
    CountsTable(docs);
  }

  /** The per-document counts, gathered into the table `MilkCounted` states. */
  lemma CountsTable(docs: seq<string>)
    requires |docs| == 4
    requires Occurrences("milk", docs[0]) == 4 && Occurrences("water", docs[0]) == 3 && Occurrences("sugar", docs[0]) == 0
    requires Occurrences("milk", docs[1]) == 1 && Occurrences("water", docs[1]) == 2 && Occurrences("sugar", docs[1]) == 0
    requires Occurrences("milk", docs[2]) == 5 && Occurrences("water", docs[2]) == 5 && Occurrences("sugar", docs[2]) == 0
    requires Occurrences("milk", docs[3]) == 0 && Occurrences("water", docs[3]) == 0 && Occurrences("sugar", docs[3]) == 0
    ensures MilkCounted(docs)
  {
    forall d | 0 <= d < 4
      ensures Occurrences("milk", docs[d]) == [4, 1, 5, 0][d]
      ensures Occurrences("water", docs[d]) == [3, 2, 5, 0][d]
      ensures Occurrences("sugar", docs[d]) == 0
    {
      if d == 0 {} else if d == 1 {} else if d == 2 {} else {}
    }
  }

  /** The documents a posting list has postings for. */
  ghost function DocIds(ps: seq<Entry>): set<nat>
  {
    if ps == [] then {} else DocIds(ps[..|ps| - 1]) + {ps[|ps| - 1].doc_id}
  }

  /** A document is among a list's documents exactly when the list has a posting for it. */
  lemma {:induction false} DocIdsMembers(ps: seq<Entry>, x: nat)
    ensures x in DocIds(ps) <==> HasPosting(ps, x)
    decreases |ps|
  {
    if ps != [] {
      var init := ps[..|ps| - 1];
      DocIdsMembers(init, x);
      assert ps == init + [ps[|ps| - 1]];
      assert HasPosting(ps, x) <==> HasPosting(init, x) || ps[|ps| - 1].doc_id == x;
    }
  }

  /** A list with one posting per document has as many postings as documents. */
  lemma {:induction false} DocIdsCount(ps: seq<Entry>)
    requires DistinctDocs(ps)
    ensures |DocIds(ps)| == |ps|
    decreases |ps|
  {
    if ps != [] {
      var n := |ps| - 1;
      var init := ps[..n];
      assert DistinctDocs(init);
      DocIdsCount(init);
      DocIdsMembers(init, ps[n].doc_id);
      assert !HasPosting(init, ps[n].doc_id) by {
        forall e | e in init
          ensures e.doc_id != ps[n].doc_id
        {
          var i :| 0 <= i < n && init[i] == e;
          assert ps[i] == e;
        }
      }
    }
  }

  /**
   In any index of four documents, a word occurring in the first three only
   has one posting for each of them and no other.
   */
  lemma FirstThreePostings(freq: FreqDictionary, docs: seq<string>, term: string)
    requires Indexes(freq, docs) && |docs| == 4
    requires forall d :: 0 <= d < 3 ==> Occurrences(term, docs[d]) > 0
    requires Occurrences(term, docs[3]) == 0
    ensures |PostingsOf(freq, term)| == 3
    ensures forall e :: e in PostingsOf(freq, term) ==> e.doc_id < 3
    ensures forall d :: 0 <= d < 3 ==> HasPosting(PostingsOf(freq, term), d)
  {
    var ps := PostingsOf(freq, term);
    forall d: nat
      ensures HasPosting(ps, d) <==> d < 3
    {
      PostingIffOccurs(freq, docs, term, d);
    }
    forall e | e in ps
      ensures e.doc_id < 3
    {
      assert HasPosting(ps, e.doc_id);
    }
    FirstThreeCount(ps);
  }

  /** Postings for exactly the documents 0, 1 and 2, one each, are three postings. */
  lemma FirstThreeCount(ps: seq<Entry>)
    requires DistinctDocs(ps)
    requires forall d: nat :: HasPosting(ps, d) <==> d < 3
    ensures |ps| == 3
  {
    assert DocIds(ps) == {0, 1, 2} by {
      forall x: nat
        ensures x in DocIds(ps) <==> x < 3
      {
        DocIdsMembers(ps, x);
      }
    }
    DocIdsCount(ps);
  }

  /** A batch of two queries sums the counts of the words of each. */
  lemma BatchSumOfTwo(freq: FreqDictionary, qs: seq<string>, d: nat)
    requires |qs| == 2
    ensures BatchSum(freq, qs, d) == WordsSum(freq, Words(qs[0]), d) + WordsSum(freq, Words(qs[1]), d)
  {
    assert qs[..1][..0] == [] && qs[..1][0] == qs[0];
    assert BatchSum(freq, qs[..1], d) == WordsSum(freq, Words(qs[0]), d);
  }

  /** The counts of one word and of two words. */
  lemma WordsSumOfFew(freq: FreqDictionary, ws: seq<string>, d: nat)
    requires 1 <= |ws| <= 2
    ensures WordsSum(freq, ws, d)
         == PostingSum(PostingsOf(freq, ws[0]), d) + (if |ws| == 2 then PostingSum(PostingsOf(freq, ws[1]), d) else 0)
  {
    assert ws[..1][..0] == [];
  }

  /** The batch adds, for each document, its counts for milk, water and sugar. */
  lemma MilkBatchSums(freq: FreqDictionary, d: nat)
    ensures BatchSum(freq, MilkQueries(), d)
         == PostingSum(PostingsOf(freq, "milk"), d) + PostingSum(PostingsOf(freq, "water"), d)
            + PostingSum(PostingsOf(freq, "sugar"), d)
  {
    MilkWords();
    BatchSumOfTwo(freq, MilkQueries(), d);
    WordsSumOfFew(freq, ["milk", "water"], d);
    WordsSumOfFew(freq, ["sugar"], d);
  }

  /** In an index of documents with the milk documents' counts, each document's milk, water and sugar counts add up to its pooled sum. */
  lemma MilkPostingSums(freq: FreqDictionary, docs: seq<string>, d: nat)
    requires MilkCounted(docs) && Indexes(freq, docs)
    ensures PostingSum(PostingsOf(freq, "milk"), d) + PostingSum(PostingsOf(freq, "water"), d)
            + PostingSum(PostingsOf(freq, "sugar"), d) == Get(map[0 := 7, 1 := 3, 2 := 10], d)
  {
    var milk := PostingSum(PostingsOf(freq, "milk"), d);
    var water := PostingSum(PostingsOf(freq, "water"), d);
    assert PostingSum(PostingsOf(freq, "sugar"), d) == 0;
    if d < 4 {
      assert milk == Occurrences("milk", docs[d]) == [4, 1, 5, 0][d];
      assert water == Occurrences("water", docs[d]) == [3, 2, 5, 0][d];
    } else {
      assert milk == 0 && water == 0;
    }
  }

  /** The pooled relevance map of the batch. */
  lemma MilkPooled(freq: FreqDictionary, docs: seq<string>)
    requires MilkCounted(docs) && Indexes(freq, docs)
    ensures AllCountsPositive(freq)
    ensures Pooled(freq, MilkQueries()) == map[0 := 7, 1 := 3, 2 := 10]
  {
    var m := map[0 := 7, 1 := 3, 2 := 10];
    assert AllCountsPositive(freq);
    forall d: nat
      ensures Get(m, d) == BatchSum(freq, MilkQueries(), d)
    {
      MilkBatchSums(freq, d);
      MilkPostingSums(freq, docs, d);
    }
    PooledMatches(freq, MilkQueries(), m);
  }

  /** The largest pooled relevance is 10. */
  lemma MilkMax()
    ensures MaxValue(map[0 := 7, 1 := 3, 2 := 10]) == 10
  {
    var m := map[0 := 7, 1 := 3, 2 := 10];
    var mx := MaxValue(m);
    assert m[2] <= mx;
    var top :| top in m && m[top] == mx;
  }

  /** Dividing the pooled sums by the largest, 10. */
  lemma MilkNormalized()
    ensures Normalized(map[0 := 7, 1 := 3, 2 := 10]) == map[0 := 0.7, 1 := 0.3, 2 := 1.0]
  {
    MilkMax();
  }

  /** The ranks of the batch: the pooled sums divided by the largest. */
  lemma MilkRanks(freq: FreqDictionary)
    requires AllCountsPositive(freq)
    requires Pooled(freq, MilkQueries()) == map[0 := 7, 1 := 3, 2 := 10]
    ensures BatchRanks(freq, MilkQueries()) == map[0 := 0.7, 1 := 0.3, 2 := 1.0]
  {
    MilkNormalized();
  }

  /** The posting lists of the query words in an index of documents with the milk documents' counts. */
  lemma MilkPostings(freq: FreqDictionary, docs: seq<string>)
    requires MilkCounted(docs) && Indexes(freq, docs)
    ensures |PostingsOf(freq, "milk")| == 3 && |PostingsOf(freq, "water")| == 3
    ensures forall e :: e in PostingsOf(freq, "milk") ==> e.doc_id < 3
    ensures forall d :: 0 <= d < 3 ==> HasPosting(PostingsOf(freq, "milk"), d)
    ensures PostingsOf(freq, "sugar") == []
  {
    FirstThreePostings(freq, docs, "milk");
    FirstThreePostings(freq, docs, "water");
    NoPostingsIffAbsent(freq, docs, "sugar");
  }

  /** Both words of "milk water" have three postings, so the first supplies the candidates. */
  lemma MilkCandidates(freq: FreqDictionary)
    requires |PostingsOf(freq, "milk")| == 3 && |PostingsOf(freq, "water")| == 3
    ensures Words(MilkQueries()[0]) != [] && Words(MilkQueries()[1]) != []
    ensures Candidates(freq, MilkQueries()[0]) == PostingsOf(freq, "milk")
    ensures Candidates(freq, MilkQueries()[1]) == PostingsOf(freq, "sugar")
  {
    MilkWords();
  }

  /**
   The one answer for candidates on documents 0, 1 and 2 ranked 0.7, 0.3 and
   1 with a limit of 5: all three, best first.
   */
  lemma MilkFirstAnswer(cands: seq<Entry>, answer: seq<RelativeIndex>)
    requires |cands| == 3
    requires forall e :: e in cands ==> e.doc_id < 3
    requires forall d :: 0 <= d < 3 ==> HasPosting(cands, d)
    requires IsAnswer(answer, cands, map[0 := 0.7, 1 := 0.3, 2 := 1.0], 5)
    ensures answer == [RelativeIndex(2, 1.0), RelativeIndex(0, 0.7), RelativeIndex(1, 0.3)]
  {
    var norm := map[0 := 0.7, 1 := 0.3, 2 := 1.0];
    var expected := [RelativeIndex(2, 1.0), RelativeIndex(0, 0.7), RelativeIndex(1, 0.3)];
    forall c | c in cands
      ensures HasDoc(expected, c.doc_id)
    {
      if c.doc_id == 0 {
        assert expected[1].doc_id == 0;
      } else if c.doc_id == 1 {
        assert expected[2].doc_id == 1;
      } else {
        assert expected[0].doc_id == 2;
      }
    }
    assert IsAnswer(expected, cands, norm, 5);
    AnswerUnique(answer, expected, cands, norm, 5);
  }

  /** What an index of the milk documents holds for the batch: its postings and its pooled relevance. */
  ghost predicate MilkIndexed(freq: FreqDictionary)
  {
    && AllCountsPositive(freq)
    && |PostingsOf(freq, "milk")| == 3 && |PostingsOf(freq, "water")| == 3
    && (forall e :: e in PostingsOf(freq, "milk") ==> e.doc_id < 3)
    && (forall d :: 0 <= d < 3 ==> HasPosting(PostingsOf(freq, "milk"), d))
    && PostingsOf(freq, "sugar") == []
    && Pooled(freq, MilkQueries()) == map[0 := 7, 1 := 3, 2 := 10]
  }

  /** Every index of the milk documents holds that. */
  lemma MilkIndexFacts(freq: FreqDictionary, docs: seq<string>)
    requires docs == MilkDocs() && Indexes(freq, docs)
    ensures MilkIndexed(freq)
  {
    MilkDocsTokenized(docs);
    MilkDocsCounted(docs);
    MilkPostings(freq, docs);
    MilkPooled(freq, docs);
  }

  /** Against such an index, the batch has one result: the milk documents best first, nothing for "sugar". */
  lemma MilkResult(freq: FreqDictionary, result: seq<seq<RelativeIndex>>)
    requires MilkIndexed(freq)
    requires |result| == 2
    requires Words(MilkQueries()[0]) != [] && Words(MilkQueries()[1]) != []
    requires IsAnswer(result[0], Candidates(freq, MilkQueries()[0]), BatchRanks(freq, MilkQueries()), 5)
    requires IsAnswer(result[1], Candidates(freq, MilkQueries()[1]), BatchRanks(freq, MilkQueries()), 5)
    ensures result == [[RelativeIndex(2, 1.0), RelativeIndex(0, 0.7), RelativeIndex(1, 0.3)], []]
  {
    MilkRanks(freq);
    MilkCandidates(freq);
    MilkFirstAnswer(PostingsOf(freq, "milk"), result[0]);
    // "sugar" occurs nowhere, so it has no candidates and its query no result
    assert |result[1]| == 0;
  }

  /**
   Indexes the four documents, asks for the two queries with a limit of 5,
   and gets documents 2, 0 and 1 with ranks 1, 0.7 and 0.3 for "milk water",
   and no result for "sugar".
   */
  method MilkSearch() returns (result: seq<seq<RelativeIndex>>)
    ensures result == [[RelativeIndex(2, 1.0), RelativeIndex(0, 0.7), RelativeIndex(1, 0.3)], []]
  {
    var idx := new InvertedIndex();
    idx.UpdateDocumentBase(MilkDocs());
    var server := new SearchServer(idx);
    MilkWords();
    assert forall q :: q in MilkQueries() ==> Words(q) != [];
    result := server.Search(MilkQueries(), 5);
    MilkIndexFacts(idx.freq, idx.docs);
    MilkResult(idx.freq, result);
  }
}
