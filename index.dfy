/**
 The inverted index: a frequency dictionary from each term to the postings
 of the documents it occurs in, rebuilt from scratch by `UpdateDocumentBase`.

 `main.cpp` builds one thread per document and serialises every posting
 update with one global mutex; here the documents are processed one after
 another, in doc_id order. Every property below is stated per document and
 per term (through `PostingSum`), so it does not depend on the order in
 which the postings of different documents were appended.
 */
module Index {
  import opened Text
  import opened Postings

  /** Occurrences of `term` among the `\w+` tokens of `text`. */
  function Occurrences(term: string, text: string): nat
  {
    multiset(Tokens(text))[term]
  }

  /** Shape of every stored posting list: non-empty, one posting per document, counts of at least 1. */
  ghost predicate WellFormed(freq: FreqDictionary)
  {
    forall w :: w in freq ==> freq[w] != [] && DistinctDocs(freq[w]) && PositiveCounts(freq[w])
  }

  /** `freq` indexes exactly the documents `docs`: each term's count per document is its number of occurrences there. */
  ghost predicate Indexes(freq: FreqDictionary, docs: seq<string>)
  {
    && WellFormed(freq)
    && forall w, d: nat :: PostingSum(PostingsOf(freq, w), d) == if d < |docs| then Occurrences(w, docs[d]) else 0
  }

  /**
   The state part-way through a build: documents before `id` are fully
   indexed, document `id` has had the tokens `seen` indexed, later ones none.
   */
  ghost predicate PartialIndex(freq: FreqDictionary, docs: seq<string>, id: nat, seen: seq<string>)
  {
    && id <= |docs|
    && WellFormed(freq)
    && forall w, d: nat :: PostingSum(PostingsOf(freq, w), d) ==
         if d < id then Occurrences(w, docs[d]) else if d == id then multiset(seen)[w] else 0
  }

  /** `f1` is `f0` after one more occurrence of `word` in document `id` was recorded. */
  ghost predicate UpsertedOnce(f0: FreqDictionary, f1: FreqDictionary, word: string, id: nat)
  {
    && WellFormed(f1)
    && forall w, d: nat :: PostingSum(PostingsOf(f1, w), d) ==
         PostingSum(PostingsOf(f0, w), d) + (if w == word && d == id then 1 else 0)
  }

  /** Recording the next token of document `id` extends the tokens seen so far. */
  lemma PartialStep(f0: FreqDictionary, f1: FreqDictionary, docs: seq<string>, id: nat, seen: seq<string>, token: string)
    requires PartialIndex(f0, docs, id, seen)
    requires UpsertedOnce(f0, f1, token, id)
    ensures PartialIndex(f1, docs, id, seen + [token])
  {
    assert multiset(seen + [token]) == multiset(seen) + multiset{token};
  }

  /** Once all tokens of document `id` are recorded, the next document starts. */
  lemma PartialDocDone(freq: FreqDictionary, docs: seq<string>, id: nat)
    requires id < |docs|
    requires PartialIndex(freq, docs, id, Tokens(docs[id]))
    ensures PartialIndex(freq, docs, id + 1, [])
  {
  }

  /** After the last document, the dictionary indexes them all. */
  lemma PartialAllDone(freq: FreqDictionary, docs: seq<string>)
    requires PartialIndex(freq, docs, |docs|, [])
    ensures Indexes(freq, docs)
  {
  }

  /** The cleared dictionary indexes no document yet. */
  lemma EmptyIndex(docs: seq<string>)
    ensures PartialIndex(map[], docs, 0, [])
    ensures Indexes(map[], [])
  {
    forall w, d: nat
      ensures PostingSum(PostingsOf(map[], w), d) == 0
    {
      assert PostingsOf(map[], w) == [];
    }
  }

  /**
   Replacing one term's posting list by a well-formed list that records one
   more occurrence in document `id` adds exactly that occurrence.
   */
  lemma ReplaceList(freq: FreqDictionary, word: string, id: nat, qs: seq<Entry>)
    requires WellFormed(freq)
    requires qs != [] && DistinctDocs(qs) && PositiveCounts(qs)
    requires forall d: nat :: PostingSum(qs, d) == PostingSum(PostingsOf(freq, word), d) + (if d == id then 1 else 0)
    ensures UpsertedOnce(freq, freq[word := qs], word, id)
    ensures forall w :: w != word ==> PostingsOf(freq[word := qs], w) == PostingsOf(freq, w)
  {
    var f1 := freq[word := qs];
    forall w, d: nat
      ensures PostingSum(PostingsOf(f1, w), d) == PostingSum(PostingsOf(freq, w), d) + (if w == word && d == id then 1 else 0)
    {
      if w != word {
        assert PostingsOf(f1, w) == PostingsOf(freq, w);
      }
    }
  }

  /** Creating the posting `(id, 1)` for a term without a posting for `id` records one occurrence. */
  lemma NewPostingOnce(freq: FreqDictionary, word: string, id: nat)
    requires WellFormed(freq) && !HasPosting(PostingsOf(freq, word), id)
    ensures UpsertedOnce(freq, freq[word := PostingsOf(freq, word) + [Entry(id, 1)]], word, id)
    ensures forall w :: w != word ==>
              PostingsOf(freq[word := PostingsOf(freq, word) + [Entry(id, 1)]], w) == PostingsOf(freq, w)
  {
    var ps := PostingsOf(freq, word);
    assert DistinctDocs(ps) && PositiveCounts(ps);
    AppendNewPosting(ps, id);
    ReplaceList(freq, word, id, ps + [Entry(id, 1)]);
  }

  /** Counting once more in the one posting a term has for `id` records one occurrence. */
  lemma BumpedOnce(freq: FreqDictionary, word: string, id: nat, qs: seq<Entry>)
    requires WellFormed(freq) && word in freq && HasPosting(freq[word], id)
    requires Bumped(freq[word], qs, id)
    ensures UpsertedOnce(freq, freq[word := qs], word, id)
    ensures forall w :: w != word ==> PostingsOf(freq[word := qs], w) == PostingsOf(freq, w)
  {
    var ps := freq[word];
    BumpedWellFormed(ps, qs, id);
    PostingSumExact(ps, id);
    forall d: nat
      ensures PostingSum(qs, d) == PostingSum(ps, d) + (if d == id then 1 else 0)
    {
      BumpedSum(ps, qs, id, d);
    }
    ReplaceList(freq, word, id, qs);
  }

  /** A posting for `(term, d)` exists exactly when the term occurs in document `d`, and it records the occurrences. */
  lemma PostingIffOccurs(freq: FreqDictionary, docs: seq<string>, term: string, d: nat)
    requires Indexes(freq, docs)
    ensures HasPosting(PostingsOf(freq, term), d) <==> d < |docs| && Occurrences(term, docs[d]) > 0
    ensures forall e :: e in PostingsOf(freq, term) && e.doc_id == d ==>
              d < |docs| && e.count == Occurrences(term, docs[d]) && e.count >= 1
    ensures Multiplicity(PostingsOf(freq, term), d) <= 1
  {
    var ps := PostingsOf(freq, term);
    assert DistinctDocs(ps) && PositiveCounts(ps);
    assert PostingSum(ps, d) == if d < |docs| then Occurrences(term, docs[d]) else 0;
    PostingSumPositive(ps, d);
    PostingSumExact(ps, d);
    forall e | e in ps && e.doc_id == d
      ensures e.count >= 1
    {
      var i :| 0 <= i < |ps| && ps[i] == e;
    }
  }

  /** A term is a key of the dictionary exactly when some document contains it. */
  lemma TermIndexedIff(freq: FreqDictionary, docs: seq<string>, term: string)
    requires Indexes(freq, docs)
    ensures term in freq <==> exists d :: 0 <= d < |docs| && Occurrences(term, docs[d]) > 0
  {
    if term in freq {
      var e := freq[term][0];
      PostingIffOccurs(freq, docs, term, e.doc_id);
    } else {
      forall d | 0 <= d < |docs|
        ensures Occurrences(term, docs[d]) == 0
      {
        assert PostingSum(PostingsOf(freq, term), d) == 0;
      }
    }
  }

  /** An index stores no posting for a term exactly when no document contains it. */
  lemma NoPostingsIffAbsent(freq: FreqDictionary, docs: seq<string>, term: string)
    ensures Indexes(freq, docs) ==>
              (PostingsOf(freq, term) == [] <==> forall d :: 0 <= d < |docs| ==> Occurrences(term, docs[d]) == 0)
  {
    if Indexes(freq, docs) {
      TermIndexedIff(freq, docs, term);
    }
  }

  /**
   Two dictionaries that index the same documents hold the same terms and the
   same postings for each, whatever order the postings were appended in.
   */
  lemma RebuildSamePostings(f1: FreqDictionary, f2: FreqDictionary, docs: seq<string>, term: string)
    requires Indexes(f1, docs) && Indexes(f2, docs)
    ensures term in f1 <==> term in f2
    ensures forall e :: e in PostingsOf(f1, term) <==> e in PostingsOf(f2, term)
    ensures |PostingsOf(f1, term)| == |PostingsOf(f2, term)|
  {
    TermIndexedIff(f1, docs, term);
    TermIndexedIff(f2, docs, term);
    forall e | e in PostingsOf(f1, term)
      ensures e in PostingsOf(f2, term)
    {
      SameEntry(f1, f2, docs, term, e);
    }
    forall e | e in PostingsOf(f2, term)
      ensures e in PostingsOf(f1, term)
    {
      SameEntry(f2, f1, docs, term, e);
    }
    SameLength(f1, f2, docs, term);
  }

  /** A posting of one index of `docs` is a posting of any other index of `docs`. */
  lemma SameEntry(f1: FreqDictionary, f2: FreqDictionary, docs: seq<string>, term: string, e: Entry)
    requires Indexes(f1, docs) && Indexes(f2, docs)
    requires e in PostingsOf(f1, term)
    ensures e in PostingsOf(f2, term)
  {
    var d := e.doc_id;
    PostingIffOccurs(f1, docs, term, d);
    PostingIffOccurs(f2, docs, term, d);
    assert HasPosting(PostingsOf(f1, term), d);
    var e2 :| e2 in PostingsOf(f2, term) && e2.doc_id == d;
    assert e2 == e;
  }

  /** Two indexes of the same documents have posting lists of the same length: one posting per containing document. */
  lemma SameLength(f1: FreqDictionary, f2: FreqDictionary, docs: seq<string>, term: string)
    requires Indexes(f1, docs) && Indexes(f2, docs)
    ensures |PostingsOf(f1, term)| == |PostingsOf(f2, term)|
  {
    var p1, p2 := PostingsOf(f1, term), PostingsOf(f2, term);
    forall e | e in p1 ensures e in p2 { SameEntry(f1, f2, docs, term, e); }
    forall e | e in p2 ensures e in p1 { SameEntry(f2, f1, docs, term, e); }
    DistinctLength(p1);
    DistinctLength(p2);
    assert (set e | e in p1) == (set e | e in p2);
  }

  /** A list with one posting per document has as many postings as distinct elements. */
  lemma {:induction false} DistinctLength(ps: seq<Entry>)
    requires DistinctDocs(ps)
    ensures |set e | e in ps| == |ps|
    decreases |ps|
  {
    if ps != [] {
      var init := ps[..|ps| - 1];
      var last := ps[|ps| - 1];
      assert ps == init + [last];
      DistinctLength(init);
      assert last !in init;
      assert (set e | e in ps) == (set e | e in init) + {last};
    }
  }

  /** The index over a document base, with the documents it was built from. */
  class InvertedIndex {
    var docs: seq<string>
    var freq: FreqDictionary

    /** The dictionary indexes exactly the stored documents. */
    ghost predicate Valid()
      reads this
    {
      Indexes(freq, docs)
    }

    /** An empty index over no documents. */
    constructor ()
      ensures docs == [] && freq == map[]
      ensures Valid()
    {
      docs := [];
      freq := map[];
      EmptyIndex([]);
    }

    /**
     The postings of `word`: the stored list, or an empty one for a word no
     document contains. Reading does not change the dictionary.
     */
    function GetWordCount(word: string): (ps: seq<Entry>)
      reads this
      ensures word in freq ==> ps == freq[word]
      ensures word !in freq ==> ps == []
      ensures Valid() ==> DistinctDocs(ps) && PositiveCounts(ps)
      ensures Valid() ==> forall d: nat :: PostingSum(ps, d) == if d < |docs| then Occurrences(word, docs[d]) else 0
      ensures Valid() ==> (ps == [] <==> forall d :: 0 <= d < |docs| ==> Occurrences(word, docs[d]) == 0)
    {
      NoPostingsIffAbsent(freq, docs, word);
      PostingsOf(freq, word)
    }

    /**
     One update under the dictionary lock: creates the posting `(id, 1)` for
     `word` when there is none for `id`, otherwise counts one more occurrence.
     */
    method Upsert(word: string, id: nat)
      requires WellFormed(freq)
      modifies this
      ensures docs == old(docs)
      ensures UpsertedOnce(old(freq), freq, word, id)
      ensures forall w :: w != word ==> PostingsOf(freq, w) == PostingsOf(old(freq), w)
    {
      var ps := PostingsOf(freq, word);
      var qs;
      if word !in freq || !FindId(freq[word], id) {
        qs := ps + [Entry(id, 1)];
        NewPostingOnce(freq, word, id);
      } else {
        qs := IncrementCount(ps, id);
        BumpedOnce(freq, word, id, qs);
      }
      freq := freq[word := qs];
    }

    /**
     Clears the dictionary and indexes `texts`: one task per document, each
     recording every `\w+` token of its document. Any previous contents are
     discarded, so the result depends on `texts` alone.
     */
    method UpdateDocumentBase(texts: seq<string>)
      modifies this
      ensures docs == texts
      ensures Valid()
    {
      freq := map[];
      docs := texts;
      EmptyIndex(docs);
      var id := 0;
      while id < |docs|
        invariant docs == texts
        invariant PartialIndex(freq, docs, id, [])
      {
        IndexDocument(id);
        id := id + 1;
      }
      PartialAllDone(freq, docs);
    }

    /**
     The task for document `id`: scans its text for `\w+` matches, left to
     right, and upserts each one for `id`.
     */
    method IndexDocument(id: nat)
      requires id < |docs|
      requires PartialIndex(freq, docs, id, [])
      modifies this
      ensures docs == old(docs)
      ensures PartialIndex(freq, docs, id + 1, [])
    {
      var doc := docs[id];
      ghost var seen: seq<string> := [];
      while true
        invariant docs == old(docs)
        invariant seen + Tokens(doc) == Tokens(docs[id])
        invariant PartialIndex(freq, docs, id, seen)
        decreases |doc|
      {
        var found, start, end := NextRun(doc, WordChars);
        if !found {
          break;
        }
        var token := doc[start..end];
        ghost var before := freq;
        Upsert(token, id);
        PartialStep(before, freq, docs, id, seen, token);
        seen := seen + [token];
        doc := doc[end..];
      }
      PartialDocDone(freq, docs, id);
    }
  }
}
