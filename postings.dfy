/**
 Postings: the `(doc_id, count)` entries a term's posting list holds, and
 the operations the index builder performs on one posting list.
 */
module Postings {

  /** One posting: `count` occurrences of a term in document `doc_id`. */
  datatype Entry = Entry(doc_id: nat, count: nat)

  /** The frequency dictionary: term to posting list. */
  type FreqDictionary = map<string, seq<Entry>>

  /** A term's posting list, empty when the term has none. */
  function PostingsOf(freq: FreqDictionary, term: string): seq<Entry>
  {
    if term in freq then freq[term] else []
  }

  /** Some posting of `ps` is for document `id`. */
  ghost predicate HasPosting(ps: seq<Entry>, id: nat)
  {
    exists e :: e in ps && e.doc_id == id
  }

  /** Whether some posting of `ps` is for document `id`, scanning from the front. */
  function FindId(ps: seq<Entry>, id: nat): (found: bool)
    ensures found <==> HasPosting(ps, id)
  {
    if ps == [] then false
    else ps[0].doc_id == id || FindId(ps[1..], id)
  }

  /** Total count the postings of `ps` record for document `d`. */
  function PostingSum(ps: seq<Entry>, d: nat): nat
  {
    if ps == [] then 0
    else
      var last := ps[|ps| - 1];
      PostingSum(ps[..|ps| - 1], d) + (if last.doc_id == d then last.count else 0)
  }

  /** Number of postings of `ps` for document `d`. */
  function Multiplicity(ps: seq<Entry>, d: nat): nat
  {
    if ps == [] then 0
    else Multiplicity(ps[..|ps| - 1], d) + (if ps[|ps| - 1].doc_id == d then 1 else 0)
  }

  /** At most one posting per document. */
  predicate DistinctDocs(ps: seq<Entry>)
  {
    forall i, j :: 0 <= i < j < |ps| ==> ps[i].doc_id != ps[j].doc_id
  }

  /** Every posting records at least one occurrence. */
  predicate PositiveCounts(ps: seq<Entry>)
  {
    forall i :: 0 <= i < |ps| ==> ps[i].count >= 1
  }

  /** Appending a posting adds its count to its own document only. */
  lemma PostingSumAppend(ps: seq<Entry>, e: Entry, d: nat)
    ensures PostingSum(ps + [e], d) == PostingSum(ps, d) + (if e.doc_id == d then e.count else 0)
    ensures Multiplicity(ps + [e], d) == Multiplicity(ps, d) + (if e.doc_id == d then 1 else 0)
  {
    assert (ps + [e])[..|ps|] == ps;
  }

  /** With distinct documents, the sum for a document is its one posting's count, or 0 without one. */
  lemma {:induction false} PostingSumExact(ps: seq<Entry>, d: nat)
    requires DistinctDocs(ps)
    ensures forall e :: e in ps && e.doc_id == d ==> PostingSum(ps, d) == e.count
    ensures !HasPosting(ps, d) ==> PostingSum(ps, d) == 0
    ensures Multiplicity(ps, d) == if HasPosting(ps, d) then 1 else 0
    decreases |ps|
  {
    if ps != [] {
      var init := ps[..|ps| - 1];
      var last := ps[|ps| - 1];
      assert ps == init + [last];
      PostingSumExact(init, d);
      forall e | e in init
        ensures e.doc_id != last.doc_id
      {
        var i :| 0 <= i < |init| && init[i] == e;
        assert ps[i] == e;
      }
      assert HasPosting(ps, d) <==> HasPosting(init, d) || last.doc_id == d;
    }
  }

  /** With positive counts, a document has a non-zero sum exactly when it has a posting. */
  lemma {:induction false} PostingSumPositive(ps: seq<Entry>, d: nat)
    requires PositiveCounts(ps)
    ensures PostingSum(ps, d) > 0 <==> HasPosting(ps, d)
    decreases |ps|
  {
    if ps != [] {
      var init := ps[..|ps| - 1];
      assert ps == init + [ps[|ps| - 1]];
      PostingSumPositive(init, d);
      assert HasPosting(ps, d) <==> HasPosting(init, d) || ps[|ps| - 1].doc_id == d;
    }
  }

  /** A posting's count never exceeds the sum for its document. */
  lemma {:induction false} PostingSumAtLeast(ps: seq<Entry>, i: nat)
    requires i < |ps|
    ensures PostingSum(ps, ps[i].doc_id) >= ps[i].count
    decreases |ps|
  {
    if i < |ps| - 1 {
      PostingSumAtLeast(ps[..|ps| - 1], i);
    }
  }

  /** Postings list `qs` is `ps` with each posting of document `id` counted once more. */
  predicate Bumped(ps: seq<Entry>, qs: seq<Entry>, id: nat)
  {
    && |qs| == |ps|
    && forall k :: 0 <= k < |ps| ==>
         qs[k] == if ps[k].doc_id == id then Entry(id, ps[k].count + 1) else ps[k]
  }

  /** Bumping keeps the documents of a list and keeps its counts positive. */
  lemma BumpedWellFormed(ps: seq<Entry>, qs: seq<Entry>, id: nat)
    requires Bumped(ps, qs, id)
    ensures DistinctDocs(ps) ==> DistinctDocs(qs)
    ensures PositiveCounts(ps) ==> PositiveCounts(qs)
  {
    assert forall k :: 0 <= k < |qs| ==> qs[k].doc_id == ps[k].doc_id && qs[k].count >= ps[k].count;
  }

  /** Appending `(id, 1)` to a list without a posting for `id` keeps it well formed and counts one occurrence for `id`. */
  lemma AppendNewPosting(ps: seq<Entry>, id: nat)
    requires DistinctDocs(ps) && PositiveCounts(ps) && !HasPosting(ps, id)
    ensures DistinctDocs(ps + [Entry(id, 1)]) && PositiveCounts(ps + [Entry(id, 1)])
    ensures forall d: nat :: PostingSum(ps + [Entry(id, 1)], d) == PostingSum(ps, d) + (if d == id then 1 else 0)
  {
    var qs := ps + [Entry(id, 1)];
    forall i, j | 0 <= i < j < |qs|
      ensures qs[i].doc_id != qs[j].doc_id
    {
      if j == |ps| {
        assert qs[i] == ps[i];
      }
    }
    forall d: nat
      ensures PostingSum(qs, d) == PostingSum(ps, d) + (if d == id then 1 else 0)
    {
      PostingSumAppend(ps, Entry(id, 1), d);
    }
  }

  /** Bumping adds one per posting of `id` to `id`'s sum and leaves every other document's sum alone. */
  lemma {:induction false} BumpedSum(ps: seq<Entry>, qs: seq<Entry>, id: nat, d: nat)
    requires Bumped(ps, qs, id)
    ensures PostingSum(qs, d) == PostingSum(ps, d) + (if d == id then Multiplicity(ps, d) else 0)
    decreases |ps|
  {
    if ps != [] {
      var n := |ps| - 1;
      assert Bumped(ps[..n], qs[..n], id);
      BumpedSum(ps[..n], qs[..n], id, d);
    }
  }

  /**
   Adds one to the count of every posting of document `id`, walking the list
   in place; the list keeps its length, order and document ids.
   */
  method IncrementCount(ps: seq<Entry>, id: nat) returns (qs: seq<Entry>)
    ensures Bumped(ps, qs, id)
    ensures forall k :: 0 <= k < |qs| ==> qs[k].doc_id == ps[k].doc_id
    ensures DistinctDocs(ps) && HasPosting(ps, id) ==> PostingSum(qs, id) == PostingSum(ps, id) + 1
    ensures forall d :: d != id ==> PostingSum(qs, d) == PostingSum(ps, d)
  {
    qs := ps;
    var k := 0;
    while k < |qs|
      invariant k <= |qs| == |ps|
      invariant forall m :: 0 <= m < k ==>
                  qs[m] == if ps[m].doc_id == id then Entry(id, ps[m].count + 1) else ps[m]
      invariant forall m :: k <= m < |qs| ==> qs[m] == ps[m]
    {
      if qs[k].doc_id == id {
        qs := qs[k := Entry(id, qs[k].count + 1)];
      }
      k := k + 1;
    }
    forall d | true
      ensures PostingSum(qs, d) == PostingSum(ps, d) + (if d == id then Multiplicity(ps, d) else 0)
    {
      BumpedSum(ps, qs, id, d);
    }
    if DistinctDocs(ps) {
      PostingSumExact(ps, id);
    }
  }
}
