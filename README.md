# Inverted index and ranking engine

A Dafny model of the retrieval core of a small offline search tool
(`main.cpp`). The model covers two components.

- **`InvertedIndex`** turns a list of document texts into a frequency
  dictionary. The dictionary maps each term to its postings: `(doc_id, count)`
  entries saying how often the term occurs in each document. A term is a
  maximal run of `\w` characters (ASCII letters, digits and `_`). Every call
  to `UpdateDocumentBase` clears the dictionary and rebuilds it.
- **`SearchServer::search`** answers a batch of queries. Query words are the
  whitespace-separated words of the query. Pass 1 builds one relevance map for
  the whole batch: it adds up the posting counts of every word of every query,
  repeats included. It then divides the map by its largest value. Pass 2
  answers each query from the postings of its first word with the strictly
  longest posting list. These candidates are sorted by rank descending, then
  by doc_id ascending. The sorted list is cut after `limit` entries, sorted
  again the same way, and emitted in query order.

Files and modules:

| file | module | contents |
|---|---|---|
| `text.dfy` | `Text` | maximal runs of a character class; the `\w+` scanner and the whitespace word splitter |
| `postings.dfy` | `Postings` | `Entry`, `FindId` and the predicate `HasPosting` it decides, per-document posting sums, in-place count increment |
| `index.dfy` | `Index` | class `InvertedIndex`: build, upsert, `GetWordCount`, and what an index of a document list is |
| `ordering.dfy` | `Ordering` | the result order (score descending, doc_id ascending) and an in-place sort by that order |
| `relevance.dfy` | `Relevance` | pooled relevance sums, their maximum and normalisation |
| `search.dfy` | `Search` | class `SearchServer`: candidate choice, truncation, both sorts, the batch search, and what an answer is |
| `scenario.dfy` | `Scenario` | the milk/water example of the repository's first test, worked through end to end |

The central specifications are these.

- `Index.Indexes(freq, docs)` says what an index is. For every term and every
  document, the counts the term's postings record for that document add up
  to the term's occurrences among that document's `\w+` tokens. Each posting
  list is non-empty, has one posting per document and has counts of at
  least 1.
- `Search.IsAnswer(answer, candidates, ranks, limit)` says what an answer is.
  It has the number of entries the limit allows. It is strictly ordered by
  rank descending, then doc_id ascending. Every entry is a candidate carrying
  its document's rank. Every entry goes before every candidate that was left
  out. `Search.AnswerUnique` shows that these conditions fix the answer.

`SearchServer.Search` is proved to return, for each query, the `IsAnswer` of
its candidates under the batch's normalised relevance `Relevance.BatchRanks`.

Two edge cases of the code are worth stating.

- A `limit` of 0 or below returns every candidate. The counter is compared
  with `i == limit` only after an entry has been pushed, so the break never
  fires for such a limit (main.cpp:167-175). `Search.Kept` and
  `SearchServer.TakeRanked` state this.
- No guard against a zero maximum is needed. The division runs only inside
  the loop over the relevance map's entries, and the maximum is 0 only for
  an empty map (main.cpp:136-143). `Relevance.Normalize` states this.

## Model

| member | source | states |
|---|---|---|
| `Text.RunEnd` | main.cpp:57-59 | the `\w+` match that starts a text is non-empty, all word characters, and stops at the first non-word character or at the end |
| `Text.RunEndIs` | main.cpp:57-59 | a run ending where the character class ends is the maximal match, so the match is unique |
| `Text.RunsAreWords` | main.cpp:56-59 | every token of a text is a non-empty run of word characters |
| `Text.RunsSkip` | main.cpp:59 | leading characters outside the class produce no token |
| `Text.RunsOfNone` | main.cpp:59 | a text without word characters has no tokens, so the scan loop ends at once |
| `Text.RunsAtRun` | main.cpp:59-76 | a text that starts with a maximal run of class characters has that run as its first token, followed by the tokens of the rest |
| `Text.RunsStep` | main.cpp:59-76 | the leftmost maximal match is the first token, and the tokens of the suffix after it are the remaining ones |
| `Text.RunsOfWord` | main.cpp:56-59 | a string of class characters is exactly one token |
| `Text.RunsHeadBeforeSeparator` | main.cpp:124-126 | a run at the head of a text stops before a following separator, so it is the first run of the text with the separator and more text appended |
| `Text.RunsSplit` | main.cpp:124-126 | a separator splits a text: the runs of `a + [c] + b` are those of `a` followed by those of `b` |
| `Text.NextRun` | main.cpp:59-76 | one `regex_search` step (and one `>>` extraction, main.cpp:126) finds the leftmost maximal run, or reports that none is left, and its result with the suffix's runs makes up the text's runs |
| `Text.SplitWords` | main.cpp:123-126 | extracting words with `>>` until the stream is exhausted yields exactly the whitespace-separated words of the query, in both passes (also main.cpp:148-151) |
| `Postings.FindId` | main.cpp:37-44 | the scan returns true exactly when some posting of the list is for the given document |
| `Postings.PostingSumAppend` | main.cpp:63-66 | appending `(id, 1)` adds 1 to document `id`'s total and leaves every other document's total alone |
| `Postings.PostingSumExact` | main.cpp:62-72 | with one posting per document, a document's total is its posting's count, or 0 when it has no posting |
| `Postings.PostingSumPositive` | main.cpp:62-72 | with positive counts, a document's total is non-zero exactly when it has a posting |
| `Postings.PostingSumAtLeast` | main.cpp:129-131 | a posting's count never exceeds its document's total |
| `Postings.BumpedWellFormed` | main.cpp:68-72 | bumping counts keeps one posting per document and counts of at least 1 |
| `Postings.AppendNewPosting` | main.cpp:63-66 | appending `(id, 1)` for a document without a posting keeps one posting per document and positive counts, and adds exactly 1 to that document's total |
| `Postings.BumpedSum` | main.cpp:68-72 | incrementing every posting of `id` adds one per such posting to `id`'s total and changes no other document's total |
| `Postings.IncrementCount` | main.cpp:68-72 | the increment loop bumps exactly the postings of `id` and keeps length, order and doc_ids; with a single posting for `id`, `id`'s total grows by exactly 1 |
| `Index.PartialStep` | main.cpp:60-75 | recording one more token of the current document keeps the build invariant: earlier documents done, the current one counted up to the tokens seen, later ones untouched |
| `Index.PartialDocDone` | main.cpp:59-77 | once the scan has consumed every token of a document, that document is fully indexed |
| `Index.PartialAllDone` | main.cpp:54-82 | after the last document the dictionary indexes the whole document list |
| `Index.EmptyIndex` | main.cpp:51-52 | the cleared dictionary is the correct start state for any document list, and indexes the empty list |
| `Index.ReplaceList` | main.cpp:61-74 | replacing a term's list by a well-formed one whose totals are the old ones plus 1 for the document is exactly one recorded occurrence, and no other term changes |
| `Index.NewPostingOnce` | main.cpp:62-66 | the branch for a term without a posting for the document (absent key or `!FindId`) records exactly one occurrence |
| `Index.BumpedOnce` | main.cpp:67-72 | the branch that increments the document's existing posting records exactly one occurrence |
| `Index.PostingIffOccurs` | main.cpp:54-77 | in an index, a posting for a term and a document exists exactly when the term occurs in that document; its count is the number of occurrences (at least 1); there is at most one |
| `Index.TermIndexedIff` | main.cpp:62-66 | a term is a key of the dictionary exactly when some document contains it |
| `Index.NoPostingsIffAbsent` | main.cpp:89-91 | a term has no postings exactly when no document contains it |
| `Index.RebuildSamePostings` | main.cpp:51-55 | two indexes of the same documents have the same terms and the same set of postings per term, in whatever order they were appended |
| `Index.SameEntry` | main.cpp:55-74 | a posting of one index of the documents is a posting of every other |
| `Index.SameLength` | main.cpp:55-74 | two indexes of the same documents have posting lists of equal length per term |
| `Index.InvertedIndex.constructor` | main.cpp:33 | a new index has no documents and an empty dictionary, which is a valid index |
| `Index.InvertedIndex.GetWordCount` | main.cpp:89-91 | returns the stored postings of the word (empty when it has none); in a valid index they have distinct documents and positive counts, record each document's occurrences, and are empty exactly when no document contains the word |
| `Index.InvertedIndex.Upsert` | main.cpp:61-74 | one locked update adds exactly one occurrence of the token for the document, keeps every list well-formed, and leaves other terms' postings unchanged |
| `Index.InvertedIndex.IndexDocument` | main.cpp:55-77 | one document's task scans all of its `\w+` tokens, so that document goes from unindexed to fully indexed |
| `Index.InvertedIndex.UpdateDocumentBase` | main.cpp:50-82 | after the call the documents are the input and the dictionary indexes exactly them, whatever it held before |
| `Ordering.BeforeIsStrictTotalOrder` | main.cpp:163-179 | the comparator (score descending, then doc_id ascending) is irreflexive, asymmetric, total on distinct keys and transitive |
| `Ordering.StrictlySorted` | main.cpp:163-166 | a sorted sequence with distinct keys is strictly ordered |
| `Ordering.PermutationKeepsDistinctKeys` | main.cpp:163-179 | sorting (a permutation) keeps keys distinct |
| `Ordering.SortByKey` | main.cpp:163-179 | the in-place sort leaves the array ordered by the comparator and a permutation of its old contents |
| `Ordering.InsertIntoPrefix` | main.cpp:163-179 | one pass of the sort moves an element into the ordered prefix before it, which stays ordered one element longer, and permutes the array |
| `Relevance.WordsSumAppend` | main.cpp:127-132 | a word list's contribution is additive, so a repeated word counts again |
| `Relevance.BatchSumAppend` | main.cpp:121-133 | relevance is pooled across the batch: the sums of two batches run as one add up |
| `Relevance.WordsSumAtLeast` | main.cpp:129-131 | each posting of a query word adds at least its count to its document's relevance |
| `Relevance.WordsSumPositive` | main.cpp:127-132 | a document's sum over a word list is positive exactly when one of the words has a posting for it |
| `Relevance.BatchSumPositive` | main.cpp:121-133 | a document's batch sum is positive exactly when some word of some query has a posting for it |
| `Relevance.PooledIsBatchSum` | main.cpp:121-133 | the pooled map holds each document's sum over every word occurrence of the batch, and has a key exactly for documents some query word occurs in |
| `Relevance.PooledPositive` | main.cpp:121-133 | every pooled relevance is positive |
| `Relevance.MaxValue` | main.cpp:136-139 | the largest value of the map: an upper bound that some entry attains, 0 for an empty map |
| `Relevance.NormalizedInUnitInterval` | main.cpp:141-143 | every normalised value lies in (0, 1]; it is 1 exactly for the documents of maximal relevance; a non-empty map has one |
| `Relevance.NormalizedKeepsOrder` | main.cpp:141-143 | normalised ranks compare exactly as the relevance sums do |
| `Relevance.DivideKeepsOrder` | main.cpp:142 | division by the positive maximum keeps a strict order |
| `Relevance.QuotientBounds` | main.cpp:142 | a value between 1 and the maximum divided by the maximum lies in (0, 1], and is 1 only at the maximum |
| `Relevance.MaxRelevance` | main.cpp:136-139 | the scan starting at 0 finds the map's largest value |
| `Relevance.Normalize` | main.cpp:141-143 | dividing entry by entry yields the normalised map; an empty map stays empty |
| `Search.FirstLongest` | main.cpp:155-161 | the chosen word's posting list is at least as long as every other and strictly longer than every earlier word's list (the first word when all are equally long) |
| `Search.FirstLongestStep` | main.cpp:156-161 | looking at one more word moves the choice to it exactly when its list is strictly longer than the chosen one |
| `Search.LongestStep` | main.cpp:156-161 | one iteration of the running-maximum loop keeps its chosen list the first longest of the words seen so far |
| `Search.KeptCount` | main.cpp:167-175 | a positive limit keeps `min(limit, n)` results, a limit of 0 or less keeps all `n` |
| `Search.TopKAnswer` | main.cpp:163-180 | sorting the candidates, keeping the first `Kept` with their ranks and sorting again gives an answer that satisfies `IsAnswer` |
| `Search.AnswerStrictlySorted` | main.cpp:176-179 | the second sort of the kept prefix gives a strictly ordered result, because its results come from postings of distinct documents |
| `Search.AnswerFromKept` | main.cpp:167-172 | every result is some candidate's document carrying that document's rank |
| `Search.AnswerAheadOfRest` | main.cpp:163-175 | every candidate left without a result lies past the cut of the first sort, so every result goes before it |
| `Search.AnswerFirstDifference` | main.cpp:163-180 | where two answers first differ, neither result can go before the other |
| `Search.AnswerPrefix` | main.cpp:163-180 | two answers for the same candidates, ranks and limit agree on every prefix |
| `Search.AnswerUnique` | main.cpp:163-180 | candidates, ranks and limit determine the answer: the top `Kept` candidates in rank order, whatever sort algorithm produced it |
| `Search.AnswerDistinctDocs` | main.cpp:163-180 | no document appears twice in an answer |
| `Search.CandidatesArePooled` | main.cpp:155-165 | every candidate's document is already a key of the relevance map, so the comparator's lookups find a pooled value |
| `Search.AnswerRanksInUnitInterval` | main.cpp:168-172 | every emitted rank is a pooled document's normalised relevance (main.cpp:141-143), in (0, 1] |
| `Search.SearchServer.constructor` | main.cpp:109 | the server answers from the given index |
| `Search.SearchServer.PoolRelevance` | main.cpp:121-133 | pass 1 builds exactly the pooled relevance map of the batch |
| `Search.SearchServer.AddPostings` | main.cpp:129-131 | adding one word's postings raises each document's relevance by its total count in that list and creates keys only with positive values |
| `Search.SearchServer.PickCandidates` | main.cpp:153-161 | the running-maximum loop picks the postings of the first word with the strictly longest list |
| `Search.SearchServer.TakeRanked` | main.cpp:167-175 | the counted copy keeps `Kept(limit, n)` entries, each the sorted candidate at that position with its document's rank |
| `Search.SearchServer.AnswerQuery` | main.cpp:147-180 | pass 2 for one query yields the `IsAnswer` of its candidates |
| `Search.SearchServer.AnswerAll` | main.cpp:146-181 | pass 2 gives one result per query, in query order, each the `IsAnswer` of its candidates under the ranks passed in |
| `Search.SearchServer.Search` | main.cpp:117-183 | one result per query, in query order, each the `IsAnswer` of its candidates under the batch's normalised relevance |
| `Search.PooledMatches` | main.cpp:121-133 | a map agreeing with the batch sums, with keys exactly where they are positive, is the pooled map |
| `Scenario.RunsOfSpaced` | main.cpp:305-308 | words joined by single spaces split back into those words |
| `Scenario.Doc0Tokens` | main.cpp:305 | the tokens of the first test document |
| `Scenario.Doc1Tokens` | main.cpp:306 | the tokens of the second test document |
| `Scenario.Doc2Tokens` | main.cpp:307 | the tokens of the third test document |
| `Scenario.Doc3Tokens` | main.cpp:308 | the tokens of the fourth test document |
| `Scenario.MilkWords` | main.cpp:310 | the words of the two test queries |
| `Scenario.MilkDocsTokenized` | main.cpp:304-309 | the four test documents have the tokens of the four lemmas above |
| `Scenario.Doc0Counts` | main.cpp:305 | "milk" occurs 4 times, "water" 3 times and "sugar" never among the first document's tokens |
| `Scenario.Doc1Counts` | main.cpp:306 | "milk" occurs once, "water" twice and "sugar" never in the second document |
| `Scenario.Doc2Counts` | main.cpp:307 | "milk" and "water" occur 5 times each and "sugar" never in the third document |
| `Scenario.Doc3Counts` | main.cpp:308 | none of the query words occurs in the fourth document |
| `Scenario.MilkDocsCounted` | main.cpp:304-309 | the four test documents have those counts |
| `Scenario.FirstThreePostings` | main.cpp:54-77 | a word occurring in exactly the first three of four documents has exactly three postings, for documents 0, 1 and 2 |
| `Scenario.MilkPostings` | main.cpp:54-77 | in an index of the test documents, "milk" and "water" have three postings each, "milk" one for each of documents 0, 1 and 2, and "sugar" none |
| `Scenario.MilkBatchSums` | main.cpp:121-133 | in any dictionary, the batch adds up each document's counts for "milk", "water" and "sugar", each word once |
| `Scenario.BatchSumOfTwo` | main.cpp:121-133 | a batch of two queries sums the counts of the words of the first and of the second |
| `Scenario.WordsSumOfFew` | main.cpp:127-132 | one or two words add up their posting lists' counts |
| `Scenario.MilkPostingSums` | main.cpp:54-77 | in an index of the test documents, each document's milk, water and sugar counts add up to 7, 3, 10 and 0 |
| `Scenario.MilkPooled` | main.cpp:121-133 | the pooled relevance map of the test batch |
| `Scenario.MilkMax` | main.cpp:136-139 | its largest value is 10 |
| `Scenario.MilkNormalized` | main.cpp:141-143 | dividing 7, 3 and 10 by 10 gives 0.7, 0.3 and 1 |
| `Scenario.MilkRanks` | main.cpp:313-315 | normalising by the maximum (main.cpp:136-143) gives the expected ranks 0.7, 0.3 and 1 |
| `Scenario.MilkCandidates` | main.cpp:155-161 | both words of "milk water" have three postings, so "milk" supplies the candidates |
| `Scenario.MilkFirstAnswer` | main.cpp:312-316 | the only answer for those candidates is documents 2, 0 and 1 with ranks 1, 0.7 and 0.3 |
| `Scenario.MilkIndexFacts` | main.cpp:319-320 | an index of the four test documents has those postings and that pooled relevance |
| `Scenario.MilkResult` | main.cpp:311-319 | against an index of the test documents the batch has one result: the three milk documents best first, and nothing for "sugar" |
| `Scenario.MilkSearch` | main.cpp:303-325 | building the index from the four documents and searching with limit 5 returns exactly the expected result of the test |

## Left out

- Threads and the mutex (main.cpp:9, 53-55, 61, 74, 79-81). The build is
  sequential, one document after another in doc_id order. Every property is
  stated per document and per term, so it does not depend on the order in
  which the threads appended postings. That order itself is not modelled.
- The regular expression engine. `\w+` is modelled directly as maximal runs
  of ASCII letters, digits and `_`. Locale-dependent classification is not
  modelled. Word extraction with `>>` uses the C locale's whitespace
  characters (space and `\t` to `\r`).
- Floating point. Relevance sums are exact naturals and ranks are exact
  reals (`sum / max`). The `float` rounding of ranks and the exact `float`
  comparison in the tests are not modelled.
- Scenario.MilkSearch: states the ranks 0.7 and 0.3 as exact decimals, not
  as the `float` values the test compares against.
- Integer widths. Doc ids, counts and relevance are unbounded. The model
  does not capture three details of the source. `FindId` compares a
  `size_t` doc_id with an `int` id. `max_value` is an `int` assigned from a
  `float`, which is exact for the integer sums involved. The posting-list
  length is compared as `size_t` against `int`.
- Index.InvertedIndex.GetWordCount: does not model the insertion that
  `operator[]` performs on a read (main.cpp:90). A read of an unseen word
  there adds an empty posting list to the dictionary. The model reads without
  inserting. No posting changes either way.
- Search.SearchServer.AnswerQuery: does not model the zero entries that
  `operator[]` inserts into the relevance map (main.cpp:164-165, 171) for a
  document without one. `CandidatesArePooled` shows that every candidate is
  already a key, so those lookups never insert.
- Search.SearchServer.Search: requires every query to have at least one word.
  For a query with no words the source reads `words[0]` of an empty vector
  (main.cpp:155), which is undefined behaviour.
- `std::sort` is replaced by an insertion sort with the same comparator. The
  two agree on the result because keys are distinct (`AnswerUnique`).
- The second test (main.cpp:327-367, 22 documents) is not replayed. Only the
  first test is (`Scenario.MilkSearch`). In `Scenario`, each test document is
  written as its words joined by single spaces (`Spaced`), which is the same
  text.
- `ConverterJSON` and `main` (main.cpp:190-299, 371-406) are configuration
  and file I/O and are not part of this model.
