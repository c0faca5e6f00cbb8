/**
 Splitting text into words.

 Documents are tokenised into maximal runs of word characters (the `\w`
 class of an ECMAScript regular expression: ASCII letters, digits and `_`),
 and queries into maximal runs of non-whitespace characters (what repeated
 `stream >> word` extraction yields). Both are "maximal runs of one character
 class", defined once here by `Runs`, and both are scanned by `NextRun`.
 */
module Text {

  /** The two character classes the engine splits on. */
  datatype CharClass = WordChars | NonSpace

  /** Membership of a character in a class; whitespace is the C locale's `isspace`. */
  predicate InClass(c: char, k: CharClass)
  {
    match k
    case WordChars => ('a' <= c <= 'z') || ('A' <= c <= 'Z') || ('0' <= c <= '9') || c == '_'
    case NonSpace => !(c == ' ' || ('\t' <= c <= '\r'))
  }

  /** Every character of `s` belongs to class `k`. */
  predicate AllIn(s: string, k: CharClass)
  {
    forall i :: 0 <= i < |s| ==> InClass(s[i], k)
  }

  /** No character of `s` belongs to class `k`. */
  predicate NoneIn(s: string, k: CharClass)
  {
    forall i :: 0 <= i < |s| ==> !InClass(s[i], k)
  }

  /** Length of the run of class-`k` characters that starts `s`. */
  function RunEnd(s: string, k: CharClass): (n: nat)
    requires s != [] && InClass(s[0], k)
    ensures 1 <= n <= |s|
    ensures AllIn(s[..n], k)
    ensures n == |s| || !InClass(s[n], k)
  {
    if |s| == 1 || !InClass(s[1], k) then 1 else 1 + RunEnd(s[1..], k)
  }

  /** A run that ends where the class ends is the one `RunEnd` measures. */
  lemma RunEndIs(s: string, k: CharClass, n: nat)
    requires s != [] && InClass(s[0], k)
    requires 1 <= n <= |s| && AllIn(s[..n], k)
    requires n == |s| || !InClass(s[n], k)
    ensures RunEnd(s, k) == n
  {
    var m := RunEnd(s, k);
    assert forall x :: 0 <= x < n ==> InClass(s[x], k) by {
      forall x | 0 <= x < n ensures InClass(s[x], k) { assert s[..n][x] == s[x]; }
    }
    assert forall x :: 0 <= x < m ==> InClass(s[x], k) by {
      forall x | 0 <= x < m ensures InClass(s[x], k) { assert s[..m][x] == s[x]; }
    }
  }

  /** The maximal runs of class-`k` characters of `s`, left to right. */
  function Runs(s: string, k: CharClass): seq<string>
    decreases |s|
  {
    if s == [] then []
    else if !InClass(s[0], k) then Runs(s[1..], k)
    else
      var n := RunEnd(s, k);
      [s[..n]] + Runs(s[n..], k)
  }

  /** Document tokens: the maximal `\w+` matches of a text. */
  function Tokens(text: string): seq<string>
  {
    Runs(text, WordChars)
  }

  /** Query words: the whitespace-separated words of a query. */
  function Words(query: string): seq<string>
  {
    Runs(query, NonSpace)
  }

  /** Every run is a non-empty string made only of class characters. */
  lemma {:induction false} RunsAreWords(s: string, k: CharClass)
    ensures forall w :: w in Runs(s, k) ==> w != [] && AllIn(w, k)
    decreases |s|
  {
    if s == [] {
    } else if !InClass(s[0], k) {
      RunsAreWords(s[1..], k);
    } else {
      var n := RunEnd(s, k);
      RunsAreWords(s[n..], k);
    }
  }

  /** A prefix without class characters contributes no run. */
  lemma {:induction false} RunsSkip(s: string, k: CharClass, i: nat)
    requires i <= |s| && NoneIn(s[..i], k)
    ensures Runs(s, k) == Runs(s[i..], k)
    decreases i
  {
    if i > 0 {
      assert !InClass(s[..i][0], k);
      assert s[1..][..i - 1] == s[1..i];
      RunsSkip(s[1..], k, i - 1);
      assert s[1..][i - 1..] == s[i..];
    }
  }

  /** A text with no class character has no run. */
  lemma RunsOfNone(s: string, k: CharClass)
    requires NoneIn(s, k)
    ensures Runs(s, k) == []
  {
    assert s[..|s|] == s;
    RunsSkip(s, k, |s|);
    assert s[|s|..] == [];
  }

  /** A text that starts with a maximal run of length `n` has that run first. */
  lemma RunsAtRun(t: string, k: CharClass, n: nat)
    requires 1 <= n <= |t| && AllIn(t[..n], k)
    requires n == |t| || !InClass(t[n], k)
    ensures Runs(t, k) == [t[..n]] + Runs(t[n..], k)
  {
    assert InClass(t[..n][0], k);
    RunEndIs(t, k, n);
  }

  /** The leftmost maximal run found at `s[i..j]` is the first run, and the rest follow from `j`. */
  lemma RunsStep(s: string, k: CharClass, i: nat, j: nat)
    requires i < j <= |s|
    requires NoneIn(s[..i], k) && AllIn(s[i..j], k)
    requires j == |s| || !InClass(s[j], k)
    ensures Runs(s, k) == [s[i..j]] + Runs(s[j..], k)
  {
    RunsSkip(s, k, i);
    var t := s[i..];
    assert t[..j - i] == s[i..j];
    assert t[j - i..] == s[j..];
    assert j - i == |t| || t[j - i] == s[j];
    RunsAtRun(t, k, j - i);
  }

  /** A string made only of class characters is one run. */
  lemma RunsOfWord(w: string, k: CharClass)
    requires w != [] && AllIn(w, k)
    ensures Runs(w, k) == [w]
  {
    assert w[..0] == [];
    RunsStep(w, k, 0, |w|);
    assert w[0..|w|] == w;
    assert w[|w|..] == [];
  }

  /** A run at the head of `a` ends inside `a` even when a separator and more text follow. */
  lemma RunsHeadBeforeSeparator(a: string, c: char, b: string, k: CharClass)
    requires !InClass(c, k) && a != [] && InClass(a[0], k)
    ensures Runs(a + [c] + b, k) == [a[..RunEnd(a, k)]] + Runs(a[RunEnd(a, k)..] + [c] + b, k)
  {
    var s := a + [c] + b;
    var n := RunEnd(a, k);
    assert s[..n] == a[..n];
    assert n < |a| ==> s[n] == a[n];
    assert n == |a| ==> s[n] == c;
    RunsAtRun(s, k, n);
    assert s[n..] == a[n..] + [c] + b;
  }

  /** A single separator splits a text: the runs of `a + [c] + b` are those of `a` then those of `b`. */
  lemma {:induction false} RunsSplit(a: string, c: char, b: string, k: CharClass)
    requires !InClass(c, k)
    ensures Runs(a + [c] + b, k) == Runs(a, k) + Runs(b, k)
    decreases |a|
  {
    if a == [] {
      assert (a + [c] + b)[1..] == b;
    } else if !InClass(a[0], k) {
      assert (a + [c] + b)[1..] == a[1..] + [c] + b;
      RunsSplit(a[1..], c, b, k);
    } else {
      RunsHeadBeforeSeparator(a, c, b, k);
      RunsSplit(a[RunEnd(a, k)..], c, b, k);
    }
  }

  /**
   Finds the leftmost maximal run of class-`k` characters in `s`: the step
   of a `std::regex_search` for `\w+` (class WordChars) and of one
   `stream >> word` extraction (class NonSpace).
   */
  method NextRun(s: string, k: CharClass) returns (found: bool, start: nat, end: nat)
    ensures found ==> start < end <= |s|
    ensures found ==> NoneIn(s[..start], k) && AllIn(s[start..end], k)
    ensures found ==> end == |s| || !InClass(s[end], k)
    ensures !found ==> NoneIn(s, k)
    ensures found ==> Runs(s, k) == [s[start..end]] + Runs(s[end..], k)
    ensures !found ==> Runs(s, k) == []
  {
    var i := 0;
    while i < |s| && !InClass(s[i], k)
      invariant i <= |s|
      invariant NoneIn(s[..i], k)
    {
      i := i + 1;
    }
    if i == |s| {
      assert s[..i] == s;
      RunsOfNone(s, k);
      return false, 0, 0;
    }
    var j := i + 1;
    while j < |s| && InClass(s[j], k)
      invariant i < j <= |s|
      invariant AllIn(s[i..j], k)
    {
      assert s[i..j + 1] == s[i..j] + [s[j]];
      j := j + 1;
    }
    RunsStep(s, k, i, j);
    return true, i, j;
  }

  /** Splits a query into its whitespace-separated words, one extraction at a time. */
  method SplitWords(query: string) returns (words: seq<string>)
    ensures words == Words(query)
  {
    words := [];
    var rest := query;
    while true
      invariant words + Runs(rest, NonSpace) == Words(query)
      decreases |rest|
    {
      var found, start, end := NextRun(rest, NonSpace);
      if !found {
        break;
      }
      words := words + [rest[start..end]];
      rest := rest[end..];
    }
  }
}
