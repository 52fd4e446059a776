/** The in-page search of NetworkEducationApp (`performSmartSearch` and
    `searchContent`): keep the text elements whose lower-cased text contains
    the lower-cased query, rank them by relevance and keep the first ten.
    The document is the sequence of the `textContent` of its heading,
    paragraph, list-item and cell elements in document order; an element is
    referred to by its position in that sequence. */
module Search {

  /** The most results a search returns. */
  const MaxResults: nat := 10

  /** A search only runs for queries at least this long. */
  const MinQueryLength: nat := 2

  // ----- Lower-casing (ASCII letters only) -----

  function LowerChar(c: char): char {
    if 'A' <= c <= 'Z' then (c as int + 32) as char else c
  }

  /** `toLowerCase`, restricted to the ASCII letters; every other character,
      Arabic letters included, is kept. */
  function Lower(s: string): (r: string)
    ensures |r| == |s|
    ensures forall i :: 0 <= i < |s| ==> r[i] == LowerChar(s[i])
    ensures forall i :: 0 <= i < |r| ==> !('A' <= r[i] <= 'Z')
  {
    seq(|s|, i requires 0 <= i < |s| => LowerChar(s[i]))
  }

  lemma LowerIdempotent(s: string)
    ensures Lower(Lower(s)) == Lower(s)
  {
  }

  // ----- Substring containment (`includes`) -----

  ghost predicate OccursAt(text: string, q: string, i: int) {
    0 <= i && i + |q| <= |text| && text[i..i + |q|] == q
  }

  /** `text.includes(q)`. */
  predicate Contains(text: string, q: string)
    decreases |text|
  {
    q <= text || (text != [] && Contains(text[1..], q))
  }

  /** `Contains` holds exactly when the query occurs at some position. */
  lemma {:induction false} ContainsIff(text: string, q: string)
    ensures Contains(text, q) <==> exists i :: OccursAt(text, q, i)
  {
    if q <= text {
      assert OccursAt(text, q, 0);
    } else if text != [] {
      ContainsIff(text[1..], q);
      if Contains(text[1..], q) {
        var i :| OccursAt(text[1..], q, i);
        assert text[i + 1..i + 1 + |q|] == text[1..][i..i + |q|];
        assert OccursAt(text, q, i + 1);
      }
      if exists i :: OccursAt(text, q, i) {
        var i :| OccursAt(text, q, i);
        assert i > 0;
        assert text[1..][i - 1..i - 1 + |q|] == text[i..i + |q|];
        assert OccursAt(text[1..], q, i - 1);
      }
    }
  }

  // ----- Matches in document order -----

  /** One search hit: the element, its original text, and the relevance of its
      lower-cased text to the lower-cased query. */
  datatype Match = Match(element: nat, text: string, relevance: int)

  /** The element at position `e` matches the lower-cased query `ql`. */
  predicate Hits(elements: seq<string>, e: int, ql: string)
    requires 0 <= e < |elements|
  {
    Contains(Lower(elements[e]), ql)
  }

  ghost predicate Lists(ms: seq<Match>, e: nat) {
    exists j :: 0 <= j < |ms| && ms[j].element == e
  }

  /** Elements appear in increasing document order. */
  predicate InDocumentOrder(ms: seq<Match>) {
    forall i, j :: 0 <= i < j < |ms| ==> ms[i].element < ms[j].element
  }

  /** The `matches` array `searchContent` builds, for the first `|elements|`
      elements, given `calculateRelevance` as `relevance`. */
  function Matches(elements: seq<string>, ql: string, relevance: (string, string) -> int): seq<Match> {
    if elements == [] then []
    else
      var n := |elements| - 1;
      var rest := Matches(elements[..n], ql, relevance);
      if Hits(elements, n, ql) then
        rest + [Match(n, elements[n], relevance(Lower(elements[n]), ql))]
      else rest
  }

  /** Every listed match is a hit, with the element's own text and the
      relevance of its lower-cased text. */
  ghost predicate AllHits(elements: seq<string>, ql: string, relevance: (string, string) -> int, ms: seq<Match>) {
    forall j :: 0 <= j < |ms| ==>
      ms[j].element < |elements| && ms[j].text == elements[ms[j].element] &&
      Hits(elements, ms[j].element, ql) &&
      ms[j].relevance == relevance(Lower(ms[j].text), ql)
  }

  lemma {:induction false} MatchesAreHits(elements: seq<string>, ql: string, relevance: (string, string) -> int)
    ensures AllHits(elements, ql, relevance, Matches(elements, ql, relevance))
  {
    if elements != [] {
      var n := |elements| - 1;
      var init := elements[..n];
      var rest := Matches(init, ql, relevance);
      var ms := Matches(elements, ql, relevance);
      MatchesAreHits(init, ql, relevance);
      forall j | 0 <= j < |ms|
        ensures ms[j].element < |elements| && ms[j].text == elements[ms[j].element]
        ensures Hits(elements, ms[j].element, ql)
        ensures ms[j].relevance == relevance(Lower(ms[j].text), ql)
      {
        if j < |rest| {
          assert ms[j] == rest[j];
          assert init[rest[j].element] == elements[rest[j].element];
        }
      }
    }
  }

  /** Matches come in strictly increasing document order. */
  lemma {:induction false} MatchesInDocumentOrder(elements: seq<string>, ql: string, relevance: (string, string) -> int)
    ensures InDocumentOrder(Matches(elements, ql, relevance))
  {
    if elements != [] {
      var n := |elements| - 1;
      var rest := Matches(elements[..n], ql, relevance);
      var ms := Matches(elements, ql, relevance);
      MatchesInDocumentOrder(elements[..n], ql, relevance);
      MatchesAreHits(elements[..n], ql, relevance);
      forall i, j | 0 <= i < j < |ms| ensures ms[i].element < ms[j].element {
        assert ms[i] == rest[i];
        if j < |rest| {
          assert ms[j] == rest[j];
        }
      }
    }
  }

  /** Every hit is matched. */
  lemma {:induction false} MatchesComplete(elements: seq<string>, ql: string, relevance: (string, string) -> int)
    ensures forall e :: 0 <= e < |elements| && Hits(elements, e, ql) ==> Lists(Matches(elements, ql, relevance), e)
  {
    if elements != [] {
      var n := |elements| - 1;
      var init := elements[..n];
      var rest := Matches(init, ql, relevance);
      var ms := Matches(elements, ql, relevance);
      MatchesComplete(init, ql, relevance);
      assert ms == rest || ms == rest + [ms[|ms| - 1]];
      forall e | 0 <= e < |elements| && Hits(elements, e, ql) ensures Lists(ms, e) {
        if e == n {
          assert ms[|ms| - 1].element == n;
        } else {
          assert Hits(init, e, ql);
          var j :| 0 <= j < |rest| && rest[j].element == e;
          assert ms[j] == rest[j];
        }
      }
    }
  }

  // ----- Stable sort by descending relevance -----

  /** Insert `m` after every element at least as relevant as it: the place a
      stable sort with comparator `b.relevance - a.relevance` gives an element
      that comes later in its input. */
  function InsertByRelevance(s: seq<Match>, m: Match): (r: seq<Match>)
    ensures multiset(r) == multiset(s) + multiset{m}
  {
    if s == [] then [m]
    else if s[0].relevance < m.relevance then [m] + s
    else
      assert s == [s[0]] + s[1..];
      [s[0]] + InsertByRelevance(s[1..], m)
  }

  /** `matches.sort((a, b) => b.relevance - a.relevance)`, the sort being stable. */
  function SortByRelevance(ms: seq<Match>): (r: seq<Match>)
    ensures multiset(r) == multiset(ms)
  {
    if ms == [] then []
    else
      assert ms == ms[..|ms| - 1] + [ms[|ms| - 1]];
      InsertByRelevance(SortByRelevance(ms[..|ms| - 1]), ms[|ms| - 1])
  }

  /** `a` is ranked above `b`: more relevant, or as relevant and earlier in the
      document. */
  predicate RankedAbove(a: Match, b: Match) {
    a.relevance > b.relevance || (a.relevance == b.relevance && a.element < b.element)
  }

  predicate Ranked(s: seq<Match>) {
    forall i, j :: 0 <= i < j < |s| ==> RankedAbove(s[i], s[j])
  }

  lemma {:induction false} InsertKeepsRanked(s: seq<Match>, m: Match)
    requires Ranked(s)
    requires forall x :: x in s ==> x.element < m.element
    ensures Ranked(InsertByRelevance(s, m))
  {
    if s != [] && s[0].relevance >= m.relevance {
      InsertKeepsRanked(s[1..], m);
      var r := InsertByRelevance(s, m);
      var tail := InsertByRelevance(s[1..], m);
      assert r == [s[0]] + tail;
      forall j | 0 < j < |r| ensures RankedAbove(r[0], r[j]) {
        assert r[j] in multiset(tail);
        assert r[j] in s[1..] || r[j] == m;
      }
    }
  }

  /** Sorting matches that come in document order by relevance alone, stably,
      ranks them by relevance and then by document order. */
  lemma {:induction false} SortRanks(ms: seq<Match>)
    requires InDocumentOrder(ms)
    ensures Ranked(SortByRelevance(ms))
  {
    if ms != [] {
      var init := ms[..|ms| - 1];
      var last := ms[|ms| - 1];
      SortRanks(init);
      forall x | x in SortByRelevance(init) ensures x.element < last.element {
        assert x in multiset(init);
      }
      InsertKeepsRanked(SortByRelevance(init), last);
    }
  }

  // ----- The search as a whole -----

  /** What `searchContent(query)` returns for a document. */
  function SearchResults(elements: seq<string>, query: string, relevance: (string, string) -> int): seq<Match> {
    var sorted := SortByRelevance(Matches(elements, Lower(query), relevance));
    if |sorted| <= MaxResults then sorted else sorted[..MaxResults]
  }

  /** Every result is a genuine hit carrying its relevance, and there are at
      most ten of them. */
  lemma SearchResultsAreHits(elements: seq<string>, query: string, relevance: (string, string) -> int)
    ensures |SearchResults(elements, query, relevance)| <= MaxResults
    ensures forall r :: r in SearchResults(elements, query, relevance) ==>
      r.element < |elements| && r.text == elements[r.element] &&
      Contains(Lower(r.text), Lower(query)) &&
      r.relevance == relevance(Lower(r.text), Lower(query))
  {
    var ms := Matches(elements, Lower(query), relevance);
    var sorted := SortByRelevance(ms);
    MatchesAreHits(elements, Lower(query), relevance);
    forall r | r in SearchResults(elements, query, relevance)
      ensures r.element < |elements| && r.text == elements[r.element]
      ensures Contains(Lower(r.text), Lower(query))
      ensures r.relevance == relevance(Lower(r.text), Lower(query))
    {
      assert r in sorted;
      assert r in multiset(sorted);
      var j :| 0 <= j < |ms| && ms[j] == r;
    }
  }

  /** The results are ranked by relevance, ties in document order. */
  lemma SearchResultsRanked(elements: seq<string>, query: string, relevance: (string, string) -> int)
    ensures Ranked(SearchResults(elements, query, relevance))
  {
    MatchesInDocumentOrder(elements, Lower(query), relevance);
    SortRanks(Matches(elements, Lower(query), relevance));
  }

  /** In a ranked sequence, every element of a prefix ranks above every
      element outside it. */
  lemma RankedPrefixIsBest(sorted: seq<Match>, k: nat, r: Match, m: Match)
    requires Ranked(sorted) && k <= |sorted|
    requires r in sorted[..k] && m in sorted && m !in sorted[..k]
    ensures RankedAbove(r, m)
  {
    var i :| 0 <= i < k && sorted[..k][i] == r;
    var j :| 0 <= j < |sorted| && sorted[j] == m;
    assert j >= k;
  }

  /** The results are the best hits: every hit left out ranks below every hit
      kept. */
  lemma SearchResultsAreBest(elements: seq<string>, query: string, relevance: (string, string) -> int, r: Match, m: Match)
    requires r in SearchResults(elements, query, relevance)
    requires m in Matches(elements, Lower(query), relevance)
    requires m !in SearchResults(elements, query, relevance)
    ensures RankedAbove(r, m)
  {
    var ms := Matches(elements, Lower(query), relevance);
    var sorted := SortByRelevance(ms);
    var rs := SearchResults(elements, query, relevance);
    MatchesInDocumentOrder(elements, Lower(query), relevance);
    SortRanks(ms);
    assert rs == sorted[..|rs|];
    assert m in multiset(sorted);
    RankedPrefixIsBest(sorted, |rs|, r, m);
  }

  /** When fewer than ten results come back, every hit is among them. */
  lemma SearchResultsComplete(elements: seq<string>, query: string, relevance: (string, string) -> int, e: nat)
    requires |SearchResults(elements, query, relevance)| < MaxResults
    requires e < |elements| && Contains(Lower(elements[e]), Lower(query))
    ensures exists r :: r in SearchResults(elements, query, relevance) && r.element == e
  {
    var ms := Matches(elements, Lower(query), relevance);
    var sorted := SortByRelevance(ms);
    assert Hits(elements, e, Lower(query));
    MatchesComplete(elements, Lower(query), relevance);
    var j :| 0 <= j < |ms| && ms[j].element == e;
    assert ms[j] in multiset(sorted);
    assert ms[j] in SearchResults(elements, query, relevance);
  }

  /** `searchContent`: the `forEach` loop collects the matches in document
      order, then they are sorted and cut to ten. */
  method SearchContent(elements: seq<string>, query: string, relevance: (string, string) -> int)
    returns (results: seq<Match>)
    ensures results == SearchResults(elements, query, relevance)
    ensures |results| <= MaxResults
  {
    var queryLower := Lower(query);
    var matches: seq<Match> := [];
    var i := 0;
    while i < |elements|
      invariant 0 <= i <= |elements|
      invariant matches == Matches(elements[..i], queryLower, relevance)
    {
      var text := Lower(elements[i]);
      assert elements[..i + 1][..i] == elements[..i];
      if Contains(text, queryLower) {
        matches := matches + [Match(i, elements[i], relevance(text, queryLower))];
      }
      i := i + 1;
    }
    assert elements[..i] == elements;
    var sorted := SortByRelevance(matches);
    results := if |sorted| <= MaxResults then sorted else sorted[..MaxResults];
  }

  /** What the results panel shows after a search. */
  datatype SearchView = Hidden | Shown(results: seq<Match>)

  /** `performSmartSearch`: a query shorter than two characters hides the
      results panel without searching. */
  method PerformSmartSearch(elements: seq<string>, query: string, relevance: (string, string) -> int)
    returns (view: SearchView)
    ensures view.Hidden? <==> |query| < MinQueryLength
    ensures view.Shown? ==> view.results == SearchResults(elements, query, relevance)
  {
    if |query| < MinQueryLength {
      return Hidden;
    }
    var results := SearchContent(elements, query, relevance);
    view := Shown(results);
  }
}
