/** Helpers for open-ended survey answers: keyword frequencies, the word
    cloud's input, and the word-list sentiment score used when TextBlob is
    not installed. */
module TextAnalysis {
  import opened Common
  import opened Strings
  import opened Values
  import opened Counters
  import Sorting

  /** `text.lower().split()`. */
  function Tokens(text: string): (r: seq<string>)
    ensures forall k :: 0 <= k < |r| ==> IsWord(r[k])
  {
    Split(AsciiLower(text))
  }

  /** Every token of every response, in reading order. */
  function AllTokens(responses: seq<string>): seq<string>
  {
    Flatten(seq(|responses|, i requires 0 <= i < |responses| => Tokens(responses[i])))
  }

  /** Total occurrences of `token` across all responses. */
  function Occurrences(responses: seq<string>, token: string): nat
  {
    multiset(AllTokens(responses))[token]
  }

  /** Orders (token, count) pairs by decreasing count. */
  function ByCountDescending(entry: (string, nat)): Cell
  {
    Some(Num(-(entry.1 as real)))
  }

  /** The first `n` elements of `s`, or all of them; none for `n <= 0`. */
  function Top<T>(s: seq<T>, n: int): (r: seq<T>)
    ensures |r| == if n <= 0 then 0 else if n < |s| then n else |s|
    ensures forall i :: 0 <= i < |r| ==> r[i] == s[i]
  {
    if n <= 0 then [] else if n < |s| then s[..n] else s
  }

  /** `counter.most_common(n)`: the entries by decreasing count, ties in
      first-counted order, cut to the first `n`; nothing for `n <= 0`. */
  function MostCommon(counter: Counter<string>, n: int): (r: seq<(string, nat)>)
    ensures |r| == if n <= 0 then 0 else if n < |counter| then n else |counter|
  {
    Top(Sorting.SortBy(counter, ByCountDescending), n)
  }

  /** `keyword_counts(responses, top_n)`. */
  function KeywordCounts(responses: seq<string>, topN: int): (r: seq<(string, nat)>)
    ensures |r| == if topN <= 0 then 0 else if topN < |Tally(AllTokens(responses))| then topN else |Tally(AllTokens(responses))|
  {
    MostCommon(Tally(AllTokens(responses)), topN)
  }

  /** In a Counter built by counting, each entry holds its token's count. */
  lemma TallyEntries(s: seq<string>)
    ensures forall p :: p in Tally(s) ==> p.1 == multiset(s)[p.0] && p.1 >= 1
  {
    var c := Tally(s);
    forall p | p in c
      ensures p.1 == multiset(s)[p.0] && p.1 >= 1
    {
      var i :| 0 <= i < |c| && c[i] == p;
      GetAt(c, i);
    }
  }

  /** Sorting a Counter by decreasing count keeps its keys distinct. */
  lemma SortedKeysDistinct(c: Counter<string>)
    requires DistinctKeys(c)
    ensures var s := Sorting.SortBy(c, ByCountDescending);
      forall i, j :: 0 <= i < j < |s| ==> s[i].1 >= s[j].1 && s[i].0 != s[j].0
  {
    var s := Sorting.SortBy(c, ByCountDescending);
    assert Distinct(c);
    DistinctPermutation(c, s);
    forall i, j | 0 <= i < j < |s|
      ensures s[i].1 >= s[j].1 && s[i].0 != s[j].0
    {
      assert Values.CellLe(ByCountDescending(s[i]), ByCountDescending(s[j]));
      assert s[i] in multiset(c) && s[j] in multiset(c);
      var a :| 0 <= a < |c| && c[a] == s[i];
      var b :| 0 <= b < |c| && c[b] == s[j];
      assert a != b;
    }
  }

  /** The Counter sorted by decreasing count: exact counts, no token twice,
      and every token present. */
  lemma SortedCounts(all: seq<string>)
    ensures var s := Sorting.SortBy(Tally(all), ByCountDescending);
      && (forall p :: p in s ==> p.1 == multiset(all)[p.0] && p.1 >= 1)
      && (forall i, j :: 0 <= i < j < |s| ==> s[i].1 >= s[j].1 && s[i].0 != s[j].0)
      && (forall t :: t in all ==> Ranked(s, t))
  {
    SortedCountsExact(all);
    SortedKeysDistinct(Tally(all));
    SortedCountsComplete(all);
  }

  lemma SortedCountsExact(all: seq<string>)
    ensures forall p :: p in Sorting.SortBy(Tally(all), ByCountDescending) ==> p.1 == multiset(all)[p.0] && p.1 >= 1
  {
    var c := Tally(all);
    TallyEntries(all);
    Sorting.SortByMembers(c, ByCountDescending);
    forall p | p in Sorting.SortBy(c, ByCountDescending)
      ensures p.1 == multiset(all)[p.0] && p.1 >= 1
    {
      assert p in c;
    }
  }

  lemma SortedCountsComplete(all: seq<string>)
    ensures forall t :: t in all ==> Ranked(Sorting.SortBy(Tally(all), ByCountDescending), t)
  {
    var c := Tally(all);
    var s := Sorting.SortBy(c, ByCountDescending);
    Sorting.SortByMembers(c, ByCountDescending);
    forall t | t in all
      ensures Ranked(s, t)
    {
      TallyHasAll(all, t);
      var k :| 0 <= k < |c| && c[k].0 == t;
      assert c[k] in s;
      var m :| 0 <= m < |s| && s[m] == c[k];
      assert s[m].0 == t;
    }
  }

  /** `t` has an entry in `s`. */
  predicate Ranked(s: seq<(string, nat)>, t: string)
  {
    exists m :: 0 <= m < |s| && s[m].0 == t
  }

  /** An element of a duplicate-free, decreasing list that the top `n` leave
      out was left out for lack of room, and counts no more than any kept. */
  lemma TopOmitted(s: seq<(string, nat)>, n: int, m: nat)
    requires forall i, j :: 0 <= i < j < |s| ==> s[i].1 >= s[j].1 && s[i].0 != s[j].0
    requires m < |s| && forall i :: 0 <= i < |Top(s, n)| ==> Top(s, n)[i].0 != s[m].0
    ensures |Top(s, n)| >= n
    ensures forall i :: 0 <= i < |Top(s, n)| ==> Top(s, n)[i].1 >= s[m].1
  {
    if m < |Top(s, n)| {
      TopAt(s, n, m);
    }
  }

  lemma TopAt<T>(s: seq<T>, n: int, i: nat)
    requires i < |Top(s, n)|
    ensures Top(s, n)[i] == s[i]
  {
  }

  /** The first `n` most common tokens of `all` carry their exact counts,
      in decreasing order, each token once. */
  lemma MostCommonCounts(all: seq<string>, n: int)
    ensures var r := MostCommon(Tally(all), n);
      && (forall i :: 0 <= i < |r| ==> r[i].1 == multiset(all)[r[i].0] && r[i].1 >= 1)
      && (forall i, j :: 0 <= i < j < |r| ==> r[i].1 >= r[j].1 && r[i].0 != r[j].0)
  {
    var s := Sorting.SortBy(Tally(all), ByCountDescending);
    var r := MostCommon(Tally(all), n);
    SortedCounts(all);
    assert forall i :: 0 <= i < |r| ==> r[i] == s[i] && s[i] in s;
  }

  /** A token of `all` missing from the first `n` most common was left out
      for lack of room, and occurs no more often than any token kept. */
  lemma MostCommonOmitted(all: seq<string>, n: int)
    ensures var r := MostCommon(Tally(all), n);
      forall t :: t in all && (forall i :: 0 <= i < |r| ==> r[i].0 != t) ==>
        |r| >= n && forall i :: 0 <= i < |r| ==> r[i].1 >= multiset(all)[t]
  {
    var s := Sorting.SortBy(Tally(all), ByCountDescending);
    var r := MostCommon(Tally(all), n);
    SortedCounts(all);
    forall t | t in all && (forall i :: 0 <= i < |r| ==> r[i].0 != t)
      ensures |r| >= n && forall i :: 0 <= i < |r| ==> r[i].1 >= multiset(all)[t]
    {
      var m :| 0 <= m < |s| && s[m].0 == t;
      assert s[m] in s;
      TopOmitted(s, n, m);
    }
  }

  /** The keyword counts are exact, decreasing, duplicate-free, and complete
      at the top: every token left out occurs at most as often as every
      token kept, and none is left out while there is room. */
  lemma KeywordCountsRanked(responses: seq<string>, topN: int)
    ensures var r := KeywordCounts(responses, topN);
      && (forall i :: 0 <= i < |r| ==> r[i].1 == Occurrences(responses, r[i].0) && r[i].1 >= 1)
      && (forall i, j :: 0 <= i < j < |r| ==> r[i].1 >= r[j].1 && r[i].0 != r[j].0)
      && (forall t :: t in AllTokens(responses) && (forall i :: 0 <= i < |r| ==> r[i].0 != t) ==>
            |r| >= topN && forall i :: 0 <= i < |r| ==> r[i].1 >= Occurrences(responses, t))
  {
    var all := AllTokens(responses);
    assert KeywordCounts(responses, topN) == MostCommon(Tally(all), topN);
    assert forall t :: Occurrences(responses, t) == multiset(all)[t];
    MostCommonCounts(all, topN);
    MostCommonOmitted(all, topN);
  }

  /** `word_cloud_frequencies(responses)`: the 200 most frequent tokens,
      ranked as `keyword_counts` ranks them. */
  function WordCloudFrequencies(responses: seq<string>): (r: seq<(string, nat)>)
    ensures |r| <= 200
    ensures forall i :: 0 <= i < |r| ==> r[i].1 == Occurrences(responses, r[i].0)
    ensures forall i, j :: 0 <= i < j < |r| ==> r[i].1 >= r[j].1 && r[i].0 != r[j].0
    ensures forall t :: t in AllTokens(responses) && (forall i :: 0 <= i < |r| ==> r[i].0 != t) ==>
      |r| == 200 && forall i :: 0 <= i < |r| ==> r[i].1 >= Occurrences(responses, t)
  {
    KeywordCountsRanked(responses, 200);
    KeywordCounts(responses, 200)
  }

  const PositiveWords: set<string> := {"good", "great", "love", "excellent", "satisfied"}

  const NegativeWords: set<string> := {"bad", "poor", "hate", "terrible", "unsatisfied"}

  predicate IsPositive(token: string)
  {
    token in PositiveWords
  }

  predicate IsNegative(token: string)
  {
    token in NegativeWords
  }

  /** `max(-1.0, min(1.0, x))`. */
  function Clamp(x: real): (r: real)
    ensures -1.0 <= r <= 1.0
    ensures -1.0 <= x <= 1.0 ==> r == x
  {
    if x > 1.0 then 1.0 else if x < -1.0 then -1.0 else x
  }

  /** The word-list score before clamping: positive minus negative tokens,
      over the number of tokens (at least one). */
  function RawScore(tokens: seq<string>): real
  {
    var score := CountIf(tokens, IsPositive) as int - CountIf(tokens, IsNegative) as int;
    score as real / (if |tokens| > 1 then |tokens| else 1) as real
  }

  /** `sentiment_score(text)` without TextBlob: 0 for empty text, otherwise
      the clamped word-list score. */
  function SentimentScore(text: string): (r: real)
    ensures -1.0 <= r <= 1.0
    ensures text == "" ==> r == 0.0
  {
    if text == "" then 0.0 else Clamp(RawScore(Tokens(text)))
  }

  /** A fraction whose numerator is at most its denominator in size lies
      in [-1, 1] and has the numerator's sign. */
  lemma Fraction(x: real, d: real)
    requires d >= 1.0 && -d <= x <= d
    ensures -1.0 <= x / d <= 1.0
    ensures x / d > 0.0 <==> x > 0.0
    ensures x / d < 0.0 <==> x < 0.0
  {
    var q := x / d;
    assert q * d == x;
  }

  /** The raw score is a fraction in [-1, 1] whose sign is that of
      #positive - #negative. */
  lemma RawScoreBounds(tokens: seq<string>)
    ensures var pos, neg := CountIf(tokens, IsPositive), CountIf(tokens, IsNegative);
      -1.0 <= RawScore(tokens) <= 1.0
      && (RawScore(tokens) > 0.0 <==> pos > neg)
      && (RawScore(tokens) < 0.0 <==> neg > pos)
  {
    var pos, neg := CountIf(tokens, IsPositive), CountIf(tokens, IsNegative);
    var d: real := (if |tokens| > 1 then |tokens| else 1) as real;
    var x: real := (pos as int - neg as int) as real;
    assert RawScore(tokens) == x / d;
    Fraction(x, d);
  }

  /** The clamp never engages: neither count exceeds the number of tokens,
      so the raw score already lies in [-1, 1]. */
  lemma ClampInactive(text: string)
    requires text != ""
    ensures SentimentScore(text) == RawScore(Tokens(text))
  {
    RawScoreBounds(Tokens(text));
  }

  /** The score is positive exactly when positive words outnumber negative
      ones, negative exactly when the reverse holds. */
  lemma SentimentSign(text: string)
    ensures var tokens := Tokens(text);
      var pos, neg := CountIf(tokens, IsPositive), CountIf(tokens, IsNegative);
      (SentimentScore(text) > 0.0 <==> text != "" && pos > neg)
      && (SentimentScore(text) < 0.0 <==> text != "" && neg > pos)
  {
    if text != "" {
      RawScoreBounds(Tokens(text));
      ClampInactive(text);
    }
  }

  /** Text with no words scores 0, like the empty string. */
  lemma BlankTextNeutral(text: string)
    requires forall i :: 0 <= i < |text| ==> IsSpace(text[i])
    ensures SentimentScore(text) == 0.0
  {
    var lowered := AsciiLower(text);
    assert forall i :: 0 <= i < |lowered| ==> IsSpace(lowered[i]);
    SplitBlank(lowered);
  }
}
