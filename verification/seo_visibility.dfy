/** src/collectors/seo_visibility.py: turning search results into keyword
    ranks, ranks into visibility percentages, and those into one
    visibility score. The search scraper run (and the query string built
    for it from the keywords, the geo hint and the country code) is not
    part of this model; its result items arrive as a parameter. */
module SeoVisibilityCollector {
  import opened PyValues
  import opened PyStrings
  import opened PyNumbers

  // ---------------------------------------------------------------
  // rank_to_visibility
  // ---------------------------------------------------------------

  /** `rank_to_visibility(rank)`: 100 for the top three places, then three
      linear segments (8 points per place down to place 10, 2.5 per place
      down to 20, 0.45 per place down to 50), 0 outside 1..50. Every
      segment value already has at most two decimals, so the
      `round(..., 2)` of the source never changes it. */
  function RankToVisibility(rank: int): (v: real)
    ensures rank <= 0 || rank > 50 ==> v == 0.0
    ensures 1 <= rank <= 3 ==> v == 100.0
    ensures 4 <= rank <= 10 ==> v == 100.0 - (rank - 3) as real * 8.0
    ensures 11 <= rank <= 20 ==> v == 40.0 - (rank - 10) as real * 2.5
    ensures 21 <= rank <= 50 ==> v == 15.0 - (rank - 20) as real * 0.45
  {
    if rank <= 0 then 0.0
    else if rank <= 3 then 100.0
    else if rank <= 10 then
      var x := 100.0 - (rank - 3) as real * 8.0;
      ExactHundredths(x, (100 - (rank - 3) * 8) * 100);
      Round2(x)
    else if rank <= 20 then
      var x := 40.0 - (rank - 10) as real * 2.5;
      ExactHundredths(x, 4000 - (rank - 10) * 250);
      Round2(x)
    else if rank <= 50 then
      var x := 15.0 - (rank - 20) as real * 0.45;
      ExactHundredths(x, 1500 - (rank - 20) * 45);
      Round2(x)
    else 0.0
  }

  lemma ExactHundredths(x: real, n: int)
    requires x == n as real / 100.0
    ensures Round2(x) == x
  {
    Round2OfHundredths(n);
  }

  /** Visibility always lies in [0, 100]. */
  lemma VisibilityWithinBounds(rank: int)
    ensures 0.0 <= RankToVisibility(rank) <= 100.0
  {
  }

  /** Visibility never grows as the rank gets worse, across the segment
      edges as well. */
  lemma VisibilityNonIncreasing(better: int, worse: int)
    requires 1 <= better <= worse
    ensures RankToVisibility(worse) <= RankToVisibility(better)
  {
  }

  /** The values at the segment edges. */
  lemma VisibilityAtEdges()
    ensures RankToVisibility(3) == 100.0 && RankToVisibility(4) == 92.0
    ensures RankToVisibility(10) == 44.0 && RankToVisibility(11) == 37.5
    ensures RankToVisibility(20) == 15.0 && RankToVisibility(21) == 14.55
    ensures RankToVisibility(50) == 1.5 && RankToVisibility(51) == 0.0
  {
  }

  // ---------------------------------------------------------------
  // Ranks
  // ---------------------------------------------------------------

  /** `normalize_domain(url)`: the host with every "www." removed,
      lower-cased; the host part of a URL (`urlparse(url).netloc`) is
      library behaviour and a parameter. */
  function NormalizeDomain(url: string, netloc: string -> string): (d: string)
    ensures IsLowerCase(d)
  {
    Lower(ReplaceAll(netloc(url), "www.", ""))
  }

  /** An organic result hits: it has a URL and its domain contains the
      target domain. */
  predicate Hit(url: string, target: string, netloc: string -> string) {
    url != "" && Contains(NormalizeDomain(url, netloc), target)
  }

  /** The 1-based position of the first element satisfying `p`, or 0
      when there is none. */
  function FirstMatch<T>(xs: seq<T>, p: T -> bool): (n: nat)
    ensures n <= |xs|
    ensures n == 0 <==> forall j :: 0 <= j < |xs| ==> !p(xs[j])
    ensures n > 0 ==> p(xs[n - 1])
    ensures forall j :: 0 <= j < n - 1 ==> !p(xs[j])
  {
    if |xs| == 0 then 0
    else if p(xs[0]) then 1
    else
      var r := FirstMatch(xs[1..], p);
      assert forall j :: 1 <= j < |xs| ==> xs[j] == xs[1..][j - 1];
      if r == 0 then 0 else r + 1
  }

  /** The 1-based position of the first hit among the organic results, or
      0 when none hits (characterised by `RankOfIsFirstHit`). */
  function RankOf(urls: seq<string>, target: string, netloc: string -> string): (rank: nat)
    ensures rank <= |urls|
  {
    FirstMatch(urls, u => Hit(u, target, netloc))
  }

  /** The rank is 0 exactly when no result hits, and otherwise the
      position of the first result that hits. */
  lemma RankOfIsFirstHit(urls: seq<string>, target: string, netloc: string -> string)
    ensures var rank := RankOf(urls, target, netloc);
            (rank == 0 <==> forall j :: 0 <= j < |urls| ==> !Hit(urls[j], target, netloc)) &&
            (rank > 0 ==> Hit(urls[rank - 1], target, netloc)) &&
            (forall j :: 0 <= j < rank - 1 ==> !Hit(urls[j], target, netloc))
  {
    RankOfNoHit(urls, target, netloc);
    RankOfHit(urls, target, netloc);
  }

  lemma RankOfNoHit(urls: seq<string>, target: string, netloc: string -> string)
    ensures RankOf(urls, target, netloc) == 0 <==> forall j :: 0 <= j < |urls| ==> !Hit(urls[j], target, netloc)
  {
    var hit := u => Hit(u, target, netloc);
    assert forall j :: 0 <= j < |urls| ==> hit(urls[j]) == Hit(urls[j], target, netloc);
  }

  lemma RankOfHit(urls: seq<string>, target: string, netloc: string -> string)
    ensures var rank := RankOf(urls, target, netloc);
            (rank > 0 ==> Hit(urls[rank - 1], target, netloc)) &&
            (forall j :: 0 <= j < rank - 1 ==> !Hit(urls[j], target, netloc))
  {
    var hit := u => Hit(u, target, netloc);
    assert forall j :: 0 <= j < |urls| ==> hit(urls[j]) == Hit(urls[j], target, netloc);
  }

  /** Lines 79-90: scan the organic results in order, skip those without
      a URL, and stop at the first whose domain contains the target. */
  method FindRank(urls: seq<string>, target: string, netloc: string -> string) returns (rank: nat)
    ensures rank == RankOf(urls, target, netloc)
  {
    var idx := 0;
    while idx < |urls|
      invariant 0 <= idx <= |urls|
      invariant forall j :: 0 <= j < idx ==> !Hit(urls[j], target, netloc)
    {
      // A result without a URL is skipped; otherwise its normalised
      // domain is searched for the target.
      if Hit(urls[idx], target, netloc) {
        RankIsFirstHit(urls, target, netloc, idx + 1);
        return idx + 1;
      }
      idx := idx + 1;
    }
    RankIsFirstHit(urls, target, netloc, 0);
    return 0;
  }

  /** Only one position can be the first hit. */
  lemma RankIsFirstHit(urls: seq<string>, target: string, netloc: string -> string, n: nat)
    requires n <= |urls|
    requires n == 0 ==> forall j :: 0 <= j < |urls| ==> !Hit(urls[j], target, netloc)
    requires n > 0 ==> Hit(urls[n - 1], target, netloc)
    requires forall j :: 0 <= j < n - 1 ==> !Hit(urls[j], target, netloc)
    ensures RankOf(urls, target, netloc) == n
  {
    RankOfIsFirstHit(urls, target, netloc);
  }

  /** With an empty target domain (a website URL without a host) every
      result with a URL hits, so the rank is that of the first such result. */
  lemma EmptyTargetHitsFirstUrl(urls: seq<string>, netloc: string -> string)
    requires exists j :: 0 <= j < |urls| && urls[j] != ""
    ensures var rank := RankOf(urls, "", netloc);
            rank > 0 && urls[rank - 1] != "" &&
            forall j :: 0 <= j < rank - 1 ==> urls[j] == ""
  {
    RankOfIsFirstHit(urls, "", netloc);
    forall j | 0 <= j < |urls| && urls[j] != ""
      ensures Hit(urls[j], "", netloc)
    {
      ContainsEmpty(NormalizeDomain(urls[j], netloc));
    }
  }

  // ---------------------------------------------------------------
  // Keyword tables
  // ---------------------------------------------------------------

  /** A dict in insertion order, as (key, value) pairs. */
  type Table<V> = seq<(string, V)>

  function KeySet<V>(t: Table<V>): set<string> {
    if |t| == 0 then {} else {t[0].0} + KeySet(t[1..])
  }

  predicate DistinctKeys<V>(t: Table<V>) {
    forall i, j :: 0 <= i < j < |t| ==> t[i].0 != t[j].0
  }

  /** `t.get(k)`. */
  function Lookup<V>(t: Table<V>, k: string): (r: Option<V>)
    ensures r.Some? <==> k in KeySet(t)
  {
    if |t| == 0 then None
    else if t[0].0 == k then Some(t[0].1)
    else Lookup(t[1..], k)
  }

  /** `t[k] = v`: an existing key keeps its place and gets the new value, a
      new key goes at the end. */
  function Put<V>(t: Table<V>, k: string, v: V): (r: Table<V>)
    ensures KeySet(r) == KeySet(t) + {k}
    ensures Lookup(r, k) == Some(v)
    ensures forall k' :: k' != k ==> Lookup(r, k') == Lookup(t, k')
    ensures |r| == (if k in KeySet(t) then |t| else |t| + 1)
    ensures k in KeySet(t) ==> forall i :: 0 <= i < |t| ==> r[i].0 == t[i].0
    ensures k !in KeySet(t) ==> r == t + [(k, v)]
  {
    if |t| == 0 then [(k, v)]
    else if t[0].0 == k then [(k, v)] + t[1..]
    else
      var rest := Put(t[1..], k, v);
      assert ([t[0]] + rest)[1..] == rest;
      assert k in KeySet(t) ==> k in KeySet(t[1..]);
      assert t == [t[0]] + t[1..];
      [t[0]] + rest
  }

  /** The number of keys of a table with distinct keys. */
  lemma {:induction false} DistinctKeysCount<V>(t: Table<V>)
    requires DistinctKeys(t)
    ensures |KeySet(t)| == |t|
  {
    if |t| > 0 {
      assert DistinctKeys(t[1..]);
      DistinctKeysCount(t[1..]);
      assert t[0].0 !in KeySet(t[1..]) by {
        if t[0].0 in KeySet(t[1..]) {
          KeyHasIndex(t[1..], t[0].0);
        }
      }
    }
  }

  lemma {:induction false} KeyHasIndex<V>(t: Table<V>, k: string)
    requires k in KeySet(t)
    ensures exists i :: 0 <= i < |t| && t[i].0 == k
  {
    if t[0].0 != k {
      KeyHasIndex(t[1..], k);
      var i :| 0 <= i < |t[1..]| && t[1..][i].0 == k;
      assert t[i + 1].0 == k;
    }
  }

  /** One search result item: the query text (`searchQuery.q`, "" when it
      is absent, `None` or empty) and the organic result URLs ("" when a
      result has no URL). */
  datatype SearchItem = SearchItem(query: string, organicUrls: seq<string>)

  /** `keyword_rankings` after the given items: each item with a query
      sets that query's rank, a later item overwriting an earlier one. */
  function Rankings(items: seq<SearchItem>, target: string, netloc: string -> string): Table<nat> {
    if |items| == 0 then []
    else
      var t := Rankings(items[..|items| - 1], target, netloc);
      var it := items[|items| - 1];
      if it.query == "" then t else Put(t, it.query, RankOf(it.organicUrls, target, netloc))
  }

  /** `keyword_visibility`: the same keys in the same order, each rank
      turned into its visibility. */
  function Visibilities(t: Table<nat>): (r: Table<real>)
    ensures |r| == |t|
    ensures forall i :: 0 <= i < |t| ==> r[i] == (t[i].0, RankToVisibility(t[i].1))
  {
    if |t| == 0 then [] else [(t[0].0, RankToVisibility(t[0].1))] + Visibilities(t[1..])
  }

  /** Setting a rank and setting its visibility in the parallel table
      agree. */
  lemma {:induction false} VisibilitiesPut(t: Table<nat>, k: string, rank: nat)
    ensures Visibilities(Put(t, k, rank)) == Put(Visibilities(t), k, RankToVisibility(rank))
  {
    if |t| > 0 && t[0].0 != k {
      VisibilitiesPut(t[1..], k, rank);
      assert Visibilities(t)[1..] == Visibilities(t[1..]);
    } else if |t| > 0 {
      assert Visibilities(t)[1..] == Visibilities(t[1..]);
    }
  }

  /** The queries of the items, leaving out the empty ones. */
  function Queries(items: seq<SearchItem>): set<string> {
    set i | 0 <= i < |items| && items[i].query != "" :: items[i].query
  }

  /** The ranking table has one key per distinct non-empty query. */
  lemma {:induction false} RankingsKeys(items: seq<SearchItem>, target: string, netloc: string -> string)
    ensures KeySet(Rankings(items, target, netloc)) == Queries(items)
    ensures DistinctKeys(Rankings(items, target, netloc))
    decreases |items|
  {
    if |items| > 0 {
      var init := items[..|items| - 1];
      RankingsKeys(init, target, netloc);
      QueriesSnoc(items);
      var t := Rankings(init, target, netloc);
      var it := items[|items| - 1];
      if it.query != "" {
        PutKeepsDistinct(t, it.query, RankOf(it.organicUrls, target, netloc));
      }
    }
  }

  lemma QueriesSnoc(items: seq<SearchItem>)
    requires |items| > 0
    ensures var last := items[|items| - 1];
            Queries(items) == Queries(items[..|items| - 1]) + (if last.query != "" then {last.query} else {})
  {
    var init := items[..|items| - 1];
    assert forall i :: 0 <= i < |init| ==> init[i] == items[i];
  }

  lemma {:induction false} PutKeepsDistinct<V>(t: Table<V>, k: string, v: V)
    requires DistinctKeys(t)
    ensures DistinctKeys(Put(t, k, v))
  {
    if |t| > 0 && t[0].0 != k {
      PutKeepsDistinct(t[1..], k, v);
      var rest := Put(t[1..], k, v);
      forall j | 0 <= j < |rest| ensures rest[j].0 != t[0].0 {
        if rest[j].0 == t[0].0 {
          KeyIndexInSet(rest, j);
          assert t[0].0 in KeySet(t[1..]);
          KeyHasIndex(t[1..], t[0].0);
        }
      }
      assert [t[0]] + rest == Put(t, k, v);
    } else if |t| > 0 {
      assert Put(t, k, v)[1..] == t[1..];
    }
  }

  lemma {:induction false} KeyIndexInSet<V>(t: Table<V>, i: nat)
    requires i < |t|
    ensures t[i].0 in KeySet(t)
  {
    if i > 0 {
      KeyIndexInSet(t[1..], i - 1);
    }
  }

  /** The last item with a given query decides its rank. */
  lemma {:induction false} LastItemWins(items: seq<SearchItem>, target: string, netloc: string -> string, i: nat)
    requires i < |items|
    requires items[i].query != ""
    requires forall j :: i < j < |items| ==> items[j].query != items[i].query
    ensures Lookup(Rankings(items, target, netloc), items[i].query) ==
              Some(RankOf(items[i].organicUrls, target, netloc))
    decreases |items|
  {
    if i < |items| - 1 {
      var init := items[..|items| - 1];
      assert init[i] == items[i];
      LastItemWins(init, target, netloc, i);
    }
  }

  // ---------------------------------------------------------------
  // The visibility score
  // ---------------------------------------------------------------

  function SumValues(t: Table<real>): real {
    if |t| == 0 then 0.0 else t[0].1 + SumValues(t[1..])
  }

  /** Visibilities add up to at most 100 per key. */
  lemma {:induction false} SumVisibilitiesBounds(t: Table<nat>)
    ensures 0.0 <= SumValues(Visibilities(t)) <= 100.0 * |t| as real
  {
    if |t| > 0 {
      SumVisibilitiesBounds(t[1..]);
      assert Visibilities(t)[1..] == Visibilities(t[1..]);
      VisibilityWithinBounds(t[0].1);
    }
  }

  /** `round(sum(values) / len(values), 2)`, or 0.0 for an empty table. */
  function VisibilityScore(vis: Table<real>): real {
    if |vis| == 0 then 0.0 else Round2(SumValues(vis) / |vis| as real)
  }

  lemma MeanBounds(sum: real, n: nat)
    requires n > 0
    requires 0.0 <= sum <= 100.0 * n as real
    ensures 0.0 <= sum / n as real <= 100.0
  {
    var mean := sum / n as real;
    assert mean * n as real == sum;
    if mean > 100.0 {
      assert mean * n as real > 100.0 * n as real;
    }
  }

  /** The collector's result. */
  datatype SeoResult = SeoResult(
    keywordRankings: Table<nat>,
    keywordVisibility: Table<real>,
    visibilityScore: real)

  /** The part of `get_seo_visibility` that reads the search results
      (lines 68-98): one rank and one visibility per distinct query, later
      items overwriting earlier ones, and the rounded mean visibility as
      the score (0.0 without any query), which lies in [0, 100]. */
  method GetSeoVisibility(websiteUrl: string, items: seq<SearchItem>, netloc: string -> string)
    returns (result: SeoResult)
    ensures var target := NormalizeDomain(websiteUrl, netloc);
            result.keywordRankings == Rankings(items, target, netloc) &&
            KeySet(result.keywordRankings) == Queries(items)
    ensures result.keywordVisibility == Visibilities(result.keywordRankings)
    ensures |result.keywordVisibility| == |Queries(items)|
    ensures |Queries(items)| == 0 ==> result.visibilityScore == 0.0
    ensures |Queries(items)| > 0 ==>
              result.visibilityScore == Round2(SumValues(result.keywordVisibility) / |Queries(items)| as real)
    ensures 0.0 <= result.visibilityScore <= 100.0
  {
    var target := NormalizeDomain(websiteUrl, netloc);
    var rankings: Table<nat> := [];
    var visibility: Table<real> := [];
    var i := 0;
    while i < |items|
      invariant 0 <= i <= |items|
      invariant rankings == Rankings(items[..i], target, netloc)
      invariant visibility == Visibilities(rankings)
    {
      var item := items[i];
      assert items[..i + 1][..i] == items[..i];
      if item.query != "" {
        var rank := FindRank(item.organicUrls, target, netloc);
        VisibilitiesPut(rankings, item.query, rank);
        rankings := Put(rankings, item.query, rank);
        visibility := Put(visibility, item.query, RankToVisibility(rank));
      }
      i := i + 1;
    }
    assert items[..i] == items;
    RankingsKeys(items, target, netloc);
    DistinctKeysCount(rankings);
    var score := 0.0;
    if |visibility| > 0 {
      SumVisibilitiesBounds(rankings);
      MeanBounds(SumValues(visibility), |visibility|);
      Round2Within(SumValues(visibility) / |visibility| as real, 0, 100);
      score := Round2(SumValues(visibility) / |visibility| as real);
    }
    result := SeoResult(rankings, visibility, score);
  }
}
