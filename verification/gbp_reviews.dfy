/** src/collectors/gbp_reviews.py: the review statistics of a Google
    Business Profile (`analyze_google_reviews`) and the choice of the best
    place among the scraper's candidates. The scraper call itself is not
    part of this model; its items arrive as parameters. */
module GbpReviews {
  import opened PyValues
  import opened PyStrings
  import opened PyNumbers

  // ---------------------------------------------------------------
  // Review statistics
  // ---------------------------------------------------------------

  /** The five `google_*` statistics; `None` where the source returns `None`. */
  datatype GoogleStats = GoogleStats(
    total: Option<int>,
    positive: Option<int>,
    negative: Option<int>,
    replyRate: Option<real>,
    avgResponseTime: Option<real>)

  /** The statistics of an empty review list: all five `None`. */
  const NoStats := GoogleStats(None, None, None, None, None)

  const RatingKeys: seq<string> := ["rating", "stars", "reviewRating"]
  const ReplyKeys: seq<string> := ["ownerResponse", "response", "reviewReply"]

  /** `_safe_float(r.get("rating") or r.get("stars") or r.get("reviewRating"))`. */
  function Rating(r: PyDict, p: Parsers): Option<real> {
    SafeFloat(GetAny(r, RatingKeys), p)
  }

  /** The review counts as positive: a readable rating of at least 4. */
  predicate IsPositive(r: PyDict, p: Parsers) {
    Rating(r, p).Some? && Rating(r, p).value >= 4.0
  }

  /** The review counts as negative: a readable rating of at most 2. */
  predicate IsNegative(r: PyDict, p: Parsers) {
    Rating(r, p).Some? && Rating(r, p).value <= 2.0
  }

  /** The owner answered: one of the reply keys holds a truthy value. */
  predicate IsReplied(r: PyDict) {
    IsTruthy(GetAny(r, ReplyKeys))
  }

  /** Reference counts over a review list, one review at a time. */
  function CountPositive(reviews: seq<PyDict>, p: Parsers): (n: nat)
    ensures n <= |reviews|
  {
    if |reviews| == 0 then 0
    else CountPositive(reviews[..|reviews| - 1], p) + (if IsPositive(reviews[|reviews| - 1], p) then 1 else 0)
  }

  function CountNegative(reviews: seq<PyDict>, p: Parsers): (n: nat)
    ensures n <= |reviews|
  {
    if |reviews| == 0 then 0
    else CountNegative(reviews[..|reviews| - 1], p) + (if IsNegative(reviews[|reviews| - 1], p) then 1 else 0)
  }

  /** A review is never both positive and negative, so the two counts
      together never exceed the number of reviews. */
  lemma {:induction false} PositiveNegativeDisjoint(reviews: seq<PyDict>, p: Parsers)
    ensures CountPositive(reviews, p) + CountNegative(reviews, p) <= |reviews|
    decreases |reviews|
  {
    if |reviews| > 0 {
      PositiveNegativeDisjoint(reviews[..|reviews| - 1], p);
    }
  }

  /** A review whose rating is missing or cannot be read as a number is
      neither positive nor negative. */
  lemma UnreadableRatingCountsAsNeither(r: PyDict, p: Parsers)
    requires Rating(r, p).None?
    ensures !IsPositive(r, p) && !IsNegative(r, p)
  {
  }

  lemma RatioOfSelf(x: real)
    requires x > 0.0
    ensures x / x == 1.0
  {
  }

  /** `round(replied / total * 100, 2)` for a non-empty list: the
      percentage of replied reviews to within rounding, in [0, 100], and
      exactly 0 or 100 when none or all are replied. */
  function ReplyRate(replied: nat, total: nat): (rate: real)
    requires 0 < total
    requires replied <= total
    ensures 0.0 <= rate <= 100.0
    ensures replied as real / total as real * 100.0 - 0.005 <= rate
    ensures rate <= replied as real / total as real * 100.0 + 0.005
    ensures replied == 0 ==> rate == 0.0
    ensures replied == total ==> rate == 100.0
  {
    var exact := replied as real / total as real * 100.0;
    assert replied as real / total as real <= 1.0;
    Round2Within(exact, 0, 100);
    assert replied == 0 ==> exact == 0 as real / 100.0;
    RatioOfSelf(total as real);
    assert replied == total ==> exact == 10000 as real / 100.0;
    Round2OfHundredths(0);
    Round2OfHundredths(10000);
    Round2(exact)
  }

  /** Extending the counted prefix by one review adds that review's share
      to each count. */
  lemma CountsStep(reviews: seq<PyDict>, i: nat, p: Parsers)
    requires i < |reviews|
    ensures CountPositive(reviews[..i + 1], p) ==
            CountPositive(reviews[..i], p) + (if IsPositive(reviews[i], p) then 1 else 0)
    ensures CountNegative(reviews[..i + 1], p) ==
            CountNegative(reviews[..i], p) + (if IsNegative(reviews[i], p) then 1 else 0)
    ensures CountTruthy(reviews[..i + 1], ReplyKeys) ==
            CountTruthy(reviews[..i], ReplyKeys) + (if IsReplied(reviews[i]) then 1 else 0)
  {
    assert reviews[..i + 1][..i] == reviews[..i];
  }

  /** `analyze_google_reviews(reviews)`: an empty list gives all `None`;
      otherwise the total is the number of reviews, the positive, negative
      and replied counts are the reference counts, the reply rate is the
      rounded percentage of replied reviews, and the average response time
      is always `None`. */
  method AnalyzeGoogleReviews(reviews: seq<PyDict>, p: Parsers) returns (stats: GoogleStats)
    ensures |reviews| == 0 ==> stats == NoStats
    ensures |reviews| > 0 ==>
              stats.total == Some(|reviews|) &&
              stats.positive == Some(CountPositive(reviews, p)) &&
              stats.negative == Some(CountNegative(reviews, p)) &&
              stats.replyRate == Some(ReplyRate(CountTruthy(reviews, ReplyKeys), |reviews|))
    ensures stats.positive.Some? ==>
              stats.negative.Some? && stats.total.Some? &&
              stats.positive.value + stats.negative.value <= stats.total.value
    ensures stats.replyRate.Some? ==> 0.0 <= stats.replyRate.value <= 100.0
    ensures stats.avgResponseTime.None?
  {
    if |reviews| == 0 {
      return NoStats;
    }
    var total := |reviews|;
    var pos, neg, replied := 0, 0, 0;
    var i := 0;
    while i < |reviews|
      invariant 0 <= i <= |reviews|
      invariant pos == CountPositive(reviews[..i], p)
      invariant neg == CountNegative(reviews[..i], p)
      invariant replied == CountTruthy(reviews[..i], ReplyKeys)
    {
      var r := reviews[i];
      CountsStep(reviews, i, p);
      var rating := SafeFloat(GetAny(r, RatingKeys), p);
      if rating.Some? {
        if rating.value >= 4.0 { pos := pos + 1; }
        if rating.value <= 2.0 { neg := neg + 1; }
      }
      var ownerResp := GetAny(r, ReplyKeys);
      if IsTruthy(ownerResp) {
        replied := replied + 1;
      }
      i := i + 1;
    }
    assert reviews[..i] == reviews;
    PositiveNegativeDisjoint(reviews, p);
    stats := GoogleStats(Some(total), Some(pos), Some(neg), Some(ReplyRate(replied, total)), None);
  }

  // ---------------------------------------------------------------
  // Best-place selection
  // ---------------------------------------------------------------

  /** One candidate place of the scraper, with the four keys the selection
      reads; the place's other keys (rating, reviews, phone, ...) are only
      counted, since they make the dict truthy. */
  datatype Place = Place(
    title: Field<string>,
    name: Field<string>,
    website: Field<string>,
    url: Field<string>,
    otherKeys: nat)
  {
    /** The dict has at least one key. */
    predicate NonEmpty() {
      title.Present() || name.Present() || website.Present() || url.Present() || otherKeys > 0
    }

    /** `place.get("title") or place.get("name") or ""`. */
    function DisplayName(): string {
      if Truthy(title, "") then title.v else if Truthy(name, "") then name.v else ""
    }

    /** `place.get("website") or place.get("url") or ""`. */
    function Site(): string {
      if Truthy(website, "") then website.v else if Truthy(url, "") then url.v else ""
    }
  }

  /** The library functions the selection leans on: the host part of a URL
      (`urlparse(url).netloc`) and the similarity of two strings
      (`SequenceMatcher(None, a, b).ratio()`). */
  datatype Matching = Matching(netloc: string -> string, ratio: (string, string) -> real)

  /** `SequenceMatcher.ratio()` always lies in [0, 1]. */
  ghost predicate ValidRatio(m: Matching) {
    forall a: string, b: string :: 0.0 <= m.ratio(a, b) <= 1.0
  }

  /** `_norm_domain(url)`: "" for an empty URL, otherwise the host with
      every "www." removed, lower-cased. */
  function NormDomain(url: string, m: Matching): (d: string)
    ensures url == "" ==> d == ""
    ensures IsLowerCase(d)
  {
    if url == "" then "" else Lower(ReplaceAll(m.netloc(url), "www.", ""))
  }

  /** `(s or "").lower().strip()`. */
  function SimText(s: Option<string>): string {
    Strip(Lower(s.GetOr("")))
  }

  /** `_name_sim(a, b)`: 0 when either side is empty once lower-cased and
      stripped, otherwise the library ratio of the two cleaned strings. */
  function NameSim(a: Option<string>, b: string, m: Matching): (sim: real)
    requires ValidRatio(m)
    ensures 0.0 <= sim <= 1.0
    ensures SimText(a) == "" || SimText(Some(b)) == "" ==> sim == 0.0
  {
    var x, y := SimText(a), SimText(Some(b));
    if x == "" || y == "" then 0.0 else m.ratio(x, y)
  }

  /** The target website's domain matches the place's domain: the target
      domain is non-empty and one of the two contains the other. */
  predicate DomainMatch(targetDomain: string, placeDomain: string) {
    targetDomain != "" && (Contains(placeDomain, targetDomain) || Contains(targetDomain, placeDomain))
  }

  /** The match score of a place: 100 for a domain match plus
      `int(similarity * 50)` for the name. */
  function MatchScore(place: Place, searchTerm: Option<string>, targetDomain: string, m: Matching): (score: int)
    requires ValidRatio(m)
    ensures DomainMatch(targetDomain, NormDomain(place.Site(), m)) ==> 100 <= score <= 150
    ensures !DomainMatch(targetDomain, NormDomain(place.Site(), m)) ==> 0 <= score <= 50
  {
    var bonus := if DomainMatch(targetDomain, NormDomain(place.Site(), m)) then 100 else 0;
    var sim := NameSim(searchTerm, place.DisplayName(), m);
    assert 0.0 <= sim * 50.0 <= 50.0;
    bonus + Truncate(sim * 50.0)
  }

  /** The selection loop on the candidates' scores: starting from a best
      score of -1, a candidate replaces the best only when it scores
      strictly higher, so the first of the highest scores is kept. */
  method FirstMax(scores: seq<int>) returns (best: nat)
    requires |scores| > 0
    requires forall j :: 0 <= j < |scores| ==> scores[j] >= 0
    ensures best < |scores|
    ensures forall j :: 0 <= j < |scores| ==> scores[j] <= scores[best]
    ensures forall j :: 0 <= j < best ==> scores[j] < scores[best]
  {
    var chosen: Option<nat> := None;
    var bestScore := -1;
    var i := 0;
    while i < |scores|
      invariant 0 <= i <= |scores|
      invariant i == 0 <==> chosen.None?
      invariant chosen.Some? ==> chosen.value < i && bestScore == scores[chosen.value]
      invariant chosen.None? ==> bestScore == -1
      invariant forall j :: 0 <= j < i ==> scores[j] <= bestScore
      invariant chosen.Some? ==> forall j :: 0 <= j < chosen.value ==> scores[j] < bestScore
    {
      if scores[i] > bestScore {
        bestScore := scores[i];
        chosen := Some(i);
      }
      i := i + 1;
    }
    best := chosen.value;
  }

  /** Lines 104-128 of the collector: pick the candidate with the highest
      match score, the earliest on ties (the comparison is strict), and fall
      back to the first candidate when the chosen dict is empty. The index
      of the highest-scoring candidate is returned beside the place. */
  method SelectBestPlace(items: seq<Place>, searchTerm: Option<string>, targetWebsite: Option<string>, m: Matching)
    returns (best: nat, place: Place)
    requires |items| > 0
    requires ValidRatio(m)
    ensures best < |items|
    ensures var target := NormDomain(targetWebsite.GetOr(""), m);
            (forall j :: 0 <= j < |items| ==>
               MatchScore(items[j], searchTerm, target, m) <= MatchScore(items[best], searchTerm, target, m)) &&
            (forall j :: 0 <= j < best ==>
               MatchScore(items[j], searchTerm, target, m) < MatchScore(items[best], searchTerm, target, m))
    ensures place == (if items[best].NonEmpty() then items[best] else items[0])
  {
    var target := NormDomain(targetWebsite.GetOr(""), m);
    var scores := seq(|items|, j requires 0 <= j < |items| => MatchScore(items[j], searchTerm, target, m));
    assert forall j :: 0 <= j < |items| ==> scores[j] == MatchScore(items[j], searchTerm, target, m);
    best := FirstMax(scores);
    place := if items[best].NonEmpty() then items[best] else items[0];
  }

  /** Name similarity adds at most 50, so with a non-empty target domain a
      place whose domain matches always outscores one whose domain does not. */
  lemma DomainMatchBeatsName(a: Place, b: Place, searchTerm: Option<string>, targetDomain: string, m: Matching)
    requires ValidRatio(m)
    requires DomainMatch(targetDomain, NormDomain(a.Site(), m))
    requires !DomainMatch(targetDomain, NormDomain(b.Site(), m))
    ensures MatchScore(a, searchTerm, targetDomain, m) > MatchScore(b, searchTerm, targetDomain, m)
  {
  }

  /** A place without a website has the empty domain, and "" occurs in
      every string: with a non-empty target it counts as a domain match. */
  lemma EmptySiteMatchesAnyTarget(place: Place, targetDomain: string, m: Matching)
    requires place.Site() == ""
    requires targetDomain != ""
    ensures DomainMatch(targetDomain, NormDomain(place.Site(), m))
  {
    ContainsEmpty(targetDomain);
  }

  /** As written, a place without a website outscores on the domain test:
      with any target website it gets the full 100 points. */
  lemma SitelessPlaceScoresAsMatch(place: Place, searchTerm: Option<string>, targetDomain: string, m: Matching)
    requires ValidRatio(m)
    requires place.Site() == ""
    requires targetDomain != ""
    ensures MatchScore(place, searchTerm, targetDomain, m) >= 100
  {
    EmptySiteMatchesAnyTarget(place, targetDomain, m);
  }

  // ---------------------------------------------------------------
  // The domain test with both domains known
  // ---------------------------------------------------------------

  /** The domain test as evidently intended: both domains are known and
      one contains the other. */
  predicate SiteDomainMatch(targetDomain: string, placeDomain: string) {
    placeDomain != "" && DomainMatch(targetDomain, placeDomain)
  }

  /** The match score with the corrected domain test. */
  function CorrectedMatchScore(place: Place, searchTerm: Option<string>, targetDomain: string, m: Matching)
    : (score: int)
    requires ValidRatio(m)
    ensures SiteDomainMatch(targetDomain, NormDomain(place.Site(), m)) ==> 100 <= score <= 150
    ensures !SiteDomainMatch(targetDomain, NormDomain(place.Site(), m)) ==> 0 <= score <= 50
  {
    var bonus := if SiteDomainMatch(targetDomain, NormDomain(place.Site(), m)) then 100 else 0;
    var sim := NameSim(searchTerm, place.DisplayName(), m);
    assert 0.0 <= sim * 50.0 <= 50.0;
    bonus + Truncate(sim * 50.0)
  }

  /** With the correction a place without a website earns only its name
      similarity, and a place whose known domain matches beats it. */
  lemma SiteMatchBeatsSiteless(a: Place, b: Place, searchTerm: Option<string>, targetDomain: string, m: Matching)
    requires ValidRatio(m)
    requires SiteDomainMatch(targetDomain, NormDomain(a.Site(), m))
    requires b.Site() == ""
    ensures CorrectedMatchScore(b, searchTerm, targetDomain, m) <= 50
    ensures CorrectedMatchScore(a, searchTerm, targetDomain, m) > CorrectedMatchScore(b, searchTerm, targetDomain, m)
  {
  }

  /** Wherever the place's domain is known, the corrected score and the
      score as written agree. */
  lemma CorrectedAgreesWithKnownSite(place: Place, searchTerm: Option<string>, targetDomain: string, m: Matching)
    requires ValidRatio(m)
    requires NormDomain(place.Site(), m) != ""
    ensures CorrectedMatchScore(place, searchTerm, targetDomain, m) == MatchScore(place, searchTerm, targetDomain, m)
  {
  }
}
