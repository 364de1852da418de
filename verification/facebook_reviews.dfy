/** src/collectors/facebook_reviews.py: the review statistics of a
    Facebook page (`analyze_facebook_reviews`) and the branch of
    `fetch_facebook_reviews` taken without a page URL. The scraper run is
    not part of this model; its items arrive as a parameter. */
module FacebookReviewsCollector {
  import opened PyValues
  import opened PyStrings
  import opened AuditRecord
  import GbpReviews

  const TrueTokens: seq<string> := ["true", "yes", "y", "recommended", "positive", "recommend"]
  const FalseTokens: seq<string> :=
    ["false", "no", "n", "not recommended", "not_recommended", "negative", "notrecommend"]

  const RecommendationKeys: seq<string> :=
    ["recommended", "is_recommended", "isRecommended", "recommendation", "recommendationType"]
  const RatingKeys: seq<string> := ["rating", "stars"]
  const ReplyKeys: seq<string> := ["response", "ownerResponse", "reply"]

  /** `to_bool_like(x)`: `None` stays `None`, a bool passes through, a
      string is stripped and lower-cased and looked up in the two token
      lists. Any other value is turned into its `str()` form first, which
      for a number, list or dict is never one of the tokens, so it gives
      `None`. */
  function ToBoolLike(x: PyValue): (r: Option<bool>)
    ensures x.PyNone? ==> r.None?
    ensures x.PyBool? ==> r == Some(x.b)
    ensures x.PyStr? ==> (r == Some(true) <==> Lower(Strip(x.s)) in TrueTokens)
    ensures x.PyStr? ==> (r == Some(false) <==> Lower(Strip(x.s)) in FalseTokens)
    ensures x.PyInt? || x.PyFloat? || x.PyContainer? ==> r.None?
  {
    match x
    case PyNone => None
    case PyBool(b) => Some(b)
    case PyStr(s) =>
      var t := Lower(Strip(s));
      if t in TrueTokens then Some(true)
      else if t in FalseTokens then Some(false)
      else None
    case _ => None
  }

  /** No token is in both lists, so a string never reads as both. */
  lemma TokenListsDisjoint()
    ensures forall t :: t in TrueTokens ==> t !in FalseTokens
  {
  }

  /** How one review is counted. */
  datatype Verdict = Positive | Negative | Unknown

  /** The first truthy recommendation field, or the last one's value. */
  function RecommendationRaw(r: PyDict): PyValue {
    GetAny(r, RecommendationKeys)
  }

  /** The class of one review: an explicit recommendation decides; without
      one, a readable rating of at least 4 is positive, one of at most 2 is
      negative, and anything else (no rating, an unreadable one, one in
      between) is unknown. */
  function Classify(r: PyDict, p: Parsers): (v: Verdict)
    ensures ToBoolLike(RecommendationRaw(r)) == Some(true) ==> v == Positive
    ensures ToBoolLike(RecommendationRaw(r)) == Some(false) ==> v == Negative
    ensures ToBoolLike(RecommendationRaw(r)).None? ==>
              var rating := SafeFloat(GetAny(r, RatingKeys), p);
              (v == Positive <==> rating.Some? && rating.value >= 4.0) &&
              (v == Negative <==> rating.Some? && rating.value <= 2.0) &&
              (v == Unknown <==> rating.None? || 2.0 < rating.value < 4.0)
  {
    var rec := ToBoolLike(RecommendationRaw(r));
    if rec == Some(true) then Positive
    else if rec == Some(false) then Negative
    else RatingVerdict(r, p)
  }

  /** The class a review gets from its rating fields alone. */
  function RatingVerdict(r: PyDict, p: Parsers): (v: Verdict)
    ensures var rating := SafeFloat(GetAny(r, RatingKeys), p);
            (v == Positive <==> rating.Some? && rating.value >= 4.0) &&
            (v == Negative <==> rating.Some? && rating.value <= 2.0) &&
            (v == Unknown <==> rating.None? || 2.0 < rating.value < 4.0)
  {
    var raw := GetAny(r, RatingKeys);
    // `rating is not None` guards `float(rating)`; a `None` and an
    // unreadable value both land in `unknown`.
    if raw.PyNone? then Unknown
    else
      var rating := SafeFloat(raw, p);
      if rating.None? then Unknown
      else if rating.value >= 4.0 then Positive
      else if rating.value <= 2.0 then Negative
      else Unknown
  }

  /** The owner answered: one of the reply keys holds a truthy value. */
  predicate IsReplied(r: PyDict) {
    IsTruthy(GetAny(r, ReplyKeys))
  }

  /** Reference count of the reviews of one class. */
  function CountVerdict(reviews: seq<PyDict>, p: Parsers, v: Verdict): (n: nat)
    ensures n <= |reviews|
  {
    if |reviews| == 0 then 0
    else CountVerdict(reviews[..|reviews| - 1], p, v) + (if Classify(reviews[|reviews| - 1], p) == v then 1 else 0)
  }

  /** The counts over one more review. */
  lemma CountStep(reviews: seq<PyDict>, i: nat, p: Parsers)
    requires i < |reviews|
    ensures var v := Classify(reviews[i], p);
            CountVerdict(reviews[..i + 1], p, Positive) ==
              CountVerdict(reviews[..i], p, Positive) + (if v == Positive then 1 else 0) &&
            CountVerdict(reviews[..i + 1], p, Negative) ==
              CountVerdict(reviews[..i], p, Negative) + (if v == Negative then 1 else 0) &&
            CountVerdict(reviews[..i + 1], p, Unknown) ==
              CountVerdict(reviews[..i], p, Unknown) + (if v == Unknown then 1 else 0)
    ensures CountTruthy(reviews[..i + 1], ReplyKeys) ==
            CountTruthy(reviews[..i], ReplyKeys) + (if IsReplied(reviews[i]) then 1 else 0)
  {
    assert reviews[..i + 1][..i] == reviews[..i];
  }

  /** Every review lands in exactly one class. */
  lemma {:induction false} VerdictsPartition(reviews: seq<PyDict>, p: Parsers)
    ensures CountVerdict(reviews, p, Positive) + CountVerdict(reviews, p, Negative) +
            CountVerdict(reviews, p, Unknown) == |reviews|
    decreases |reviews|
  {
    if |reviews| > 0 {
      VerdictsPartition(reviews[..|reviews| - 1], p);
    }
  }

  /** The statistics of an empty review list: all six `None`. */
  const AllNone := FacebookReviews(Null, Null, Null, Null, Null, Null)

  /** `analyze_facebook_reviews(reviews)`: an empty list gives six `None`
      values; otherwise the counts are the reference counts, they add up to
      the total, the reply rate is the rounded percentage of answered
      reviews (as for Google) and the average response time is `None`. */
  method AnalyzeFacebookReviews(reviews: seq<PyDict>, p: Parsers) returns (stats: FacebookReviews)
    ensures |reviews| == 0 ==> stats == AllNone
    ensures |reviews| > 0 ==>
              stats.total == Val(|reviews|) &&
              stats.positive == Val(CountVerdict(reviews, p, Positive)) &&
              stats.negative == Val(CountVerdict(reviews, p, Negative)) &&
              stats.unknown == Val(CountVerdict(reviews, p, Unknown)) &&
              stats.replyRate == Val(GbpReviews.ReplyRate(CountTruthy(reviews, ReplyKeys), |reviews|))
    ensures stats.total.Val? ==>
              stats.positive.Val? && stats.negative.Val? && stats.unknown.Val? &&
              stats.positive.v + stats.negative.v + stats.unknown.v == stats.total.v
    ensures stats.replyRate.Val? ==> 0.0 <= stats.replyRate.v <= 100.0
    ensures stats.avgResponseTime == Null
  {
    if |reviews| == 0 {
      return AllNone;
    }
    var total := |reviews|;
    var positive, negative, unknown, replied := 0, 0, 0, 0;
    var i := 0;
    while i < |reviews|
      invariant 0 <= i <= |reviews|
      invariant positive == CountVerdict(reviews[..i], p, Positive)
      invariant negative == CountVerdict(reviews[..i], p, Negative)
      invariant unknown == CountVerdict(reviews[..i], p, Unknown)
      invariant replied == CountTruthy(reviews[..i], ReplyKeys)
    {
      var r := reviews[i];
      CountStep(reviews, i, p);
      var v := Classify(r, p);
      if v == Positive {
        positive := positive + 1;
      } else if v == Negative {
        negative := negative + 1;
      } else {
        unknown := unknown + 1;
      }
      if IsReplied(r) {
        replied := replied + 1;
      }
      i := i + 1;
    }
    assert reviews[..i] == reviews;
    VerdictsPartition(reviews, p);
    stats := FacebookReviews(Val(total), Val(positive), Val(negative), Val(unknown),
                             Val(GbpReviews.ReplyRate(replied, total)), Null);
  }

  /** The record returned without a page URL: five `None` values and no
      `facebook_reviews_unknown` key at all. */
  const NoPageRecord := FacebookReviews(Null, Null, Null, Missing, Null, Null)

  /** `fetch_facebook_reviews(facebook_page_url)` with the scraper's items
      as a parameter: without a (non-empty) URL the fixed record, otherwise
      the analysis of the items. */
  method FetchFacebookReviews(pageUrl: Option<string>, scraped: seq<PyDict>, p: Parsers)
    returns (stats: FacebookReviews)
    ensures pageUrl.None? || pageUrl == Some("") ==> stats == NoPageRecord && stats.unknown.Missing?
    ensures pageUrl.Some? && pageUrl.value != "" ==> stats.unknown.Present()
    ensures pageUrl.Some? && pageUrl.value != "" && |scraped| == 0 ==> stats == AllNone
    ensures pageUrl.Some? && pageUrl.value != "" && |scraped| > 0 ==>
              stats.total == Val(|scraped|) &&
              stats.positive == Val(CountVerdict(scraped, p, Positive)) &&
              stats.negative == Val(CountVerdict(scraped, p, Negative)) &&
              stats.unknown == Val(CountVerdict(scraped, p, Unknown))
  {
    if pageUrl.None? || pageUrl.value == "" {
      return NoPageRecord;
    }
    stats := AnalyzeFacebookReviews(scraped, p);
  }

  /** An explicit recommendation decides the class whatever the rating
      fields hold. */
  lemma RecommendationOverridesRating(r: PyDict, p: Parsers, key: string, v: PyValue)
    requires ToBoolLike(RecommendationRaw(r)).Some?
    requires key in RatingKeys
    ensures Classify(r[key := v], p) == Classify(r, p)
  {
    var r2 := r[key := v];
    forall i | 0 <= i < |RecommendationKeys|
      ensures Get(r2, RecommendationKeys[i]) == Get(r, RecommendationKeys[i])
    {
      assert RecommendationKeys[i] != key;
    }
    GetAnyFrame(r2, r, RecommendationKeys);
    assert RecommendationRaw(r2) == RecommendationRaw(r);
  }

  /** `recommended: False` alone is falsy, so the `or` chain runs on to the
      last key, which is absent: the recommendation reads as `None` and the
      review is classified by its rating. */
  lemma FalseRecommendationFallsThrough(p: Parsers)
    ensures var r := map["recommended" := PyBool(false), "rating" := PyInt(5)];
            ToBoolLike(RecommendationRaw(r)).None? && Classify(r, p) == Positive
  {
    var r := map["recommended" := PyBool(false), "rating" := PyInt(5)];
    assert Get(r, "recommendationType") == PyNone;
    assert !IsTruthy(RecommendationRaw(r));
  }

  // ---------------------------------------------------------------
  // An explicit `False` recommendation
  // ---------------------------------------------------------------

  /** As written, a review whose only recommendation is `recommended:
      False` and that has no rating is counted as unknown, not negative:
      the falsy `False` is skipped by the `or` chain. */
  lemma FalseRecommendationIgnored(p: Parsers)
    ensures Classify(map["recommended" := PyBool(false)], p) == Unknown
  {
    var r := map["recommended" := PyBool(false)];
    assert Get(r, "recommendationType") == PyNone;
    assert !IsTruthy(RecommendationRaw(r));
    assert Get(r, "stars") == PyNone;
    assert !IsTruthy(GetAny(r, RatingKeys));
  }

  /** The first of `keys` whose value is present and not `None`, or `None`
      when there is none. */
  function FirstPresent(d: PyDict, keys: seq<string>): (r: PyValue)
    ensures r.PyNone? <==> forall i :: 0 <= i < |keys| ==> Get(d, keys[i]).PyNone?
    ensures |keys| > 0 && !Get(d, keys[0]).PyNone? ==> r == Get(d, keys[0])
    ensures !r.PyNone? ==> exists i :: 0 <= i < |keys| && Get(d, keys[i]) == r &&
                                       forall j :: 0 <= j < i ==> Get(d, keys[j]).PyNone?
  {
    if |keys| == 0 then PyNone
    else if !Get(d, keys[0]).PyNone? then Get(d, keys[0])
    else
      var r := FirstPresent(d, keys[1..]);
      assert forall i :: 1 <= i < |keys| ==> keys[i] == keys[1..][i - 1];
      r
  }

  /** The classification as evidently intended: the recommendation is the
      first recommendation field that is not `None`, so an explicit `False`
      reaches `to_bool_like` and counts as negative. A boolean `recommended`
      field decides the class; and the corrected class differs from the
      as-written one only when the first recommendation field present holds
      a falsy value that the `or` chain skips. */
  function ClassifyCorrected(r: PyDict, p: Parsers): (v: Verdict)
    ensures Get(r, "recommended").PyBool? ==>
              v == (if Get(r, "recommended").b then Positive else Negative)
    ensures v != Classify(r, p) ==>
              var first := FirstPresent(r, RecommendationKeys);
              !first.PyNone? && !IsTruthy(first)
  {
    var rec := ToBoolLike(FirstPresent(r, RecommendationKeys));
    assert RecommendationKeys[0] == "recommended";
    FirstTruthyIsRaw(r);
    if rec == Some(true) then Positive
    else if rec == Some(false) then Negative
    else RatingVerdict(r, p)
  }

  /** When the first recommendation field present is truthy, the `or` chain
      reads that same value; when none is present it reads `None`. */
  lemma FirstTruthyIsRaw(r: PyDict)
    ensures IsTruthy(FirstPresent(r, RecommendationKeys)) ==>
              RecommendationRaw(r) == FirstPresent(r, RecommendationKeys)
    ensures FirstPresent(r, RecommendationKeys).PyNone? ==> RecommendationRaw(r).PyNone?
  {
    var keys := RecommendationKeys;
    var first := FirstPresent(r, keys);
    var raw := RecommendationRaw(r);
    if IsTruthy(first) {
      var j :| 0 <= j < |keys| && Get(r, keys[j]) == first &&
                forall m :: 0 <= m < j ==> Get(r, keys[m]).PyNone?;
      assert IsTruthy(raw);
      var i :| 0 <= i < |keys| && Get(r, keys[i]) == raw &&
                forall m :: 0 <= m < i ==> !IsTruthy(Get(r, keys[m]));
      assert IsTruthy(Get(r, keys[j]));
      assert forall m :: 0 <= m < j ==> !IsTruthy(Get(r, keys[m]));
    }
  }

  /** With the correction, a boolean `recommended` field decides the class
      whatever else the review holds. */
  lemma ExplicitRecommendationDecides(r: PyDict, p: Parsers, b: bool)
    requires Get(r, "recommended") == PyBool(b)
    ensures ClassifyCorrected(r, p) == (if b then Positive else Negative)
  {
    assert RecommendationKeys[0] == "recommended";
  }

  /** Without any recommendation field both readings fall back to the
      rating, so they agree. */
  lemma NoRecommendationAgrees(r: PyDict, p: Parsers)
    requires forall i :: 0 <= i < |RecommendationKeys| ==> Get(r, RecommendationKeys[i]).PyNone?
    ensures ClassifyCorrected(r, p) == Classify(r, p) == RatingVerdict(r, p)
  {
    assert !IsTruthy(RecommendationRaw(r));
  }
}
