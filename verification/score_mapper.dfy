/** src/scoring/score_mapper.py: `map_audit_to_scores`, which turns the
    six raw collector records into six section scores using additive
    point systems, neutral fallbacks of 50 and a 100/70/40 listings ladder.
    Every truthiness test of the source is Python truthiness of
    `dict.get(key)`: an absent key, `None` and the type's zero are falsy.
 */
module ScoreMapper {
  import opened PyValues
  import opened PyNumbers
  import opened AuditRecord

  const BusinessDetails := "Business Details"
  const TechStackSection := "Tech Stack"
  const WebsitePerformance := "Website Performance"
  const OnlineReputation := "Online Reputation"
  const SeoAnalysis := "SEO Analysis"
  const ListingsSection := "Listings"

  /** The six keys of the section map, in the order the source lists them. */
  const SectionOrder: seq<string> :=
    [BusinessDetails, TechStackSection, WebsitePerformance, OnlineReputation, SeoAnalysis, ListingsSection]

  /** The points a signal earns when it is present. */
  function Points(present: bool, points: int): int {
    if present then points else 0
  }

  /** `min(a, b)` on integers. */
  function MinInt(a: int, b: int): int {
    if a <= b then a else b
  }

  // ---------------------------------------------------------------
  // Business details
  // ---------------------------------------------------------------

  /** Business details: 30 for a name, 30 for any phone number, 20 for an
      address and 20 for a contact page. The cap at 100 never bites, so the
      score is exactly the sum of the points earned. */
  function BusinessScore(b: BusinessInfo): (score: int)
    ensures score == Points(Truthy(b.businessName, ""), 30) + Points(Truthy(b.phones, []), 30)
                   + Points(Truthy(b.address, ""), 20) + Points(Truthy(b.contactPage, false), 20)
    ensures 0 <= score <= 100 && score % 10 == 0
    ensures score == 0 <==> !Truthy(b.businessName, "") && !Truthy(b.phones, []) &&
                            !Truthy(b.address, "") && !Truthy(b.contactPage, false)
  {
    var s0 := 0;
    var s1 := if Truthy(b.businessName, "") then s0 + 30 else s0;
    var s2 := if Truthy(b.phones, []) then s1 + 30 else s1;
    var s3 := if Truthy(b.address, "") then s2 + 20 else s2;
    var s4 := if Truthy(b.contactPage, false) then s3 + 20 else s3;
    MinInt(s4, 100)
  }

  /** A business that only has a name scores 30. */
  lemma BusinessNameAlone(name: string, extraKeys: nat)
    requires name != ""
    ensures BusinessScore(BusinessInfo(Val(name), Val([]), Null, Val(false), extraKeys)) == 30
  {
  }

  /** Gaining a signal never lowers the business score. */
  lemma BusinessScoreMonotone(b: BusinessInfo, c: BusinessInfo)
    requires Truthy(b.businessName, "") ==> Truthy(c.businessName, "")
    requires Truthy(b.phones, []) ==> Truthy(c.phones, [])
    requires Truthy(b.address, "") ==> Truthy(c.address, "")
    requires Truthy(b.contactPage, false) ==> Truthy(c.contactPage, false)
    ensures BusinessScore(b) <= BusinessScore(c)
  {
  }

  // ---------------------------------------------------------------
  // Tech stack
  // ---------------------------------------------------------------

  /** Tech stack: 25 for a tag manager, 25 for GA4, 20 for a Facebook pixel,
      15 for a Google Ads pixel and 15 for a chat widget; the legacy
      Universal Analytics flag earns nothing. */
  function TechScore(t: TechStack): (score: int)
    ensures score == Points(Truthy(t.gtm, false), 25) + Points(Truthy(t.ga4, false), 25)
                   + Points(Truthy(t.fbPixel, false), 20) + Points(Truthy(t.googleAdsPixel, false), 15)
                   + Points(Truthy(t.chatWidget, false), 15)
    ensures 0 <= score <= 100 && score % 5 == 0
  {
    var s0 := 0;
    var s1 := if Truthy(t.gtm, false) then s0 + 25 else s0;
    var s2 := if Truthy(t.ga4, false) then s1 + 25 else s1;
    var s3 := if Truthy(t.fbPixel, false) then s2 + 20 else s2;
    var s4 := if Truthy(t.googleAdsPixel, false) then s3 + 15 else s3;
    var s5 := if Truthy(t.chatWidget, false) then s4 + 15 else s4;
    MinInt(s5, 100)
  }

  /** The `ga_ua` flag never changes the tech score. */
  lemma TechIgnoresUniversalAnalytics(t: TechStack, gaUa: Field<bool>)
    ensures TechScore(t.(gaUa := gaUa)) == TechScore(t)
  {
  }

  /** A tag manager plus GA4 and nothing else scores 50. */
  lemma TechTagManagerAndGa4(extraKeys: nat)
    ensures TechScore(TechStack(Val(true), Val(false), Val(true), Val(false), Val(false), Val(false), extraKeys)) == 50
  {
  }

  // ---------------------------------------------------------------
  // Website performance
  // ---------------------------------------------------------------

  /** `[s for s in values if s is not None]`. */
  function PresentValues(values: seq<Option<real>>): (r: seq<real>)
    ensures |r| <= |values|
  {
    if |values| == 0 then []
    else (if values[0].Some? then [values[0].value] else []) + PresentValues(values[1..])
  }

  function Sum(xs: seq<real>): real {
    if |xs| == 0 then 0.0 else xs[0] + Sum(xs[1..])
  }

  /** Website performance: 50 when neither PageSpeed score is known,
      otherwise the mean of the known ones rounded to hundredths; nothing
      is clamped. */
  function PerformanceScore(p: PageSpeed): (score: real)
    ensures p.psiMobileScore.Get().None? && p.psiDesktopScore.Get().None? ==> score == 50.0
    ensures p.psiMobileScore.Val? && p.psiDesktopScore.Get().None? ==> score == Round2(p.psiMobileScore.v)
    ensures p.psiMobileScore.Get().None? && p.psiDesktopScore.Val? ==> score == Round2(p.psiDesktopScore.v)
    ensures p.psiMobileScore.Val? && p.psiDesktopScore.Val? ==>
              score == Round2((p.psiMobileScore.v + p.psiDesktopScore.v) / 2.0)
  {
    var mobile := p.psiMobileScore.Get();
    var desktop := p.psiDesktopScore.Get();
    if mobile.None? && desktop.None? then 50.0
    else
      var scores := PresentValues([mobile, desktop]);
      PresentPair(mobile, desktop);
      Round2(Sum(scores) / |scores| as real)
  }

  /** The known values among two optional ones, and their sum. */
  lemma PresentPair(m: Option<real>, d: Option<real>)
    ensures m.Some? && d.Some? ==> PresentValues([m, d]) == [m.value, d.value]
    ensures m.Some? && d.None? ==> PresentValues([m, d]) == [m.value]
    ensures m.None? && d.Some? ==> PresentValues([m, d]) == [d.value]
    ensures m.None? && d.None? ==> PresentValues([m, d]) == []
    ensures Sum([m.GetOr(0.0), d.GetOr(0.0)]) == m.GetOr(0.0) + d.GetOr(0.0)
    ensures Sum([m.GetOr(0.0)]) == m.GetOr(0.0)
    ensures Sum([d.GetOr(0.0)]) == d.GetOr(0.0)
  {
    assert [m, d][1..] == [d];
    assert Sum([d.GetOr(0.0)]) == d.GetOr(0.0);
    assert Sum([m.GetOr(0.0)]) == m.GetOr(0.0);
  }

  /** When the known PageSpeed scores lie in [0, 100], so does the
      performance score. */
  lemma PerformanceWithinBounds(p: PageSpeed)
    requires p.psiMobileScore.Val? ==> 0.0 <= p.psiMobileScore.v <= 100.0
    requires p.psiDesktopScore.Val? ==> 0.0 <= p.psiDesktopScore.v <= 100.0
    ensures 0.0 <= PerformanceScore(p) <= 100.0
  {
    if p.psiMobileScore.Val? && p.psiDesktopScore.Val? {
      Round2Within((p.psiMobileScore.v + p.psiDesktopScore.v) / 2.0, 0, 100);
    } else if p.psiMobileScore.Val? {
      Round2Within(p.psiMobileScore.v, 0, 100);
    } else if p.psiDesktopScore.Val? {
      Round2Within(p.psiDesktopScore.v, 0, 100);
    }
  }

  /** An out-of-range PageSpeed score passes through unclamped. */
  lemma PerformanceNotClamped(extraKeys: nat)
    ensures PerformanceScore(PageSpeed(Val(150.0), Null, extraKeys)) == 150.0
  {
    Round2OfHundredths(15000);
    assert 15000 as real / 100.0 == 150.0;
  }

  // ---------------------------------------------------------------
  // Online reputation
  // ---------------------------------------------------------------

  /** `google_rating and google_rating >= 4`. */
  predicate HighRating(rating: Field<real>) {
    Truthy(rating, 0.0) && rating.v >= 4.0
  }

  /** Online reputation: 40 for a non-zero Google review total, 30 for a
      Google rating of at least 4 and 30 for a non-zero Facebook review
      total; with no signal at all the neutral 50 is used instead of 0.
      Since no sum of earned points equals 50, a 50 means "no signal". */
  function ReputationScore(g: GoogleReviews, f: FacebookReviews): (score: int)
    ensures score in {30, 40, 50, 60, 70, 100}
    ensures score == 50 <==>
              !Truthy(g.googleReviewsTotal, 0) && !HighRating(g.gbpRating) && !Truthy(f.total, 0)
    ensures score != 50 ==>
              score == Points(Truthy(g.googleReviewsTotal, 0), 40) + Points(HighRating(g.gbpRating), 30)
                       + Points(Truthy(f.total, 0), 30)
  {
    var s0 := 0;
    var s1 := if Truthy(g.googleReviewsTotal, 0) then s0 + 40 else s0;
    var s2 := if HighRating(g.gbpRating) then s1 + 30 else s1;
    var s3 := if Truthy(f.total, 0) then s2 + 30 else s2;
    var s4 := if s3 == 0 then 50 else s3;
    MinInt(s4, 100)
  }

  /** A Google review total of 0 counts exactly like a missing one. */
  lemma ReputationZeroTotalIsAbsent(g: GoogleReviews, f: FacebookReviews)
    ensures ReputationScore(g.(googleReviewsTotal := Val(0)), f) == ReputationScore(g.(googleReviewsTotal := Null), f)
    ensures ReputationScore(g.(googleReviewsTotal := Val(0)), f) == ReputationScore(g.(googleReviewsTotal := Missing), f)
  {
  }

  // ---------------------------------------------------------------
  // SEO analysis
  // ---------------------------------------------------------------

  /** SEO analysis: the collector's visibility score rounded to hundredths,
      or the neutral 50 when it is missing or `None`. */
  function SeoScore(s: SeoVisibility): (score: real)
    ensures s.visibilityScore.Get().None? ==> score == 50.0
    ensures s.visibilityScore.Val? ==> score - 0.005 <= s.visibilityScore.v <= score + 0.005
  {
    var visibility := s.visibilityScore.Get();
    if visibility.None? then 50.0 else Round2(visibility.value)
  }

  /** A visibility score in [0, 100] gives an SEO score in [0, 100]. */
  lemma SeoWithinBounds(s: SeoVisibility)
    requires s.visibilityScore.Val? ==> 0.0 <= s.visibilityScore.v <= 100.0
    ensures 0.0 <= SeoScore(s) <= 100.0
  {
    if s.visibilityScore.Val? {
      Round2Within(s.visibilityScore.v, 0, 100);
    }
  }

  // ---------------------------------------------------------------
  // Listings
  // ---------------------------------------------------------------

  /** Listings: a ladder, not a sum. A claimed Google Business Profile gives
      100 whatever the review totals; otherwise a non-zero Google review
      total gives 70; otherwise 40. */
  function ListingsScore(g: GoogleReviews): (score: int)
    ensures score in {40, 70, 100}
    ensures score == 100 <==> Truthy(g.gbpClaimed, false)
    ensures score == 70 <==> !Truthy(g.gbpClaimed, false) && Truthy(g.googleReviewsTotal, 0)
  {
    if Truthy(g.gbpClaimed, false) then 100
    else if Truthy(g.googleReviewsTotal, 0) then 70
    else 40
  }

  /** A Google review total of 0 counts exactly like a missing one. */
  lemma ListingsZeroTotalIsAbsent(g: GoogleReviews)
    ensures ListingsScore(g.(googleReviewsTotal := Val(0))) == ListingsScore(g.(googleReviewsTotal := Missing))
    ensures ListingsScore(g.(googleReviewsTotal := Val(0))) == ListingsScore(g.(googleReviewsTotal := Null))
  {
  }

  // ---------------------------------------------------------------
  // The section map
  // ---------------------------------------------------------------

  /** `map_audit_to_scores`: exactly the six section keys, each holding its
      section's score. */
  function MapAuditToScores(a: Audit): (scores: map<string, real>)
    ensures scores.Keys == set s | s in SectionOrder
    ensures scores[BusinessDetails] == BusinessScore(a.businessInfo) as real
    ensures scores[TechStackSection] == TechScore(a.techStack) as real
    ensures scores[WebsitePerformance] == PerformanceScore(a.pageSpeed)
    ensures scores[OnlineReputation] == ReputationScore(a.googleReviews, a.facebookReviews) as real
    ensures scores[SeoAnalysis] == SeoScore(a.seoVisibility)
    ensures scores[ListingsSection] == ListingsScore(a.googleReviews) as real
  {
    map[
      BusinessDetails := BusinessScore(a.businessInfo) as real,
      TechStackSection := TechScore(a.techStack) as real,
      WebsitePerformance := PerformanceScore(a.pageSpeed),
      OnlineReputation := ReputationScore(a.googleReviews, a.facebookReviews) as real,
      SeoAnalysis := SeoScore(a.seoVisibility),
      ListingsSection := ListingsScore(a.googleReviews) as real
    ]
  }

  /** An audit whose sub-records are all missing scores 0 for business
      details and tech stack, the neutral 50 for performance, reputation
      and SEO, and 40 for listings. */
  lemma MapEmptyAudit()
    ensures MapAuditToScores(EmptyAudit) ==
              map[BusinessDetails := 0.0, TechStackSection := 0.0, WebsitePerformance := 50.0,
                  OnlineReputation := 50.0, SeoAnalysis := 50.0, ListingsSection := 40.0]
  {
  }

  /** Every section score lies in [0, 100] as long as the PageSpeed and
      visibility inputs do. */
  lemma MapAuditWithinBounds(a: Audit)
    requires a.pageSpeed.psiMobileScore.Val? ==> 0.0 <= a.pageSpeed.psiMobileScore.v <= 100.0
    requires a.pageSpeed.psiDesktopScore.Val? ==> 0.0 <= a.pageSpeed.psiDesktopScore.v <= 100.0
    requires a.seoVisibility.visibilityScore.Val? ==> 0.0 <= a.seoVisibility.visibilityScore.v <= 100.0
    ensures forall s :: s in MapAuditToScores(a) ==> 0.0 <= MapAuditToScores(a)[s] <= 100.0
  {
    PerformanceWithinBounds(a.pageSpeed);
    SeoWithinBounds(a.seoVisibility);
  }
}
