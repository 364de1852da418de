# Marketing audit scoring, modelled in Dafny

This project models the deterministic core of a marketing-audit tool that
grades a business website. Collectors gather six raw records about the
business:

- business details;
- tech stack;
- PageSpeed;
- Google reviews;
- Facebook reviews;
- SEO visibility.

The scoring layer then works in four steps:

1. `map_audit_to_scores` turns the six records into six section scores.
2. `calculate_marketing_score` clamps each score, weights it and sums the results.
3. `get_marketing_grade` turns the final score into a letter grade.
4. `build_report_scores` reshapes the results into the eight-row table shown to the reader.

The model also covers the pure helpers inside the collectors and utilities:

- the Google and Facebook review statistics;
- the choice of the best Google place;
- search rank to visibility, and the visibility average;
- address cleaning;
- Facebook-link cleaning;
- business-type detection and keyword selection, in both versions;
- country detection;
- the file name under which an audit is stored.

## How the model is organised

Each source file is one module.

| module | file |
|---|---|
| `ScoreMapper` | `score_mapper.dfy` |
| `ScoreUtils` | `score_utils.dfy` |
| `ScoringEngine` | `scoring_engine.dfy` |
| `Grading` | `grading.dfy` |
| `ReportScores` | `report_scores.dfy` |
| `GbpReviews` | `gbp_reviews.dfy` |
| `FacebookReviewsCollector` | `facebook_reviews.dfy` |
| `SeoVisibilityCollector` | `seo_visibility.dfy` |
| `BusinessInfoCollector` | `business_info.dfy` |
| `SocialLinks` | `social_links.dfy` |
| `Keywords` | `keywords.dfy` |
| `Geo` | `geo.dfy` |
| `ExcelStore` | `excel_store.dfy` |
| `AuditRun` | `audit_run.dfy` |

`AuditRun` holds the `main.py` versions of the keyword functions and the scoring steps 7 and 8. Shared modules:

- `PyValues`: dynamic values, dict lookups, `or` chains, `float()`/`int()`.
- `PyStrings`: ASCII versions of `lower`, `title`, `strip`, `split`, `replace` and `in`.
- `PyNumbers`: `round`.
- `AuditRecord`: the six collector records.

**Record fields.** Every dict field the scoring layer reads is a `Field<T>`, which is `Missing`, `Null` or `Val(v)`. This keeps three cases apart:

- an absent key;
- a key mapped to `None`;
- a present value.

Python truthiness decides between them (`Truthy`). Scraper items read through `or` chains of alternative key names are `map<string, PyValue>`.

**Weights.** The weight table `WEIGHTS` is not part of this model. The engine takes it as a parameter: an ordered sequence of (section, weight) pairs with distinct sections. The bounds on the final score assume non-negative weights that sum to 1.

**The report table's keys.** The report table reads the keys `"website"`, `"reviews"` and `"seo"` from the section map. The mapper produces only the display names (`"Tech Stack"` and the others). The model keeps this lookup as written. `ReportScores.CategoryRowsZeroForMapperOutput` proves the consequence: four of the eight report rows are always 0 in a real audit.

## Model

| member | source | states |
|---|---|---|
| ScoreMapper.BusinessScore | src/scoring/score_mapper.py:17-27 | The business score is 30 for a truthy name, plus 30 for non-empty phones, 20 for an address and 20 for a contact page. It lies in [0, 100], and it is 0 exactly when no signal is present. |
| ScoreMapper.BusinessNameAlone | src/scoring/score_mapper.py:17-27 | A business with only a name scores 30. |
| ScoreMapper.BusinessScoreMonotone | src/scoring/score_mapper.py:17-27 | Gaining a business signal never lowers the score. |
| ScoreMapper.TechScore | src/scoring/score_mapper.py:32-44 | The tech score is 25 for a tag manager, 25 for GA4, 20 for a Facebook pixel, 15 for an Ads pixel and 15 for a chat widget. It lies in [0, 100]. |
| ScoreMapper.TechIgnoresUniversalAnalytics | src/scoring/score_mapper.py:32-44 | The `ga_ua` flag never changes the tech score. |
| ScoreMapper.TechTagManagerAndGa4 | src/scoring/score_mapper.py:32-44 | A tag manager plus GA4 alone gives 50. |
| ScoreMapper.PerformanceScore | src/scoring/score_mapper.py:49-56 | With neither PageSpeed score present the result is 50. With one present it is that score. With both it is their mean, rounded to hundredths. |
| ScoreMapper.PerformanceWithinBounds | src/scoring/score_mapper.py:49-56 | PageSpeed scores in [0, 100] give a performance score in [0, 100]. |
| ScoreMapper.PerformanceNotClamped | src/scoring/score_mapper.py:49-56 | An out-of-range PageSpeed score (150) passes through unclamped. |
| ScoreMapper.ReputationScore | src/scoring/score_mapper.py:61-79 | The reputation score is always one of 30, 40, 50, 60, 70 or 100. It is 50 exactly when there is no signal at all, and otherwise the sum of the 40/30/30 points earned. |
| ScoreMapper.ReputationZeroTotalIsAbsent | src/scoring/score_mapper.py:63-67 | A Google review total of 0 scores exactly like a missing total or a `None` one. |
| ScoreMapper.SeoScore | src/scoring/score_mapper.py:84-89 | The SEO score is 50 when the visibility score is missing or `None`, and otherwise the visibility score to within rounding. |
| ScoreMapper.SeoWithinBounds | src/scoring/score_mapper.py:84-89 | A visibility score in [0, 100] gives an SEO score in [0, 100]. |
| ScoreMapper.ListingsScore | src/scoring/score_mapper.py:94-100 | The listings score is 100 exactly when the profile is claimed, whatever the totals. Otherwise it is 70 exactly when the Google total is truthy, and 40 otherwise. |
| ScoreMapper.ListingsZeroTotalIsAbsent | src/scoring/score_mapper.py:94-100 | A Google review total of 0 counts as absent for listings. |
| ScoreMapper.MapAuditToScores | src/scoring/score_mapper.py:1-112 | The result has exactly the six section keys, and each holds its section's score. |
| ScoreMapper.MapEmptyAudit | src/scoring/score_mapper.py:7-12 | An audit with every record missing maps to 0, 0, 50, 50, 50 and 40. |
| ScoreMapper.MapAuditWithinBounds | src/scoring/score_mapper.py:105-112 | Every section score is in [0, 100] whenever the PageSpeed and visibility inputs are. |
| ScoreUtils.Clamp | src/scoring/score_utils.py:1-2 | The clamped value lies in [0, 100]. A value already inside is unchanged, and values outside go to the nearer bound. |
| ScoreUtils.ClampTo | src/scoring/score_utils.py:1-2 | The general `max(lo, min(value, hi))` lies in [lo, hi] and is the identity inside it. |
| ScoreUtils.ClampIdempotent | src/scoring/score_utils.py:1-2 | Clamping twice is clamping once. |
| ScoreUtils.ClampMonotone | src/scoring/score_utils.py:1-2 | Clamping preserves order. |
| ScoreUtils.WeightedScore | src/scoring/score_utils.py:5-6 | For a non-negative weight, the weighted score lies in [0, 100 × weight]. |
| ScoreUtils.WeightedScoreMonotone | src/scoring/score_utils.py:5-6 | For a non-negative weight, a higher section score never weighs less. |
| ScoringEngine.RawScore | src/scoring/scoring_engine.py:22-26 | A section missing from the input, or mapped to `None`, is scored 50. Otherwise its value is used. |
| ScoringEngine.CalculateMarketingScore | src/scoring/scoring_engine.py:5-41 | The breakdown has exactly the weight table's sections, so extra input keys are ignored. Each row holds the rounded unclamped raw score, the weight, and the rounded clamped-and-weighted contribution. The final score is the rounded sum of the unrounded contributions. |
| ScoringEngine.BreakdownKeys | src/scoring/scoring_engine.py:21-34 | The breakdown has exactly the table's sections. |
| ScoringEngine.BreakdownEntries | src/scoring/scoring_engine.py:21-34 | With distinct sections, every section keeps its own row and no later row overwrites it. |
| ScoringEngine.TotalScoreBounds | src/scoring/scoring_engine.py:28-36 | With non-negative weights, the total lies in [0, 100 × sum of weights]. |
| ScoringEngine.FinalScoreWithinBounds | src/scoring/scoring_engine.py:28-39 | With non-negative weights summing to 1, the final score lies in [0, 100] for any raw inputs. |
| ScoringEngine.TotalScoreMonotone | src/scoring/scoring_engine.py:28-36 | With non-negative weights, raising section scores never lowers the total. |
| ScoringEngine.RaiseOneSection | src/scoring/scoring_engine.py:28-39 | With non-negative weights, raising one section's score never lowers the final score. |
| ScoringEngine.EmptyInputTotal | src/scoring/scoring_engine.py:22-36 | An empty input totals 50 × (sum of weights). |
| ScoringEngine.TotalIgnoresOtherKeys | src/scoring/scoring_engine.py:21-22 | Input keys outside the weight table never change the total. |
| Grading.GetMarketingGrade | src/scoring/grading.py:1-46 | The grade is one of six bands. Each band is closed below and open above: A+ from 90, A from 80, B from 70, C from 60, D from 50, and F below 50, negatives included. Each grade carries its fixed risk level and verdict. |
| Grading.GradeRankCountsMissedThresholds | src/scoring/grading.py:6-46 | The grade's position on the ladder equals the number of thresholds the score falls short of. This is an independent reading of the if-chain. |
| Grading.GradeMonotone | src/scoring/grading.py:6-46 | A higher score never gets a worse grade. |
| Grading.GradeFieldsDetermineGrade | src/scoring/grading.py:6-46 | The letter, the risk level and the verdict each determine the grade. |
| Grading.EveryGradeReachable | src/scoring/grading.py:6-46 | Every one of the six grades is returned for some score. |
| ReportScores.BuildReportScores | src/scoring/report_scores.py:1-15 | The overall row is the final score rounded to the nearest integer, with a tie going to the even one. Business Details and Google Business Profile are 100 exactly when their record is non-empty. Listings is 0. Techno Stack equals Website Performance. The category rows read `"website"`, `"reviews"` and `"seo"`, with 0 when the key is absent. |
| ReportScores.CategoryRowsZeroForMapperOutput | src/scoring/report_scores.py:9-14 | Fed the mapper's section map, the four category rows are all 0. |
| ReportScores.PresenceIgnoresValues | src/scoring/report_scores.py:8 | A business record holding only a `None` name still shows 100, and an empty one shows 0. |
| ReportScores.OverallWithinBounds | src/scoring/report_scores.py:7 | A final score in [0, 100] gives an overall row in [0, 100]. |
| PyNumbers.RoundHalfEven | src/scoring/report_scores.py:7 | `round(x)` is within 0.5 of x, and a tie goes to the even integer. |
| PyNumbers.Round2 | src/scoring/scoring_engine.py:31-39 | `round(x, 2)` is within 0.005 of x and is a whole number of hundredths. |
| PyNumbers.Round2Within | src/scoring/scoring_engine.py:39 | Rounding to hundredths keeps a value inside whole-number bounds. |
| PyValues.SafeFloat | src/collectors/gbp_reviews.py:11-15 | `_safe_float` gives `None` for `None` and for containers, and the parser's result for a string. Numbers and booleans become reals. |
| PyValues.SafeInt | src/collectors/gbp_reviews.py:17-21 | `_safe_int` gives `None` for `None` and for containers, and the parser's result for a string. Integers are unchanged. |
| PyValues.SafeIntTruncatesSafeFloat | src/collectors/gbp_reviews.py:11-21 | On non-strings, `_safe_int` fails exactly when `_safe_float` does, and its value is `_safe_float`'s truncated toward zero. |
| PyValues.GetAny | src/collectors/gbp_reviews.py:51 | The `or` chain of lookups is truthy exactly when some key's value is. Otherwise it is the last key's value. |
| GbpReviews.AnalyzeGoogleReviews | src/collectors/gbp_reviews.py:35-69 | An empty list gives five `None`s. Otherwise the total is the number of reviews, and the counts are the per-review reference counts with positive + negative ≤ total. The reply rate is the rounded replied percentage in [0, 100]. The response time is always `None`. |
| GbpReviews.PositiveNegativeDisjoint | src/collectors/gbp_reviews.py:53-55 | No review is both positive and negative. |
| GbpReviews.UnreadableRatingCountsAsNeither | src/collectors/gbp_reviews.py:51-55 | A missing or unparsable rating counts as neither positive nor negative. |
| GbpReviews.ReplyRate | src/collectors/gbp_reviews.py:57-61 | The reply rate is replied / total × 100 to within rounding (±0.005). It lies in [0, 100], and it is exactly 0 when nothing is replied and exactly 100 when everything is. |
| GbpReviews.NormDomain | src/collectors/gbp_reviews.py:23-26 | An empty URL has the empty domain, and every domain is lower-case. |
| GbpReviews.NameSim | src/collectors/gbp_reviews.py:28-33 | The similarity lies in [0, 1], and is 0 when either cleaned name is empty. |
| GbpReviews.MatchScore | src/collectors/gbp_reviews.py:113-122 | A domain match scores in [100, 150], and anything else in [0, 50]. |
| GbpReviews.FirstMax | src/collectors/gbp_reviews.py:107-126 | The strict `>` loop from −1 returns a maximal score, and every earlier candidate scores strictly less. |
| GbpReviews.SelectBestPlace | src/collectors/gbp_reviews.py:104-128 | The chosen candidate has the highest match score, and on ties it is the earliest. An empty chosen dict falls back to the first item. |
| GbpReviews.DomainMatchBeatsName | src/collectors/gbp_reviews.py:118-122 | A domain-matching place always outscores a non-matching one. |
| GbpReviews.EmptySiteMatchesAnyTarget | src/collectors/gbp_reviews.py:113-118 | A place without a website counts as a domain match for any non-empty target. |
| GbpReviews.SitelessPlaceScoresAsMatch | src/collectors/gbp_reviews.py:113-122 | Such a place scores at least 100. |
| GbpReviews.CorrectedMatchScore | src/collectors/gbp_reviews.py:113-122 | With both domains required to be known, only a real domain match scores in [100, 150]. |
| GbpReviews.SiteMatchBeatsSiteless | src/collectors/gbp_reviews.py:113-122 | Under the corrected score, a place without a website gets at most 50 and loses to a real match. |
| GbpReviews.CorrectedAgreesWithKnownSite | src/collectors/gbp_reviews.py:113-122 | Wherever the place's domain is known, the corrected score equals the score as written. |
| FacebookReviewsCollector.ToBoolLike | src/collectors/facebook_reviews.py:31-42 | `None` gives `None` and a bool passes through. A string is true or false exactly when its stripped, lower-cased form is in that token list. Numbers and containers give `None`. |
| FacebookReviewsCollector.TokenListsDisjoint | src/collectors/facebook_reviews.py:38-41 | No token is both true and false. |
| FacebookReviewsCollector.Classify | src/collectors/facebook_reviews.py:46-75 | An explicit recommendation decides the class. Without one, a rating ≥ 4 is positive, a rating ≤ 2 is negative, and anything else, including no rating or an unreadable one, is unknown. |
| FacebookReviewsCollector.RatingVerdict | src/collectors/facebook_reviews.py:61-75 | The rating fallback on its own: positive, negative and unknown exactly as in the three bands. |
| FacebookReviewsCollector.VerdictsPartition | src/collectors/facebook_reviews.py:56-75 | positive + negative + unknown equals the number of reviews. |
| FacebookReviewsCollector.AnalyzeFacebookReviews | src/collectors/facebook_reviews.py:10-90 | An empty list gives six `None`s. Otherwise the counts are the reference counts and add up to the total. The reply rate is in [0, 100], and the response time is `None`. |
| FacebookReviewsCollector.FetchFacebookReviews | src/collectors/facebook_reviews.py:94-125 | Without a page URL the result is the fixed record, which lacks the `facebook_reviews_unknown` key. Otherwise it is the analysis of the scraped items. |
| FacebookReviewsCollector.RecommendationOverridesRating | src/collectors/facebook_reviews.py:54-59 | With an explicit recommendation, changing a rating field never changes the class. |
| FacebookReviewsCollector.FalseRecommendationFallsThrough | src/collectors/facebook_reviews.py:46-52 | `recommended: False` falls through the `or` chain to `None`, so the review is classified by its rating. |
| FacebookReviewsCollector.FalseRecommendationIgnored | src/collectors/facebook_reviews.py:46-75 | A review with only `recommended: False` is counted as unknown. |
| FacebookReviewsCollector.FirstPresent | src/collectors/facebook_reviews.py:46-52 | The first non-`None` field is `None` exactly when every field is. |
| FacebookReviewsCollector.ClassifyCorrected | src/collectors/facebook_reviews.py:46-75 | The class as intended. A boolean `recommended` field decides: `True` is positive and `False` is negative. The corrected class differs from the as-written one only when the first recommendation field present holds a falsy value, which the `or` chain skips. |
| FacebookReviewsCollector.ExplicitRecommendationDecides | src/collectors/facebook_reviews.py:46-59 | Under the correction, a boolean `recommended` decides positive or negative. |
| FacebookReviewsCollector.NoRecommendationAgrees | src/collectors/facebook_reviews.py:46-75 | With no recommendation field, the corrected class and the class as written agree with the rating verdict. |
| SeoVisibilityCollector.RankToVisibility | src/collectors/seo_visibility.py:25-36 | A rank ≤ 0 or > 50 gives 0, and ranks 1 to 3 give 100. Then come three linear segments of 8, 2.5 and 0.45 points per place. |
| SeoVisibilityCollector.VisibilityWithinBounds | src/collectors/seo_visibility.py:25-36 | Visibility lies in [0, 100]. |
| SeoVisibilityCollector.VisibilityNonIncreasing | src/collectors/seo_visibility.py:28-36 | Over positive ranks, visibility never grows as the rank worsens, including across the segment edges. |
| SeoVisibilityCollector.VisibilityAtEdges | src/collectors/seo_visibility.py:28-36 | The values at the edges are 3→100, 4→92, 10→44, 11→37.5, 20→15, 21→14.55, 50→1.5 and 51→0. |
| SeoVisibilityCollector.NormalizeDomain | src/collectors/seo_visibility.py:21-22 | The normalised domain is lower-case. |
| SeoVisibilityCollector.RankOfIsFirstHit | src/collectors/seo_visibility.py:79-90 | The rank is 0 exactly when no result with a URL contains the target domain. Otherwise it is the 1-based position of the first such result. |
| SeoVisibilityCollector.FindRank | src/collectors/seo_visibility.py:79-90 | The scanning loop returns the first-hit rank. |
| SeoVisibilityCollector.EmptyTargetHitsFirstUrl | src/collectors/seo_visibility.py:82-88 | With an empty target domain, the rank is the position of the first result that has a URL. |
| SeoVisibilityCollector.Lookup | src/collectors/seo_visibility.py:92-93 | A dict lookup succeeds exactly for its keys. |
| SeoVisibilityCollector.Put | src/collectors/seo_visibility.py:92-93 | Assigning a key adds it, gives it the new value and leaves every other key alone. An existing key keeps its place, so the key order is unchanged. A new key is appended at the end. |
| SeoVisibilityCollector.RankingsKeys | src/collectors/seo_visibility.py:71-92 | The ranking table has one key per distinct non-empty query. |
| SeoVisibilityCollector.LastItemWins | src/collectors/seo_visibility.py:71-92 | The last item with a query decides its rank. |
| SeoVisibilityCollector.VisibilitiesPut | src/collectors/seo_visibility.py:92-93 | Setting a rank and setting its visibility keep the two tables parallel. |
| SeoVisibilityCollector.GetSeoVisibility | src/collectors/seo_visibility.py:68-104 | There is one rank and one visibility per distinct query. The score is the rounded mean visibility, or 0 without queries, and lies in [0, 100]. |
| BusinessInfoCollector.CutAt | src/collectors/business_info.py:23-24 | Cutting at a keyword present keeps exactly the text before its first occurrence. That text no longer contains the keyword, and a text without the keyword is unchanged. |
| BusinessInfoCollector.CutAtAll | src/collectors/business_info.py:22-24 | The truncated text is a prefix of the input and contains none of the keywords. It is unchanged when none occurs. Otherwise it ends exactly where some keyword starts in the input. The first keyword is cut at its first occurrence, and the first occurrence of every keyword present is cut away. |
| BusinessInfoCollector.CleanAddress | src/collectors/business_info.py:7-30 | An empty or `None` input gives `None`. Otherwise the result has single spaces between words and no space at either end, and it is never longer than the input. Lower-cased, it equals the lower-cased input cut at the stop keywords with its whitespace collapsed. It is title-cased: a letter is upper-case exactly when it starts a run of letters. |
| BusinessInfoCollector.TruncatedTextHasNoKeyword | src/collectors/business_info.py:20-24 | After the truncation loop, and before spaces are collapsed, no stop keyword occurs, and the text is a prefix of the lower-cased input. |
| BusinessInfoCollector.LowerOfTitle | src/collectors/business_info.py:27-30 | Title-casing a lower-case text keeps its letters. |
| BusinessInfoCollector.SpacedKeywordSurvives | src/collectors/business_info.py:20-30 | "by  phone" (two spaces) comes out as "By Phone", so a stop keyword survives. |
| BusinessInfoCollector.CleanAddressCollapsedFirst | src/collectors/business_info.py:7-30 | Cleaning with the spaces collapsed before the cut leaves no stop keyword in the result. |
| SocialLinks.CleanFb | src/collectors/social_links.py:13-28 | `None` or "" gives `None`. A kept link is an http(s) URL without any share marker, equal to the stripped input, possibly with "https:" in front. |
| SocialLinks.CleanFbAcceptsExactly | src/collectors/social_links.py:13-28 | A link is kept exactly when its stripped form has no marker and is an http(s) URL or a `//` link. Only the latter is changed, by prefixing "https:". |
| SocialLinks.ShareLinksRejected | src/collectors/social_links.py:19-21 | A link carrying any share marker is rejected. |
| SocialLinks.CleanFbIdempotent | src/collectors/social_links.py:13-28 | Cleaning a kept link returns it unchanged. |
| Keywords.DetectBusinessType | src/utils/keywords.py:1-11 | The result is one of the four types. "property" is checked first, then "agency"/"marketing", then "software"/"saas". |
| Keywords.DetectIgnoresCase | src/utils/keywords.py:2 | A name and its lower-cased form get the same type. |
| Keywords.PropertyCheckedFirst | src/utils/keywords.py:4-9 | "property" wins over agency and software words. |
| Keywords.GetDynamicKeywords | src/utils/keywords.py:14-43 | The first keyword is the business name, or "" when it is absent. There are 4 keywords for a known type and 3 otherwise. |
| Keywords.UnknownTypeGetsGenericList | src/utils/keywords.py:43 | An unknown type gets exactly the generic list. |
| Keywords.DetectedKeywords | src/utils/keywords.py:1-43 | The detected type's list starts with the name, and has 3 entries exactly for the generic type. |
| AuditRun.NameText | src/main.py:42 | An absent, `None` or empty name reads as "". |
| AuditRun.DetectBusinessType | src/main.py:41-50 | The result is `local_service` exactly when a local-service word occurs, and `agency` exactly when no local-service word but an agency word occurs. Otherwise it is `generic`. |
| AuditRun.NullNameIsGeneric | src/main.py:42 | A `None`, absent or empty name is generic and never fails. |
| AuditRun.LocalServiceBeforeAgency | src/main.py:44-48 | A name with both kinds of word is `local_service`. |
| AuditRun.GetDynamicKeywords | src/main.py:53-71 | `local_service` gives 4 fixed keywords and `agency` gives 5. Any other type gives the one-element list holding the name, or "" when it is absent. |
| AuditRun.KnownTypesIgnoreName | src/main.py:54-69 | The two fixed lists never depend on the name. |
| AuditRun.ScoreAudit | src/main.py:137-152 | Steps 7 and 8. The grade and the whole report table both come from the one final score. The report is exactly the report table built from the audit, the section scores and that score. The breakdown covers the weighted sections, and each row holds that section's expected entry. The four category rows are 0. With non-negative weights summing to 1, the final score and the overall row lie in [0, 100]. |
| AuditRun.GradeAgreesWithOverall | src/main.py:143-152 | An overall row of 91 or more comes with A+, and one of 49 or less with F. |
| Geo.DetectCountryCode | src/utils/geo.py:3-27 | Each code is returned exactly when the first address check that matches (india, us, gb, au) names it. When no address check matches, the first matching domain suffix (.in, .uk, .au) decides. "us" comes only from the address, and with no match the result is `None`. |
| Geo.CodesAreKnown | src/utils/geo.py:3-27 | The result is "in", "us", "gb", "au" or `None`. |
| Geo.IndiaAddressWins | src/utils/geo.py:7-8 | An address naming India gives "in" whatever the domain. |
| Geo.AddressDecidesAlone | src/utils/geo.py:7-24 | Once an address check matches, the website plays no part. |
| Geo.NullAddressLikeMissing | src/utils/geo.py:4 | A `None` address reads as "none", which names no country, so it acts like a missing one. |
| Geo.SubstringMatchesInsideWords | src/utils/geo.py:11-12 | The checks match substrings: "Duke Street" is read as British. |
| ExcelStore.KeepOnly | src/storage/excel_store.py:8 | Only word characters, whitespace and '-' remain, and text made only of those is unchanged. |
| ExcelStore.SafeFilename | src/storage/excel_store.py:7-9 | The name is lower-case and has no ' ', '/' or '.'. Every character is a kept one, and the name is never longer than the input. |
| ExcelStore.SafeFilenameIsPerCharacter | src/storage/excel_store.py:7-9 | The name is the input converted one character at a time: others dropped, a space becoming '_', and letters lower-cased. |
| ExcelStore.SafeFilenameIdempotent | src/storage/excel_store.py:7-9 | Sanitising a sanitised name changes nothing. |
| ExcelStore.StripScheme | src/storage/excel_store.py:16 | A website without either scheme is unchanged. |
| ExcelStore.StripHttps | src/storage/excel_store.py:16 | "https://" + host loses exactly its scheme. |
| ExcelStore.StripHttp | src/storage/excel_store.py:16 | "http://" + host loses exactly its scheme. |
| ExcelStore.SafeSite | src/storage/excel_store.py:15-16 | A `None` website fails, and nothing else does. A produced site part is lower-case and has no ' ' or '/'. |
| ExcelStore.MissingWebsiteName | src/storage/excel_store.py:15 | Without a website the site part is "website". |
| ExcelStore.SiteOfUrl | src/storage/excel_store.py:15-16 | The site part of an http(s) URL is its host and path, made safe. |
| ExcelStore.AuditFileName | src/storage/excel_store.py:20 | The name is "audit_", then the site part, "_", the timestamp and ".xlsx", each at its stated position. |
| ExcelStore.AuditFileNameDeterminesParts | src/storage/excel_store.py:20 | Two equal file names whose site parts have the same length come from the same site and timestamp. |

## Left out

- Network collection is not modelled: page fetches, the Apify actor calls, the API token checks, and the HTML heuristics of `extract_business_info`, `detect_tech_stack`, `get_website_performance` and `extract_facebook_url`. Their results arrive as parameters.
- Building the Google record from the chosen place (src/collectors/gbp_reviews.py:130-150) is not modelled. It is a set of field copies through `or` chains, and `PyValues.GetAny`, `SafeFloat` and `SafeInt` model its ingredients.
- The SEO query string and the scraper's run settings (src/collectors/seo_visibility.py:48-66) are not modelled. They only feed the network call.
- The LLM summary, the HTML report, the Excel write and the Streamlit UI are file or service I/O.
- The pydantic audit schema is not modelled; the pipeline does not use it.
- The test scripts are not modelled; they call live services.
- `scoring/weights.py` is not part of this model, so the weight table is a parameter.
- `PyNumbers.Round2`: `round(x, 2)` and `round(x)` are exact decimal rounding with ties to even. Binary floating point, NaN and infinities are not modelled.
- `PyValues.Parsers`: `float(str)` and `int(str)` are abstract parsers.
- `GbpReviews.Matching`: `urlparse(..).netloc` and `SequenceMatcher.ratio` are abstract functions. The ratio is assumed to lie in [0, 1].
- `PyStrings`: `lower`, `title`, `strip`, `split()`, `\w` and `\s` are ASCII approximations. Unicode case mapping and Unicode word characters are not modelled.
- `ReportScores.BuildReportScores`: the section map holds plain numbers, so a `None` value under `"website"`, `"reviews"` or `"seo"` cannot be expressed.
- `Keywords.DetectBusinessType`: a `business_name` stored as `None` makes the source raise at `.lower()`. That case is a precondition here, not an error result.
- `ExcelStore.SafeSite`: a `None` website raises `AttributeError` in the source. Here it is the `None` result.
- `FacebookReviewsCollector.ToBoolLike`: `str()` of a number, list or dict is never one of the tokens, so such values go straight to `None` without modelling `str()`.
- `SeoVisibilityCollector.SearchItem`: a query that is missing, `None` or empty is the empty string, and so is a missing or empty result URL. Non-string queries are not modelled.
- `AuditRun.ScoreAudit`: the `try`/`except` around the audit, and the UI response assembled after step 8, are not modelled.
- The timestamp in the Excel file name is a parameter, because it comes from the clock.

## Findings

| source | as written | input that shows it | evidently intended | confidence | as-written member | corrected member |
|---|---|---|---|---|---|---|
| src/collectors/business_info.py:20-27 | Stop keywords are cut before the whitespace is collapsed, so a keyword split by two spaces survives and then reappears after collapsing. | "by  phone" gives "By Phone". | No stop keyword should remain in the cleaned address. | not executed; medium | BusinessInfoCollector.SpacedKeywordSurvives | BusinessInfoCollector.CleanAddressCollapsedFirst |
| src/collectors/gbp_reviews.py:113, 118 | `place_domain in target_domain` is true for an empty place domain, so a place without a website gets the 100-point domain bonus. | Target "example.com" and a place with no website scores at least 100. | Only a place whose known domain matches should earn the bonus. | not executed; high | GbpReviews.SitelessPlaceScoresAsMatch | GbpReviews.CorrectedMatchScore |
| src/collectors/facebook_reviews.py:46-52 | The `or` chain skips a falsy `False`, so an explicit "not recommended" never reaches `to_bool_like`. | `{"recommended": False}` is counted as unknown. | An explicit `False` should count as negative, as `to_bool_like`'s bool branch expects. | not executed; high | FacebookReviewsCollector.FalseRecommendationIgnored | FacebookReviewsCollector.ClassifyCorrected |

The pipeline members (`CleanAddress`, `SelectBestPlace` and `AnalyzeFacebookReviews`) model the code as written. The corrected definitions stand beside them, each with its intended property proved.
