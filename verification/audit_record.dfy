/** The raw audit record that src/main.py assembles from the six
    collectors and hands to the scoring layer. Every sub-record is a flat
    Python dict; each field the scoring layer reads is a `Field`, so an
    absent key, a key mapped to `None` and a present value stay distinct.
    Keys the scoring layer never reads (Core Web Vitals, opening hours,
    keyword tables, ...) are only counted, because they still make the
    dict non-empty. A sub-record missing from the audit reads as `{}`,
    which is the record with every field `Missing` and no other keys.
 */
module AuditRecord {
  import opened PyValues

  /** `business_info` (src/collectors/business_info.py). */
  datatype BusinessInfo = BusinessInfo(
    businessName: Field<string>,
    phones: Field<seq<string>>,
    address: Field<string>,
    contactPage: Field<bool>,
    extraKeys: nat)
  {
    /** The dict is truthy: it has at least one key. */
    predicate NonEmpty() {
      businessName.Present() || phones.Present() || address.Present() ||
      contactPage.Present() || extraKeys > 0
    }
  }

  /** `tech_stack` (src/collectors/tech_stack.py). */
  datatype TechStack = TechStack(
    gtm: Field<bool>,
    gaUa: Field<bool>,
    ga4: Field<bool>,
    fbPixel: Field<bool>,
    googleAdsPixel: Field<bool>,
    chatWidget: Field<bool>,
    extraKeys: nat)

  /** `pagespeed` (src/collectors/pagespeed.py); the vitals are extra keys. */
  datatype PageSpeed = PageSpeed(
    psiMobileScore: Field<real>,
    psiDesktopScore: Field<real>,
    extraKeys: nat)

  /** `google_reviews` (src/collectors/gbp_reviews.py): the place fields
      and the review statistics merged into one dict. */
  datatype GoogleReviews = GoogleReviews(
    gbpClaimed: Field<bool>,
    gbpRating: Field<real>,
    googleReviewsTotal: Field<int>,
    extraKeys: nat)
  {
    predicate NonEmpty() {
      gbpClaimed.Present() || gbpRating.Present() || googleReviewsTotal.Present() || extraKeys > 0
    }
  }

  /** `facebook_reviews` (src/collectors/facebook_reviews.py): exactly the
      keys that collector can produce. */
  datatype FacebookReviews = FacebookReviews(
    total: Field<int>,
    positive: Field<int>,
    negative: Field<int>,
    unknown: Field<int>,
    replyRate: Field<real>,
    avgResponseTime: Field<real>)

  /** `seo_visibility` (src/collectors/seo_visibility.py); the keyword
      tables are extra keys. */
  datatype SeoVisibility = SeoVisibility(
    visibilityScore: Field<real>,
    extraKeys: nat)

  /** `audit_results` (src/main.py:125-132). */
  datatype Audit = Audit(
    businessInfo: BusinessInfo,
    techStack: TechStack,
    pageSpeed: PageSpeed,
    googleReviews: GoogleReviews,
    facebookReviews: FacebookReviews,
    seoVisibility: SeoVisibility)

  /** The `{}` each sub-record reads as when it is missing. */
  const NoBusinessInfo := BusinessInfo(Missing, Missing, Missing, Missing, 0)
  const NoTechStack := TechStack(Missing, Missing, Missing, Missing, Missing, Missing, 0)
  const NoPageSpeed := PageSpeed(Missing, Missing, 0)
  const NoGoogleReviews := GoogleReviews(Missing, Missing, Missing, 0)
  const NoFacebookReviews := FacebookReviews(Missing, Missing, Missing, Missing, Missing, Missing)
  const NoSeoVisibility := SeoVisibility(Missing, 0)

  /** An audit in which every sub-record is missing. */
  const EmptyAudit := Audit(NoBusinessInfo, NoTechStack, NoPageSpeed,
                            NoGoogleReviews, NoFacebookReviews, NoSeoVisibility)
}
