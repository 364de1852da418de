/** src/utils/keywords.py: the utility versions of business-type detection
    and SEO keyword selection. The pipeline itself uses the versions in
    src/main.py (module `AuditRun`), which shadow these. */
module Keywords {
  import opened PyValues
  import opened PyStrings

  const Property := "property"
  const Agency := "agency"
  const Saas := "saas"
  const Generic := "generic"

  /** `detect_business_type(business_info)`, given the `business_name` key.
      `.get("business_name", "")` turns an absent key into "", but a key
      mapped to `None` fails at `.lower()`: callers must not pass one. */
  function DetectBusinessType(name: Field<string>): (t: string)
    requires !name.Null?
    ensures t in {Property, Agency, Saas, Generic}
    ensures var n := NameText(name);
            (t == Property <==> Contains(n, "property")) &&
            (t == Agency <==> !Contains(n, "property") && (Contains(n, "agency") || Contains(n, "marketing"))) &&
            (t == Saas <==> !Contains(n, "property") && !Contains(n, "agency") && !Contains(n, "marketing") &&
                            (Contains(n, "software") || Contains(n, "saas")))
  {
    var n := NameText(name);
    if Contains(n, "property") then Property
    else if Contains(n, "agency") || Contains(n, "marketing") then Agency
    else if Contains(n, "software") || Contains(n, "saas") then Saas
    else Generic
  }

  /** The lower-cased name the detector searches: "" for an absent key. */
  function NameText(name: Field<string>): (n: string)
    requires !name.Null?
    ensures IsLowerCase(n)
    ensures name.Missing? ==> n == ""
  {
    if name.Val? then Lower(name.v) else ""
  }

  /** `get_dynamic_keywords(business_type, business_info)`: the business
      name (`None` when the key holds `None`, "" when it is absent) followed
      by the fixed keywords of the type; an unknown type gets the generic
      list. */
  function GetDynamicKeywords(businessType: string, name: Field<string>): (ks: seq<Option<string>>)
    ensures |ks| >= 1 && ks[0] == name.GetDefault("")
    ensures |ks| == (if businessType in {Property, Agency, Saas} then 4 else 3)
    ensures forall i :: 1 <= i < |ks| ==> ks[i].Some?
  {
    var base := name.GetDefault("");
    if businessType == Property then
      [base, Some("property management"), Some("real estate services"), Some("homes for rent")]
    else if businessType == Agency then
      [base, Some("digital marketing agency"), Some("seo agency"), Some("web development agency")]
    else if businessType == Saas then
      [base, Some("software company"), Some("saas platform"), Some("cloud software")]
    else
      GenericKeywords(base)
  }

  /** The generic list: the name and two general service phrases. */
  function GenericKeywords(base: Option<string>): seq<Option<string>> {
    [base, Some("business services"), Some("professional services")]
  }

  /** Detection ignores letter case: a name and its lower-cased form get the
      same type. */
  lemma DetectIgnoresCase(s: string)
    ensures DetectBusinessType(Val(Lower(s))) == DetectBusinessType(Val(s))
  {
    LowerOfLowerCase(Lower(s));
  }

  /** "property" wins over the agency and software words. */
  lemma PropertyCheckedFirst()
    ensures DetectBusinessType(Val("Property Marketing Software")) == Property
  {
    var n := Lower("Property Marketing Software");
    assert n[0..8] == "property";
    assert OccursAt(n, "property", 0);
  }

  /** Any type the table does not know gets exactly the generic list, and
      so does the type detection returns for a name with no keyword. */
  lemma UnknownTypeGetsGenericList(businessType: string, name: Field<string>)
    requires businessType !in {Property, Agency, Saas}
    ensures GetDynamicKeywords(businessType, name) == GenericKeywords(name.GetDefault(""))
  {
  }

  /** Detection and selection together: the keyword list of the detected
      type starts with the name and has 4 entries unless nothing matched. */
  lemma DetectedKeywords(name: Field<string>)
    requires !name.Null?
    ensures var ks := GetDynamicKeywords(DetectBusinessType(name), name);
            ks[0] == Some(if name.Val? then name.v else "") &&
            (|ks| == 3 <==> DetectBusinessType(name) == Generic)
  {
  }
}
