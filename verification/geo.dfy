/** src/utils/geo.py: `detect_country_code`, which picks the country a
    business serves for localised search, first from words in its address
    and then from the top-level domain of its website. The host part of a
    URL (`urlparse(url).netloc`) is a parameter. */
module Geo {
  import opened PyValues
  import opened PyStrings
  import AuditRecord

  /** The text the address checks run on: `str(info.get("address", "")).lower()`.
      A missing key gives "", a `None` value gives "none". */
  function AddressText(address: Field<string>): string {
    match address
    case Missing => ""
    case Null => "none"
    case Val(s) => Lower(s)
  }

  /** The address names the country, in the order the checks run. */
  predicate SaysIndia(a: string) { Contains(a, "india") }
  predicate SaysUs(a: string) { Contains(a, "united states") || Contains(a, "usa") }
  predicate SaysUk(a: string) { Contains(a, "uk") || Contains(a, "united kingdom") }
  predicate SaysAustralia(a: string) { Contains(a, "australia") }

  predicate SaysCountry(a: string) {
    SaysIndia(a) || SaysUs(a) || SaysUk(a) || SaysAustralia(a)
  }

  /** `detect_country_code(website_url, business_info)`. Each code is
      returned exactly when the first address check that matches names it,
      or, when none matches, the first domain suffix that matches does;
      "us" comes only from the address, and with no match at all the
      result is `None` (global search). */
  function DetectCountryCode(url: string, info: AuditRecord.BusinessInfo, netloc: string -> string)
    : (r: Option<string>)
    ensures var a := AddressText(info.address);
            var d := Lower(netloc(url));
            (r == Some("in") <==> SaysIndia(a) || (!SaysCountry(a) && EndsWith(d, ".in"))) &&
            (r == Some("us") <==> !SaysIndia(a) && SaysUs(a)) &&
            (r == Some("gb") <==> (!SaysIndia(a) && !SaysUs(a) && SaysUk(a)) ||
                                  (!SaysCountry(a) && !EndsWith(d, ".in") && EndsWith(d, ".uk"))) &&
            (r == Some("au") <==> (!SaysIndia(a) && !SaysUs(a) && !SaysUk(a) && SaysAustralia(a)) ||
                                  (!SaysCountry(a) && !EndsWith(d, ".in") && !EndsWith(d, ".uk") &&
                                   EndsWith(d, ".au"))) &&
            (r.None? <==> !SaysCountry(a) && !EndsWith(d, ".in") && !EndsWith(d, ".uk") &&
                          !EndsWith(d, ".au"))
  {
    var address := AddressText(info.address);
    if Contains(address, "india") then Some("in")
    else if Contains(address, "united states") || Contains(address, "usa") then Some("us")
    else if Contains(address, "uk") || Contains(address, "united kingdom") then Some("gb")
    else if Contains(address, "australia") then Some("au")
    else
      var domain := Lower(netloc(url));
      if EndsWith(domain, ".in") then Some("in")
      else if EndsWith(domain, ".uk") then Some("gb")
      else if EndsWith(domain, ".au") then Some("au")
      else None
  }

  /** The result is always one of the four codes or `None`. */
  lemma CodesAreKnown(url: string, info: AuditRecord.BusinessInfo, netloc: string -> string)
    ensures var r := DetectCountryCode(url, info, netloc);
            r.None? || r.value in {"in", "us", "gb", "au"}
  {
  }

  /** An address naming India wins over every domain. */
  lemma IndiaAddressWins(url: string, info: AuditRecord.BusinessInfo, netloc: string -> string)
    requires SaysIndia(AddressText(info.address))
    ensures DetectCountryCode(url, info, netloc) == Some("in")
  {
  }

  /** Once an address check matches, the website plays no part. */
  lemma AddressDecidesAlone(url1: string, url2: string, info: AuditRecord.BusinessInfo,
                            netloc: string -> string)
    requires SaysCountry(AddressText(info.address))
    ensures DetectCountryCode(url1, info, netloc) == DetectCountryCode(url2, info, netloc)
  {
  }

  /** An address stored as `None` reads as "none", which names no country,
      so it behaves exactly like a missing address. */
  lemma NullAddressLikeMissing(url: string, info: AuditRecord.BusinessInfo, netloc: string -> string)
    requires info.address.Null?
    ensures DetectCountryCode(url, info, netloc) ==
            DetectCountryCode(url, info.(address := Missing), netloc)
  {
    NoneNamesNoCountry();
  }

  lemma NoneNamesNoCountry()
    ensures !SaysCountry("none")
  {
    NoneLacks("india", 0);
    NoneLacks("united states", 0);
    NoneLacks("usa", 0);
    NoneLacks("uk", 0);
    NoneLacks("united kingdom", 0);
    NoneLacks("australia", 0);
  }

  lemma NoneLacks(k: string, j: nat)
    requires j < |k|
    requires k[j] !in "none"
    ensures !Contains("none", k)
  {
    MissingCharMeansAbsent("none", k, j);
  }

  /** The checks look for substrings, not words: "uk" inside "Duke
      Street" makes the address British. */
  lemma SubstringMatchesInsideWords(url: string, info: AuditRecord.BusinessInfo, netloc: string -> string)
    requires info.address == Val("Duke Street")
    ensures DetectCountryCode(url, info, netloc) == Some("gb")
  {
    LowerOfDukeStreet();
    DukeStreetSaysUk();
    DukeStreetSaysNeitherIndiaNorUs();
  }

  lemma DukeStreetSaysUk()
    ensures SaysUk("duke street")
  {
    var a := "duke street";
    assert a[1..3] == "uk";
    assert OccursAt(a, "uk", 1);
  }

  lemma DukeStreetSaysNeitherIndiaNorUs()
    ensures !SaysIndia("duke street") && !SaysUs("duke street")
  {
    assert "india"[0] == 'i';
    DukeStreetLacks("india", 0);
    assert "united states"[2] == 'i';
    DukeStreetLacks("united states", 2);
    assert "usa"[2] == 'a';
    DukeStreetLacks("usa", 2);
  }

  /** "duke street" has neither an 'i' nor an 'a', so no word holding one
      of them occurs in it. */
  lemma DukeStreetLacks(k: string, j: nat)
    requires j < |k|
    requires k[j] == 'i' || k[j] == 'a'
    ensures !Contains("duke street", k)
  {
    var a := "duke street";
    assert a == ['d', 'u', 'k', 'e', ' ', 's', 't', 'r', 'e', 'e', 't'];
    assert k[j] !in a;
    MissingCharMeansAbsent(a, k, j);
  }

  lemma LowerOfDukeStreet()
    ensures Lower("Duke Street") == "duke street"
  {
    var s := "Duke Street";
    assert LowerChar(s[0]) == 'd';
    assert LowerChar(s[5]) == 's';
    forall i | 0 <= i < |s| && i != 0 && i != 5 ensures LowerChar(s[i]) == s[i] {
      assert !IsUpper(s[i]);
    }
  }
}
