/** src/storage/excel_store.py: the file name under which an audit is
    stored. `safe_filename` keeps word characters, whitespace and '-',
    turns spaces into '_' and lower-cases; the site part of the name is
    the website with its "https://" and "http://" removed. The clock that
    stamps the name and the spreadsheet write are not part of this model. */
module ExcelStore {
  import opened PyValues
  import opened PyStrings

  /** `\w` on ASCII: a letter, a digit or '_'. */
  predicate IsWordChar(c: char) {
    IsLetter(c) || IsDigit(c) || c == '_'
  }

  /** The characters `re.sub(r"[^\w\s-]", "", text)` leaves in place. */
  predicate Kept(c: char) {
    IsWordChar(c) || IsSpace(c) || c == '-'
  }

  /** `re.sub(r"[^\w\s-]", "", text)`: every other character removed. */
  function KeepOnly(s: string): (r: string)
    ensures |r| <= |s|
    ensures forall i :: 0 <= i < |r| ==> Kept(r[i])
    ensures (forall i :: 0 <= i < |s| ==> Kept(s[i])) ==> r == s
  {
    if |s| == 0 then ""
    else (if Kept(s[0]) then [s[0]] else "") + KeepOnly(s[1..])
  }

  /** `safe_filename(text)`: the regex removal, then `.replace(" ", "_")`,
      then `.lower()`. The result is lower-case, holds no ' ' and no path
      separator, and only letters, digits, '_', '-' and the other
      whitespace characters. */
  function SafeFilename(text: string): (r: string)
    ensures |r| <= |text|
    ensures IsLowerCase(r)
    ensures ' ' !in r && '/' !in r && '.' !in r
    ensures forall i :: 0 <= i < |r| ==> Kept(r[i]) && r[i] != ' '
  {
    var kept := KeepOnly(text);
    ReplaceCharIsMap(kept, ' ', '_');
    Lower(ReplaceAll(kept, " ", "_"))
  }

  /** What `safe_filename` does to one character that survives the regex. */
  function ConvertChar(c: char): char {
    if c == ' ' then '_' else LowerChar(c)
  }

  /** Reference definition, one character at a time: a character outside
      `[\w\s-]` is dropped, a space becomes '_', and a letter is
      lower-cased. */
  function PerCharacter(s: string): string {
    if |s| == 0 then ""
    else (if Kept(s[0]) then [ConvertChar(s[0])] else "") + PerCharacter(s[1..])
  }

  /** `safe_filename` agrees with the character-by-character reference. */
  lemma {:induction false} SafeFilenameIsPerCharacter(text: string)
    ensures SafeFilename(text) == PerCharacter(text)
    decreases |text|
  {
    ReplaceCharIsMap(KeepOnly(text), ' ', '_');
    LowerMapOfKept(text);
  }

  lemma {:induction false} LowerMapOfKept(s: string)
    ensures Lower(MapChar(KeepOnly(s), ' ', '_')) == PerCharacter(s)
    decreases |s|
  {
    if |s| > 0 {
      LowerMapOfKept(s[1..]);
      var h: string := if Kept(s[0]) then [s[0]] else "";
      var k := KeepOnly(s[1..]);
      assert KeepOnly(s) == h + k;
      assert MapChar(h + k, ' ', '_') == MapChar(h, ' ', '_') + MapChar(k, ' ', '_');
      var m := MapChar(h, ' ', '_');
      var n := MapChar(k, ' ', '_');
      assert Lower(m + n) == Lower(m) + Lower(n);
      assert Lower(m) == (if Kept(s[0]) then [ConvertChar(s[0])] else "");
    }
  }

  /** A text that `safe_filename` leaves unchanged: every character
      survives the regex and is its own conversion. */
  predicate Settled(s: string) {
    forall i :: 0 <= i < |s| ==> Kept(s[i]) && ConvertChar(s[i]) == s[i]
  }

  lemma {:induction false} PerCharacterSettled(s: string)
    ensures Settled(PerCharacter(s))
    decreases |s|
  {
    if |s| > 0 {
      PerCharacterSettled(s[1..]);
      var h: string := if Kept(s[0]) then [ConvertChar(s[0])] else "";
      var t := PerCharacter(s[1..]);
      assert PerCharacter(s) == h + t;
      forall i | 0 <= i < |h + t|
        ensures Kept((h + t)[i]) && ConvertChar((h + t)[i]) == (h + t)[i]
      {
        if i >= |h| {
          assert (h + t)[i] == t[i - |h|];
        }
      }
    }
  }

  lemma {:induction false} PerCharacterOfSettled(s: string)
    requires Settled(s)
    ensures PerCharacter(s) == s
    decreases |s|
  {
    if |s| > 0 {
      assert Settled(s[1..]) by {
        forall i | 0 <= i < |s[1..]| ensures Kept(s[1..][i]) && ConvertChar(s[1..][i]) == s[1..][i] {
          assert s[1..][i] == s[i + 1];
        }
      }
      PerCharacterOfSettled(s[1..]);
      assert Kept(s[0]) && ConvertChar(s[0]) == s[0];
      assert s == [s[0]] + s[1..];
    }
  }

  /** `safe_filename` is idempotent: a name it produced comes back as it is. */
  lemma SafeFilenameIdempotent(text: string)
    ensures SafeFilename(SafeFilename(text)) == SafeFilename(text)
  {
    var r := SafeFilename(text);
    SafeFilenameIsPerCharacter(text);
    SafeFilenameIsPerCharacter(r);
    PerCharacterSettled(text);
    PerCharacterOfSettled(r);
  }

  /** `website.replace("https://", "").replace("http://", "")`. */
  function StripScheme(w: string): (r: string)
    ensures !Contains(w, "https://") && !Contains(w, "http://") ==> r == w
  {
    ReplaceAll(ReplaceAll(w, "https://", ""), "http://", "")
  }

  /** A URL of the form "https://host/..." with no further scheme inside
      loses exactly its scheme. */
  lemma StripHttps(h: string)
    requires !Contains(h, "https://") && !Contains(h, "http://")
    ensures StripScheme("https://" + h) == h
  {
    var v := "https://" + h;
    assert OccursAt(v, "https://", 0) by { assert v[..8] == "https://"; }
    assert IndexOf(v, "https://") == 0;
    assert v[8..] == h;
    assert Split(v, "https://") == [""] + Split(h, "https://");
    assert Split(h, "https://") == [h];
    assert Join("", ["", h]) == h;
  }

  /** The same for "http://host/...". */
  lemma StripHttp(h: string)
    requires !Contains(h, "https://") && !Contains(h, "http://")
    ensures StripScheme("http://" + h) == h
  {
    var v := "http://" + h;
    forall j ensures !OccursAt(v, "https://", j) {
      if 0 <= j && j + 8 <= |v| {
        if j < 7 {
          HttpsNotAcrossScheme(h, j);
        } else {
          assert v[j..j + 8] == h[j - 7..j + 1];
          assert !OccursAt(h, "https://", j - 7);
        }
      }
    }
    assert !Contains(v, "https://");
    assert OccursAt(v, "http://", 0) by { assert v[..7] == "http://"; }
    assert IndexOf(v, "http://") == 0;
    assert v[7..] == h;
    assert Split(v, "http://") == [""] + Split(h, "http://");
    assert Split(h, "http://") == [h];
    assert Join("", ["", h]) == h;
  }

  lemma HttpsNotAcrossScheme(h: string, j: nat)
    requires j < 7
    requires j + 8 <= |"http://" + h|
    ensures ("http://" + h)[j..j + 8] != "https://"
  {
    // "https://" would need 'h' at j and 's' at j + 4, but "http://" has
    // its only 'h' at 0, where index 4 holds ':'.
    var v := "http://" + h;
    assert v[j..j + 8][0] == v[j];
    assert v[j..j + 8][4] == v[j + 4];
    assert v[..7] == "http://";
    assert v[j] == "http://"[j];
  }

  /** The site part of the file name: `audit_data.get("website", "website")`
      with the schemes removed, made safe. A website stored as `None`
      cannot be `.replace`d and raises, which is `None` here. */
  function SafeSite(website: Field<string>): (r: Option<string>)
    ensures website.Null? <==> r.None?
    ensures r.Some? ==> IsLowerCase(r.value) && ' ' !in r.value && '/' !in r.value
  {
    match website
    case Missing => Some(SafeFilename("website"))
    case Null => None
    case Val(w) => Some(SafeFilename(StripScheme(w)))
  }

  /** Without a website the site part is the default "website" itself. */
  lemma MissingWebsiteName()
    ensures SafeSite(Missing) == Some("website")
  {
    var w := "website";
    assert Settled(w) by {
      forall i | 0 <= i < |w| ensures Kept(w[i]) && ConvertChar(w[i]) == w[i] {
        assert IsLower(w[i]);
      }
    }
    SafeFilenameIsPerCharacter(w);
    PerCharacterOfSettled(w);
  }

  /** The site part of "https://host/..." or "http://host/..." is the
      host and path made safe, the scheme dropped. */
  lemma SiteOfUrl(h: string)
    requires !Contains(h, "https://") && !Contains(h, "http://")
    ensures SafeSite(Val("https://" + h)) == Some(SafeFilename(h))
    ensures SafeSite(Val("http://" + h)) == Some(SafeFilename(h))
  {
    StripHttps(h);
    StripHttp(h);
  }

  /** `f"audit_{safe_site}_{timestamp}.xlsx"`, with the timestamp (the
      clock read as `%Y%m%d_%H%M%S`) a parameter. */
  function AuditFileName(site: string, timestamp: string): (name: string)
    ensures |name| == |site| + |timestamp| + 12
    ensures StartsWith(name, "audit_") && EndsWith(name, ".xlsx")
    ensures name[6..6 + |site|] == site
    ensures name[6 + |site|] == '_'
    ensures name[7 + |site|..7 + |site| + |timestamp|] == timestamp
  {
    "audit_" + site + "_" + timestamp + ".xlsx"
  }

  /** Two file names that are equal and whose site parts have the same
      length come from the same site and the same timestamp, so the name
      identifies the audit once the site's length is known. */
  lemma AuditFileNameDeterminesParts(site1: string, ts1: string, site2: string, ts2: string)
    requires |site1| == |site2|
    requires AuditFileName(site1, ts1) == AuditFileName(site2, ts2)
    ensures site1 == site2 && ts1 == ts2
  {
    var n := AuditFileName(site1, ts1);
    assert |ts1| == |ts2|;
    assert site1 == n[6..6 + |site1|] == site2;
    assert ts1 == n[7 + |site1|..7 + |site1| + |ts1|] == ts2;
  }
}
