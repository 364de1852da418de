/** src/collectors/social_links.py: `_clean_fb`, which accepts a candidate
    Facebook link only when it is an absolute http(s) URL and not a share
    or intent link. Fetching the page and scanning its anchors is not part
    of this model. */
module SocialLinks {
  import opened PyValues
  import opened PyStrings

  /** Share dialogs and intent links are rejected. */
  const BadMarkers: seq<string> := ["sharer.php", "/share", "intent", "dialog/share"]

  /** An absolute web URL: it starts with "http://" or "https://". */
  predicate IsWebUrl(u: string) {
    StartsWith(u, "http://") || StartsWith(u, "https://")
  }

  /** `_clean_fb(url)`: `None` for `None` or ""; otherwise the stripped
      link, with "https:" put in front of a protocol-relative "//" link,
      if it carries no share marker and is an absolute http(s) URL. */
  function CleanFb(url: Option<string>): (r: Option<string>)
    ensures url.None? || url == Some("") ==> r.None?
    ensures r.Some? ==> IsWebUrl(r.value)
    ensures r.Some? ==> !ContainsAny(Strip(url.value), BadMarkers)
    ensures r.Some? ==> r.value == Strip(url.value) || r.value == "https:" + Strip(url.value)
  {
    if url.None? || url.value == "" then None
    else
      var u := Strip(url.value);
      if ContainsAny(u, BadMarkers) then None
      else
        var v := if StartsWith(u, "//") then "https:" + u else u;
        if IsWebUrl(v) then Some(v) else None
  }

  /** Exactly which links are kept: a non-empty link is accepted iff its
      stripped form has no share marker and is either an http(s) URL or a
      protocol-relative one; the latter gets "https:" in front and nothing
      else ever changes. */
  lemma CleanFbAcceptsExactly(url: string)
    requires url != ""
    ensures var u := Strip(url);
            CleanFb(Some(url)).Some? <==>
              !ContainsAny(u, BadMarkers) && (IsWebUrl(u) || StartsWith(u, "//"))
    ensures var u := Strip(url);
            CleanFb(Some(url)).Some? ==>
              CleanFb(Some(url)).value == (if StartsWith(u, "//") then "https:" + u else u)
  {
    var u := Strip(url);
    if StartsWith(u, "//") {
      var v := "https:" + u;
      assert v[..8] == "https://";
      assert StartsWith(v, "https://");
    }
  }

  /** Any link carrying a share marker is rejected. */
  lemma ShareLinksRejected(url: string, i: nat)
    requires url != ""
    requires i < |BadMarkers|
    requires Contains(Strip(url), BadMarkers[i])
    ensures CleanFb(Some(url)).None?
  {
  }

  /** Cleaning is idempotent: a kept link is kept unchanged. */
  lemma CleanFbIdempotent(url: string)
    requires CleanFb(Some(url)).Some?
    ensures CleanFb(CleanFb(Some(url))) == CleanFb(Some(url))
  {
    var u := Strip(url);
    var v := CleanFb(Some(url)).value;
    assert |v| > 0 && !IsSpace(v[0]) by {
      if StartsWith(u, "//") { assert v[0] == 'h'; } else { assert v[..4] == "http"; }
    }
    assert !IsSpace(v[|v| - 1]) by {
      assert |u| > 0;
      assert v[|v| - 1] == u[|u| - 1];
    }
    StripOfTrimmed(v);
    if StartsWith(u, "//") {
      MarkersAbsentAfterScheme(u);
      assert !StartsWith(v, "//");
    }
  }

  /** Putting "https:" in front of a protocol-relative link adds no share
      marker. */
  lemma MarkersAbsentAfterScheme(u: string)
    requires StartsWith(u, "//")
    requires !ContainsAny(u, BadMarkers)
    ensures !ContainsAny("https:" + u, BadMarkers)
  {
    forall i | 0 <= i < |BadMarkers| ensures !Contains("https:" + u, BadMarkers[i]) {
      MarkerAbsentAfterScheme(u, i);
    }
  }

  lemma MarkerAbsentAfterScheme(u: string, i: nat)
    requires StartsWith(u, "//")
    requires i < |BadMarkers|
    requires !Contains(u, BadMarkers[i])
    ensures !Contains("https:" + u, BadMarkers[i])
  {
    var v := "https:" + u;
    var k := BadMarkers[i];
    forall j | OccursAt(v, k, j) ensures false {
      if j >= 6 {
        assert v[j..j + |k|] == u[j - 6..j - 6 + |k|];
        assert OccursAt(u, k, j - 6);
      } else {
        // An occurrence reaching into the scheme would have to match
        // the fixed text "https://" at some offset; none of the markers
        // does.
        MarkerNotInPrefix(u, i, j);
      }
    }
  }

  lemma MarkerNotInPrefix(u: string, i: nat, j: nat)
    requires StartsWith(u, "//")
    requires i < |BadMarkers|
    requires j < 6
    ensures !OccursAt("https:" + u, BadMarkers[i], j)
  {
    // The scheme holds only 'h', 't', 'p', 's' and ':'; only "sharer.php"
    // starts with one of them, at the 's', which is followed by ':'.
    var v := "https:" + u;
    var k := BadMarkers[i];
    assert v[j] == "https:"[j];
    assert v[5] == ':';
    if |k| <= |v| - j {
      assert v[j..j + |k|][0] == v[j];
      assert v[j..j + |k|][1] == v[j + 1];
    }
  }
}
