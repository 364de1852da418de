/** src/collectors/business_info.py: `clean_address`, which trims the noisy
    footer text found as a business address. The page fetch and the HTML
    heuristics that find the text are not part of this model. */
module BusinessInfoCollector {
  import opened PyValues
  import opened PyStrings

  /** The noise markers; the text from the first one onward is dropped. */
  const StopKeywords: seq<string> :=
    ["by phone", "phone:", "fax", "copyright", "quick links", "powered by", "all rights reserved"]

  /** `s.split(k)[0]` when `k in s`, else `s`: the text before the first
      occurrence of `k`. */
  function CutAt(s: string, k: string): (r: string)
    requires |k| > 0
    ensures r <= s
    ensures !Contains(r, k)
    ensures !Contains(s, k) ==> r == s
    ensures Contains(s, k) ==> r == s[..IndexOf(s, k)]
  {
    if Contains(s, k) then
      SplitHead(s, k);
      BeforeFirstOccurrence(s, k);
      Split(s, k)[0]
    else s
  }

  /** The truncation loop over the stop keywords, in list order. Its result
      is a prefix of the text that contains none of the keywords; the text
      is only ever cut where one of the keywords starts, the first keyword
      at its first occurrence, and the first occurrence of every keyword
      present is cut away. */
  function CutAtAll(s: string, ks: seq<string>): (r: string)
    requires forall i :: 0 <= i < |ks| ==> |ks[i]| > 0
    ensures r <= s
    ensures forall i :: 0 <= i < |ks| ==> !Contains(r, ks[i])
    ensures (forall i :: 0 <= i < |ks| ==> !Contains(s, ks[i])) ==> r == s
    ensures r == s || exists i :: 0 <= i < |ks| && OccursAt(s, ks[i], |r|)
    ensures |ks| > 0 && Contains(s, ks[0]) ==> |r| <= IndexOf(s, ks[0])
    ensures forall i :: 0 <= i < |ks| && Contains(s, ks[i]) ==> |r| < IndexOf(s, ks[i]) + |ks[i]|
  {
    if |ks| == 0 then s
    else
      var c := CutAt(s, ks[0]);
      var r := CutAtAll(c, ks[1..]);
      assert forall i :: 1 <= i < |ks| ==> ks[i] == ks[1..][i - 1];
      PrefixKeepsAbsence(c, |r|, ks[0]);
      assert r == c[..|r|];
      CutLandsAtKeyword(s, ks, c, r);
      FirstOccurrencesCut(s, ks, r);
      r
  }

  /** One step of the loop: a cut of the first keyword followed by cuts at
      the remaining ones still lands where some keyword starts. */
  lemma CutLandsAtKeyword(s: string, ks: seq<string>, c: string, r: string)
    requires |ks| > 0 && |ks[0]| > 0
    requires c == CutAt(s, ks[0])
    requires r <= c
    requires r == c || exists i :: 0 <= i < |ks[1..]| && OccursAt(c, ks[1..][i], |r|)
    ensures r == s || exists i :: 0 <= i < |ks| && OccursAt(s, ks[i], |r|)
  {
    if r == c {
      if c != s {
        assert OccursAt(s, ks[0], |r|);
      }
    } else {
      var i :| 0 <= i < |ks[1..]| && OccursAt(c, ks[1..][i], |r|);
      assert c == s[..|c|];
      OccursInPrefix(s, |c|, ks[1..][i], |r|);
      assert ks[i + 1] == ks[1..][i];
      assert OccursAt(s, ks[i + 1], |r|);
    }
  }

  /** A keyword-free prefix stops before the end of each keyword's first
      occurrence. */
  lemma FirstOccurrencesCut(s: string, ks: seq<string>, r: string)
    requires r <= s
    requires forall i :: 0 <= i < |ks| ==> !Contains(r, ks[i])
    ensures forall i :: 0 <= i < |ks| && Contains(s, ks[i]) ==> |r| < IndexOf(s, ks[i]) + |ks[i]|
  {
    forall i | 0 <= i < |ks| && Contains(s, ks[i])
      ensures |r| < IndexOf(s, ks[i]) + |ks[i]|
    {
      var j := IndexOf(s, ks[i]);
      if j + |ks[i]| <= |r| {
        assert s[..|r|] == r;
        OccursInLongPrefix(s, |r|, ks[i], j);
      }
    }
  }

  /** `clean_address(raw_address)` as written: `None` for `None` or "";
      otherwise lower-case, cut at each stop keyword in turn, collapse the
      whitespace and title-case. The result is collapsed and never longer
      than the input, lower-cased it is exactly the collapsed, truncated
      lower-case input, and it is title-cased: a letter is upper-case
      exactly when it starts a run of letters. */
  function CleanAddress(raw: Option<string>): (r: Option<string>)
    ensures r.None? <==> raw.None? || raw.value == ""
    ensures r.Some? ==> Collapsed(r.value) && |r.value| <= |raw.value|
    ensures r.Some? ==> Lower(r.value) == CollapseSpaces(CutAtAll(Lower(raw.value), StopKeywords))
    ensures r.Some? ==> forall i :: 0 <= i < |r.value| && IsLetter(r.value[i]) ==>
              (IsUpper(r.value[i]) <==> (i == 0 || !IsLetter(r.value[i - 1])))
  {
    if raw.None? || raw.value == "" then None
    else
      var cut := CutAtAll(Lower(raw.value), StopKeywords);
      var collapsed := CollapseSpaces(cut);
      CollapseSpacesIsCollapsed(cut);
      CollapseSpacesShorter(cut);
      TitleKeepsCollapsed(collapsed);
      assert IsLowerCase(cut);
      LowerCaseOfCollapsed(cut);
      LowerOfTitle(collapsed);
      Some(Title(collapsed))
  }

  /** Before the whitespace is collapsed, the truncated text holds none of
      the stop keywords, and it is a prefix of the lower-cased input. */
  lemma TruncatedTextHasNoKeyword(raw: string)
    ensures var cut := CutAtAll(Lower(raw), StopKeywords);
            cut <= Lower(raw) && forall i :: 0 <= i < |StopKeywords| ==> !Contains(cut, StopKeywords[i])
  {
  }

  /** Lower-casing a title-cased lower-case text gives the text back, so
      the title-cased result keeps the letters of the cleaned text. */
  lemma LowerOfTitle(s: string)
    requires IsLowerCase(s)
    ensures Lower(Title(s)) == s
  {
    var t := Title(s);
    forall i | 0 <= i < |s| ensures Lower(t)[i] == s[i] {
      if IsLetter(s[i]) {
        assert LowerChar(t[i]) == LowerChar(s[i]);
      }
    }
  }

  /** A stop keyword whose words are split by two spaces is not cut, and
      reappears once the whitespace is collapsed: "by  phone" comes out as
      "By Phone" rather than being dropped. */
  lemma SpacedKeywordSurvives()
    ensures CleanAddress(Some("by  phone")) == Some("By Phone")
    ensures Contains(Lower(CleanAddress(Some("by  phone")).value), "by phone")
  {
    var s := "by  phone";
    CleanAddressSteps(s);
    SpacedTextIsLowerCase();
    SpacedTextHasNoKeyword();
    CollapseSpacedText();
    TitleOfCollapsedText();
    LowerOfTitledText();
  }

  /** The three stages of the cleaning for a non-empty input. */
  lemma CleanAddressSteps(raw: string)
    requires raw != ""
    ensures CleanAddress(Some(raw)) == Some(Title(CollapseSpaces(CutAtAll(Lower(raw), StopKeywords))))
  {
  }

  lemma SpacedTextIsLowerCase()
    ensures Lower("by  phone") == "by  phone"
  {
    LowerOfLowerCase("by  phone");
  }

  lemma LowerOfTitledText()
    ensures Lower("By Phone") == "by phone"
    ensures Contains("by phone", "by phone")
  {
    assert OccursAt("by phone", "by phone", 0);
  }

  lemma SpacedTextHasNoKeyword()
    ensures forall i :: 0 <= i < |StopKeywords| ==> !Contains("by  phone", StopKeywords[i])
  {
    SpacedTextLacksShortKeywords();
    SpacedTextLacksLongKeywords();
  }

  lemma SpacedTextLacksShortKeywords()
    ensures !Contains("by  phone", "by phone") && !Contains("by  phone", "phone:")
    ensures !Contains("by  phone", "fax") && !Contains("by  phone", "copyright")
  {
    SpacedTextLacksKeywordItself();
    SpacedTextLacksChar("phone:", 5);
    SpacedTextLacksChar("fax", 2);
    SpacedTextLacksChar("copyright", 0);
  }

  /** The last three keywords are longer than the text itself. */
  lemma SpacedTextLacksLongKeywords()
    ensures !Contains("by  phone", "quick links") && !Contains("by  phone", "powered by")
    ensures !Contains("by  phone", "all rights reserved")
  {
  }

  lemma SpacedTextLacksKeywordItself()
    ensures !Contains("by  phone", "by phone")
  {
    var s := "by  phone";
    forall i ensures !OccursAt(s, "by phone", i) {
      if i == 0 {
        assert s[0..8][3] == ' ';
      } else if i == 1 {
        assert s[1..9][0] == 'y';
      }
    }
  }

  lemma SpacedTextLacksChar(k: string, j: nat)
    requires j < |k|
    requires k[j] !in "byphone "
    ensures !Contains("by  phone", k)
  {
    assert forall c :: c in "by  phone" ==> c in "byphone ";
    MissingCharMeansAbsent("by  phone", k, j);
  }

  lemma CollapseSpacedText()
    ensures CollapseSpaces("by  phone") == "by phone"
  {
    WordsOfSpacedText();
  }

  lemma WordsOfWord()
    ensures Words("phone") == ["phone"]
  {
    assert RunLength("phone") == 5;
    assert "phone"[5..] == [];
    assert "phone"[..5] == "phone";
  }

  lemma WordsOfSpacedText()
    ensures Words("by  phone") == ["by", "phone"]
  {
    var s := "by  phone";
    WordsOfWord();
    assert " phone"[1..] == "phone";
    assert "  phone"[1..] == " phone";
    assert RunLength(s) == 2;
    assert s[2..] == "  phone";
    assert s[..2] == "by";
  }

  lemma TitleOfCollapsedText()
    ensures Title("by phone") == "By Phone"
  {
  }

  // ---------------------------------------------------------------
  // With the whitespace collapsed before the cut
  // ---------------------------------------------------------------

  /** `clean_address` with the whitespace collapsed BEFORE the stop
      keywords are cut (and the space the cut may leave at the end
      stripped), so a keyword cannot hide behind extra whitespace. */
  function CleanAddressCollapsedFirst(raw: Option<string>): (r: Option<string>)
    ensures r.None? <==> raw.None? || raw.value == ""
    ensures r.Some? ==> Collapsed(r.value) && |r.value| <= |raw.value|
    ensures r.Some? ==> forall i :: 0 <= i < |StopKeywords| ==> !Contains(Lower(r.value), StopKeywords[i])
  {
    if raw.None? || raw.value == "" then None
    else
      var collapsed := CollapseSpaces(Lower(raw.value));
      CollapseSpacesIsCollapsed(Lower(raw.value));
      CollapseSpacesShorter(Lower(raw.value));
      var cut := CutAtAll(collapsed, StopKeywords);
      var t := Strip(cut);
      StripPrefixOfCollapsed(collapsed, cut);
      LowerCaseOfCollapsed(Lower(raw.value));
      assert IsLowerCase(t);
      LowerOfTitle(t);
      forall i | 0 <= i < |StopKeywords| ensures !Contains(t, StopKeywords[i]) {
        PrefixKeepsAbsence(cut, |t|, StopKeywords[i]);
        assert cut[..|t|] == t;
      }
      TitleKeepsCollapsed(t);
      Some(Title(t))
  }

  /** Collapsing whitespace keeps a lower-case text lower-case. */
  lemma LowerCaseOfCollapsed(s: string)
    requires IsLowerCase(s)
    ensures IsLowerCase(CollapseSpaces(s))
  {
    WordsOfLowerCase(s);
    JoinLowerCase(" ", Words(s));
  }

  lemma {:induction false} WordsOfLowerCase(s: string)
    requires IsLowerCase(s)
    ensures forall i :: 0 <= i < |Words(s)| ==> IsLowerCase(Words(s)[i])
    decreases |s|
  {
    if |s| == 0 {
    } else if IsSpace(s[0]) {
      WordsOfLowerCase(s[1..]);
    } else {
      var n := RunLength(s);
      WordsOfLowerCase(s[n..]);
      assert Words(s) == [s[..n]] + Words(s[n..]);
    }
  }

  lemma {:induction false} JoinLowerCase(sep: string, parts: seq<string>)
    requires IsLowerCase(sep)
    requires forall i :: 0 <= i < |parts| ==> IsLowerCase(parts[i])
    ensures IsLowerCase(Join(sep, parts))
    decreases |parts|
  {
    if |parts| > 1 {
      JoinLowerCase(sep, parts[1..]);
    }
  }

  /** Stripping a prefix of a collapsed string leaves a collapsed prefix. */
  lemma StripPrefixOfCollapsed(c: string, p: string)
    requires Collapsed(c)
    requires p <= c
    ensures Collapsed(Strip(p))
    ensures Strip(p) <= p
  {
    var r := Strip(p);
    if |p| > 0 {
      assert !IsSpace(p[0]);
      assert LeadingSpaces(p) == 0;
    } else {
      assert LeadingSpaces(p) == 0;
    }
    assert r == p[..|r|];
    forall i | 0 <= i < |r| && IsSpace(r[i])
      ensures r[i] == ' ' && i + 1 < |r| && !IsSpace(r[i + 1])
    {
      assert r[i] == c[i];
      assert i + 1 < |r|;
      assert r[i + 1] == c[i + 1];
    }
  }
}
