/** Python `str` operations the core relies on, over `seq<char>`.

    Case mapping (`lower`, `upper`, `title`), `isspace` and regex classes
    are restricted to ASCII; every other character is left as it is by the
    case mappings and is not whitespace. Substring search, `split(sep)`,
    `sep.join`, `replace`, `strip()` and `split()` follow Python exactly on
    that alphabet.
 */
module PyStrings {

  // ---------------------------------------------------------------
  // Character classes
  // ---------------------------------------------------------------

  /** `c.isspace()` on ASCII: space, tab, line feed, vertical tab, form
      feed, carriage return and the separators 0x1C-0x1F. */
  predicate IsSpace(c: char) {
    c == ' ' || (9 <= c as int <= 13) || (28 <= c as int <= 31)
  }

  predicate IsUpper(c: char) { 'A' <= c <= 'Z' }

  predicate IsLower(c: char) { 'a' <= c <= 'z' }

  /** A cased character in the sense of `str.title`. */
  predicate IsLetter(c: char) { IsUpper(c) || IsLower(c) }

  predicate IsDigit(c: char) { '0' <= c <= '9' }

  function LowerChar(c: char): char {
    if IsUpper(c) then (c as int + 32) as char else c
  }

  function UpperChar(c: char): char {
    if IsLower(c) then (c as int - 32) as char else c
  }

  /** `s.lower()`. */
  function Lower(s: string): (r: string)
    ensures |r| == |s|
    ensures forall i :: 0 <= i < |s| ==> !IsUpper(r[i])
  {
    seq(|s|, i requires 0 <= i < |s| => LowerChar(s[i]))
  }

  /** No character of `s` is an upper-case letter. */
  predicate IsLowerCase(s: string) {
    forall i :: 0 <= i < |s| ==> !IsUpper(s[i])
  }

  /** Lower-casing is idempotent. */
  lemma LowerOfLowerCase(s: string)
    requires IsLowerCase(s)
    ensures Lower(s) == s
  {
  }

  // ---------------------------------------------------------------
  // Substring search: the `in` operator
  // ---------------------------------------------------------------

  /** `k` occurs in `s` starting at index `i`. */
  predicate OccursAt(s: string, k: string, i: int) {
    0 <= i && i + |k| <= |s| && s[i..i + |k|] == k
  }

  /** The first index at or after `from` where `k` occurs, or -1. */
  function IndexFrom(s: string, k: string, from: nat): (r: int)
    requires from <= |s|
    ensures r == -1 || (from <= r && OccursAt(s, k, r))
    ensures r == -1 ==> forall j :: from <= j ==> !OccursAt(s, k, j)
    ensures r >= 0 ==> forall j :: from <= j < r ==> !OccursAt(s, k, j)
    decreases |s| - from
  {
    if from + |k| > |s| then -1
    else if s[from..from + |k|] == k then from
    else IndexFrom(s, k, from + 1)
  }

  /** `s.find(k)`: the first occurrence of `k` in `s`, or -1. */
  function IndexOf(s: string, k: string): (r: int)
    ensures r == -1 || OccursAt(s, k, r)
    ensures r == -1 ==> forall j :: !OccursAt(s, k, j)
    ensures r >= 0 ==> forall j :: 0 <= j < r ==> !OccursAt(s, k, j)
  {
    IndexFrom(s, k, 0)
  }

  /** `k in s`. */
  function Contains(s: string, k: string): (b: bool)
    ensures b <==> exists i :: OccursAt(s, k, i)
  {
    IndexOf(s, k) >= 0
  }

  /** Every string contains the empty string. */
  lemma ContainsEmpty(s: string)
    ensures Contains(s, "")
  {
    assert OccursAt(s, "", 0);
  }

  /** An occurrence inside a prefix is an occurrence in the whole string. */
  lemma OccursInPrefix(s: string, n: nat, k: string, i: int)
    requires n <= |s|
    requires OccursAt(s[..n], k, i)
    ensures OccursAt(s, k, i)
  {
    assert s[..n][i..i + |k|] == s[i..i + |k|];
  }

  /** An occurrence that ends inside a prefix is an occurrence in the prefix. */
  lemma OccursInLongPrefix(s: string, n: nat, k: string, i: int)
    requires n <= |s|
    requires OccursAt(s, k, i)
    requires i + |k| <= n
    ensures OccursAt(s[..n], k, i)
  {
    assert s[..n][i..i + |k|] == s[i..i + |k|];
  }

  /** A prefix of a string that does not contain `k` does not contain it either. */
  lemma PrefixKeepsAbsence(s: string, n: nat, k: string)
    requires n <= |s|
    requires !Contains(s, k)
    ensures !Contains(s[..n], k)
  {
    if Contains(s[..n], k) {
      var i :| OccursAt(s[..n], k, i);
      OccursInPrefix(s, n, k, i);
    }
  }

  /** A string lacking one of the characters of `k` does not contain `k`. */
  lemma MissingCharMeansAbsent(s: string, k: string, j: nat)
    requires j < |k|
    requires k[j] !in s
    ensures !Contains(s, k)
  {
  }

  /** The text before the first occurrence of `k` does not contain `k`. */
  lemma BeforeFirstOccurrence(s: string, k: string)
    requires |k| > 0
    requires Contains(s, k)
    ensures !Contains(s[..IndexOf(s, k)], k)
  {
    var n := IndexOf(s, k);
    if Contains(s[..n], k) {
      var i :| OccursAt(s[..n], k, i);
      OccursInPrefix(s, n, k, i);
    }
  }

  /** `any(k in s for k in ks)`: the first keyword, in order, that occurs
      in `s` decides; none occurring gives False. */
  function ContainsAny(s: string, ks: seq<string>): (b: bool)
    ensures b <==> exists i :: 0 <= i < |ks| && Contains(s, ks[i])
  {
    if |ks| == 0 then false
    else Contains(s, ks[0]) || ContainsAny(s, ks[1..])
  }

  /** `s.startswith(k)`. */
  predicate StartsWith(s: string, k: string) {
    k <= s
  }

  /** `s.endswith(k)`. */
  predicate EndsWith(s: string, k: string) {
    |k| <= |s| && s[|s| - |k|..] == k
  }

  // ---------------------------------------------------------------
  // split(sep), sep.join(parts), replace(pat, repl)
  // ---------------------------------------------------------------

  /** `s.split(sep)` for a non-empty separator (Python raises on an empty one). */
  function Split(s: string, sep: string): (parts: seq<string>)
    requires |sep| > 0
    ensures |parts| >= 1
    ensures forall i :: 0 <= i < |parts| ==> !Contains(parts[i], sep)
    ensures Contains(s, sep) <==> |parts| > 1
    decreases |s|
  {
    var i := IndexOf(s, sep);
    if i < 0 then [s]
    else
      BeforeFirstOccurrence(s, sep);
      assert OccursAt(s, sep, i);
      [s[..i]] + Split(s[i + |sep|..], sep)
  }

  /** The first piece of `s.split(sep)` is the text before the first
      occurrence of `sep`, or all of `s` when there is none. */
  lemma SplitHead(s: string, sep: string)
    requires |sep| > 0
    ensures Contains(s, sep) ==> Split(s, sep)[0] == s[..IndexOf(s, sep)]
    ensures !Contains(s, sep) ==> Split(s, sep)[0] == s
  {
  }

  /** `sep.join(parts)`. */
  function Join(sep: string, parts: seq<string>): string
    decreases |parts|
  {
    if |parts| == 0 then ""
    else if |parts| == 1 then parts[0]
    else parts[0] + sep + Join(sep, parts[1..])
  }

  /** Splitting on a separator and joining the pieces back with it gives
      the original string. */
  lemma {:induction false} JoinSplit(s: string, sep: string)
    requires |sep| > 0
    ensures Join(sep, Split(s, sep)) == s
    decreases |s|
  {
    var i := IndexOf(s, sep);
    if i >= 0 {
      var rest := s[i + |sep|..];
      JoinSplit(rest, sep);
      JoinCons(sep, s[..i], Split(rest, sep));
      assert Split(s, sep) == [s[..i]] + Split(rest, sep);
      assert s == s[..i] + sep + rest by {
        assert OccursAt(s, sep, i);
        assert s[i..i + |sep|] == sep;
        assert s == s[..i] + s[i..i + |sep|] + s[i + |sep|..];
      }
    }
  }

  /** Joining a non-empty list behind a first piece puts one separator between them. */
  lemma JoinCons(sep: string, a: string, parts: seq<string>)
    requires |parts| >= 1
    ensures Join(sep, [a] + parts) == a + sep + Join(sep, parts)
  {
    assert ([a] + parts)[1..] == parts;
  }

  /** `s.replace(pat, repl)` for a non-empty `pat`: every non-overlapping
      occurrence, scanned left to right, is replaced. */
  function ReplaceAll(s: string, pat: string, repl: string): (r: string)
    requires |pat| > 0
    ensures !Contains(s, pat) ==> r == s
  {
    Join(repl, Split(s, pat))
  }

  /** Replacing a separator by itself changes nothing. */
  lemma ReplaceByItself(s: string, pat: string)
    requires |pat| > 0
    ensures ReplaceAll(s, pat, pat) == s
  {
    JoinSplit(s, pat);
  }

  /** `s` with every `c` turned into `d`, character by character. */
  function MapChar(s: string, c: char, d: char): (r: string)
    ensures |r| == |s|
  {
    seq(|s|, i requires 0 <= i < |s| => if s[i] == c then d else s[i])
  }

  /** Replacing a one-character pattern by one character maps each
      character on its own. */
  lemma {:induction false} ReplaceCharIsMap(s: string, c: char, d: char)
    ensures ReplaceAll(s, [c], [d]) == MapChar(s, c, d)
    decreases |s|
  {
    var i := IndexOf(s, [c]);
    if i < 0 {
      NoOccurrenceMapsToItself(s, c, d);
    } else {
      var rest := s[i + 1..];
      ReplaceCharIsMap(rest, c, d);
      ReplaceAtFirst(s, c, d);
      MapCharAtFirst(s, c, d);
    }
  }

  lemma NoOccurrenceMapsToItself(s: string, c: char, d: char)
    requires IndexOf(s, [c]) < 0
    ensures ReplaceAll(s, [c], [d]) == s
    ensures MapChar(s, c, d) == s
  {
    forall j | 0 <= j < |s| ensures s[j] != c {
      assert !OccursAt(s, [c], j);
      assert s[j..j + 1] == [s[j]];
    }
  }

  /** `replace` on a one-character pattern: the text before the first
      occurrence, the replacement, then the rest replaced. */
  lemma ReplaceAtFirst(s: string, c: char, d: char)
    requires IndexOf(s, [c]) >= 0
    ensures var i := IndexOf(s, [c]);
            ReplaceAll(s, [c], [d]) == s[..i] + [d] + ReplaceAll(s[i + 1..], [c], [d])
  {
    var i := IndexOf(s, [c]);
    JoinCons([d], s[..i], Split(s[i + 1..], [c]));
  }

  lemma MapCharAtFirst(s: string, c: char, d: char)
    requires IndexOf(s, [c]) >= 0
    ensures var i := IndexOf(s, [c]);
            MapChar(s, c, d) == s[..i] + [d] + MapChar(s[i + 1..], c, d)
  {
    var i := IndexOf(s, [c]);
    assert OccursAt(s, [c], i);
    assert s[i] == c by { assert s[i..i + 1] == [c]; }
    forall j | 0 <= j < i ensures s[j] != c {
      assert !OccursAt(s, [c], j);
      assert s[j..j + 1] == [s[j]];
    }
  }

  // ---------------------------------------------------------------
  // strip()
  // ---------------------------------------------------------------

  /** The number of whitespace characters `s.lstrip()` drops. */
  function LeadingSpaces(s: string): (n: nat)
    ensures n <= |s|
    ensures forall k :: 0 <= k < n ==> IsSpace(s[k])
    ensures n < |s| ==> !IsSpace(s[n])
    decreases |s|
  {
    if |s| > 0 && IsSpace(s[0]) then 1 + LeadingSpaces(s[1..]) else 0
  }

  /** The number of whitespace characters `s.rstrip()` drops. */
  function TrailingSpaces(s: string): (n: nat)
    ensures n <= |s|
    ensures forall k :: |s| - n <= k < |s| ==> IsSpace(s[k])
    ensures n < |s| ==> !IsSpace(s[|s| - n - 1])
    decreases |s|
  {
    if |s| > 0 && IsSpace(s[|s| - 1]) then 1 + TrailingSpaces(s[..|s| - 1]) else 0
  }

  /** `s.strip()`: the middle slice of `s` left once the leading and the
      trailing whitespace are dropped; it neither starts nor ends with
      whitespace. */
  function Strip(s: string): (r: string)
    ensures LeadingSpaces(s) + |r| <= |s|
    ensures r == s[LeadingSpaces(s)..LeadingSpaces(s) + |r|]
    ensures forall k :: LeadingSpaces(s) + |r| <= k < |s| ==> IsSpace(s[k])
    ensures |r| > 0 ==> !IsSpace(r[0]) && !IsSpace(r[|r| - 1])
  {
    var a := LeadingSpaces(s);
    var t := s[a..];
    var b := TrailingSpaces(t);
    StripSlice(s, a, b);
    t[..|t| - b]
  }

  lemma StripSlice(s: string, a: nat, b: nat)
    requires a == LeadingSpaces(s)
    requires b == TrailingSpaces(s[a..])
    ensures var r := s[a..][..|s| - a - b];
            r == s[a..a + |r|] &&
            (forall k :: a + |r| <= k < |s| ==> IsSpace(s[k])) &&
            (|r| > 0 ==> !IsSpace(r[0]) && !IsSpace(r[|r| - 1]))
  {
    var t := s[a..];
    var r := t[..|t| - b];
    assert r == s[a..a + |r|];
    forall k | a + |r| <= k < |s| ensures IsSpace(s[k]) {
      assert s[k] == t[k - a];
    }
    if |r| > 0 {
      assert r[0] == s[a];
      assert r[|r| - 1] == t[|t| - b - 1];
    }
  }

  /** Stripping a string that has no surrounding whitespace leaves it alone. */
  lemma StripOfTrimmed(s: string)
    requires |s| > 0 ==> !IsSpace(s[0]) && !IsSpace(s[|s| - 1])
    ensures Strip(s) == s
  {
  }

  // ---------------------------------------------------------------
  // split() and " ".join(s.split())
  // ---------------------------------------------------------------

  /** No character of `s` is whitespace. */
  predicate NoSpace(s: string) {
    forall i :: 0 <= i < |s| ==> !IsSpace(s[i])
  }

  /** The length of the run of non-whitespace characters that starts `s`. */
  function RunLength(s: string): (n: nat)
    ensures n <= |s|
    ensures forall i :: 0 <= i < n ==> !IsSpace(s[i])
    ensures n < |s| ==> IsSpace(s[n])
    decreases |s|
  {
    if |s| == 0 || IsSpace(s[0]) then 0 else 1 + RunLength(s[1..])
  }

  /** `s.split()`: the maximal runs of non-whitespace characters, in order. */
  function Words(s: string): (ws: seq<string>)
    ensures forall i :: 0 <= i < |ws| ==> |ws[i]| > 0 && NoSpace(ws[i])
    decreases |s|
  {
    if |s| == 0 then []
    else if IsSpace(s[0]) then Words(s[1..])
    else
      var n := RunLength(s);
      [s[..n]] + Words(s[n..])
  }

  /** `" ".join(s.split())`: runs of whitespace become one space, and
      leading and trailing whitespace disappears. */
  function CollapseSpaces(s: string): string {
    Join(" ", Words(s))
  }

  /** `t` has no surrounding whitespace and every whitespace character in
      it is a single space followed by a non-whitespace character. */
  predicate Collapsed(t: string) {
    && (|t| > 0 ==> !IsSpace(t[0]) && !IsSpace(t[|t| - 1]))
    && forall i :: 0 <= i < |t| && IsSpace(t[i]) ==>
         t[i] == ' ' && i + 1 < |t| && !IsSpace(t[i + 1])
  }

  /** Joining non-empty whitespace-free words with single spaces gives a
      collapsed string. */
  lemma {:induction false} JoinWordsCollapsed(ws: seq<string>)
    requires forall i :: 0 <= i < |ws| ==> |ws[i]| > 0 && NoSpace(ws[i])
    ensures Collapsed(Join(" ", ws))
    ensures |ws| > 0 ==> |Join(" ", ws)| > 0
    decreases |ws|
  {
    if |ws| > 1 {
      var w := ws[0];
      var rest := Join(" ", ws[1..]);
      JoinWordsCollapsed(ws[1..]);
      var t := Join(" ", ws);
      assert t == w + " " + rest;
      forall i | 0 <= i < |t| && IsSpace(t[i])
        ensures t[i] == ' ' && i + 1 < |t| && !IsSpace(t[i + 1])
      {
        if i == |w| {
          assert t[i + 1] == rest[0];
        } else if i > |w| {
          assert t[i] == rest[i - |w| - 1];
          assert i + 1 < |t| ==> t[i + 1] == rest[i - |w|];
        }
      }
      assert t[0] == w[0];
      assert t[|t| - 1] == rest[|rest| - 1];
    }
  }

  /** The result of `" ".join(s.split())` is collapsed. */
  lemma CollapseSpacesIsCollapsed(s: string)
    ensures Collapsed(CollapseSpaces(s))
  {
    JoinWordsCollapsed(Words(s));
  }

  /** Collapsing whitespace never lengthens a string. */
  lemma {:induction false} CollapseSpacesShorter(s: string)
    ensures |CollapseSpaces(s)| <= |s|
    decreases |s|
  {
    if |s| == 0 {
    } else if IsSpace(s[0]) {
      CollapseSpacesShorter(s[1..]);
    } else {
      var n := RunLength(s);
      var tail := s[n..];
      assert Words(s) == [s[..n]] + Words(tail);
      if |Words(tail)| > 0 {
        assert n < |s|;
        assert IsSpace(tail[0]);
        assert Words(tail) == Words(tail[1..]);
        CollapseSpacesShorter(tail[1..]);
        assert ([s[..n]] + Words(tail))[1..] == Words(tail);
      }
    }
  }

  // ---------------------------------------------------------------
  // title()
  // ---------------------------------------------------------------

  /** `s.title()`: a letter is upper-cased when it starts a run of letters
      and lower-cased otherwise; every other character is unchanged. */
  function Title(s: string): (r: string)
    ensures |r| == |s|
    ensures forall i :: 0 <= i < |s| && !IsLetter(s[i]) ==> r[i] == s[i]
    ensures forall i :: 0 <= i < |s| && IsLetter(s[i]) ==>
              IsLetter(r[i]) && LowerChar(r[i]) == LowerChar(s[i]) &&
              (IsUpper(r[i]) <==> (i == 0 || !IsLetter(s[i - 1])))
  {
    seq(|s|, i requires 0 <= i < |s| => TitleAt(s, i))
  }

  /** Character `i` of `s.title()`: a letter is upper-cased at the start
      of a run of letters and lower-cased inside one. */
  function TitleAt(s: string, i: nat): (r: char)
    requires i < |s|
    ensures !IsLetter(s[i]) ==> r == s[i]
    ensures IsLetter(s[i]) ==>
              IsLetter(r) && LowerChar(r) == LowerChar(s[i]) &&
              (IsUpper(r) <==> (i == 0 || !IsLetter(s[i - 1])))
  {
    var c := s[i];
    if !IsLetter(c) then c
    else if i == 0 || !IsLetter(s[i - 1]) then UpperChar(c)
    else LowerChar(c)
  }

  /** Title-casing keeps whitespace exactly where it was, so a collapsed
      string stays collapsed. */
  lemma TitleKeepsCollapsed(s: string)
    requires Collapsed(s)
    ensures Collapsed(Title(s))
  {
    var t := Title(s);
    assert forall i :: 0 <= i < |s| ==> (IsSpace(t[i]) <==> IsSpace(s[i]));
  }
}
