/** `decodeHtmlEntities` of src/reddit.ts:13-20: five global literal
    replacements applied one after another. */
module HtmlEntities {

  /** `s.replace(/pat/g, rep)` for a literal, non-empty pattern: scans left to
      right and replaces every non-overlapping occurrence, never re-scanning
      the replacement text. */
  function ReplaceAll(s: string, pat: string, rep: string): string
    requires pat != ""
    decreases |s|
  {
    if |s| < |pat| then s
    else if s[..|pat|] == pat then rep + ReplaceAll(s[|pat|..], pat, rep)
    else [s[0]] + ReplaceAll(s[1..], pat, rep)
  }

  /** The chain of replacements, in the order the source applies them. */
  function DecodeHtmlEntities(s: string): string {
    var s1 := ReplaceAll(s, "&amp;", "&");
    var s2 := ReplaceAll(s1, "&lt;", "<");
    var s3 := ReplaceAll(s2, "&gt;", ">");
    var s4 := ReplaceAll(s3, "&quot;", "\"");
    ReplaceAll(s4, "&#39;", "'")
  }

  /** A string that does not contain the pattern's first character is left alone. */
  lemma {:induction false} ReplaceAllAbsent(s: string, pat: string, rep: string)
    requires pat != "" && pat[0] !in s
    ensures ReplaceAll(s, pat, rep) == s
    decreases |s|
  {
    if |s| >= |pat| {
      assert s[..|pat|][0] == s[0];
      assert s[0] in s;
      ReplaceAllAbsent(s[1..], pat, rep);
    }
  }

  /** Replacing by something no longer than the pattern never lengthens the string. */
  lemma {:induction false} ReplaceAllShortens(s: string, pat: string, rep: string)
    requires pat != "" && |rep| <= |pat|
    ensures |ReplaceAll(s, pat, rep)| <= |s|
    decreases |s|
  {
    if |s| >= |pat| {
      if s[..|pat|] == pat {
        ReplaceAllShortens(s[|pat|..], pat, rep);
      } else {
        ReplaceAllShortens(s[1..], pat, rep);
      }
    }
  }

  /** Text without an ampersand passes through decoding unchanged. */
  lemma DecodeWithoutAmpersand(s: string)
    requires '&' !in s
    ensures DecodeHtmlEntities(s) == s
  {
    ReplaceAllAbsent(s, "&amp;", "&");
    ReplaceAllAbsent(s, "&lt;", "<");
    ReplaceAllAbsent(s, "&gt;", ">");
    ReplaceAllAbsent(s, "&quot;", "\"");
    ReplaceAllAbsent(s, "&#39;", "'");
  }

  /** Each entity is one character in the output, so decoding never lengthens a URL. */
  lemma DecodeShortens(s: string)
    ensures |DecodeHtmlEntities(s)| <= |s|
  {
    var s1 := ReplaceAll(s, "&amp;", "&");
    var s2 := ReplaceAll(s1, "&lt;", "<");
    var s3 := ReplaceAll(s2, "&gt;", ">");
    var s4 := ReplaceAll(s3, "&quot;", "\"");
    ReplaceAllShortens(s, "&amp;", "&");
    ReplaceAllShortens(s1, "&lt;", "<");
    ReplaceAllShortens(s2, "&gt;", ">");
    ReplaceAllShortens(s3, "&quot;", "\"");
    ReplaceAllShortens(s4, "&#39;", "'");
  }

  /** Because `&amp;` is replaced first, a doubly escaped `&amp;lt;` decodes all the way to `<`. */
  lemma DecodeDoublyEscaped()
    ensures DecodeHtmlEntities("&amp;lt;") == "<"
  {
    var s := "&amp;lt;";
    assert s[..5] == "&amp;";
    assert s[5..] == "lt;";
    ReplaceAllAbsent("lt;", "&amp;", "&");
    var s1 := ReplaceAll(s, "&amp;", "&");
    assert s1 == "&lt;";
    assert s1[..4] == "&lt;";
    assert s1[4..] == "";
    var s2 := ReplaceAll(s1, "&lt;", "<");
    assert s2 == "<";
    DecodeWithoutAmpersand(s2);
    ReplaceAllAbsent(s2, "&gt;", ">");
    ReplaceAllAbsent(s2, "&quot;", "\"");
    ReplaceAllAbsent(s2, "&#39;", "'");
  }

  /** The typical case of a Reddit media URL: an escaped query separator is restored. */
  lemma DecodeQuerySeparator()
    ensures DecodeHtmlEntities("a&amp;b") == "a&b"
  {
    var s := "a&amp;b";
    assert s[..5][0] == 'a';
    assert s[1..][..5] == "&amp;";
    assert s[1..][5..] == "b";
    assert ReplaceAll("b", "&amp;", "&") == "b";
    assert ReplaceAll(s, "&amp;", "&") == "a&b";
    var t := "a&b";
    assert |t| < |"&lt;"|;
    assert |t| < |"&gt;"|;
    assert |t| < |"&quot;"|;
    assert |t| < |"&#39;"|;
  }

  /** `pat` occurs in `s` at position `i`. */
  predicate MatchAt(s: string, pat: string, i: int) {
    0 <= i && i + |pat| <= |s| && s[i..i + |pat|] == pat
  }

  /** An occurrence of `pat` somewhere in `s`. */
  predicate Occurs(s: string, pat: string) {
    exists i :: 0 <= i <= |s| && MatchAt(s, pat, i)
  }

  /** A string in which the pattern never occurs is left alone. */
  lemma {:induction false} ReplaceAllNoMatch(s: string, pat: string, rep: string)
    requires pat != "" && !Occurs(s, pat)
    ensures ReplaceAll(s, pat, rep) == s
    decreases |s|
  {
    if |s| >= |pat| {
      assert s[0..|pat|] == s[..|pat|];
      assert !MatchAt(s, pat, 0);
      assert !Occurs(s[1..], pat) by {
        forall i | 0 <= i <= |s[1..]| ensures !MatchAt(s[1..], pat, i) {
          if MatchAt(s[1..], pat, i) {
            assert s[1..][i..i + |pat|] == s[i + 1..i + 1 + |pat|];
            assert MatchAt(s, pat, i + 1);
          }
        }
      }
      ReplaceAllNoMatch(s[1..], pat, rep);
    }
  }

  /** The escaping the Reddit API applies to the media URLs it returns: every `&` becomes `&amp;`. */
  function EscapeAmpersands(s: string): (r: string)
    ensures |r| >= |s|
  {
    if s == [] then []
    else (if s[0] == '&' then "&amp;" else [s[0]]) + EscapeAmpersands(s[1..])
  }

  /** The first replacement undoes that escaping exactly. */
  lemma {:induction false} UnescapeAmpersands(s: string)
    ensures ReplaceAll(EscapeAmpersands(s), "&amp;", "&") == s
  {
    if s != [] {
      UnescapeAmpersands(s[1..]);
      var e := EscapeAmpersands(s);
      var t := EscapeAmpersands(s[1..]);
      if s[0] == '&' {
        assert e == "&amp;" + t;
        assert e[..5] == "&amp;" && e[5..] == t;
      } else {
        assert e == [s[0]] + t;
        if |e| >= 5 {
          assert e[..5][0] == s[0];
          assert e[1..] == t;
        }
      }
      assert s == [s[0]] + s[1..];
    }
  }

  /** Decoding restores an escaped URL in which none of the other four entities occurs. */
  lemma DecodeEscaped(s: string)
    requires !Occurs(s, "&lt;") && !Occurs(s, "&gt;") && !Occurs(s, "&quot;") && !Occurs(s, "&#39;")
    ensures DecodeHtmlEntities(EscapeAmpersands(s)) == s
  {
    UnescapeAmpersands(s);
    ReplaceAllNoMatch(s, "&lt;", "<");
    ReplaceAllNoMatch(s, "&gt;", ">");
    ReplaceAllNoMatch(s, "&quot;", "\"");
    ReplaceAllNoMatch(s, "&#39;", "'");
  }
}
