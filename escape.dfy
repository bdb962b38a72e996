/**
 * The front end's `escapeHtml` helper: five global replacements that turn the
 * HTML-significant characters `& < > " '` into character references
 * (HTML Living Standard, section 13.1.4, "Character references").
 *
 * The helper is modelled as written, a chain of five single-character
 * replace-all passes with `&` first, and is proved equal to a per-character
 * mapping.  The remaining lemmas state what the escaping guarantees: no markup
 * character survives, every `&` starts a reference, the output grows by a
 * fixed amount per special character, safe strings are untouched, and
 * decoding the five references gives the input back (so escaping is
 * injective).
 */
module HtmlEscape {

  /** `s.replace(/c/g, rep)` for a one-character pattern and a replacement with no `$`. */
  function ReplaceAll(s: string, c: char, rep: string): (r: string)
    ensures c !in s ==> r == s
    ensures c !in rep ==> c !in r
  {
    if s == [] then []
    else (if s[0] == c then rep else [s[0]]) + ReplaceAll(s[1..], c, rep)
  }

  /** A pass with a non-empty replacement never shortens its input. */
  lemma {:induction false} ReplaceAllNotShorter(s: string, c: char, rep: string)
    requires |rep| >= 1
    ensures |ReplaceAll(s, c, rep)| >= |s|
  {
    if s != [] {
      ReplaceAllNotShorter(s[1..], c, rep);
    }
  }

  /**
   * `escapeHtml(str)`: the five replacements, in the order the helper runs
   * them.  No pass shortens its input.
   */
  function EscapeHtml(s: string): (r: string)
    ensures |r| >= |s|
  {
    var amp := ReplaceAll(s, '&', "&amp;");
    var lt := ReplaceAll(amp, '<', "&lt;");
    var gt := ReplaceAll(lt, '>', "&gt;");
    var quot := ReplaceAll(gt, '"', "&quot;");
    var apos := ReplaceAll(quot, '\'', "&#039;");
    ReplaceAllNotShorter(s, '&', "&amp;");
    ReplaceAllNotShorter(amp, '<', "&lt;");
    ReplaceAllNotShorter(lt, '>', "&gt;");
    ReplaceAllNotShorter(gt, '"', "&quot;");
    ReplaceAllNotShorter(quot, '\'', "&#039;");
    apos
  }

  /** The five characters the helper rewrites. */
  predicate IsSpecial(c: char)
  {
    c == '&' || c == '<' || c == '>' || c == '"' || c == '\''
  }

  /** The reference each character is written as (itself when it is not special). */
  function EscapeChar(c: char): (r: string)
    ensures IsSpecial(c) <==> r != [c]
    ensures r != [] && (r[0] == '&' <==> IsSpecial(c))
  {
    match c
    case '&' => "&amp;"
    case '<' => "&lt;"
    case '>' => "&gt;"
    case '"' => "&quot;"
    case '\'' => "&#039;"
    case _ => [c]
  }

  /** The per-character reading of the helper: each character mapped on its own. */
  function EscapeEach(s: string): string
  {
    if s == [] then [] else EscapeChar(s[0]) + EscapeEach(s[1..])
  }

  /** Replacing over a concatenation replaces each part. */
  lemma {:induction false} ReplaceAllAppend(a: string, b: string, c: char, rep: string)
    ensures ReplaceAll(a + b, c, rep) == ReplaceAll(a, c, rep) + ReplaceAll(b, c, rep)
  {
    if a == [] {
      assert a + b == b;
    } else {
      assert (a + b)[0] == a[0];
      assert (a + b)[1..] == a[1..] + b;
      ReplaceAllAppend(a[1..], b, c, rep);
    }
  }

  lemma ReplaceAllOfChar(x: char, c: char, rep: string)
    ensures ReplaceAll([x], c, rep) == if x == c then rep else [x]
  {
    assert [x][1..] == [];
  }

  /** The passes after the `&` pass leave a string without their targets alone. */
  lemma LaterPassesKeep(t: string)
    requires '<' !in t && '>' !in t && '"' !in t && '\'' !in t
    ensures ReplaceAll(ReplaceAll(ReplaceAll(ReplaceAll(t, '<', "&lt;"), '>', "&gt;"),
      '"', "&quot;"), '\'', "&#039;") == t
  {
  }

  lemma EscapeHtmlOfAmpersand()
    ensures EscapeHtml("&") == "&amp;"
  {
    ReplaceAllOfChar('&', '&', "&amp;");
    LaterPassesKeep("&amp;");
  }

  lemma EscapeHtmlOfLess()
    ensures EscapeHtml("<") == "&lt;"
  {
    ReplaceAllOfChar('<', '&', "&amp;");
    ReplaceAllOfChar('<', '<', "&lt;");
    assert ReplaceAll("&lt;", '>', "&gt;") == "&lt;";
  }

  lemma EscapeHtmlOfGreater()
    ensures EscapeHtml(">") == "&gt;"
  {
    ReplaceAllOfChar('>', '&', "&amp;");
    ReplaceAllOfChar('>', '<', "&lt;");
    ReplaceAllOfChar('>', '>', "&gt;");
  }

  lemma EscapeHtmlOfQuote()
    ensures EscapeHtml("\"") == "&quot;"
  {
    ReplaceAllOfChar('"', '&', "&amp;");
    ReplaceAllOfChar('"', '<', "&lt;");
    ReplaceAllOfChar('"', '>', "&gt;");
    ReplaceAllOfChar('"', '"', "&quot;");
  }

  lemma EscapeHtmlOfApostrophe()
    ensures EscapeHtml("'") == "&#039;"
  {
    ReplaceAllOfChar('\'', '&', "&amp;");
    ReplaceAllOfChar('\'', '<', "&lt;");
    ReplaceAllOfChar('\'', '>', "&gt;");
    ReplaceAllOfChar('\'', '"', "&quot;");
    ReplaceAllOfChar('\'', '\'', "&#039;");
  }

  /** On one character the five passes produce that character's reference. */
  lemma EscapeHtmlOfChar(c: char)
    ensures EscapeHtml([c]) == EscapeChar(c)
  {
    if c == '&' {
      EscapeHtmlOfAmpersand();
    } else if c == '<' {
      EscapeHtmlOfLess();
    } else if c == '>' {
      EscapeHtmlOfGreater();
    } else if c == '"' {
      EscapeHtmlOfQuote();
    } else if c == '\'' {
      EscapeHtmlOfApostrophe();
    }
  }

  /** Escaping a concatenation is the concatenation of the escapes. */
  lemma EscapeHtmlAppend(a: string, b: string)
    ensures EscapeHtml(a + b) == EscapeHtml(a) + EscapeHtml(b)
  {
    var a1, b1 := ReplaceAll(a, '&', "&amp;"), ReplaceAll(b, '&', "&amp;");
    ReplaceAllAppend(a, b, '&', "&amp;");
    var a2, b2 := ReplaceAll(a1, '<', "&lt;"), ReplaceAll(b1, '<', "&lt;");
    ReplaceAllAppend(a1, b1, '<', "&lt;");
    var a3, b3 := ReplaceAll(a2, '>', "&gt;"), ReplaceAll(b2, '>', "&gt;");
    ReplaceAllAppend(a2, b2, '>', "&gt;");
    var a4, b4 := ReplaceAll(a3, '"', "&quot;"), ReplaceAll(b3, '"', "&quot;");
    ReplaceAllAppend(a3, b3, '"', "&quot;");
    ReplaceAllAppend(a4, b4, '\'', "&#039;");
  }

  /**
   * The chain of five replacements equals the per-character mapping.  This
   * holds because `&` is replaced first and no replacement text contains a
   * character that a later pass targets.
   */
  lemma {:induction false} ChainIsPerCharacter(s: string)
    ensures EscapeHtml(s) == EscapeEach(s)
  {
    if s != [] {
      assert s == [s[0]] + s[1..];
      EscapeHtmlAppend([s[0]], s[1..]);
      EscapeHtmlOfChar(s[0]);
      ChainIsPerCharacter(s[1..]);
    }
  }

  lemma {:induction false} EscapeEachHasNoMarkup(s: string)
    ensures '<' !in EscapeEach(s) && '>' !in EscapeEach(s)
    ensures '"' !in EscapeEach(s) && '\'' !in EscapeEach(s)
  {
    if s != [] {
      EscapeEachHasNoMarkup(s[1..]);
    }
  }

  /** No `<`, `>`, `"` or `'` survives escaping. */
  lemma NoMarkupCharacters(s: string)
    ensures '<' !in EscapeHtml(s) && '>' !in EscapeHtml(s)
    ensures '"' !in EscapeHtml(s) && '\'' !in EscapeHtml(s)
  {
    ChainIsPerCharacter(s);
    EscapeEachHasNoMarkup(s);
  }

  /** The five references the helper writes. */
  predicate BeginsReference(t: string)
  {
    "&amp;" <= t || "&lt;" <= t || "&gt;" <= t || "&quot;" <= t || "&#039;" <= t
  }

  /** Every `&` in `t` is the start of one of the five references. */
  predicate AmpersandsBeginReferences(t: string)
  {
    forall i :: 0 <= i < |t| && t[i] == '&' ==> BeginsReference(t[i..])
  }

  lemma AmpersandsBeginReferencesAppend(a: string, b: string)
    requires AmpersandsBeginReferences(a) && AmpersandsBeginReferences(b)
    ensures AmpersandsBeginReferences(a + b)
  {
    forall i | 0 <= i < |a + b| && (a + b)[i] == '&'
      ensures BeginsReference((a + b)[i..])
    {
      if i < |a| {
        assert (a + b)[i..] == a[i..] + b;
        assert BeginsReference(a[i..]);
      } else {
        assert (a + b)[i..] == b[i - |a|..];
      }
    }
  }

  lemma {:induction false} EscapeEachAmpersands(s: string)
    ensures AmpersandsBeginReferences(EscapeEach(s))
  {
    if s != [] {
      var e := EscapeChar(s[0]);
      assert AmpersandsBeginReferences(e) by {
        forall i | 0 <= i < |e| && e[i] == '&' ensures BeginsReference(e[i..]) {
          assert i == 0 && e[i..] == e;
        }
      }
      EscapeEachAmpersands(s[1..]);
      AmpersandsBeginReferencesAppend(e, EscapeEach(s[1..]));
    }
  }

  /** Every `&` in the output begins `&amp;`, `&lt;`, `&gt;`, `&quot;` or `&#039;`. */
  lemma AmpersandsAreReferences(s: string)
    ensures AmpersandsBeginReferences(EscapeHtml(s))
  {
    ChainIsPerCharacter(s);
    EscapeEachAmpersands(s);
  }

  lemma {:induction false} EscapeEachLength(s: string)
    ensures |EscapeEach(s)| == |s| + 4 * multiset(s)['&'] + 3 * multiset(s)['<']
      + 3 * multiset(s)['>'] + 5 * multiset(s)['"'] + 5 * multiset(s)['\'']
  {
    if s != [] {
      var c, m, m' := s[0], multiset(s), multiset(s[1..]);
      assert s == [c] + s[1..];
      assert m == multiset{c} + m';
      EscapeEachLength(s[1..]);
      assert |EscapeEach(s)| == |EscapeChar(c)| + |EscapeEach(s[1..])|;
      assert |EscapeChar(c)| == 1 + 4 * multiset{c}['&'] + 3 * multiset{c}['<']
        + 3 * multiset{c}['>'] + 5 * multiset{c}['"'] + 5 * multiset{c}['\''];
    }
  }

  /**
   * The output length: `&` becomes 5 characters, `<` and `>` 4, `"` and `'` 6,
   * every other character 1.
   */
  lemma EscapedLength(s: string)
    ensures |EscapeHtml(s)| == |s| + 4 * multiset(s)['&'] + 3 * multiset(s)['<']
      + 3 * multiset(s)['>'] + 5 * multiset(s)['"'] + 5 * multiset(s)['\'']
  {
    ChainIsPerCharacter(s);
    EscapeEachLength(s);
  }

  /** A string is returned unchanged exactly when it has none of the five characters. */
  lemma UnchangedIffSafe(s: string)
    ensures EscapeHtml(s) == s <==> forall i :: 0 <= i < |s| ==> !IsSpecial(s[i])
  {
    EscapedLength(s);
    if EscapeHtml(s) == s {
      forall i | 0 <= i < |s| ensures !IsSpecial(s[i]) {
        assert s[i] in multiset(s);
      }
    }
  }

  /**
   * Decoding of the five references and nothing else.  For a value without
   * CR or NUL this is what `element.dataset.email` returns once the card's
   * markup, written with the helper, has been parsed; the HTML parser's
   * newline normalisation and NUL handling are not part of it.
   */
  function Unescape(t: string): (r: string)
    ensures |r| <= |t|
  {
    if t == [] then []
    else if "&amp;" <= t then "&" + Unescape(t[5..])
    else if "&lt;" <= t then "<" + Unescape(t[4..])
    else if "&gt;" <= t then ">" + Unescape(t[4..])
    else if "&quot;" <= t then "\"" + Unescape(t[6..])
    else if "&#039;" <= t then "'" + Unescape(t[6..])
    else [t[0]] + Unescape(t[1..])
  }

  lemma UnescapeAfterChar(c: char, rest: string)
    ensures Unescape(EscapeChar(c) + rest) == [c] + Unescape(rest)
  {
    var e := EscapeChar(c);
    var t := e + rest;
    assert t[..|e|] == e;
    assert t[|e|..] == rest;
    if !IsSpecial(c) {
      assert t[0] == c && c != '&';
      assert t[1..] == rest;
    } else if c == '&' {
      assert "&amp;" <= t;
    } else if c == '<' {
      assert t[1] == 'l';
    } else if c == '>' {
      assert t[1] == 'g';
    } else if c == '"' {
      assert t[1] == 'q';
    } else {
      assert t[1] == '#';
    }
  }

  lemma {:induction false} UnescapeEscapeEach(s: string)
    ensures Unescape(EscapeEach(s)) == s
  {
    if s != [] {
      UnescapeAfterChar(s[0], EscapeEach(s[1..]));
      UnescapeEscapeEach(s[1..]);
      assert s == [s[0]] + s[1..];
    }
  }

  /** Decoding the helper's output gives the input back. */
  lemma RoundTrip(s: string)
    ensures Unescape(EscapeHtml(s)) == s
  {
    ChainIsPerCharacter(s);
    UnescapeEscapeEach(s);
  }

  /** Distinct inputs are escaped to distinct outputs. */
  lemma EscapeInjective(a: string, b: string)
    ensures EscapeHtml(a) == EscapeHtml(b) <==> a == b
  {
    RoundTrip(a);
    RoundTrip(b);
  }
}
