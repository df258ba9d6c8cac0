/**
 * Escaping of text placed in XML element content and attribute values
 * (`FeedGenerator._escape_xml_text`), with the entity decoding an XML reader
 * applies, so that the escape can be shown to lose nothing.
 */
module XmlText {

  /** `str.replace(c, rep)` for a one-character pattern: every occurrence of
      `c`, left to right, becomes `rep`. */
  function Replace(s: string, c: char, rep: string): (r: string)
    ensures c !in s ==> r == s
  {
    if s == [] then []
    else (if s[0] == c then rep else [s[0]]) + Replace(s[1..], c, rep)
  }

  /** `_escape_xml_text`: empty text stays empty; otherwise the five replacements
      in the source's order, ampersand first. */
  function EscapeXmlText(s: string): (r: string)
    ensures s == [] ==> r == []
    ensures r == EscapeSeq(s)
  {
    EscapeChainPerChar(s);
    if s == [] then []
    else
      var t1 := Replace(s, '&', "&amp;");
      var t2 := Replace(t1, '<', "&lt;");
      var t3 := Replace(t2, '>', "&gt;");
      var t4 := Replace(t3, '"', "&quot;");
      Replace(t4, '\'', "&apos;")
  }

  /** Escaped text holds no raw `<`, `>`, `"` or `'`. */
  lemma EscapeXmlTextNoMarkup(s: string)
    ensures NoMarkup(EscapeXmlText(s))
  {
    EscapeSeqNoMarkup(s);
  }

  /** Decoding the escaped text gives back the text. */
  lemma EscapeXmlTextRoundTrip(s: string)
    ensures Unescape(EscapeXmlText(s)) == s
  {
    UnescapeEscape(s);
  }

  /** The five replacements applied one after another, as a plain chain. */
  function Chain(s: string): string {
    Replace(Replace(Replace(Replace(Replace(s, '&', "&amp;"), '<', "&lt;"), '>', "&gt;"), '"', "&quot;"), '\'', "&apos;")
  }

  /** Reference definition: each character escaped on its own. */
  function EscapeChar(c: char): string {
    if c == '&' then "&amp;"
    else if c == '<' then "&lt;"
    else if c == '>' then "&gt;"
    else if c == '"' then "&quot;"
    else if c == '\'' then "&apos;"
    else [c]
  }

  function EscapeSeq(s: string): string {
    if s == [] then [] else EscapeChar(s[0]) + EscapeSeq(s[1..])
  }

  /** No character that would end or open markup is left raw. */
  predicate NoMarkup(s: string) {
    forall i :: 0 <= i < |s| ==> s[i] != '<' && s[i] != '>' && s[i] != '"' && s[i] != '\''
  }

  /** The decoding of the five predefined entities an XML reader performs. */
  function Unescape(s: string): string {
    if s == [] then []
    else if "&amp;" <= s then ['&'] + Unescape(s[5..])
    else if "&lt;" <= s then ['<'] + Unescape(s[4..])
    else if "&gt;" <= s then ['>'] + Unescape(s[4..])
    else if "&quot;" <= s then ['"'] + Unescape(s[6..])
    else if "&apos;" <= s then ['\''] + Unescape(s[6..])
    else [s[0]] + Unescape(s[1..])
  }

  lemma {:induction false} ReplaceAppend(a: string, b: string, c: char, rep: string)
    ensures Replace(a + b, c, rep) == Replace(a, c, rep) + Replace(b, c, rep)
  {
    if a == [] {
      assert a + b == b;
    } else {
      assert (a + b)[1..] == a[1..] + b;
      ReplaceAppend(a[1..], b, c, rep);
    }
  }

  lemma ChainAppend(a: string, b: string)
    ensures Chain(a + b) == Chain(a) + Chain(b)
  {
    var a1, b1 := Replace(a, '&', "&amp;"), Replace(b, '&', "&amp;");
    ReplaceAppend(a, b, '&', "&amp;");
    var a2, b2 := Replace(a1, '<', "&lt;"), Replace(b1, '<', "&lt;");
    ReplaceAppend(a1, b1, '<', "&lt;");
    var a3, b3 := Replace(a2, '>', "&gt;"), Replace(b2, '>', "&gt;");
    ReplaceAppend(a2, b2, '>', "&gt;");
    var a4, b4 := Replace(a3, '"', "&quot;"), Replace(b3, '"', "&quot;");
    ReplaceAppend(a3, b3, '"', "&quot;");
    ReplaceAppend(a4, b4, '\'', "&apos;");
  }

  lemma ReplaceOne(x: char, c: char, rep: string)
    ensures Replace([x], c, rep) == if x == c then rep else [x]
  {
    assert [x][1..] == [];
  }

  lemma ChainChar(x: char)
    ensures Chain([x]) == EscapeChar(x)
  {
    ReplaceOne(x, '&', "&amp;");
    ReplaceOne(x, '<', "&lt;");
    ReplaceOne(x, '>', "&gt;");
    ReplaceOne(x, '"', "&quot;");
    ReplaceOne(x, '\'', "&apos;");
    if x == '&' {
      assert '<' !in "&amp;" && '>' !in "&amp;" && '"' !in "&amp;" && '\'' !in "&amp;";
    } else if x == '<' {
      assert '>' !in "&lt;" && '"' !in "&lt;" && '\'' !in "&lt;";
    } else if x == '>' {
      assert '"' !in "&gt;" && '\'' !in "&gt;";
    } else if x == '"' {
      assert '\'' !in "&quot;";
    }
  }

  /** Because `&` is replaced first, the chain of replacements escapes each
      character exactly once: no entity produced by a later step is escaped again. */
  lemma {:induction false} EscapeChainPerChar(s: string)
    ensures Chain(s) == EscapeSeq(s)
  {
    if s != [] {
      assert s == [s[0]] + s[1..];
      ChainAppend([s[0]], s[1..]);
      ChainChar(s[0]);
      EscapeChainPerChar(s[1..]);
    }
  }

  lemma {:induction false} EscapeSeqNoMarkup(s: string)
    ensures NoMarkup(EscapeSeq(s))
  {
    if s != [] {
      EscapeSeqNoMarkup(s[1..]);
      var e := EscapeChar(s[0]);
      assert NoMarkup(e);
      assert EscapeSeq(s) == e + EscapeSeq(s[1..]);
    }
  }

  /** Decoding the escaped text gives back the original text. */
  lemma {:induction false} UnescapeEscape(s: string)
    ensures Unescape(EscapeSeq(s)) == s
  {
    if s != [] {
      var rest := EscapeSeq(s[1..]);
      var e := EscapeChar(s[0]);
      assert EscapeSeq(s) == e + rest;
      UnescapeEscape(s[1..]);
      var t := e + rest;
      if s[0] == '&' {
        assert "&amp;" <= t && t[5..] == rest;
      } else if s[0] == '<' {
        assert !("&amp;" <= t) by { assert t[1] == 'l'; }
        assert "&lt;" <= t && t[4..] == rest;
      } else if s[0] == '>' {
        assert !("&amp;" <= t) by { assert t[1] == 'g'; }
        assert !("&lt;" <= t) by { assert t[1] == 'g'; }
        assert "&gt;" <= t && t[4..] == rest;
      } else if s[0] == '"' {
        assert !("&amp;" <= t) by { assert t[1] == 'q'; }
        assert !("&lt;" <= t) by { assert t[1] == 'q'; }
        assert !("&gt;" <= t) by { assert t[1] == 'q'; }
        assert "&quot;" <= t && t[6..] == rest;
      } else if s[0] == '\'' {
        assert !("&amp;" <= t) by { assert t[1] == 'a' && t[2] == 'p'; }
        assert !("&lt;" <= t) by { assert t[1] == 'a'; }
        assert !("&gt;" <= t) by { assert t[1] == 'a'; }
        assert !("&quot;" <= t) by { assert t[1] == 'a'; }
        assert "&apos;" <= t && t[6..] == rest;
      } else {
        assert t[0] == s[0] && t[1..] == rest;
      }
      assert s == [s[0]] + s[1..];
    }
  }

  /** Every ampersand in escaped text opens one of the five entities, so a
      reader never meets a bare `&` (the output is not escaped twice). */
  lemma {:induction false} EscapedAmpersandsOpenEntities(s: string, i: nat)
    requires i < |EscapeSeq(s)| && EscapeSeq(s)[i] == '&'
    ensures var t := EscapeSeq(s)[i..];
      "&amp;" <= t || "&lt;" <= t || "&gt;" <= t || "&quot;" <= t || "&apos;" <= t
  {
    var e := EscapeChar(s[0]);
    var rest := EscapeSeq(s[1..]);
    assert EscapeSeq(s) == e + rest;
    if i < |e| {
      assert e[0] == '&' && i == 0;
      assert EscapeSeq(s)[i..] == e + rest;
    } else {
      assert EscapeSeq(s)[i..] == rest[i - |e|..];
      EscapedAmpersandsOpenEntities(s[1..], i - |e|);
    }
  }
}
