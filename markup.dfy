/**
 * Documents built by appending lines, and what an XML reader takes back out
 * of a line. Each line carries the element it opens (or closes), so that the
 * elements of a document can be counted; the renderers prove that every
 * line's text starts with the opening of its element.
 */
module Markup {
  import opened FeedModel
  import opened XmlText

  /** One appended line and the element it belongs to. */
  datatype Line<T> = Line(tag: T, text: string)

  /** The text obtained by appending the lines in order. */
  function Concat<T>(lines: seq<Line<T>>): string {
    if lines == [] then [] else Concat(lines[..|lines| - 1]) + lines[|lines| - 1].text
  }

  lemma {:induction false} ConcatAppend<T>(a: seq<Line<T>>, b: seq<Line<T>>)
    ensures Concat(a + b) == Concat(a) + Concat(b)
    decreases |b|
  {
    if b == [] {
      assert a + b == a;
    } else {
      assert (a + b)[..|a + b| - 1] == a + b[..|b| - 1];
      ConcatAppend(a, b[..|b| - 1]);
    }
  }

  lemma AppendEmpty<T>(a: seq<T>, b: seq<T>)
    requires b == []
    ensures a + b == a
  {
  }

  /** One step of a loop that appends the text of `next` to `r`. */
  lemma ConcatSnoc<T>(text: string, done: seq<Line<T>>, next: seq<Line<T>>, r: string)
    requires r == text + Concat(done)
    ensures r + Concat(next) == text + Concat(done + next)
  {
    var a, b := Concat(done), Concat(next);
    assert (text + a) + b == text + (a + b);
    ConcatAppend(done, next);
  }

  /** The lines of element `t`, in order. */
  function WithTag<T(==)>(lines: seq<Line<T>>, t: T): (r: seq<Line<T>>)
    ensures |r| <= |lines|
    ensures forall k :: 0 <= k < |r| ==> r[k].tag == t && r[k] in lines
  {
    if lines == [] then []
    else
      var last := lines[|lines| - 1];
      WithTag(lines[..|lines| - 1], t) + (if last.tag == t then [last] else [])
  }

  lemma {:induction false} WithTagAppend<T>(a: seq<Line<T>>, b: seq<Line<T>>, t: T)
    ensures WithTag(a + b, t) == WithTag(a, t) + WithTag(b, t)
    decreases |b|
  {
    if b == [] {
      assert a + b == a;
    } else {
      assert (a + b)[..|a + b| - 1] == a + b[..|b| - 1];
      WithTagAppend(a, b[..|b| - 1], t);
    }
  }

  lemma {:induction false} TagNone<T>(lines: seq<Line<T>>, t: T)
    requires forall k :: 0 <= k < |lines| ==> lines[k].tag != t
    ensures WithTag(lines, t) == []
  {
    if lines != [] {
      TagNone(lines[..|lines| - 1], t);
    }
  }

  lemma {:induction false} TagOne<T>(lines: seq<Line<T>>, t: T, at: nat)
    requires at < |lines|
    requires forall k :: 0 <= k < |lines| ==> (lines[k].tag == t <==> k == at)
    ensures WithTag(lines, t) == [lines[at]]
  {
    var n := |lines| - 1;
    if at == n {
      TagNone(lines[..n], t);
    } else {
      TagOne(lines[..n], t, at);
    }
  }

  /** A document made of a header, a body and a footer has as many lines of
      element `t` as its body when the header and footer have none. */
  lemma CountInBody<T>(header: seq<Line<T>>, body: seq<Line<T>>, footer: seq<Line<T>>, t: T)
    requires WithTag(header, t) == [] && WithTag(footer, t) == []
    ensures WithTag(header + body + footer, t) == WithTag(body, t)
  {
    WithTagAppend(header + body, footer, t);
    WithTagAppend(header, body, t);
  }

  /** Appends the lines to `text`, one `+=` per line. */
  method AppendLines<T>(text: string, lines: seq<Line<T>>) returns (r: string)
    ensures r == text + Concat(lines)
  {
    r := text;
    for j := 0 to |lines|
      invariant r == text + Concat(lines[..j])
    {
      assert lines[..j + 1][..j] == lines[..j];
      r := r + lines[j].text;
    }
    assert lines[..|lines|] == lines;
  }

  /** The prefix of `s` before the first `stop`. */
  function UpTo(s: string, stop: char): (r: string)
    ensures r <= s && stop !in r
  {
    if s == [] || s[0] == stop then [] else [s[0]] + UpTo(s[1..], stop)
  }

  lemma {:induction false} UpToAppend(a: string, b: string, stop: char)
    requires stop !in a && b != [] && b[0] == stop
    ensures UpTo(a + b, stop) == a
  {
    if a == [] {
      assert a + b == b;
    } else {
      assert (a + b)[0] == a[0] != stop;
      assert (a + b)[1..] == a[1..] + b;
      UpToAppend(a[1..], b, stop);
    }
  }

  /** What an XML reader takes from a line that starts with `open`: the
      character data up to `stop` ('<' ends element content, '"' ends a quoted
      attribute value), with the predefined entities decoded. */
  function ReadAfter(line: string, open: string, stop: char): Option<string> {
    if open <= line then Some(Unescape(UpTo(line[|open|..], stop))) else None
  }

  /** The verbatim text written between `open` and the final `close` of a
      line. Links, URLs and CDATA content are written this way, unescaped; an
      XML reader gets the same text back only when it holds no '&' and no
      closing delimiter (`PlainReadsBack`), and a CDATA section ends at its
      first `]]>`, wherever that is. */
  function Between(line: string, open: string, close: string): Option<string> {
    if |open| + |close| <= |line| && open <= line && line[|line| - |close|..] == close
    then Some(line[|open|..|line| - |close|])
    else None
  }

  /** Escaped text followed by its closing delimiter reads back as the text. */
  lemma ReadEscaped(open: string, t: string, close: string, stop: char)
    requires stop == '<' || stop == '"'
    requires close != [] && close[0] == stop
    ensures ReadAfter(open + EscapeXmlText(t) + close, open, stop) == Some(t)
  {
    EscapedLacksStop(t, stop);
    EscapeXmlTextRoundTrip(t);
    ReadBack(open, EscapeXmlText(t), close, stop);
  }

  /** Text free of `stop`, followed by a closing delimiter that starts with
      `stop`, is read back whole and decoded. */
  lemma ReadBack(open: string, e: string, close: string, stop: char)
    requires stop !in e && close != [] && close[0] == stop
    ensures ReadAfter(open + e + close, open, stop) == Some(Unescape(e))
  {
    var line := open + e + close;
    assert open <= line && line[|open|..] == e + close;
    UpToAppend(e, close, stop);
    ReadAfterOf(line, open, stop, e);
  }

  /** Escaped text holds neither '<' nor '"'. */
  lemma EscapedLacksStop(t: string, stop: char)
    requires stop == '<' || stop == '"'
    ensures stop !in EscapeXmlText(t)
  {
    var e := EscapeXmlText(t);
    EscapeXmlTextNoMarkup(t);
    assert forall i :: 0 <= i < |e| ==> e[i] != stop;
  }

  lemma ReadAfterOf(line: string, open: string, stop: char, body: string)
    requires open <= line && UpTo(line[|open|..], stop) == body
    ensures ReadAfter(line, open, stop) == Some(Unescape(body))
  {
  }

  /** Text that holds no '&' decodes to itself. */
  lemma {:induction false} UnescapePlain(s: string)
    requires '&' !in s
    ensures Unescape(s) == s
  {
    if s != [] {
      assert s[0] != '&' && '&' !in s[1..];
      UnescapePlain(s[1..]);
      assert s == [s[0]] + s[1..];
    }
  }

  /** Unescaped text read by an XML reader: without '&' and without the
      closing delimiter it comes back as written. */
  lemma PlainReadsBack(open: string, v: string, close: string, stop: char)
    requires '&' !in v && stop !in v
    requires close != [] && close[0] == stop
    ensures ReadAfter(open + v + close, open, stop) == Some(v)
  {
    ReadBack(open, v, close, stop);
    UnescapePlain(v);
  }

  /** A link written unescaped that holds "&amp;": the written text keeps the
      entity, while a reader decodes it to '&'. */
  lemma EntityInVerbatimLink()
    ensures var line := "<id>" + "a&amp;b" + "</id>";
      Between(line, "<id>", "</id>") == Some("a&amp;b")
      && ReadAfter(line, "<id>", '<') == Some("a&b")
  {
    var line := "<id>" + "a&amp;b" + "</id>";
    BetweenVerbatim("<id>", "a&amp;b", "</id>");
    ReadBack("<id>", "a&amp;b", "</id>", '<');
    var w, t := "a&amp;b", "&amp;b";
    assert w[0] == 'a' && w[1..] == t;
    assert Unescape(w) == ['a'] + Unescape(t);
    assert "&amp;" <= t && t[5..] == "b";
    UnescapePlain("b");
    assert Unescape(t) == "&b";
    assert Unescape(w) == "a&b";
  }

  /** `Between` recovers, verbatim, the text placed between `open` and `close`. */
  lemma BetweenVerbatim(open: string, t: string, close: string)
    ensures Between(open + t + close, open, close) == Some(t)
  {
    var line := open + t + close;
    assert line[|line| - |close|..] == close;
    assert line[|open|..|line| - |close|] == t;
  }
}
