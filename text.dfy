/**
 * String operations of the pipeline that do not depend on the feed model:
 * length limits on descriptions and contents, and the whitespace
 * normalisation that follows HTML text extraction.
 */
module Text {

  /** `s[:n]` of a Python string: the first `n` characters, or all of them. */
  function Clip(s: string, n: nat): (r: string)
    ensures |r| <= n
    ensures |s| <= n ==> r == s
    ensures |s| > n ==> |r| == n
    ensures r <= s
  {
    if |s| <= n then s else s[..n]
  }

  /** A description or content limited to `max` characters: a longer string
      keeps its first `max` characters and gains an ellipsis "...". */
  function Truncate(s: string, max: nat): (r: string)
    ensures |s| <= max ==> r == s
    ensures |s| > max ==> |r| == max + 3 && r[..max] <= s && r[max..] == "..."
    ensures |r| <= max + 3
  {
    if |s| > max then s[..max] + "..." else s
  }

  /** The characters Python's `\s` and `str.strip()` treat as whitespace
      (Unicode White_Space as classified by the interpreter). */
  predicate IsSpace(c: char) {
    var n := c as int;
    (9 <= n <= 13) || (28 <= n <= 32) || n == 0x85 || n == 0xA0 || n == 0x1680
    || (0x2000 <= n <= 0x200A) || n == 0x2028 || n == 0x2029 || n == 0x202F
    || n == 0x205F || n == 0x3000
  }

  /** `str.lstrip()`: drops the leading whitespace. */
  function LStrip(s: string): (r: string)
    ensures |r| <= |s| && r == s[|s| - |r|..]
    ensures r == [] || !IsSpace(r[0])
    ensures forall i :: 0 <= i < |s| - |r| ==> IsSpace(s[i])
  {
    if s != [] && IsSpace(s[0]) then
      var t := s[1..];
      var r := LStrip(t);
      assert t[|t| - |r|..] == s[|s| - |r|..];
      assert forall i :: 1 <= i < |s| - |r| ==> s[i] == t[i - 1];
      r
    else s
  }

  /** `str.rstrip()`: drops the trailing whitespace. */
  function RStrip(s: string): (r: string)
    ensures |r| <= |s| && r == s[..|r|]
    ensures r == [] || !IsSpace(r[|r| - 1])
    ensures forall i :: |r| <= i < |s| ==> IsSpace(s[i])
  {
    if s != [] && IsSpace(s[|s| - 1]) then
      var r := RStrip(s[..|s| - 1]);
      assert s[..|s| - 1][..|r|] == s[..|r|];
      r
    else s
  }

  /** `re.sub(r'\s+', ' ', s)`: every maximal run of whitespace becomes one space. */
  function Collapse(s: string): string
    decreases |s|
  {
    if s == [] then []
    else if IsSpace(s[0]) then [' '] + Collapse(LStrip(s[1..]))
    else [s[0]] + Collapse(s[1..])
  }

  /** `re.sub(r'\s+', ' ', s).strip()`. */
  function NormalizeSpace(s: string): string {
    RStrip(LStrip(Collapse(s)))
  }

  /** The text of `s` with all whitespace removed: what normalisation must keep. */
  function NonSpace(s: string): string {
    if s == [] then [] else (if IsSpace(s[0]) then [] else [s[0]]) + NonSpace(s[1..])
  }

  /** Whitespace in `s` is only single ' ' characters between other characters. */
  ghost predicate Tidy(s: string) {
    forall i :: 0 <= i < |s| && IsSpace(s[i]) ==>
      s[i] == ' ' && 0 < i < |s| - 1 && !IsSpace(s[i + 1])
  }

  /** Every whitespace character is ' ' and none is followed by another. */
  ghost predicate SingleSpaced(s: string) {
    forall i :: 0 <= i < |s| && IsSpace(s[i]) ==> s[i] == ' ' && (i + 1 < |s| ==> !IsSpace(s[i + 1]))
  }

  /** The longest prefix of `t` without whitespace. */
  function WordPrefix(t: string): (r: string)
    ensures r <= t
    ensures forall i :: 0 <= i < |r| ==> !IsSpace(r[i])
    ensures |r| == |t| || IsSpace(t[|r|])
  {
    if t == [] || IsSpace(t[0]) then [] else [t[0]] + WordPrefix(t[1..])
  }

  /** `s.split()`: the maximal whitespace-free runs of `s`, in order. */
  function Words(s: string): seq<string>
    decreases |s|
  {
    var u := LStrip(s);
    if u == [] then []
    else
      var w := WordPrefix(u);
      assert |w| >= 1 by { assert !IsSpace(u[0]); }
      [w] + Words(u[|w|..])
  }

  /** `" ".join(ws)`. */
  function JoinSpace(ws: seq<string>): string {
    if ws == [] then [] else if |ws| == 1 then ws[0] else ws[0] + " " + JoinSpace(ws[1..])
  }

  /** The `clean_html` step that turns an HTML fragment into plain text: empty
      input gives "", otherwise the markup-free text that `getText` extracts
      (the HTML parser, outside this model), with whitespace normalised. */
  function CleanHtml(getText: string -> string, html: string): (r: string)
    ensures html == [] ==> r == []
    ensures Tidy(r)
    ensures html != [] ==> NonSpace(r) == NonSpace(getText(html))
  {
    if html == [] then []
    else
      NormalizeSpaceTidy(getText(html));
      NormalizeSpaceKeepsText(getText(html));
      NormalizeSpace(getText(html))
  }

  /** The cleaned text is the words of the extracted text joined by single
      spaces: every run of whitespace between two words becomes exactly one
      ' ', and none is kept at either end. */
  lemma CleanHtmlWords(getText: string -> string, html: string)
    requires html != []
    ensures CleanHtml(getText, html) == JoinSpace(Words(getText(html)))
  {
    NormalizeSpaceWords(getText(html));
  }

  lemma {:induction false} CollapseShape(s: string)
    ensures SingleSpaced(Collapse(s))
    ensures s != [] && !IsSpace(s[0]) ==> Collapse(s) != [] && Collapse(s)[0] == s[0]
    decreases |s|
  {
    if s == [] {
    } else if IsSpace(s[0]) {
      var t := LStrip(s[1..]);
      CollapseShape(t);
      var c := Collapse(t);
      assert Collapse(s) == [' '] + c;
      assert c == [] || !IsSpace(c[0]);
    } else {
      CollapseShape(s[1..]);
      assert Collapse(s) == [s[0]] + Collapse(s[1..]);
    }
  }

  lemma SingleSpacedSlice(s: string, lo: nat, hi: nat)
    requires SingleSpaced(s) && lo <= hi <= |s|
    ensures SingleSpaced(s[lo..hi])
  {
    var t := s[lo..hi];
    forall i | 0 <= i < |t| && IsSpace(t[i])
      ensures t[i] == ' ' && (i + 1 < |t| ==> !IsSpace(t[i + 1]))
    {
      assert t[i] == s[lo + i];
      if i + 1 < |t| { assert t[i + 1] == s[lo + i + 1]; }
    }
  }

  lemma TidyFromEnds(r: string)
    requires SingleSpaced(r)
    requires r == [] || (!IsSpace(r[0]) && !IsSpace(r[|r| - 1]))
    ensures Tidy(r)
  {
  }

  lemma StripSingleSpaced(c: string)
    requires SingleSpaced(c)
    ensures SingleSpaced(RStrip(LStrip(c)))
    ensures RStrip(LStrip(c)) == [] || !IsSpace(RStrip(LStrip(c))[0])
  {
    var l := LStrip(c);
    SingleSpacedSlice(c, |c| - |l|, |c|);
    var r := RStrip(l);
    SingleSpacedSlice(l, 0, |r|);
    if r != [] { assert r[0] == l[0]; }
  }

  /** Normalisation leaves no leading, trailing, repeated or non-' ' whitespace. */
  lemma NormalizeSpaceTidy(s: string)
    ensures Tidy(NormalizeSpace(s))
  {
    CollapseShape(s);
    StripSingleSpaced(Collapse(s));
    TidyFromEnds(NormalizeSpace(s));
  }

  lemma {:induction false} NonSpaceAppend(a: string, b: string)
    ensures NonSpace(a + b) == NonSpace(a) + NonSpace(b)
  {
    if a == [] {
      assert a + b == b;
    } else {
      assert (a + b)[1..] == a[1..] + b;
      NonSpaceAppend(a[1..], b);
    }
  }

  lemma {:induction false} NonSpaceAllSpace(s: string)
    requires forall i :: 0 <= i < |s| ==> IsSpace(s[i])
    ensures NonSpace(s) == []
  {
    if s != [] { NonSpaceAllSpace(s[1..]); }
  }

  lemma LStripKeepsText(s: string)
    ensures NonSpace(LStrip(s)) == NonSpace(s)
  {
    var r := LStrip(s);
    assert s == s[..|s| - |r|] + r;
    NonSpaceAppend(s[..|s| - |r|], r);
    NonSpaceAllSpace(s[..|s| - |r|]);
  }

  lemma RStripKeepsText(s: string)
    ensures NonSpace(RStrip(s)) == NonSpace(s)
  {
    var r := RStrip(s);
    assert s == r + s[|r|..];
    NonSpaceAppend(r, s[|r|..]);
    NonSpaceAllSpace(s[|r|..]);
  }

  lemma {:induction false} CollapseKeepsText(s: string)
    ensures NonSpace(Collapse(s)) == NonSpace(s)
    decreases |s|
  {
    if s == [] {
    } else if IsSpace(s[0]) {
      var t := LStrip(s[1..]);
      CollapseKeepsText(t);
      LStripKeepsText(s[1..]);
      NonSpaceAppend([' '], Collapse(t));
    } else {
      CollapseKeepsText(s[1..]);
      NonSpaceAppend([s[0]], Collapse(s[1..]));
    }
  }

  /** Normalisation removes whitespace only: the other characters stay, in order. */
  lemma NormalizeSpaceKeepsText(s: string)
    ensures NonSpace(NormalizeSpace(s)) == NonSpace(s)
  {
    CollapseKeepsText(s);
    LStripKeepsText(Collapse(s));
    RStripKeepsText(LStrip(Collapse(s)));
  }

  lemma {:induction false} CollapseSingleSpaced(s: string)
    requires SingleSpaced(s)
    ensures Collapse(s) == s
    decreases |s|
  {
    if s != [] {
      var t := s[1..];
      SingleSpacedSlice(s, 1, |s|);
      CollapseSingleSpaced(t);
      if IsSpace(s[0]) {
        assert t == [] || !IsSpace(t[0]) by {
          if t != [] { assert t[0] == s[1]; }
        }
        assert LStrip(t) == t;
        assert Collapse(s) == [' '] + Collapse(t);
      } else {
        assert Collapse(s) == [s[0]] + Collapse(t);
      }
      assert s == [s[0]] + t;
    }
  }

  lemma {:induction false} CollapseWord(w: string, rest: string)
    requires forall i :: 0 <= i < |w| ==> !IsSpace(w[i])
    ensures Collapse(w + rest) == w + Collapse(rest)
    decreases |w|
  {
    if w == [] {
      assert w + rest == rest;
    } else {
      CollapseLetter(w, rest);
      ConsRegroup(w, Collapse(rest));
      CollapseWord(w[1..], rest);
    }
  }

  /** Text that starts with a non-space character keeps it and collapses the rest. */
  lemma CollapseLetter(w: string, rest: string)
    requires w != [] && !IsSpace(w[0])
    ensures Collapse(w + rest) == [w[0]] + Collapse(w[1..] + rest)
  {
    var a := w + rest;
    assert a[0] == w[0];
    assert a[1..] == w[1..] + rest;
  }

  lemma ConsRegroup(w: string, c: string)
    requires w != []
    ensures [w[0]] + (w[1..] + c) == w + c
  {
    assert w == [w[0]] + w[1..];
  }

  lemma {:induction false} RStripAppend(x: string, y: string)
    requires RStrip(y) != []
    ensures RStrip(x + y) == x + RStrip(y)
    decreases |y|
  {
    var n := |y| - 1;
    assert (x + y)[|x + y| - 1] == y[n];
    if IsSpace(y[n]) {
      assert (x + y)[..|x + y| - 1] == x + y[..n];
      RStripAppend(x, y[..n]);
    }
  }

  /** Leading whitespace never reaches the normalised text. */
  lemma NormalizeSpaceLStrip(s: string)
    ensures NormalizeSpace(s) == NormalizeSpace(LStrip(s))
  {
    if s != [] && IsSpace(s[0]) {
      CollapseSpaceStart(s);
      LStripSpace(Collapse(LStrip(s)));
    }
  }

  /** Text that starts with whitespace: `lstrip()` drops that first character
      too, and the collapse writes one space for the whole leading run. */
  lemma CollapseSpaceStart(s: string)
    requires s != [] && IsSpace(s[0])
    ensures LStrip(s) == LStrip(s[1..])
    ensures Collapse(s) == [' '] + Collapse(LStrip(s))
  {
  }

  lemma LStripSpace(c: string)
    ensures LStrip([' '] + c) == LStrip(c)
  {
    var t := [' '] + c;
    assert t[0] == ' ' && IsSpace(t[0]);
    assert t[1..] == c;
    assert LStrip(t) == LStrip(t[1..]);
  }

  /** Whitespace alone collapses to a single space, or to nothing. */
  lemma CollapseBlank(rest: string)
    requires LStrip(rest) == []
    ensures Collapse(rest) == if rest == [] then [] else [' ']
  {
    if rest != [] {
      assert LStrip(rest[1..]) == [];
    }
  }

  /** Text that starts with a non-space character is its own `lstrip()`. */
  lemma LStripKeeps(t: string)
    requires t != [] && !IsSpace(t[0])
    ensures LStrip(t) == t
  {
  }

  /** A last word followed by nothing but whitespace normalises to itself. */
  lemma NormalizeLastWord(w: string, rest: string)
    requires w != [] && forall i :: 0 <= i < |w| ==> !IsSpace(w[i])
    requires LStrip(rest) == []
    ensures NormalizeSpace(w + rest) == w
  {
    CollapseWord(w, rest);
    CollapseBlank(rest);
    TrailingBlank(w, Collapse(rest));
  }

  /** A word followed by at most one space: stripping leaves the word. */
  lemma TrailingBlank(w: string, c: string)
    requires w != [] && !IsSpace(w[0]) && !IsSpace(w[|w| - 1])
    requires c == [] || c == [' ']
    ensures RStrip(LStrip(w + c)) == w
  {
    var x := w + c;
    assert x[0] == w[0];
    LStripKeeps(x);
    assert RStrip(w) == w;
    if c != [] {
      assert x[|x| - 1] == ' ' && IsSpace(x[|x| - 1]);
      assert x[..|x| - 1] == w;
    } else {
      assert x == w;
    }
  }

  /** A word, whitespace and more text collapse to the word, one space, and
      the collapse of the text. */
  lemma CollapseWordThen(w: string, rest: string)
    requires forall i :: 0 <= i < |w| ==> !IsSpace(w[i])
    requires rest != [] && IsSpace(rest[0])
    ensures Collapse(w + rest) == (w + " ") + Collapse(LStrip(rest))
  {
    SpaceRegroup(w, Collapse(LStrip(rest)));
    CollapseSpaceStart(rest);
    CollapseWord(w, rest);
  }

  lemma SpaceRegroup(w: string, x: string)
    ensures (w + " ") + x == w + ([' '] + x)
  {
  }

  /** The collapse of text that starts with a word starts with that word. */
  lemma CollapseFromWord(v: string)
    requires v != [] && !IsSpace(v[0])
    ensures LStrip(Collapse(v)) == Collapse(v) && RStrip(Collapse(v)) != []
  {
    CollapseShape(v);
    LStripKeeps(Collapse(v));
  }

  /** A word, one space and text starting with a word: stripping touches
      only the end. */
  lemma StripJoined(w: string, cv: string)
    requires w != [] && !IsSpace(w[0])
    requires RStrip(cv) != []
    ensures RStrip(LStrip((w + " ") + cv)) == (w + " ") + RStrip(cv)
  {
    var x := (w + " ") + cv;
    assert x[0] == w[0];
    LStripKeeps(x);
    RStripAppend(w + " ", cv);
  }

  /** A word followed by whitespace and more text: the word, one space, and
      the normalised rest. */
  lemma NormalizeWordThen(w: string, rest: string)
    requires w != [] && forall i :: 0 <= i < |w| ==> !IsSpace(w[i])
    requires rest != [] && IsSpace(rest[0]) && LStrip(rest) != []
    ensures NormalizeSpace(w + rest) == w + " " + NormalizeSpace(rest)
  {
    var v := LStrip(rest);
    CollapseWordThen(w, rest);
    CollapseFromWord(v);
    StripJoined(w, Collapse(v));
    NormalizeSpaceLStrip(rest);
  }

  /** Normalisation is `" ".join(s.split())`: the words of `s`, in order,
      separated by exactly one space. */
  lemma {:induction false} NormalizeSpaceWords(s: string)
    ensures NormalizeSpace(s) == JoinSpace(Words(s))
    decreases |s|
  {
    NormalizeSpaceLStrip(s);
    var u := LStrip(s);
    if u != [] {
      var w := WordPrefix(u);
      var rest := u[|w|..];
      PrefixSplit(w, u);
      assert w[0] == u[0];
      assert Words(s) == [w] + Words(rest);
      if LStrip(rest) == [] {
        NormalizeLastWord(w, rest);
        assert Words(rest) == [];
      } else {
        NormalizeWordThen(w, rest);
        NormalizeSpaceWords(rest);
        assert Words(rest) != [];
        assert ([w] + Words(rest))[1..] == Words(rest);
      }
    }
  }

  lemma PrefixSplit(w: string, u: string)
    requires w <= u
    ensures u == w + u[|w|..]
  {
  }

  /** Text that is already tidy is left alone: `clean_html` is idempotent on its output. */
  lemma NormalizeSpaceOfTidy(s: string)
    requires Tidy(s)
    ensures NormalizeSpace(s) == s
  {
    CollapseSingleSpaced(s);
    assert s == [] || !IsSpace(s[0]);
    assert LStrip(s) == s;
    assert s == [] || !IsSpace(s[|s| - 1]);
  }
}
