/**
 * Values shared by every stage of the feed pipeline: the entries and feeds the
 * crawler extracts from parsed syndication documents, the configured sources,
 * and the enrichment maps keyed by link.
 */
module FeedModel {

  datatype Option<+T> = None | Some(value: T)

  /** An entry as the crawler stores it after parsing: `publishedParsed` is the
      entry's structured publication time as a timestamp, or None when the
      parser found none. `content` is already the first content block's value
      (or "" when the entry had no content). */
  datatype Entry = Entry(
    title: string,
    link: string,
    published: string,
    publishedParsed: Option<int>,
    summary: string,
    content: string)

  /** A fetched source: its configuration plus the parsed channel data. */
  datatype Feed = Feed(
    feedUrl: string,
    category: string,
    title: string,
    link: string,
    entries: seq<Entry>)

  /** One configured source, as produced by the configuration loader. */
  datatype FeedInfo = FeedInfo(feedUrl: string, category: string)

  /** An Open Graph object: the meta values found for one page, by key
      ("ogImage", "ogDescription"; readers also accept "image", "description"). */
  type OgObject = map<string, string>
  type OgMap = map<string, OgObject>

  /** Bookmark counts by exact link string. */
  type CountMap = map<string, int>

  const FeedFetchConcurrency := 50
  const FeedOgFetchConcurrency := 20
  const AggregateFeedDurationHours := 8 * 24
  const MaxFeedDescriptionLength := 200
  const MaxFeedContentLength := 500
  const SiteBaseUrl := "https://univac-1.github.io/ai-info-rss-feed/"

  function Min(a: int, b: int): int { if a <= b then a else b }

  /** The entries of `es` that carry a parsed publication time, in order. */
  function Dated(es: seq<Entry>): (r: seq<Entry>)
    ensures |r| <= |es|
    ensures forall k :: 0 <= k < |r| ==> r[k].publishedParsed.Some? && r[k] in es
  {
    if es == [] then []
    else Dated(es[..|es| - 1]) + (if es[|es| - 1].publishedParsed.Some? then [es[|es| - 1]] else [])
  }

  /** The positions of the entries of `es` that carry a parsed publication
      time, in increasing order. */
  function DatedPositions(es: seq<Entry>): (r: seq<nat>)
    ensures forall k :: 0 <= k < |r| ==> r[k] < |es| && es[r[k]].publishedParsed.Some?
    ensures forall k1, k2 :: 0 <= k1 < k2 < |r| ==> r[k1] < r[k2]
  {
    if es == [] then []
    else DatedPositions(es[..|es| - 1]) + (if es[|es| - 1].publishedParsed.Some? then [|es| - 1] else [])
  }

  /** `Dated` keeps entries in their order: its k-th entry is the entry at the
      k-th dated position, and those positions strictly increase
      (`DatedPositions`). */
  lemma {:induction false} DatedInOrder(es: seq<Entry>)
    ensures |Dated(es)| == |DatedPositions(es)|
    ensures forall k :: 0 <= k < |DatedPositions(es)| ==> Dated(es)[k] == es[DatedPositions(es)[k]]
  {
    if es != [] {
      var n := |es| - 1;
      var front := es[..n];
      DatedInOrder(front);
      var d, p := Dated(es), DatedPositions(es);
      var d', p' := Dated(front), DatedPositions(front);
      if es[n].publishedParsed.Some? {
        assert d == d' + [es[n]] && p == p' + [n];
      } else {
        assert d == d' + [] && p == p' + [];
      }
      forall k | 0 <= k < |p'| ensures d[k] == es[p[k]] {
        assert d[k] == d'[k] && p[k] == p'[k];
        assert front[p'[k]] == es[p'[k]];
      }
    }
  }

  /** Every dated position is listed. */
  lemma {:induction false} DatedPositionsComplete(es: seq<Entry>, j: nat)
    requires j < |es| && es[j].publishedParsed.Some?
    ensures j in DatedPositions(es)
  {
    var n := |es| - 1;
    if j < n {
      assert es[..n][j] == es[j];
      DatedPositionsComplete(es[..n], j);
    }
  }

  /** Filtering the dated entries commutes with concatenation. */
  lemma {:induction false} DatedAppend(a: seq<Entry>, b: seq<Entry>)
    ensures Dated(a + b) == Dated(a) + Dated(b)
    decreases |b|
  {
    if b == [] {
      assert a + b == a;
    } else {
      var n := |b| - 1;
      assert (a + b)[..|a + b| - 1] == a + b[..n];
      assert (a + b)[|a + b| - 1] == b[n];
      DatedAppend(a, b[..n]);
    }
  }
}
