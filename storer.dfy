/**
 * `FeedStorer`: the per-source summary that accompanies the site's feeds. For
 * each configured source it records the OG image and description of the
 * source's link and up to ten summary items built from the source's newest
 * entries; `extract_domain` names the host of a link.
 */
module Storer {
  import opened FeedModel
  import Text
  import Lookup
  import Markup

  // ---------------------------------------------------------------------------
  // extract_domain
  // ---------------------------------------------------------------------------

  /** The match of `https?://([^/]+)` at the start of `s`, if any: the scheme,
      then at least one character other than '/', as many as there are. The
      optional `s` is tried first, so "https://" is preferred to "http://". */
  function DomainAt(s: string): (r: Option<string>)
    ensures r.Some? ==> r.value != [] && '/' !in r.value
  {
    if "https://" <= s && |s| > 8 && s[8] != '/' then Some(Markup.UpTo(s[8..], '/'))
    else if "http://" <= s && |s| > 7 && s[7] != '/' then Some(Markup.UpTo(s[7..], '/'))
    else None
  }

  /** `extract_domain`: the group of the leftmost match of `https?://([^/]+)`
      anywhere in the text, or "" when there is none. */
  function ExtractDomain(url: string): (r: string)
    ensures '/' !in r
    decreases |url|
  {
    if url == [] then []
    else match DomainAt(url)
      case Some(d) => d
      case None => ExtractDomain(url[1..])
  }

  /** A link built from a scheme, a host and a path gives its host back, whatever
      the path holds (even another link). */
  lemma ExtractDomainOfLink(scheme: string, host: string, path: string)
    requires scheme == "http" || scheme == "https"
    requires host != [] && '/' !in host
    requires path == [] || path[0] == '/'
    ensures ExtractDomain(scheme + "://" + host + path) == host
  {
    var url, rest := scheme + "://" + host + path, host + path;
    assert rest[0] == host[0] != '/';
    if scheme == "https" {
      assert url == "https://" + rest;
      SecureAt(rest);
    } else {
      assert url == "http://" + rest;
      PlainAt(rest);
    }
    HostRead(host, path);
    assert DomainAt(url) == Some(host);
  }

  lemma SecureAt(rest: string)
    requires rest != [] && rest[0] != '/'
    ensures DomainAt("https://" + rest) == Some(Markup.UpTo(rest, '/'))
  {
    var s := "https://" + rest;
    assert "https://" <= s && s[8..] == rest;
  }

  lemma PlainAt(rest: string)
    requires rest != [] && rest[0] != '/'
    ensures DomainAt("http://" + rest) == Some(Markup.UpTo(rest, '/'))
  {
    var s := "http://" + rest;
    assert s[4] == ':';
    assert "http://" <= s && s[7..] == rest;
  }

  /** The host is read up to the '/' that starts the path, or to the end. */
  lemma HostRead(host: string, path: string)
    requires host != [] && '/' !in host
    requires path == [] || path[0] == '/'
    ensures Markup.UpTo(host + path, '/') == host
  {
    if path == [] {
      assert host + path == host;
      UpToWhole(host, '/');
    } else {
      Markup.UpToAppend(host, path, '/');
    }
  }

  lemma {:induction false} UpToWhole(s: string, stop: char)
    requires stop !in s
    ensures Markup.UpTo(s, stop) == s
  {
    if s != [] {
      UpToWhole(s[1..], stop);
      assert s == [s[0]] + s[1..];
    }
  }

  /** Text with no ':' holds no scheme separator, so it has no domain. */
  lemma {:induction false} ExtractDomainWithoutScheme(url: string)
    requires ':' !in url
    ensures ExtractDomain(url) == ""
    decreases |url|
  {
    if url != [] {
      assert !("https://" <= url) by { if |url| >= 8 { assert url[5] != ':'; } }
      assert !("http://" <= url) by { if |url| >= 7 { assert url[4] != ':'; } }
      assert DomainAt(url) == None;
      ExtractDomainWithoutScheme(url[1..]);
    }
  }

  // ---------------------------------------------------------------------------
  // get_feed_items
  // ---------------------------------------------------------------------------

  const MaxSummaryItems := 10
  const MaxSummaryLength := 200
  const MaxContentHtmlLength := 500

  /** One item of a source's summary. */
  datatype SummaryItem = SummaryItem(
    title: string,
    summary: string,
    contentHtml: string,
    link: string,
    isoDate: string,
    hatenaCount: int,
    ogImageUrl: string)

  /** The content of an entry as the crawler stored it: its content when that
      is non-empty, otherwise its summary. (The crawler always stores content
      as text and never stores a summary_detail, so the other two branches of
      the source's fallback chain are never taken.) */
  function ContentHtml(e: Entry): (r: string)
    ensures e.content != "" ==> r == e.content
    ensures e.content == "" ==> r == e.summary
  {
    if e.content != "" then e.content else e.summary
  }

  /** The summary item of a dated entry: the cleaned summary cut to 200
      characters and the content cut to 500, neither with an ellipsis; the ISO
      date comes from the parsed publication time. */
  function SummaryOf(e: Entry, og: OgMap, counts: CountMap, getText: string -> string, iso: int -> string): SummaryItem
    requires e.publishedParsed.Some?
  {
    SummaryItem(e.title,
                Text.Clip(Text.CleanHtml(getText, e.summary), MaxSummaryLength),
                Text.Clip(ContentHtml(e), MaxContentHtmlLength),
                e.link,
                iso(e.publishedParsed.value),
                Lookup.GetHatenaCount(e.link, counts),
                Lookup.GetOgImageUrl(e.link, og))
  }

  /** The summary items of dated entries, in order. */
  function Summaries(es: seq<Entry>, og: OgMap, counts: CountMap, getText: string -> string, iso: int -> string): (r: seq<SummaryItem>)
    requires forall k :: 0 <= k < |es| ==> es[k].publishedParsed.Some?
    ensures |r| == |es|
  {
    if es == [] then []
    else Summaries(es[..|es| - 1], og, counts, getText, iso) + [SummaryOf(es[|es| - 1], og, counts, getText, iso)]
  }

  /** The entries `get_feed_items` looks at: the first ten. */
  function FirstEntries(entries: seq<Entry>): (r: seq<Entry>)
    ensures |r| <= MaxSummaryItems && r <= entries
    ensures |entries| <= MaxSummaryItems ==> r == entries
  {
    entries[..Min(MaxSummaryItems, |entries|)]
  }

  /** What `get_feed_items` returns: a summary item for each dated entry among
      the first ten, in order. */
  function FeedItems(entries: seq<Entry>, og: OgMap, counts: CountMap, getText: string -> string, iso: int -> string): seq<SummaryItem> {
    Summaries(Dated(FirstEntries(entries)), og, counts, getText, iso)
  }

  /** `get_feed_items`: walks the first ten entries, skips the undated ones and
      appends a summary item for each of the others. */
  method GetFeedItems(feed: Feed, og: OgMap, counts: CountMap, getText: string -> string, iso: int -> string)
    returns (items: seq<SummaryItem>)
    ensures items == FeedItems(feed.entries, og, counts, getText, iso)
  {
    items := [];
    var first := FirstEntries(feed.entries);
    assert first[..0] == [];
    for i := 0 to |first|
      invariant items == Summaries(Dated(first[..i]), og, counts, getText, iso)
    {
      var entry := first[i];
      ItemsStep(first, i, og, counts, getText, iso);
      if entry.publishedParsed.None? {
        continue;
      }
      items := items + [SummaryOf(entry, og, counts, getText, iso)];
    }
    assert first[..|first|] == first;
  }

  /** One step of `GetFeedItems`: an undated entry adds nothing, a dated one
      adds its summary item at the end. */
  lemma ItemsStep(first: seq<Entry>, i: nat, og: OgMap, counts: CountMap, getText: string -> string, iso: int -> string)
    requires i < |first|
    ensures first[i].publishedParsed.None? ==>
      Summaries(Dated(first[..i + 1]), og, counts, getText, iso) == Summaries(Dated(first[..i]), og, counts, getText, iso)
    ensures first[i].publishedParsed.Some? ==>
      Summaries(Dated(first[..i + 1]), og, counts, getText, iso)
      == Summaries(Dated(first[..i]), og, counts, getText, iso) + [SummaryOf(first[i], og, counts, getText, iso)]
  {
    assert first[..i + 1][..i] == first[..i];
    var dated := Dated(first[..i]);
    if first[i].publishedParsed.Some? {
      assert Dated(first[..i + 1]) == dated + [first[i]];
      assert (dated + [first[i]])[..|dated|] == dated;
    } else {
      assert Dated(first[..i + 1]) == dated + [];
      assert dated + [] == dated;
    }
  }

  /** Every dated entry is kept by `Dated`, at some position. */
  lemma DatedComplete(es: seq<Entry>, j: nat)
    requires j < |es| && es[j].publishedParsed.Some?
    ensures exists k :: 0 <= k < |Dated(es)| && Dated(es)[k] == es[j]
  {
    var p := DatedPositions(es);
    DatedPositionsComplete(es, j);
    var m :| 0 <= m < |p| && p[m] == j;
    DatedInOrder(es);
    assert Dated(es)[m] == es[j];
  }

  /** Element `k` of the summaries is the summary item of element `k`. */
  lemma {:induction false} SummariesAt(es: seq<Entry>, og: OgMap, counts: CountMap, getText: string -> string, iso: int -> string, k: nat)
    requires forall i :: 0 <= i < |es| ==> es[i].publishedParsed.Some?
    requires k < |es|
    ensures Summaries(es, og, counts, getText, iso)[k] == SummaryOf(es[k], og, counts, getText, iso)
  {
    if k < |es| - 1 {
      SummariesAt(es[..|es| - 1], og, counts, getText, iso, k);
    }
  }

  /** At most ten items, each the summary item of a dated entry among the
      first ten. */
  lemma FeedItemsSound(entries: seq<Entry>, og: OgMap, counts: CountMap, getText: string -> string, iso: int -> string)
    ensures var r := FeedItems(entries, og, counts, getText, iso);
      |r| <= MaxSummaryItems
      && forall k :: 0 <= k < |r| ==>
           exists j :: (0 <= j < Min(MaxSummaryItems, |entries|)
             && entries[j].publishedParsed.Some? && r[k] == SummaryOf(entries[j], og, counts, getText, iso))
  {
    var first := FirstEntries(entries);
    var d := Dated(first);
    var r := FeedItems(entries, og, counts, getText, iso);
    forall k | 0 <= k < |r|
      ensures exists j :: (0 <= j < Min(MaxSummaryItems, |entries|)
            && entries[j].publishedParsed.Some? && r[k] == SummaryOf(entries[j], og, counts, getText, iso))
    {
      SummariesAt(d, og, counts, getText, iso, k);
      var j :| 0 <= j < |first| && first[j] == d[k];
      assert entries[j] == first[j];
    }
  }

  /** Every dated entry among the first ten has its summary item. */
  lemma FeedItemsComplete(entries: seq<Entry>, og: OgMap, counts: CountMap, getText: string -> string, iso: int -> string)
    ensures var r := FeedItems(entries, og, counts, getText, iso);
      forall j :: 0 <= j < Min(MaxSummaryItems, |entries|) && entries[j].publishedParsed.Some? ==>
        exists k :: 0 <= k < |r| && r[k] == SummaryOf(entries[j], og, counts, getText, iso)
  {
    var first := FirstEntries(entries);
    var d := Dated(first);
    var r := FeedItems(entries, og, counts, getText, iso);
    forall j | 0 <= j < Min(MaxSummaryItems, |entries|) && entries[j].publishedParsed.Some?
      ensures exists k :: 0 <= k < |r| && r[k] == SummaryOf(entries[j], og, counts, getText, iso)
    {
      assert first[j] == entries[j];
      DatedComplete(first, j);
      var k :| 0 <= k < |d| && d[k] == first[j];
      SummariesAt(d, og, counts, getText, iso, k);
    }
  }

  /** The items come in entry order: the k-th item is the summary item of the
      k-th dated entry among the first ten, at strictly increasing positions,
      and no dated entry among the first ten is passed over. */
  lemma FeedItemsInOrder(entries: seq<Entry>, og: OgMap, counts: CountMap, getText: string -> string, iso: int -> string)
    ensures var r, p := FeedItems(entries, og, counts, getText, iso), DatedPositions(FirstEntries(entries));
      |r| == |p|
      && (forall k :: 0 <= k < |p| ==>
            (p[k] < Min(MaxSummaryItems, |entries|) && entries[p[k]].publishedParsed.Some?
             && r[k] == SummaryOf(entries[p[k]], og, counts, getText, iso)))
      && (forall k1, k2 :: 0 <= k1 < k2 < |p| ==> p[k1] < p[k2])
      && (forall j :: 0 <= j < Min(MaxSummaryItems, |entries|) && entries[j].publishedParsed.Some? ==> j in p)
  {
    var first := FirstEntries(entries);
    var d, p := Dated(first), DatedPositions(first);
    var r := FeedItems(entries, og, counts, getText, iso);
    DatedInOrder(first);
    forall k | 0 <= k < |p|
      ensures p[k] < Min(MaxSummaryItems, |entries|) && entries[p[k]].publishedParsed.Some?
      ensures r[k] == SummaryOf(entries[p[k]], og, counts, getText, iso)
    {
      assert first[p[k]] == entries[p[k]];
      SummariesAt(d, og, counts, getText, iso, k);
    }
    forall j | 0 <= j < Min(MaxSummaryItems, |entries|) && entries[j].publishedParsed.Some?
      ensures j in p
    {
      assert first[j] == entries[j];
      DatedPositionsComplete(first, j);
    }
  }

  /** Summaries and contents are cut, not abbreviated: each is a prefix of the
      cleaned summary (at most 200 characters) or of the entry's content (at
      most 500 characters), with no ellipsis appended. */
  lemma SummaryItemBounds(e: Entry, og: OgMap, counts: CountMap, getText: string -> string, iso: int -> string)
    requires e.publishedParsed.Some?
    ensures var s := SummaryOf(e, og, counts, getText, iso);
      |s.summary| <= MaxSummaryLength && s.summary <= Text.CleanHtml(getText, e.summary)
      && |s.contentHtml| <= MaxContentHtmlLength && s.contentHtml <= ContentHtml(e)
    ensures var s := SummaryOf(e, og, counts, getText, iso);
      s.link == e.link && s.title == e.title
      && s.hatenaCount == Lookup.GetHatenaCount(e.link, counts)
      && s.ogImageUrl == Lookup.GetOgImageUrl(e.link, og)
  {
  }

  /** Entries after the tenth never matter. */
  lemma FeedItemsIgnoreLater(entries: seq<Entry>, later: seq<Entry>, og: OgMap, counts: CountMap, getText: string -> string, iso: int -> string)
    requires |entries| >= MaxSummaryItems
    ensures FeedItems(entries + later, og, counts, getText, iso) == FeedItems(entries, og, counts, getText, iso)
  {
    assert FirstEntries(entries + later) == FirstEntries(entries);
  }

  // ---------------------------------------------------------------------------
  // store_blog_feeds
  // ---------------------------------------------------------------------------

  /** The record written for one source. The MD5 hash of the link is not
      modelled. */
  datatype BlogFeed = BlogFeed(
    title: string,
    link: string,
    ogImageUrl: string,
    ogDescription: string,
    items: seq<SummaryItem>)

  /** The loop of `store_blog_feeds` that builds one record per source, in order. */
  method BuildBlogFeeds(feeds: seq<Feed>, og: OgMap, counts: CountMap, getText: string -> string, iso: int -> string)
    returns (blogFeeds: seq<BlogFeed>)
    ensures |blogFeeds| == |feeds|
    ensures forall k :: 0 <= k < |feeds| ==>
      blogFeeds[k].title == feeds[k].title && blogFeeds[k].link == feeds[k].link
      && blogFeeds[k].ogImageUrl == Lookup.GetOgImageUrl(feeds[k].link, og)
      && blogFeeds[k].ogDescription == Lookup.GetOgDescription(feeds[k].link, og)
      && blogFeeds[k].items == FeedItems(feeds[k].entries, og, counts, getText, iso)
  {
    blogFeeds := [];
    for i := 0 to |feeds|
      invariant |blogFeeds| == i
      invariant forall k :: 0 <= k < i ==>
        blogFeeds[k].title == feeds[k].title && blogFeeds[k].link == feeds[k].link
        && blogFeeds[k].ogImageUrl == Lookup.GetOgImageUrl(feeds[k].link, og)
        && blogFeeds[k].ogDescription == Lookup.GetOgDescription(feeds[k].link, og)
        && blogFeeds[k].items == FeedItems(feeds[k].entries, og, counts, getText, iso)
    {
      var feedInfo := BlogFeedFor(feeds[i], og, counts, getText, iso);
      ghost var before := blogFeeds;
      blogFeeds := blogFeeds + [feedInfo];
      forall k | 0 <= k < i + 1
        ensures blogFeeds[k].title == feeds[k].title && blogFeeds[k].link == feeds[k].link
          && blogFeeds[k].ogImageUrl == Lookup.GetOgImageUrl(feeds[k].link, og)
          && blogFeeds[k].ogDescription == Lookup.GetOgDescription(feeds[k].link, og)
          && blogFeeds[k].items == FeedItems(feeds[k].entries, og, counts, getText, iso)
      {
        if k < i {
          assert blogFeeds[k] == before[k];
        } else {
          assert blogFeeds[k] == feedInfo;
        }
      }
    }
  }

  /** The record `store_blog_feeds` builds for one source. */
  method BlogFeedFor(feed: Feed, og: OgMap, counts: CountMap, getText: string -> string, iso: int -> string)
    returns (feedInfo: BlogFeed)
    ensures feedInfo.title == feed.title && feedInfo.link == feed.link
    ensures feedInfo.ogImageUrl == Lookup.GetOgImageUrl(feed.link, og)
    ensures feedInfo.ogDescription == Lookup.GetOgDescription(feed.link, og)
    ensures feedInfo.items == FeedItems(feed.entries, og, counts, getText, iso)
  {
    var items := GetFeedItems(feed, og, counts, getText, iso);
    feedInfo := BlogFeed(feed.title, feed.link, Lookup.GetOgImageUrl(feed.link, og),
                         Lookup.GetOgDescription(feed.link, og), items);
  }
}
