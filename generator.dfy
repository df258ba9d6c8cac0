/**
 * `FeedGenerator.generate_aggregated_feed`: the aggregated items become render
 * items (description and content cut to their maximum lengths with an
 * ellipsis, Open Graph image and bookmark count looked up by link) inside a
 * feed record whose channel metadata is fixed.
 */
module Generator {
  import opened FeedModel
  import Text
  import Lookup
  import Crawler

  /** One item of the aggregated feed, as the renderers read it. `date` is the
      structured publication time the renderers prefer; the projection never
      sets it (see `ProjectItem`). */
  datatype RenderItem = RenderItem(
    title: string,
    link: string,
    description: string,
    content: string,
    published: string,
    date: Option<int>,
    feedTitle: string,
    feedLink: string,
    category: string,
    ogImageUrl: string,
    hatenaCount: int)

  datatype FeedLinks = FeedLinks(atom: string, rss: string, json: string)

  /** The aggregated feed record: channel metadata and the items. */
  datatype AggregatedFeed = AggregatedFeed(
    title: string,
    description: string,
    language: string,
    link: string,
    updated: string,
    generator: string,
    copyright: string,
    feedLinks: FeedLinks,
    image: string,
    favicon: string,
    items: seq<RenderItem>)

  const FeedTitle := "AI関連情報RSS"
  const FeedDescription := "AI関連情報をまとめたRSSフィード"
  const FeedLanguage := "ja"
  const GeneratorName := "univac-1/ai-info-rss-feed"

  /** The projection of one aggregated item. The aggregated item carries no
      "content_html" and no "isoDate", so content and publication text are its
      own "content" and "published". The structured `date` is always None: the
      source asks `hasattr` of a dictionary, which never reports a key. */
  function ProjectItem(item: Crawler.FeedItem, og: OgMap, counts: CountMap, maxDesc: nat, maxContent: nat): (r: RenderItem)
    ensures r.title == item.title && r.link == item.link && r.published == item.published
    ensures r.feedTitle == item.feedTitle && r.feedLink == item.feedLink && r.category == item.category
    ensures |item.summary| <= maxDesc ==> r.description == item.summary
    ensures |item.summary| > maxDesc ==> r.description == item.summary[..maxDesc] + "..."
    ensures |item.content| <= maxContent ==> r.content == item.content
    ensures |item.content| > maxContent ==> r.content == item.content[..maxContent] + "..."
    ensures r.date == None
    ensures item.link !in og ==> r.ogImageUrl == ""
    ensures item.link in og && Lookup.Field(og[item.link], "ogImage") != "" ==> r.ogImageUrl == og[item.link]["ogImage"]
    ensures item.link in og && Lookup.Field(og[item.link], "ogImage") == "" ==> r.ogImageUrl == Lookup.Field(og[item.link], "image")
    ensures item.link in counts ==> r.hatenaCount == counts[item.link]
    ensures item.link !in counts ==> r.hatenaCount == 0
  {
    var description := Text.Truncate(item.summary, maxDesc);
    var content := Text.Truncate(item.content, maxContent);
    assert |item.summary| > maxDesc ==> description == item.summary[..maxDesc] + "...";
    assert |item.content| > maxContent ==> content == item.content[..maxContent] + "...";
    RenderItem(item.title, item.link, description, content, item.published, None,
               item.feedTitle, item.feedLink, item.category,
               Lookup.OgImageOrFallback(item.link, og), Lookup.GetHatenaCount(item.link, counts))
  }

  /** The channel metadata of the aggregated feed, with no items yet. */
  function FeedShell(now: string): (r: AggregatedFeed)
    ensures r.items == []
    ensures r.link == SiteBaseUrl && r.updated == now
    ensures r.feedLinks.atom == SiteBaseUrl + "feeds/atom.xml"
    ensures r.feedLinks.rss == SiteBaseUrl + "feeds/rss.xml"
    ensures r.feedLinks.json == SiteBaseUrl + "feeds/feed.json"
  {
    AggregatedFeed(FeedTitle, FeedDescription, FeedLanguage, SiteBaseUrl, now, GeneratorName, GeneratorName,
                   FeedLinks(SiteBaseUrl + "feeds/atom.xml", SiteBaseUrl + "feeds/rss.xml", SiteBaseUrl + "feeds/feed.json"),
                   SiteBaseUrl + "images/icon.png", SiteBaseUrl + "images/favicon.ico", [])
  }

  /** `generate_aggregated_feed`: the fixed channel metadata (`now` is the
      render time as ISO text) and one render item per aggregated item, in the
      same order. */
  method GenerateAggregatedFeed(feedItems: seq<Crawler.FeedItem>, og: OgMap, counts: CountMap,
                                maxDesc: nat, maxContent: nat, now: string)
    returns (aggregatedFeed: AggregatedFeed)
    ensures aggregatedFeed == FeedShell(now).(items := aggregatedFeed.items)
    ensures |aggregatedFeed.items| == |feedItems|
    ensures forall k :: 0 <= k < |feedItems| ==>
      aggregatedFeed.items[k] == ProjectItem(feedItems[k], og, counts, maxDesc, maxContent)
  {
    aggregatedFeed := FeedShell(now);
    for i := 0 to |feedItems|
      invariant aggregatedFeed == FeedShell(now).(items := aggregatedFeed.items)
      invariant |aggregatedFeed.items| == i
      invariant forall k :: 0 <= k < i ==>
        aggregatedFeed.items[k] == ProjectItem(feedItems[k], og, counts, maxDesc, maxContent)
    {
      var feedItem := ProjectItem(feedItems[i], og, counts, maxDesc, maxContent);
      aggregatedFeed := aggregatedFeed.(items := aggregatedFeed.items + [feedItem]);
    }
  }

  /** With the configured limits, no rendered description exceeds 203
      characters and no rendered content 503, and each keeps the start of the
      aggregated text. */
  lemma ProjectedBounds(item: Crawler.FeedItem, og: OgMap, counts: CountMap)
    ensures var r := ProjectItem(item, og, counts, MaxFeedDescriptionLength, MaxFeedContentLength);
      |r.description| <= MaxFeedDescriptionLength + 3 && |r.content| <= MaxFeedContentLength + 3
      && r.description[..Min(|r.description|, MaxFeedDescriptionLength)] <= item.summary
      && r.content[..Min(|r.content|, MaxFeedContentLength)] <= item.content
  {
    var r := ProjectItem(item, og, counts, MaxFeedDescriptionLength, MaxFeedContentLength);
    if |item.summary| > MaxFeedDescriptionLength {
      assert r.description[..MaxFeedDescriptionLength] == item.summary[..MaxFeedDescriptionLength];
    }
    if |item.content| > MaxFeedContentLength {
      assert r.content[..MaxFeedContentLength] == item.content[..MaxFeedContentLength];
    }
  }
}
