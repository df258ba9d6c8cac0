/**
 * `FeedGenerator.generate_json_feed`: the aggregated feed as a JSON Feed 1.1
 * document, one JSON item per render item. The document is modelled as the
 * record `json.dumps` serialises; the serialisation itself is not modelled.
 */
module JsonFeed {
  import opened FeedModel
  import opened Generator

  const JsonFeedVersion := "https://jsonfeed.org/version/1.1"

  datatype Author = Author(name: string, url: string)

  datatype Item = Item(
    id: string,
    url: string,
    title: string,
    contentHtml: string,
    summary: string,
    datePublished: string,
    authors: seq<Author>,
    tags: seq<string>)

  datatype Document = Document(
    version: string,
    title: string,
    description: string,
    homePageUrl: string,
    feedUrl: string,
    language: string,
    items: seq<Item>)

  /** The JSON item of one render item: identified and linked by the item's
      link, titled WITHOUT the feed-title suffix the XML formats add, with one
      author (the source feed) and one tag (the category). */
  function ItemOf(item: RenderItem): Item {
    Item(item.link, item.link, item.title, item.content, item.description, item.published,
         [Author(item.feedTitle, item.feedLink)], [item.category])
  }

  /** `generate_json_feed`: the top-level keys from the feed's metadata (the
      feed URL is the site link followed by "feed.json"), then one item per
      render item, appended in order. */
  method GenerateJsonFeed(aggregatedFeed: AggregatedFeed) returns (jsonFeed: Document)
    ensures jsonFeed.version == JsonFeedVersion
    ensures jsonFeed.title == aggregatedFeed.title && jsonFeed.description == aggregatedFeed.description
    ensures jsonFeed.language == aggregatedFeed.language
    ensures jsonFeed.homePageUrl == aggregatedFeed.link
    ensures jsonFeed.feedUrl == aggregatedFeed.link + "feed.json"
    ensures |jsonFeed.items| == |aggregatedFeed.items|
    ensures forall k :: 0 <= k < |jsonFeed.items| ==> Describes(jsonFeed.items[k], aggregatedFeed.items[k])
  {
    jsonFeed := Document(JsonFeedVersion, aggregatedFeed.title, aggregatedFeed.description,
                         aggregatedFeed.link, aggregatedFeed.link + "feed.json",
                         aggregatedFeed.language, []);
    for i := 0 to |aggregatedFeed.items|
      invariant jsonFeed.version == JsonFeedVersion
      invariant jsonFeed.title == aggregatedFeed.title && jsonFeed.description == aggregatedFeed.description
      invariant jsonFeed.language == aggregatedFeed.language
      invariant jsonFeed.homePageUrl == aggregatedFeed.link
      invariant jsonFeed.feedUrl == aggregatedFeed.link + "feed.json"
      invariant |jsonFeed.items| == i
      invariant forall k :: 0 <= k < i ==> Describes(jsonFeed.items[k], aggregatedFeed.items[k])
    {
      var item := aggregatedFeed.items[i];
      var jsonItem := ItemOf(item);
      jsonFeed := jsonFeed.(items := jsonFeed.items + [jsonItem]);
    }
  }

  /** What a JSON item says about the render item it came from, field by field. */
  ghost predicate Describes(j: Item, item: RenderItem) {
    j.id == item.link && j.url == item.link
    && j.title == item.title
    && j.contentHtml == item.content && j.summary == item.description
    && j.datePublished == item.published
    && j.authors == [Author(item.feedTitle, item.feedLink)]
    && j.tags == [item.category]
  }

  /** A JSON item determines every render item field it was built from: two
      render items with the same JSON item agree on link, title, content,
      description, publication text, source feed and category. */
  lemma ItemOfDeterminesFields(a: RenderItem, b: RenderItem)
    requires ItemOf(a) == ItemOf(b)
    ensures a.link == b.link && a.title == b.title && a.content == b.content
    ensures a.description == b.description && a.published == b.published
    ensures a.feedTitle == b.feedTitle && a.feedLink == b.feedLink && a.category == b.category
  {
    assert ItemOf(a).authors[0] == ItemOf(b).authors[0];
    assert ItemOf(a).tags[0] == ItemOf(b).tags[0];
  }

  /** The feed URL the JSON document announces is the site link followed by
      "feed.json", which is not the address recorded for the JSON feed in the
      feed record's links (which lies under "feeds/"). */
  lemma FeedUrlDiffersFromLinks(now: string)
    ensures var shell := FeedShell(now);
      shell.link + "feed.json" != shell.feedLinks.json
  {
    var shell := FeedShell(now);
    assert |shell.link + "feed.json"| != |shell.feedLinks.json|;
  }
}
