/**
 * The deterministic part of `main`: the aggregation window ends at the run's
 * current time and reaches back 192 hours; the Open Graph data found for the
 * sources' own pages overrides the data found for individual items; the
 * aggregated items, their counts and the merged OG data make up the
 * aggregated feed. Fetching feeds and OG pages is outside the model: the
 * fetched feeds and both OG maps are inputs, each bookmark-count batch is
 * answered by `fetch`.
 */
module Pipeline {
  import opened FeedModel
  import Lookup
  import Crawler
  import Generator

  /** `{**item_og, **blog_og}`: every link of either map; a link in both takes
      the source page's data. */
  function MergeOgMaps(itemOg: OgMap, blogOg: OgMap): (r: OgMap)
    ensures r.Keys == itemOg.Keys + blogOg.Keys
    ensures forall u :: u in blogOg ==> r[u] == blogOg[u]
    ensures forall u :: u in itemOg && u !in blogOg ==> r[u] == itemOg[u]
  {
    itemOg + blogOg
  }

  /** Looking up an image in the merged map: a link the source pages know is
      answered from them alone; any other link from the item pages. */
  lemma MergedImageLookup(url: string, itemOg: OgMap, blogOg: OgMap)
    ensures url in blogOg ==>
      Lookup.OgImageOrFallback(url, MergeOgMaps(itemOg, blogOg)) == Lookup.OgImageOrFallback(url, blogOg)
    ensures url !in blogOg ==>
      Lookup.OgImageOrFallback(url, MergeOgMaps(itemOg, blogOg)) == Lookup.OgImageOrFallback(url, itemOg)
  {
  }

  /** The start of the aggregation window for a run at time `now` (seconds). */
  function WindowStart(now: int): (r: int)
    ensures now - r == 192 * 60 * 60
  {
    now - AggregateFeedDurationHours * 60 * 60
  }

  /** From the fetched feeds to the aggregated feed: the items published in
      the window, newest first, each projected with its bookmark count and the
      merged OG data, under the fixed channel metadata. */
  method BuildAggregatedFeed(feeds: seq<Feed>, now: int, nowText: string, getText: string -> string,
                             itemOg: OgMap, blogOg: OgMap, fetch: seq<string> -> Option<CountMap>)
    returns (aggregatedFeed: Generator.AggregatedFeed)
    ensures aggregatedFeed == Generator.FeedShell(nowText).(items := aggregatedFeed.items)
    ensures |aggregatedFeed.items| == Crawler.QualifyingCount(feeds, WindowStart(now))
    ensures var sorted := Crawler.SortNewestFirst(Crawler.Collected(feeds, WindowStart(now), getText));
      |sorted| == |aggregatedFeed.items|
      && forall k :: 0 <= k < |sorted| ==>
        aggregatedFeed.items[k] == Generator.ProjectItem(sorted[k], MergeOgMaps(itemOg, blogOg),
          Crawler.HatenaCounts(Crawler.ItemLinks(sorted), fetch), MaxFeedDescriptionLength, MaxFeedContentLength)
  {
    var startAt := WindowStart(now);
    var feedItems := Crawler.AggregateFeeds(feeds, startAt, getText);
    var hatenaCountMap := Crawler.FetchHatenaCountMap(feedItems, fetch);
    var ogObjectMap := MergeOgMaps(itemOg, blogOg);
    aggregatedFeed := Generator.GenerateAggregatedFeed(feedItems, ogObjectMap, hatenaCountMap,
                                                       MaxFeedDescriptionLength, MaxFeedContentLength, nowText);
  }
}
