/**
 * The three renderings of one aggregated feed side by side: what an Atom
 * reader, an RSS reader and a JSON Feed reader take out of the same render
 * item, and how many entries each document holds.
 */
module Formats {
  import opened FeedModel
  import opened Markup
  import opened Generator
  import AtomFeed
  import RssFeed
  import JsonFeed

  /** Atom and RSS carry the same title, the item title followed by " | " and
      the source feed title, which the JSON item splits into its title and its
      author's name. Both XML formats hold the content verbatim, as the JSON
      item's `content_html`; the category reads back as the JSON item's tag. */
  lemma ItemAgreement(item: RenderItem, nowIso: string, iso: int -> string, nowRfc: string, rfc: int -> string)
    ensures var j := JsonFeed.ItemOf(item);
      var a := AtomFeed.EntryLines(item, nowIso, iso);
      var r := RssFeed.ItemLines(item, nowRfc, rfc);
      var at, rt := WithTag(a, AtomFeed.Title), WithTag(r, RssFeed.Title);
      |at| == 1 && |rt| == 1
      && ReadAfter(at[0].text, AtomFeed.Opener(AtomFeed.Title), '<')
         == ReadAfter(rt[0].text, RssFeed.Opener(RssFeed.Title), '<')
         == Some(j.title + " | " + j.authors[0].name)
    ensures var j := JsonFeed.ItemOf(item);
      var ac := WithTag(AtomFeed.EntryLines(item, nowIso, iso), AtomFeed.Content);
      var rc := WithTag(RssFeed.ItemLines(item, nowRfc, rfc), RssFeed.Content);
      |ac| == 1 && |rc| == 1
      && Between(ac[0].text, AtomFeed.Opener(AtomFeed.Content), "]]></content>\n") == Some(j.contentHtml)
      && Between(rc[0].text, RssFeed.Opener(RssFeed.Content), "]]></content:encoded>\n") == Some(j.contentHtml)
    ensures var j := JsonFeed.ItemOf(item);
      var ac := WithTag(AtomFeed.EntryLines(item, nowIso, iso), AtomFeed.Category);
      var rc := WithTag(RssFeed.ItemLines(item, nowRfc, rfc), RssFeed.Category);
      |ac| == 1 && |rc| == 1
      && ReadAfter(ac[0].text, AtomFeed.Opener(AtomFeed.Category), '"') == Some(j.tags[0])
      && ReadAfter(rc[0].text, RssFeed.Opener(RssFeed.Category), '<') == Some(j.tags[0])
  {
    AtomFeed.EntryTitle(item, nowIso, iso);
    RssFeed.ItemTitle(item, nowRfc, rfc);
    AtomFeed.EntryContent(item, nowIso, iso);
    RssFeed.ItemContent(item, nowRfc, rfc);
    AtomFeed.EntryCategory(item, nowIso, iso);
    RssFeed.ItemCategoryAndSource(item, nowRfc, rfc);
  }

  /** The description is the JSON item's summary; RSS always writes it, Atom
      only when it is non-empty, so an Atom reader sees an empty summary as
      no summary at all. */
  lemma SummaryAgreement(item: RenderItem, nowIso: string, iso: int -> string, nowRfc: string, rfc: int -> string)
    ensures var j := JsonFeed.ItemOf(item);
      var rd := WithTag(RssFeed.ItemLines(item, nowRfc, rfc), RssFeed.Description);
      |rd| == 1 && ReadAfter(rd[0].text, RssFeed.Opener(RssFeed.Description), '<') == Some(j.summary)
    ensures var j := JsonFeed.ItemOf(item);
      var s := WithTag(AtomFeed.EntryLines(item, nowIso, iso), AtomFeed.Summary);
      (|s| == 1 <==> j.summary != "") && (|s| == 0 <==> j.summary == "")
      && forall k :: 0 <= k < |s| ==> ReadAfter(s[k].text, AtomFeed.Opener(AtomFeed.Summary), '<') == Some(j.summary)
  {
    RssFeed.ItemDescription(item, nowRfc, rfc);
    AtomFeed.EntrySummary(item, nowIso, iso);
  }

  /** The links agree: the RSS link and guid, the Atom link and id, the Atom
      author's uri, and the JSON item's id, url and author url. */
  lemma LinkAgreement(item: RenderItem, nowIso: string, iso: int -> string, nowRfc: string, rfc: int -> string)
    ensures var j := JsonFeed.ItemOf(item);
      var l := WithTag(RssFeed.ItemLines(item, nowRfc, rfc), RssFeed.Link);
      var g := WithTag(RssFeed.ItemLines(item, nowRfc, rfc), RssFeed.Guid);
      |l| == 1 && |g| == 1
      && Between(l[0].text, RssFeed.Opener(RssFeed.Link), "</link>\n") == Some(j.url)
      && Between(g[0].text, RssFeed.Opener(RssFeed.Guid), "</guid>\n") == Some(j.id)
    ensures var j := JsonFeed.ItemOf(item);
      var l := WithTag(AtomFeed.EntryLines(item, nowIso, iso), AtomFeed.Link);
      var i := WithTag(AtomFeed.EntryLines(item, nowIso, iso), AtomFeed.Id);
      |l| == 1 && |i| == 1
      && Between(l[0].text, AtomFeed.Opener(AtomFeed.Link), "\"/>\n") == Some(j.url)
      && Between(i[0].text, AtomFeed.Opener(AtomFeed.Id), "</id>\n") == Some(j.id)
    ensures var j := JsonFeed.ItemOf(item);
      var u := WithTag(AtomFeed.EntryLines(item, nowIso, iso), AtomFeed.Uri);
      |u| == 1 && Between(u[0].text, AtomFeed.Opener(AtomFeed.Uri), "</uri>\n") == Some(j.authors[0].url)
  {
    RssFeed.ItemLinkAndGuid(item, nowRfc, rfc);
    AtomFeed.EntryLinkAndId(item, nowIso, iso);
    AtomFeed.EntryAuthor(item, nowIso, iso);
  }

  /** The Atom document has as many entries as the RSS document has items:
      one per render item. */
  lemma SameEntryCount(feed: AggregatedFeed, nowIso: string, iso: int -> string, nowRfc: string, rfc: int -> string)
    ensures |WithTag(AtomFeed.DocumentLines(feed, nowIso, iso), AtomFeed.EntryStart)|
         == |WithTag(RssFeed.DocumentLines(feed, nowRfc, rfc), RssFeed.ItemStart)|
         == |feed.items|
  {
    AtomFeed.DocumentEntries(feed, nowIso, iso);
    RssFeed.DocumentItems(feed, nowRfc, rfc);
  }
}
