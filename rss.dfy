/**
 * `FeedGenerator.generate_rss_feed`: the RSS 2.0 document of the aggregated
 * feed. The render time as RFC 822 text (`nowRfc`) and the RFC 822 formatting
 * of a structured date (`rfc`) are parameters.
 */
module RssFeed {
  import opened FeedModel
  import opened XmlText
  import opened Markup
  import opened Generator

  /** The element each appended line opens or closes (`Header` for the lines
      before the first item). */
  datatype Tag = Header | ItemStart | Title | Link | Description | Content | PubDate
               | Category | Creator | Source | Guid | Enclosure | ItemEnd | ChannelEnd | RssEnd

  /** The fixed text every line of an element starts with. */
  function Opener(t: Tag): string {
    match t
    case Header => ""
    case ItemStart => "    <item>\n"
    case Title => "      <title>"
    case Link => "      <link>"
    case Description => "      <description>"
    case Content => "      <content:encoded><![CDATA["
    case PubDate => "      <pubDate>"
    case Category => "      <category>"
    case Creator => "      <dc:creator>"
    case Source => "      <source url=\""
    case Guid => "      <guid isPermaLink=\"true\">"
    case Enclosure => "      <enclosure url=\""
    case ItemEnd => "    </item>\n"
    case ChannelEnd => "  </channel>\n"
    case RssEnd => "</rss>"
  }

  /** Every line starts with the opening text of its element. */
  ghost predicate WellTagged(lines: seq<Line<Tag>>) {
    forall k :: 0 <= k < |lines| ==> Opener(lines[k].tag) <= lines[k].text
  }

  /** The item's `pubDate`: the structured date in RFC 822 form, else the
      render time. Every render item has a "date" key, so the "published" and
      "isoDate" alternatives are never consulted, and a date of None falls
      through to the render time. */
  function PubDateText(item: RenderItem, nowRfc: string, rfc: int -> string): string {
    if item.date.Some? then rfc(item.date.value) else nowRfc
  }

  /** The values an item writes, already escaped where the item escapes them. */
  datatype Values = Values(title: string, link: string, description: string, content: string, pubDate: string,
                           category: string, creator: string, sourceUrl: string, sourceName: string, enclosure: string)

  function ValuesOf(item: RenderItem, nowRfc: string, rfc: int -> string): Values {
    Values(EscapeXmlText(item.title + " | " + item.feedTitle), item.link, EscapeXmlText(item.description),
           item.content, PubDateText(item, nowRfc, rfc), EscapeXmlText(item.category),
           EscapeXmlText(item.feedTitle), item.feedLink, EscapeXmlText(item.feedTitle), item.ogImageUrl)
  }

  function Marker(t: Tag): Line<Tag> { Line(t, Opener(t)) }

  /** The lines appended for one item. Category, creator and source are
      always written: every render item has "category", "feed_title" and
      "feed_link", so the alternative creator branch is never taken. The
      description is written even when empty; the image enclosure only for a
      non-empty OG image URL. */
  function ItemLines(item: RenderItem, nowRfc: string, rfc: int -> string): seq<Line<Tag>> {
    Lines(ValuesOf(item, nowRfc, rfc), item.ogImageUrl != "")
  }

  function Lines(v: Values, withEnclosure: bool): seq<Line<Tag>> {
    Head(v) + Body(v) + EnclosurePart(v, withEnclosure) + [Marker(ItemEnd)]
  }

  function Head(v: Values): seq<Line<Tag>> {
    [Marker(ItemStart),
     Line(Title, Opener(Title) + v.title + "</title>\n"),
     Line(Link, Opener(Link) + v.link + "</link>\n"),
     Line(Description, Opener(Description) + v.description + "</description>\n"),
     Line(Content, Opener(Content) + v.content + "]]></content:encoded>\n"),
     Line(PubDate, Opener(PubDate) + v.pubDate + "</pubDate>\n")]
  }

  function Body(v: Values): seq<Line<Tag>> {
    [Line(Category, Opener(Category) + v.category + "</category>\n"),
     Line(Creator, Opener(Creator) + v.creator + "</dc:creator>\n"),
     Line(Source, Opener(Source) + v.sourceUrl + "\">" + v.sourceName + "</source>\n"),
     Line(Guid, Opener(Guid) + v.link + "</guid>\n")]
  }

  function EnclosurePart(v: Values, withEnclosure: bool): seq<Line<Tag>> {
    if withEnclosure then [Line(Enclosure, Opener(Enclosure) + v.enclosure + "\" type=\"image/jpeg\" length=\"0\"/>\n")] else []
  }

  const XmlDeclaration := "<?xml version=\"1.0\" encoding=\"UTF-8\"?>\n"
  const RssOpen := "<rss version=\"2.0\" xmlns:atom=\"http://www.w3.org/2005/Atom\" xmlns:content=\"http://purl.org/rss/1.0/modules/content/\" xmlns:dc=\"http://purl.org/dc/elements/1.1/\">\n"

  /** The channel header, appended line by line before the first item. The
      feed record always has "copyright", so the copyright element is always
      written; `lastBuildDate` is the render time. */
  function ChannelHeader(feed: AggregatedFeed, nowRfc: string): string {
    XmlDeclaration
    + RssOpen
    + "  <channel>\n"
    + "    <title>" + feed.title + "</title>\n"
    + "    <link>" + feed.link + "</link>\n"
    + "    <description>" + feed.description + "</description>\n"
    + "    <language>" + feed.language + "</language>\n"
    + "    <lastBuildDate>" + nowRfc + "</lastBuildDate>\n"
    + "    <generator>" + feed.generator + "</generator>\n"
    + "    <docs>https://validator.w3.org/feed/docs/rss2.html</docs>\n"
    + "    <image>\n"
    + "      <url>" + SiteBaseUrl + "images/icon.png</url>\n"
    + "      <title>" + feed.title + "</title>\n"
    + "      <link>" + feed.link + "</link>\n"
    + "    </image>\n"
    + "    <copyright>" + feed.copyright + "</copyright>\n"
    + "    <atom:link href=\"" + SiteBaseUrl + "feeds/rss.xml\" rel=\"self\" type=\"application/rss+xml\"/>\n"
  }

  function HeaderLines(feed: AggregatedFeed, nowRfc: string): seq<Line<Tag>> {
    [Line(Header, ChannelHeader(feed, nowRfc))]
  }

  function ItemsLines(items: seq<RenderItem>, nowRfc: string, rfc: int -> string): seq<Line<Tag>> {
    if items == [] then []
    else ItemsLines(items[..|items| - 1], nowRfc, rfc) + ItemLines(items[|items| - 1], nowRfc, rfc)
  }

  function Footer(): seq<Line<Tag>> {
    [Marker(ChannelEnd), Marker(RssEnd)]
  }

  function DocumentLines(feed: AggregatedFeed, nowRfc: string, rfc: int -> string): seq<Line<Tag>> {
    HeaderLines(feed, nowRfc) + ItemsLines(feed.items, nowRfc, rfc) + Footer()
  }

  lemma ItemsSnoc(items: seq<RenderItem>, i: nat, nowRfc: string, rfc: int -> string)
    requires i < |items|
    ensures ItemsLines(items[..i + 1], nowRfc, rfc) == ItemsLines(items[..i], nowRfc, rfc) + ItemLines(items[i], nowRfc, rfc)
  {
    assert items[..i + 1][..i] == items[..i];
  }

  /** `generate_rss_feed`: the channel header, one item per render item in
      order, the closing of the channel and of the document. */
  method GenerateRssFeed(aggregatedFeed: AggregatedFeed, nowRfc: string, rfc: int -> string) returns (rss: string)
    ensures rss == Concat(DocumentLines(aggregatedFeed, nowRfc, rfc))
  {
    ghost var header := HeaderLines(aggregatedFeed, nowRfc);
    ghost var items := ItemsLines(aggregatedFeed.items, nowRfc, rfc);
    rss := ChannelHeader(aggregatedFeed, nowRfc);
    assert Concat(header) == rss;
    rss := AppendItems(rss, aggregatedFeed.items, nowRfc, rfc);
    rss := AppendLines(rss, Footer());
    ConcatAppend(header, items);
    ConcatAppend(header + items, Footer());
  }

  /** The loop of `generate_rss_feed` over the items: one item each, in order. */
  method AppendItems(text: string, items: seq<RenderItem>, nowRfc: string, rfc: int -> string) returns (r: string)
    ensures r == text + Concat(ItemsLines(items, nowRfc, rfc))
  {
    r := text;
    ItemsStart(text, items, nowRfc, rfc);
    for i := 0 to |items|
      invariant r == text + Concat(ItemsLines(items[..i], nowRfc, rfc))
    {
      ItemsStep(text, items, i, nowRfc, rfc, r);
      r := AppendLines(r, ItemLines(items[i], nowRfc, rfc));
    }
    assert items[..|items|] == items;
  }

  lemma ItemsStart(text: string, items: seq<RenderItem>, nowRfc: string, rfc: int -> string)
    ensures text == text + Concat(ItemsLines(items[..0], nowRfc, rfc))
  {
    assert ItemsLines(items[..0], nowRfc, rfc) == [];
  }

  lemma ItemsStep(text: string, items: seq<RenderItem>, i: nat, nowRfc: string, rfc: int -> string, r: string)
    requires i < |items|
    requires r == text + Concat(ItemsLines(items[..i], nowRfc, rfc))
    ensures r + Concat(ItemLines(items[i], nowRfc, rfc)) == text + Concat(ItemsLines(items[..i + 1], nowRfc, rfc))
  {
    var done, item := ItemsLines(items[..i], nowRfc, rfc), ItemLines(items[i], nowRfc, rfc);
    ItemsSnoc(items, i, nowRfc, rfc);
    ConcatSnoc(text, done, item, r);
  }

  // ---------------------------------------------------------------------------
  // Where each element of an item is

  /** Which part of an item writes element `t`: 0 the head, 1 the body,
      2 the enclosure, 3 the closing line. */
  function PartOf(t: Tag): nat {
    match t
    case ItemStart | Title | Link | Description | Content | PubDate => 0
    case Category | Creator | Source | Guid => 1
    case Enclosure => 2
    case _ => 3
  }

  lemma Split(v: Values, e: bool, t: Tag)
    ensures WithTag(Lines(v, e), t)
      == WithTag(Head(v), t) + WithTag(Body(v), t) + WithTag(EnclosurePart(v, e), t) + WithTag([Marker(ItemEnd)], t)
  {
    var h, b, ep := Head(v), Body(v), EnclosurePart(v, e);
    WithTagAppend(h + b + ep, [Marker(ItemEnd)], t);
    WithTagAppend(h + b, ep, t);
    WithTagAppend(h, b, t);
  }

  lemma HeadLacks(v: Values, t: Tag)
    requires PartOf(t) != 0
    ensures WithTag(Head(v), t) == []
  {
    TagNone(Head(v), t);
  }

  lemma BodyLacks(v: Values, t: Tag)
    requires PartOf(t) != 1
    ensures WithTag(Body(v), t) == []
  {
    TagNone(Body(v), t);
  }

  lemma EnclosureLacks(v: Values, e: bool, t: Tag)
    requires PartOf(t) != 2
    ensures WithTag(EnclosurePart(v, e), t) == []
  {
    TagNone(EnclosurePart(v, e), t);
  }

  lemma EndLacks(t: Tag)
    requires PartOf(t) != 3
    ensures WithTag([Marker(ItemEnd)], t) == []
  {
    TagNone([Marker(ItemEnd)], t);
  }

  lemma HeadOnly(v: Values, e: bool, t: Tag)
    requires PartOf(t) == 0
    ensures WithTag(Lines(v, e), t) == WithTag(Head(v), t)
  {
    BodyLacks(v, t);
    EnclosureLacks(v, e, t);
    EndLacks(t);
    Split(v, e, t);
  }

  lemma BodyOnly(v: Values, e: bool, t: Tag)
    requires PartOf(t) == 1
    ensures WithTag(Lines(v, e), t) == WithTag(Body(v), t)
  {
    HeadLacks(v, t);
    EnclosureLacks(v, e, t);
    EndLacks(t);
    Split(v, e, t);
  }

  lemma EndOnly(v: Values, e: bool)
    ensures WithTag(Lines(v, e), ItemEnd) == [Marker(ItemEnd)]
  {
    HeadLacks(v, ItemEnd);
    BodyLacks(v, ItemEnd);
    EnclosureLacks(v, e, ItemEnd);
    Split(v, e, ItemEnd);
  }

  /** Element by element, over any rendered values: which lines of an item
      belong to it. */
  lemma StartOf(v: Values, e: bool)
    ensures WithTag(Lines(v, e), ItemStart) == [Head(v)[0]]
  {
    HeadOnly(v, e, ItemStart);
    TagOne(Head(v), ItemStart, 0);
  }

  lemma TitleOf(v: Values, e: bool)
    ensures WithTag(Lines(v, e), Title) == [Head(v)[1]]
  {
    HeadOnly(v, e, Title);
    TagOne(Head(v), Title, 1);
  }

  lemma LinkOf(v: Values, e: bool)
    ensures WithTag(Lines(v, e), Link) == [Head(v)[2]]
  {
    HeadOnly(v, e, Link);
    TagOne(Head(v), Link, 2);
  }

  lemma DescriptionOf(v: Values, e: bool)
    ensures WithTag(Lines(v, e), Description) == [Head(v)[3]]
  {
    HeadOnly(v, e, Description);
    TagOne(Head(v), Description, 3);
  }

  lemma ContentOf(v: Values, e: bool)
    ensures WithTag(Lines(v, e), Content) == [Head(v)[4]]
  {
    HeadOnly(v, e, Content);
    TagOne(Head(v), Content, 4);
  }

  lemma PubDateOf(v: Values, e: bool)
    ensures WithTag(Lines(v, e), PubDate) == [Head(v)[5]]
  {
    HeadOnly(v, e, PubDate);
    TagOne(Head(v), PubDate, 5);
  }

  lemma CategoryOf(v: Values, e: bool)
    ensures WithTag(Lines(v, e), Category) == [Body(v)[0]]
  {
    BodyOnly(v, e, Category);
    TagOne(Body(v), Category, 0);
  }

  lemma CreatorOf(v: Values, e: bool)
    ensures WithTag(Lines(v, e), Creator) == [Body(v)[1]]
  {
    BodyOnly(v, e, Creator);
    TagOne(Body(v), Creator, 1);
  }

  lemma SourceOf(v: Values, e: bool)
    ensures WithTag(Lines(v, e), Source) == [Body(v)[2]]
  {
    BodyOnly(v, e, Source);
    TagOne(Body(v), Source, 2);
  }

  lemma GuidOf(v: Values, e: bool)
    ensures WithTag(Lines(v, e), Guid) == [Body(v)[3]]
  {
    BodyOnly(v, e, Guid);
    TagOne(Body(v), Guid, 3);
  }

  lemma EnclosureOf(v: Values, e: bool)
    ensures WithTag(Lines(v, e), Enclosure) == EnclosurePart(v, e)
  {
    HeadLacks(v, Enclosure);
    BodyLacks(v, Enclosure);
    EndLacks(Enclosure);
    Split(v, e, Enclosure);
    if e {
      TagOne(EnclosurePart(v, e), Enclosure, 0);
    } else {
      TagNone(EnclosurePart(v, e), Enclosure);
    }
  }

  lemma WellTaggedAppend(a: seq<Line<Tag>>, b: seq<Line<Tag>>)
    requires WellTagged(a) && WellTagged(b)
    ensures WellTagged(a + b)
  {
    forall k | 0 <= k < |a + b| ensures Opener((a + b)[k].tag) <= (a + b)[k].text {
      if k >= |a| { assert (a + b)[k] == b[k - |a|]; }
    }
  }

  lemma PartsWellTagged(v: Values, e: bool)
    ensures WellTagged(Head(v)) && WellTagged(Body(v))
    ensures WellTagged(EnclosurePart(v, e)) && WellTagged([Marker(ItemEnd)])
  {
    HeadWellTagged(v);
    BodyWellTagged(v);
  }

  lemma HeadWellTagged(v: Values)
    ensures WellTagged(Head(v))
  {
  }

  lemma BodyWellTagged(v: Values)
    ensures WellTagged(Body(v))
  {
  }

  /** Every line of an item starts with the opening text of its element. */
  lemma LinesWellTagged(v: Values, e: bool)
    ensures WellTagged(Lines(v, e))
  {
    var h, b, ep := Head(v), Body(v), EnclosurePart(v, e);
    PartsWellTagged(v, e);
    WellTaggedAppend(h, b);
    WellTaggedAppend(h + b, ep);
    WellTaggedAppend(h + b + ep, [Marker(ItemEnd)]);
  }

  // ---------------------------------------------------------------------------
  // What each item says

  /** Every item has exactly one title, whose text reads back as
      `title | feed title`. */
  lemma ItemTitle(item: RenderItem, nowRfc: string, rfc: int -> string)
    ensures var t := WithTag(ItemLines(item, nowRfc, rfc), Title);
      |t| == 1 && ReadAfter(t[0].text, Opener(Title), '<') == Some(item.title + " | " + item.feedTitle)
  {
    TitleOf(ValuesOf(item, nowRfc, rfc), item.ogImageUrl != "");
    ReadEscaped(Opener(Title), item.title + " | " + item.feedTitle, "</title>\n", '<');
  }

  /** Every item has exactly one description, even an empty one, and it
      reads back as the description. */
  lemma ItemDescription(item: RenderItem, nowRfc: string, rfc: int -> string)
    ensures var d := WithTag(ItemLines(item, nowRfc, rfc), Description);
      |d| == 1 && ReadAfter(d[0].text, Opener(Description), '<') == Some(item.description)
  {
    DescriptionOf(ValuesOf(item, nowRfc, rfc), item.ogImageUrl != "");
    ReadEscaped(Opener(Description), item.description, "</description>\n", '<');
  }

  /** Every item has exactly one encoded content, holding the content
      unescaped inside a CDATA section. */
  lemma ItemContent(item: RenderItem, nowRfc: string, rfc: int -> string)
    ensures var c := WithTag(ItemLines(item, nowRfc, rfc), Content);
      |c| == 1 && Between(c[0].text, Opener(Content), "]]></content:encoded>\n") == Some(item.content)
  {
    ContentOf(ValuesOf(item, nowRfc, rfc), item.ogImageUrl != "");
    BetweenVerbatim(Opener(Content), item.content, "]]></content:encoded>\n");
  }

  /** Every item has exactly one `pubDate`; an item without a structured date
      (every projected item) carries the render time, whatever its
      "published" text says. */
  lemma ItemPubDate(item: RenderItem, nowRfc: string, rfc: int -> string)
    ensures var p := WithTag(ItemLines(item, nowRfc, rfc), PubDate);
      |p| == 1 && Between(p[0].text, Opener(PubDate), "</pubDate>\n") == Some(PubDateText(item, nowRfc, rfc))
    ensures item.date.None? ==> PubDateText(item, nowRfc, rfc) == nowRfc
    ensures item.date.Some? ==> PubDateText(item, nowRfc, rfc) == rfc(item.date.value)
  {
    PubDateOf(ValuesOf(item, nowRfc, rfc), item.ogImageUrl != "");
    BetweenVerbatim(Opener(PubDate), PubDateText(item, nowRfc, rfc), "</pubDate>\n");
  }

  /** Every item has one category reading back as the item's category, one
      creator and one source both naming the source feed, the source pointing
      at the feed's link. */
  lemma ItemCategoryAndSource(item: RenderItem, nowRfc: string, rfc: int -> string)
    ensures var c := WithTag(ItemLines(item, nowRfc, rfc), Category);
      |c| == 1 && ReadAfter(c[0].text, Opener(Category), '<') == Some(item.category)
    ensures var c := WithTag(ItemLines(item, nowRfc, rfc), Creator);
      |c| == 1 && ReadAfter(c[0].text, Opener(Creator), '<') == Some(item.feedTitle)
    ensures var s := WithTag(ItemLines(item, nowRfc, rfc), Source);
      |s| == 1 && ReadAfter(s[0].text, Opener(Source) + item.feedLink + "\">", '<') == Some(item.feedTitle)
  {
    var v, e := ValuesOf(item, nowRfc, rfc), item.ogImageUrl != "";
    CategoryOf(v, e);
    ReadEscaped(Opener(Category), item.category, "</category>\n", '<');
    CreatorOf(v, e);
    ReadEscaped(Opener(Creator), item.feedTitle, "</dc:creator>\n", '<');
    SourceOf(v, e);
    ReadEscaped(Opener(Source) + item.feedLink + "\">", item.feedTitle, "</source>\n", '<');
  }

  /** The link and the permanent guid both carry the item's link as written.
      The link is not escaped: a reader gets it back only when it holds no
      '&' and no '<'. */
  lemma ItemLinkAndGuid(item: RenderItem, nowRfc: string, rfc: int -> string)
    ensures var l := WithTag(ItemLines(item, nowRfc, rfc), Link);
      |l| == 1 && Between(l[0].text, Opener(Link), "</link>\n") == Some(item.link)
      && ('&' !in item.link && '<' !in item.link ==> ReadAfter(l[0].text, Opener(Link), '<') == Some(item.link))
    ensures var g := WithTag(ItemLines(item, nowRfc, rfc), Guid);
      |g| == 1 && Between(g[0].text, Opener(Guid), "</guid>\n") == Some(item.link)
      && ('&' !in item.link && '<' !in item.link ==> ReadAfter(g[0].text, Opener(Guid), '<') == Some(item.link))
  {
    var v := ValuesOf(item, nowRfc, rfc);
    assert v.link == item.link;
    LinkRead(v, item.ogImageUrl != "");
    GuidRead(v, item.ogImageUrl != "");
  }

  lemma LinkRead(v: Values, e: bool)
    ensures var l := WithTag(Lines(v, e), Link);
      |l| == 1 && Between(l[0].text, Opener(Link), "</link>\n") == Some(v.link)
      && ('&' !in v.link && '<' !in v.link ==> ReadAfter(l[0].text, Opener(Link), '<') == Some(v.link))
  {
    BetweenVerbatim(Opener(Link), v.link, "</link>\n");
    if '&' !in v.link && '<' !in v.link {
      PlainReadsBack(Opener(Link), v.link, "</link>\n", '<');
    }
    LinkOf(v, e);
  }

  lemma GuidRead(v: Values, e: bool)
    ensures var g := WithTag(Lines(v, e), Guid);
      |g| == 1 && Between(g[0].text, Opener(Guid), "</guid>\n") == Some(v.link)
      && ('&' !in v.link && '<' !in v.link ==> ReadAfter(g[0].text, Opener(Guid), '<') == Some(v.link))
  {
    BetweenVerbatim(Opener(Guid), v.link, "</guid>\n");
    if '&' !in v.link && '<' !in v.link {
      PlainReadsBack(Opener(Guid), v.link, "</guid>\n", '<');
    }
    GuidOf(v, e);
  }

  /** An image enclosure exists exactly when the OG image URL is non-empty,
      and its `url` is that URL. */
  lemma ItemEnclosure(item: RenderItem, nowRfc: string, rfc: int -> string)
    ensures var e := WithTag(ItemLines(item, nowRfc, rfc), Enclosure);
      |e| == (if item.ogImageUrl != "" then 1 else 0)
      && forall k :: 0 <= k < |e| ==>
           Between(e[k].text, Opener(Enclosure), "\" type=\"image/jpeg\" length=\"0\"/>\n") == Some(item.ogImageUrl)
  {
    EnclosureOf(ValuesOf(item, nowRfc, rfc), item.ogImageUrl != "");
    BetweenVerbatim(Opener(Enclosure), item.ogImageUrl, "\" type=\"image/jpeg\" length=\"0\"/>\n");
  }

  // ---------------------------------------------------------------------------
  // The document

  lemma {:induction false} ItemsCount(items: seq<RenderItem>, nowRfc: string, rfc: int -> string)
    ensures |WithTag(ItemsLines(items, nowRfc, rfc), ItemStart)| == |items|
    ensures |WithTag(ItemsLines(items, nowRfc, rfc), ItemEnd)| == |items|
  {
    if items != [] {
      var init, last := items[..|items| - 1], items[|items| - 1];
      var v, e := ValuesOf(last, nowRfc, rfc), last.ogImageUrl != "";
      ItemsCount(init, nowRfc, rfc);
      WithTagAppend(ItemsLines(init, nowRfc, rfc), ItemLines(last, nowRfc, rfc), ItemStart);
      WithTagAppend(ItemsLines(init, nowRfc, rfc), ItemLines(last, nowRfc, rfc), ItemEnd);
      StartOf(v, e);
      EndOnly(v, e);
    }
  }

  lemma HeaderLacks(feed: AggregatedFeed, nowRfc: string, t: Tag)
    requires t != Header
    ensures WithTag(HeaderLines(feed, nowRfc), t) == []
  {
    TagNone(HeaderLines(feed, nowRfc), t);
  }

  lemma FooterLacks(t: Tag)
    requires t != ChannelEnd && t != RssEnd
    ensures WithTag(Footer(), t) == []
  {
    TagNone(Footer(), t);
  }

  lemma FooterText()
    ensures Concat(Footer()) == "  </channel>\n</rss>"
  {
    assert Footer() == [Marker(ChannelEnd)] + [Marker(RssEnd)];
    ConcatAppend([Marker(ChannelEnd)], [Marker(RssEnd)]);
    assert [Marker(ChannelEnd)][..0] == [];
  }

  /** The document has one item per render item, each opened and closed, and
      ends by closing the channel and the document. */
  lemma DocumentItems(feed: AggregatedFeed, nowRfc: string, rfc: int -> string)
    ensures var d := DocumentLines(feed, nowRfc, rfc);
      |WithTag(d, ItemStart)| == |feed.items| && |WithTag(d, ItemEnd)| == |feed.items|
      && d[|d| - 2..] == Footer()
  {
    var h, i := HeaderLines(feed, nowRfc), ItemsLines(feed.items, nowRfc, rfc);
    ItemsCount(feed.items, nowRfc, rfc);
    HeaderLacks(feed, nowRfc, ItemStart);
    HeaderLacks(feed, nowRfc, ItemEnd);
    FooterLacks(ItemStart);
    FooterLacks(ItemEnd);
    CountInBody(h, i, Footer(), ItemStart);
    CountInBody(h, i, Footer(), ItemEnd);
  }

  /** A feed without items renders as the channel header followed by the two
      closing tags. */
  lemma EmptyDocument(feed: AggregatedFeed, nowRfc: string, rfc: int -> string)
    requires feed.items == []
    ensures DocumentLines(feed, nowRfc, rfc) == HeaderLines(feed, nowRfc) + Footer()
    ensures Concat(Footer()) == "  </channel>\n</rss>"
  {
    var h, i := HeaderLines(feed, nowRfc), ItemsLines(feed.items, nowRfc, rfc);
    assert i == [];
    AppendEmpty(h, i);
    FooterText();
  }
}
