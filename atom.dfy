/**
 * `FeedGenerator.generate_atom_feed`: the Atom document of the aggregated
 * feed. The render time (`nowIso`) and the formatting of a structured date
 * (`iso`) are parameters.
 */
module AtomFeed {
  import opened FeedModel
  import opened XmlText
  import opened Markup
  import opened Generator

  /** The element each appended line opens or closes (`Header` for the lines
      before the first entry). */
  datatype Tag = Header | EntryStart | Title | Link | Id | Updated | Published | Summary | Content
               | Category | AuthorStart | Name | Uri | AuthorEnd | Enclosure | EntryEnd | FeedEnd

  /** The fixed text every line of an element starts with. */
  function Opener(t: Tag): string {
    match t
    case Header => ""
    case EntryStart => "  <entry>\n"
    case Title => "    <title type=\"html\">"
    case Link => "    <link href=\""
    case Id => "    <id>"
    case Updated => "    <updated>"
    case Published => "    <published>"
    case Summary => "    <summary type=\"html\">"
    case Content => "    <content type=\"html\"><![CDATA["
    case Category => "    <category term=\""
    case AuthorStart => "    <author>\n"
    case Name => "      <name>"
    case Uri => "      <uri>"
    case AuthorEnd => "    </author>\n"
    case Enclosure => "    <link rel=\"enclosure\" href=\""
    case EntryEnd => "  </entry>\n"
    case FeedEnd => "</feed>"
  }

  /** Every line starts with the opening text of its element. */
  ghost predicate WellTagged(lines: seq<Line<Tag>>) {
    forall k :: 0 <= k < |lines| ==> Opener(lines[k].tag) <= lines[k].text
  }

  /** The entry's `updated` text: the structured date formatted by `iso`,
      else the "published" text when non-empty, else the render time. The
      render item has no "isoDate" key, so that step of the chain never applies. */
  function UpdatedDate(item: RenderItem, nowIso: string, iso: int -> string): string {
    if item.date.Some? then iso(item.date.value)
    else if item.published != "" then item.published
    else nowIso
  }

  /** The entry's `published` text: the same chain, falling back to the
      `updated` text rather than to the render time. */
  function PublishedDate(item: RenderItem, nowIso: string, iso: int -> string): string {
    if item.date.Some? then iso(item.date.value)
    else if item.published != "" then item.published
    else UpdatedDate(item, nowIso, iso)
  }

  /** The values an entry writes, already escaped where the entry escapes them. */
  datatype Values = Values(title: string, link: string, updated: string, published: string, summary: string,
                           content: string, category: string, name: string, uri: string, enclosure: string)

  function ValuesOf(item: RenderItem, nowIso: string, iso: int -> string): Values {
    Values(EscapeXmlText(item.title + " | " + item.feedTitle), item.link,
           UpdatedDate(item, nowIso, iso), PublishedDate(item, nowIso, iso),
           EscapeXmlText(item.description), item.content, EscapeXmlText(item.category),
           EscapeXmlText(item.feedTitle), item.feedLink, item.ogImageUrl)
  }

  function Marker(t: Tag): Line<Tag> { Line(t, Opener(t)) }

  /** The lines appended for one item. Category, author name and author uri
      are always written: every render item has "category", "feed_title" and
      "feed_link", so the alternative author branch is never taken. The
      summary is written for a non-empty description, the image enclosure for
      a non-empty OG image URL. */
  function EntryLines(item: RenderItem, nowIso: string, iso: int -> string): seq<Line<Tag>> {
    Lines(ValuesOf(item, nowIso, iso), item.description != "", item.ogImageUrl != "")
  }

  function Lines(v: Values, withSummary: bool, withEnclosure: bool): seq<Line<Tag>> {
    Head(v) + SummaryPart(v, withSummary) + Body(v) + EnclosurePart(v, withEnclosure) + [Marker(EntryEnd)]
  }

  function Head(v: Values): seq<Line<Tag>> {
    [Marker(EntryStart),
     Line(Title, Opener(Title) + v.title + "</title>\n"),
     Line(Link, Opener(Link) + v.link + "\"/>\n"),
     Line(Id, Opener(Id) + v.link + "</id>\n"),
     Line(Updated, Opener(Updated) + v.updated + "</updated>\n"),
     Line(Published, Opener(Published) + v.published + "</published>\n")]
  }

  function SummaryPart(v: Values, withSummary: bool): seq<Line<Tag>> {
    if withSummary then [Line(Summary, Opener(Summary) + v.summary + "</summary>\n")] else []
  }

  function Body(v: Values): seq<Line<Tag>> {
    [Line(Content, Opener(Content) + v.content + "]]></content>\n"),
     Line(Category, Opener(Category) + v.category + "\"/>\n"),
     Marker(AuthorStart),
     Line(Name, Opener(Name) + v.name + "</name>\n"),
     Line(Uri, Opener(Uri) + v.uri + "</uri>\n"),
     Marker(AuthorEnd)]
  }

  function EnclosurePart(v: Values, withEnclosure: bool): seq<Line<Tag>> {
    if withEnclosure then [Line(Enclosure, Opener(Enclosure) + v.enclosure + "\" type=\"image/jpeg\"/>\n")] else []
  }

  /** The feed header. The feed record always has "generator", "description"
      and "copyright", so the subtitle and rights elements are always written;
      `updated` is the render time, not the record's own timestamp. */
  function HeaderLines(feed: AggregatedFeed, nowIso: string): seq<Line<Tag>> {
    [Line(Header, "<?xml version=\"1.0\" encoding=\"UTF-8\"?>\n"),
     Line(Header, "<feed xmlns=\"http://www.w3.org/2005/Atom\">\n"),
     Line(Header, "  <id>" + SiteBaseUrl + "</id>\n"),
     Line(Header, "  <title type=\"html\">" + feed.title + "</title>\n"),
     Line(Header, "  <updated>" + nowIso + "</updated>\n"),
     Line(Header, "  <generator>" + feed.generator + "</generator>\n"),
     Line(Header, "  <subtitle type=\"html\">" + feed.description + "</subtitle>\n"),
     Line(Header, "  <link href=\"" + SiteBaseUrl + "\"/>\n"),
     Line(Header, "  <link href=\"" + SiteBaseUrl + "feeds/atom.xml\" rel=\"self\" type=\"application/atom+xml\"/>\n"),
     Line(Header, "  <icon>" + SiteBaseUrl + "images/favicon.ico</icon>\n"),
     Line(Header, "  <logo>" + SiteBaseUrl + "images/icon.png</logo>\n"),
     Line(Header, "  <rights>" + feed.copyright + "</rights>\n")]
  }

  function EntriesLines(items: seq<RenderItem>, nowIso: string, iso: int -> string): seq<Line<Tag>> {
    if items == [] then []
    else EntriesLines(items[..|items| - 1], nowIso, iso) + EntryLines(items[|items| - 1], nowIso, iso)
  }

  function DocumentLines(feed: AggregatedFeed, nowIso: string, iso: int -> string): seq<Line<Tag>> {
    HeaderLines(feed, nowIso) + EntriesLines(feed.items, nowIso, iso) + [Marker(FeedEnd)]
  }

  lemma EntriesSnoc(items: seq<RenderItem>, i: nat, nowIso: string, iso: int -> string)
    requires i < |items|
    ensures EntriesLines(items[..i + 1], nowIso, iso) == EntriesLines(items[..i], nowIso, iso) + EntryLines(items[i], nowIso, iso)
  {
    assert items[..i + 1][..i] == items[..i];
  }

  /** `generate_atom_feed`: the header, one entry per item in order, the footer. */
  method GenerateAtomFeed(aggregatedFeed: AggregatedFeed, nowIso: string, iso: int -> string) returns (atomFeed: string)
    ensures atomFeed == Concat(DocumentLines(aggregatedFeed, nowIso, iso))
  {
    var header := HeaderLines(aggregatedFeed, nowIso);
    ghost var headerText := Concat(header);
    ghost var entries := EntriesLines(aggregatedFeed.items, nowIso, iso);
    atomFeed := AppendLines("", header);
    assert atomFeed == headerText;
    atomFeed := AppendEntries(atomFeed, aggregatedFeed.items, nowIso, iso);
    atomFeed := AppendLines(atomFeed, [Marker(FeedEnd)]);
    ConcatAppend(header, entries);
    ConcatAppend(header + entries, [Marker(FeedEnd)]);
  }

  /** The loop of `generate_atom_feed` over the items: one entry each, in order. */
  method AppendEntries(text: string, items: seq<RenderItem>, nowIso: string, iso: int -> string) returns (r: string)
    ensures r == text + Concat(EntriesLines(items, nowIso, iso))
  {
    r := text;
    EntriesStart(text, items, nowIso, iso);
    for i := 0 to |items|
      invariant r == text + Concat(EntriesLines(items[..i], nowIso, iso))
    {
      EntriesStep(text, items, i, nowIso, iso, r);
      r := AppendLines(r, EntryLines(items[i], nowIso, iso));
    }
    assert items[..|items|] == items;
  }

  lemma EntriesStart(text: string, items: seq<RenderItem>, nowIso: string, iso: int -> string)
    ensures text == text + Concat(EntriesLines(items[..0], nowIso, iso))
  {
    assert EntriesLines(items[..0], nowIso, iso) == [];
  }

  lemma EntriesStep(text: string, items: seq<RenderItem>, i: nat, nowIso: string, iso: int -> string, r: string)
    requires i < |items|
    requires r == text + Concat(EntriesLines(items[..i], nowIso, iso))
    ensures r + Concat(EntryLines(items[i], nowIso, iso)) == text + Concat(EntriesLines(items[..i + 1], nowIso, iso))
  {
    var done, entry := EntriesLines(items[..i], nowIso, iso), EntryLines(items[i], nowIso, iso);
    EntriesSnoc(items, i, nowIso, iso);
    ConcatSnoc(text, done, entry, r);
  }

  // ---------------------------------------------------------------------------
  // Where each element of an entry is

  /** Which part of an entry writes element `t`: 0 the head, 1 the summary,
      2 the body, 3 the enclosure, 4 the closing line. */
  function PartOf(t: Tag): nat {
    match t
    case EntryStart | Title | Link | Id | Updated | Published => 0
    case Summary => 1
    case Content | Category | AuthorStart | Name | Uri | AuthorEnd => 2
    case Enclosure => 3
    case _ => 4
  }

  lemma Split(v: Values, s: bool, e: bool, t: Tag)
    ensures WithTag(Lines(v, s, e), t)
      == WithTag(Head(v), t) + WithTag(SummaryPart(v, s), t) + WithTag(Body(v), t)
         + WithTag(EnclosurePart(v, e), t) + WithTag([Marker(EntryEnd)], t)
  {
    var h, sp, b, ep := Head(v), SummaryPart(v, s), Body(v), EnclosurePart(v, e);
    WithTagAppend(h + sp + b + ep, [Marker(EntryEnd)], t);
    WithTagAppend(h + sp + b, ep, t);
    WithTagAppend(h + sp, b, t);
    WithTagAppend(h, sp, t);
  }

  lemma HeadLacks(v: Values, t: Tag)
    requires PartOf(t) != 0
    ensures WithTag(Head(v), t) == []
  {
    TagNone(Head(v), t);
  }

  lemma SummaryLacks(v: Values, s: bool, t: Tag)
    requires PartOf(t) != 1
    ensures WithTag(SummaryPart(v, s), t) == []
  {
    TagNone(SummaryPart(v, s), t);
  }

  lemma BodyLacks(v: Values, t: Tag)
    requires PartOf(t) != 2
    ensures WithTag(Body(v), t) == []
  {
    TagNone(Body(v), t);
  }

  lemma EnclosureLacks(v: Values, e: bool, t: Tag)
    requires PartOf(t) != 3
    ensures WithTag(EnclosurePart(v, e), t) == []
  {
    TagNone(EnclosurePart(v, e), t);
  }

  lemma EndLacks(t: Tag)
    requires PartOf(t) != 4
    ensures WithTag([Marker(EntryEnd)], t) == []
  {
    TagNone([Marker(EntryEnd)], t);
  }

  lemma HeadOnly(v: Values, s: bool, e: bool, t: Tag)
    requires PartOf(t) == 0
    ensures WithTag(Lines(v, s, e), t) == WithTag(Head(v), t)
  {
    SummaryLacks(v, s, t);
    BodyLacks(v, t);
    EnclosureLacks(v, e, t);
    EndLacks(t);
    Split(v, s, e, t);
  }

  lemma SummaryOnly(v: Values, s: bool, e: bool)
    ensures WithTag(Lines(v, s, e), Summary) == WithTag(SummaryPart(v, s), Summary)
  {
    HeadLacks(v, Summary);
    BodyLacks(v, Summary);
    EnclosureLacks(v, e, Summary);
    EndLacks(Summary);
    Split(v, s, e, Summary);
  }

  lemma BodyOnly(v: Values, s: bool, e: bool, t: Tag)
    requires PartOf(t) == 2
    ensures WithTag(Lines(v, s, e), t) == WithTag(Body(v), t)
  {
    HeadLacks(v, t);
    SummaryLacks(v, s, t);
    EnclosureLacks(v, e, t);
    EndLacks(t);
    Split(v, s, e, t);
  }

  lemma EnclosureOnly(v: Values, s: bool, e: bool)
    ensures WithTag(Lines(v, s, e), Enclosure) == WithTag(EnclosurePart(v, e), Enclosure)
  {
    HeadLacks(v, Enclosure);
    SummaryLacks(v, s, Enclosure);
    BodyLacks(v, Enclosure);
    EndLacks(Enclosure);
    Split(v, s, e, Enclosure);
  }

  lemma EndOnly(v: Values, s: bool, e: bool)
    ensures WithTag(Lines(v, s, e), EntryEnd) == [Marker(EntryEnd)]
  {
    HeadLacks(v, EntryEnd);
    SummaryLacks(v, s, EntryEnd);
    BodyLacks(v, EntryEnd);
    EnclosureLacks(v, e, EntryEnd);
    Split(v, s, e, EntryEnd);
  }

  /** Element by element, over any rendered values: which lines of an entry
      belong to it. */
  lemma StartOf(v: Values, s: bool, e: bool)
    ensures WithTag(Lines(v, s, e), EntryStart) == [Head(v)[0]]
  {
    HeadOnly(v, s, e, EntryStart);
    TagOne(Head(v), EntryStart, 0);
  }

  lemma TitleOf(v: Values, s: bool, e: bool)
    ensures WithTag(Lines(v, s, e), Title) == [Head(v)[1]]
  {
    HeadOnly(v, s, e, Title);
    TagOne(Head(v), Title, 1);
  }

  lemma LinkOf(v: Values, s: bool, e: bool)
    ensures WithTag(Lines(v, s, e), Link) == [Head(v)[2]]
  {
    HeadOnly(v, s, e, Link);
    TagOne(Head(v), Link, 2);
  }

  lemma IdOf(v: Values, s: bool, e: bool)
    ensures WithTag(Lines(v, s, e), Id) == [Head(v)[3]]
  {
    HeadOnly(v, s, e, Id);
    TagOne(Head(v), Id, 3);
  }

  lemma UpdatedOf(v: Values, s: bool, e: bool)
    ensures WithTag(Lines(v, s, e), Updated) == [Head(v)[4]]
  {
    HeadOnly(v, s, e, Updated);
    TagOne(Head(v), Updated, 4);
  }

  lemma PublishedOf(v: Values, s: bool, e: bool)
    ensures WithTag(Lines(v, s, e), Published) == [Head(v)[5]]
  {
    HeadOnly(v, s, e, Published);
    TagOne(Head(v), Published, 5);
  }

  lemma SummaryOf(v: Values, s: bool, e: bool)
    ensures WithTag(Lines(v, s, e), Summary) == SummaryPart(v, s)
  {
    SummaryOnly(v, s, e);
    if s {
      TagOne(SummaryPart(v, s), Summary, 0);
    } else {
      TagNone(SummaryPart(v, s), Summary);
    }
  }

  lemma ContentOf(v: Values, s: bool, e: bool)
    ensures WithTag(Lines(v, s, e), Content) == [Body(v)[0]]
  {
    BodyOnly(v, s, e, Content);
    TagOne(Body(v), Content, 0);
  }

  lemma CategoryOf(v: Values, s: bool, e: bool)
    ensures WithTag(Lines(v, s, e), Category) == [Body(v)[1]]
  {
    BodyOnly(v, s, e, Category);
    TagOne(Body(v), Category, 1);
  }

  lemma NameOf(v: Values, s: bool, e: bool)
    ensures WithTag(Lines(v, s, e), Name) == [Body(v)[3]]
  {
    BodyOnly(v, s, e, Name);
    TagOne(Body(v), Name, 3);
  }

  lemma UriOf(v: Values, s: bool, e: bool)
    ensures WithTag(Lines(v, s, e), Uri) == [Body(v)[4]]
  {
    BodyOnly(v, s, e, Uri);
    TagOne(Body(v), Uri, 4);
  }

  lemma EnclosureOf(v: Values, s: bool, e: bool)
    ensures WithTag(Lines(v, s, e), Enclosure) == EnclosurePart(v, e)
  {
    EnclosureOnly(v, s, e);
    if e {
      TagOne(EnclosurePart(v, e), Enclosure, 0);
    } else {
      TagNone(EnclosurePart(v, e), Enclosure);
    }
  }

  lemma WellTaggedAppend(a: seq<Line<Tag>>, b: seq<Line<Tag>>)
    requires WellTagged(a) && WellTagged(b)
    ensures WellTagged(a + b)
  {
    forall k | 0 <= k < |a + b| ensures Opener((a + b)[k].tag) <= (a + b)[k].text {
      if k >= |a| { assert (a + b)[k] == b[k - |a|]; }
    }
  }

  lemma PartsWellTagged(v: Values, s: bool, e: bool)
    ensures WellTagged(Head(v)) && WellTagged(SummaryPart(v, s))
    ensures WellTagged(Body(v)) && WellTagged(EnclosurePart(v, e)) && WellTagged([Marker(EntryEnd)])
  {
    HeadWellTagged(v);
    BodyWellTagged(v);
  }

  lemma HeadWellTagged(v: Values)
    ensures WellTagged(Head(v))
  {
  }

  lemma BodyWellTagged(v: Values)
    ensures WellTagged(Body(v))
  {
  }

  /** Every line of an entry starts with the opening text of its element. */
  lemma LinesWellTagged(v: Values, s: bool, e: bool)
    ensures WellTagged(Lines(v, s, e))
  {
    var h, sp, b, ep := Head(v), SummaryPart(v, s), Body(v), EnclosurePart(v, e);
    PartsWellTagged(v, s, e);
    WellTaggedAppend(h, sp);
    WellTaggedAppend(h + sp, b);
    WellTaggedAppend(h + sp + b, ep);
    WellTaggedAppend(h + sp + b + ep, [Marker(EntryEnd)]);
  }

  // ---------------------------------------------------------------------------
  // What each entry says

  /** Every entry has exactly one title, whose text reads back as
      `title | feed title`: the escaping loses nothing and lets no markup in. */
  lemma EntryTitle(item: RenderItem, nowIso: string, iso: int -> string)
    ensures var t := WithTag(EntryLines(item, nowIso, iso), Title);
      |t| == 1 && ReadAfter(t[0].text, Opener(Title), '<') == Some(item.title + " | " + item.feedTitle)
  {
    TitleOf(ValuesOf(item, nowIso, iso), item.description != "", item.ogImageUrl != "");
    ReadEscaped(Opener(Title), item.title + " | " + item.feedTitle, "</title>\n", '<');
  }

  /** A summary element exists exactly when the description is non-empty,
      and it reads back as the description. */
  lemma EntrySummary(item: RenderItem, nowIso: string, iso: int -> string)
    ensures var s := WithTag(EntryLines(item, nowIso, iso), Summary);
      |s| == (if item.description != "" then 1 else 0)
      && forall k :: 0 <= k < |s| ==> ReadAfter(s[k].text, Opener(Summary), '<') == Some(item.description)
  {
    SummaryOf(ValuesOf(item, nowIso, iso), item.description != "", item.ogImageUrl != "");
    ReadEscaped(Opener(Summary), item.description, "</summary>\n", '<');
  }

  /** Every entry has exactly one content element, holding the content
      unescaped inside a CDATA section. */
  lemma EntryContent(item: RenderItem, nowIso: string, iso: int -> string)
    ensures var c := WithTag(EntryLines(item, nowIso, iso), Content);
      |c| == 1 && Between(c[0].text, Opener(Content), "]]></content>\n") == Some(item.content)
  {
    ContentOf(ValuesOf(item, nowIso, iso), item.description != "", item.ogImageUrl != "");
    BetweenVerbatim(Opener(Content), item.content, "]]></content>\n");
  }

  /** Every entry has one `link` and one `id`, both holding the item's link as
      written. The link is not escaped: a reader gets it back only when it
      holds no '&' and no closing delimiter. */
  lemma EntryLinkAndId(item: RenderItem, nowIso: string, iso: int -> string)
    ensures var l := WithTag(EntryLines(item, nowIso, iso), Link);
      |l| == 1 && Between(l[0].text, Opener(Link), "\"/>\n") == Some(item.link)
      && ('&' !in item.link && '"' !in item.link ==> ReadAfter(l[0].text, Opener(Link), '"') == Some(item.link))
    ensures var i := WithTag(EntryLines(item, nowIso, iso), Id);
      |i| == 1 && Between(i[0].text, Opener(Id), "</id>\n") == Some(item.link)
      && ('&' !in item.link && '<' !in item.link ==> ReadAfter(i[0].text, Opener(Id), '<') == Some(item.link))
  {
    var v := ValuesOf(item, nowIso, iso);
    assert v.link == item.link;
    LinkRead(v, item.description != "", item.ogImageUrl != "");
    IdRead(v, item.description != "", item.ogImageUrl != "");
  }

  lemma LinkRead(v: Values, s: bool, e: bool)
    ensures var l := WithTag(Lines(v, s, e), Link);
      |l| == 1 && Between(l[0].text, Opener(Link), "\"/>\n") == Some(v.link)
      && ('&' !in v.link && '"' !in v.link ==> ReadAfter(l[0].text, Opener(Link), '"') == Some(v.link))
  {
    BetweenVerbatim(Opener(Link), v.link, "\"/>\n");
    if '&' !in v.link && '"' !in v.link {
      PlainReadsBack(Opener(Link), v.link, "\"/>\n", '"');
    }
    LinkOf(v, s, e);
  }

  lemma IdRead(v: Values, s: bool, e: bool)
    ensures var i := WithTag(Lines(v, s, e), Id);
      |i| == 1 && Between(i[0].text, Opener(Id), "</id>\n") == Some(v.link)
      && ('&' !in v.link && '<' !in v.link ==> ReadAfter(i[0].text, Opener(Id), '<') == Some(v.link))
  {
    BetweenVerbatim(Opener(Id), v.link, "</id>\n");
    if '&' !in v.link && '<' !in v.link {
      PlainReadsBack(Opener(Id), v.link, "</id>\n", '<');
    }
    IdOf(v, s, e);
  }

  /** Every entry has one category, whose attribute reads back as the item's
      category. */
  lemma EntryCategory(item: RenderItem, nowIso: string, iso: int -> string)
    ensures var c := WithTag(EntryLines(item, nowIso, iso), Category);
      |c| == 1 && ReadAfter(c[0].text, Opener(Category), '"') == Some(item.category)
  {
    CategoryOf(ValuesOf(item, nowIso, iso), item.description != "", item.ogImageUrl != "");
    ReadEscaped(Opener(Category), item.category, "\"/>\n", '"');
  }

  /** Every entry has one author, named after the source feed and linking to it. */
  lemma EntryAuthor(item: RenderItem, nowIso: string, iso: int -> string)
    ensures var n := WithTag(EntryLines(item, nowIso, iso), Name);
      |n| == 1 && ReadAfter(n[0].text, Opener(Name), '<') == Some(item.feedTitle)
    ensures var u := WithTag(EntryLines(item, nowIso, iso), Uri);
      |u| == 1 && Between(u[0].text, Opener(Uri), "</uri>\n") == Some(item.feedLink)
  {
    var v, s, e := ValuesOf(item, nowIso, iso), item.description != "", item.ogImageUrl != "";
    NameOf(v, s, e);
    ReadEscaped(Opener(Name), item.feedTitle, "</name>\n", '<');
    UriOf(v, s, e);
    BetweenVerbatim(Opener(Uri), item.feedLink, "</uri>\n");
  }

  /** An image enclosure exists exactly when the OG image URL is non-empty,
      and its `href` is that URL. */
  lemma EntryEnclosure(item: RenderItem, nowIso: string, iso: int -> string)
    ensures var e := WithTag(EntryLines(item, nowIso, iso), Enclosure);
      |e| == (if item.ogImageUrl != "" then 1 else 0)
      && forall k :: 0 <= k < |e| ==> Between(e[k].text, Opener(Enclosure), "\" type=\"image/jpeg\"/>\n") == Some(item.ogImageUrl)
  {
    var v := ValuesOf(item, nowIso, iso);
    assert v.enclosure == item.ogImageUrl;
    BetweenVerbatim(Opener(Enclosure), item.ogImageUrl, "\" type=\"image/jpeg\"/>\n");
    EnclosureOf(v, item.description != "", item.ogImageUrl != "");
  }

  /** The `updated` and `published` elements always carry the same text; for
      an item without a structured date (every projected item) it is the
      "published" text, or the render time when that is empty. */
  lemma EntryDates(item: RenderItem, nowIso: string, iso: int -> string)
    ensures var u := WithTag(EntryLines(item, nowIso, iso), Updated);
      var p := WithTag(EntryLines(item, nowIso, iso), Published);
      |u| == 1 && |p| == 1
      && Between(u[0].text, Opener(Updated), "</updated>\n") == Some(UpdatedDate(item, nowIso, iso))
      && Between(p[0].text, Opener(Published), "</published>\n") == Some(UpdatedDate(item, nowIso, iso))
    ensures item.date.None? ==>
      UpdatedDate(item, nowIso, iso) == (if item.published != "" then item.published else nowIso)
  {
    var v, s, e := ValuesOf(item, nowIso, iso), item.description != "", item.ogImageUrl != "";
    UpdatedOf(v, s, e);
    PublishedOf(v, s, e);
    BetweenVerbatim(Opener(Updated), UpdatedDate(item, nowIso, iso), "</updated>\n");
    BetweenVerbatim(Opener(Published), PublishedDate(item, nowIso, iso), "</published>\n");
  }

  // ---------------------------------------------------------------------------
  // The document

  lemma {:induction false} EntriesCount(items: seq<RenderItem>, nowIso: string, iso: int -> string)
    ensures |WithTag(EntriesLines(items, nowIso, iso), EntryStart)| == |items|
    ensures |WithTag(EntriesLines(items, nowIso, iso), EntryEnd)| == |items|
  {
    if items != [] {
      var init, last := items[..|items| - 1], items[|items| - 1];
      var v, s, e := ValuesOf(last, nowIso, iso), last.description != "", last.ogImageUrl != "";
      EntriesCount(init, nowIso, iso);
      WithTagAppend(EntriesLines(init, nowIso, iso), EntryLines(last, nowIso, iso), EntryStart);
      WithTagAppend(EntriesLines(init, nowIso, iso), EntryLines(last, nowIso, iso), EntryEnd);
      StartOf(v, s, e);
      EndOnly(v, s, e);
    }
  }

  lemma HeaderLacks(feed: AggregatedFeed, nowIso: string, t: Tag)
    requires t != Header
    ensures WithTag(HeaderLines(feed, nowIso), t) == []
  {
    TagNone(HeaderLines(feed, nowIso), t);
  }

  /** The document has one entry per item, each opened and closed, and ends
      with the closing of the feed. */
  lemma DocumentEntries(feed: AggregatedFeed, nowIso: string, iso: int -> string)
    ensures var d := DocumentLines(feed, nowIso, iso);
      |WithTag(d, EntryStart)| == |feed.items| && |WithTag(d, EntryEnd)| == |feed.items|
      && d[|d| - 1] == Marker(FeedEnd)
  {
    var h, e := HeaderLines(feed, nowIso), EntriesLines(feed.items, nowIso, iso);
    HeaderLacks(feed, nowIso, EntryStart);
    HeaderLacks(feed, nowIso, EntryEnd);
    TagNone([Marker(FeedEnd)], EntryStart);
    TagNone([Marker(FeedEnd)], EntryEnd);
    EntriesCount(feed.items, nowIso, iso);
    WithTagAppend(h + e, [Marker(FeedEnd)], EntryStart);
    WithTagAppend(h, e, EntryStart);
    WithTagAppend(h + e, [Marker(FeedEnd)], EntryEnd);
    WithTagAppend(h, e, EntryEnd);
  }

  /** A feed without items renders as the header followed by the closing tag. */
  lemma EmptyDocument(feed: AggregatedFeed, nowIso: string, iso: int -> string)
    requires feed.items == []
    ensures DocumentLines(feed, nowIso, iso) == HeaderLines(feed, nowIso) + [Marker(FeedEnd)]
    ensures Concat([Marker(FeedEnd)]) == "</feed>"
  {
    var h, e := HeaderLines(feed, nowIso), EntriesLines(feed.items, nowIso, iso);
    assert e == [];
    AppendEmpty(h, e);
    FooterText();
  }

  lemma FooterText()
    ensures Concat([Marker(FeedEnd)]) == "</feed>"
  {
    assert [Marker(FeedEnd)][..0] == [];
  }
}
