# Tech feed aggregator — a verified model of its core

The aggregator reads a configuration of feed URLs grouped by category and fetches each feed. It keeps the entries published in the last 192 hours and sorts them newest first. Each item is enriched with its Open Graph (OG) image and its Hatena bookmark count. The result is rendered as an Atom document, an RSS 2.0 document and a JSON Feed 1.1 record. `main` (generate_feed.py:1327-1366) then calls only `generate_and_save_feeds`, and `save_feeds` writes the Atom and RSS documents under the site's feed directory and the JSON Feed to `blog-feeds.json` in the blog-feed directory.

The file also defines `FeedStorer`, whose `store_feeds` and `store_blog_feeds` would write a per-source summary: the source page's OG data and up to ten summary items. Nothing in the file creates a `FeedStorer` or calls those methods, so `main` never produces that summary. The `Storer` module models this code as written, as a library that no caller reaches.

This project models the deterministic core of `src/cli_py/tech_feed/generate_feed.py` in Dafny and proves what that code promises. It covers:

- the configuration flattening;
- the aggregation window, filter and stable newest-first sort;
- bookmark counts fetched in batches of 50;
- the projection into render items (truncation with an ellipsis, OG and count lookups);
- XML escaping;
- the three renderings;
- the per-source summary items of the uncalled `FeedStorer`;
- the domain extraction;
- the merge of the two OG maps.

Fetching, parsing and clocks are parameters:

- fetched feeds are inputs;
- each batch's HTTP response is an oracle `fetch: seq<string> -> Option<CountMap>` (None for a failed batch);
- the HTML-to-text extraction is a function `getText`;
- date formatting is `iso`/`rfc: int -> string`;
- "now" is given both as a timestamp and as already formatted text.

The code is modelled as it stands. Its quirks are reproduced, not corrected:

- **`date` is always None.** The projection asks `hasattr` of a dictionary, which never reports a key, so the structured `date` of every render item is None.
- **RSS `pubDate` is the render time.** Because of the above, every RSS item carries the render time, not the entry's own publication date, which is never passed on.
- **Atom dates fall back.** Atom `updated` and `published` both come from the item's "published" text, or from the render time when that text is empty.
- **Writes the source cannot skip.** Every render item has "category", "feed_title" and "feed_link". So the Atom category and author elements, and the RSS category, creator and source elements, are always written.
- **The JSON Feed `feed_url`** is the site link followed by "feed.json". That is not the "feeds/feed.json" address recorded in the feed record.

Modules, one per file:

| Module | File | What it models |
|---|---|---|
| `FeedModel` | `feed_model.dfy` | Shared types and constants. |
| `Text` | `text.dfy` | Truncation and the whitespace normalisation in `clean_html`. |
| `XmlText` | `xml_text.dfy` | `_escape_xml_text` and entity decoding. |
| `Lookup` | `lookup.dfy` | OG and count lookups. |
| `Crawler` | `crawler.dfy` | `aggregate_feeds` and `fetch_hatena_count_map`. |
| `Generator` | `generator.dfy` | `generate_aggregated_feed`. |
| `Markup` | `markup.dfy` | Documents as tagged lines, and what an XML reader takes back from a line. |
| `AtomFeed` | `atom.dfy` | The Atom renderer. |
| `RssFeed` | `rss.dfy` | The RSS renderer. |
| `JsonFeed` | `json_feed.dfy` | The JSON Feed renderer. |
| `Formats` | `formats.dfy` | Agreement between the three renderings. |
| `Storer` | `storer.dfy` | `get_feed_items`, `extract_domain` and the `store_blog_feeds` loop of `FeedStorer`, which `main` never calls. |
| `Config` | `config.dfy` | `load_feed_config`. |
| `Pipeline` | `pipeline.dfy` | `main`'s window and OG merge, composed with the stages above. |

The Atom and RSS generators build a string with `+=`, and the model's methods do the same. The document is also described as a sequence of lines, each tagged with the element it writes, and the method's result is proved equal to the concatenation of those lines. Element counts are then counts of tagged lines. "What a reader gets back" is `ReadAfter`: the text after the opening, up to the closing delimiter, with the predefined entities decoded. `Between` is the verbatim text written between an opening and the final closing of a line. Links, URLs and CDATA content are written that way, unescaped, so `Between` states what was written, not what a reader gets back; `PlainReadsBack` says when the two agree.

## Model

| member | source | states |
|---|---|---|
| FeedModel.Dated | src/cli_py/tech_feed/generate_feed.py:1195-1200 | the entries kept are entries of the input with a parsed publication time, and there are no more of them than inputs |
| FeedModel.DatedPositions | src/cli_py/tech_feed/generate_feed.py:1195-1200 | the positions of the entries with a parsed publication time, each a valid index of such an entry, strictly increasing |
| FeedModel.DatedInOrder | src/cli_py/tech_feed/generate_feed.py:1195-1200 | the k-th kept entry is the entry at the k-th dated position, so the filter keeps the input order |
| FeedModel.DatedPositionsComplete | src/cli_py/tech_feed/generate_feed.py:1195-1200 | every entry with a parsed publication time has its position listed |
| FeedModel.DatedAppend | src/cli_py/tech_feed/generate_feed.py:1195-1200 | filtering a concatenation filters each part and concatenates the results |
| Text.Clip | src/cli_py/tech_feed/generate_feed.py:1225-1226 | a Python slice `s[:n]` is a prefix of `s` of length at most `n`, and is `s` itself when `s` is no longer than `n` |
| Text.Truncate | src/cli_py/tech_feed/generate_feed.py:510-517 | a text within the limit is unchanged; a longer one becomes exactly its first `max` characters followed by "...", of length max+3 |
| Text.CleanHtml | src/cli_py/tech_feed/generate_feed.py:211-225 | empty HTML gives ""; the result has only single spaces between words and none at the ends, and keeps every non-space character of the extracted text in order |
| Text.WordPrefix | src/cli_py/tech_feed/generate_feed.py:223 | the longest whitespace-free prefix: a prefix with no whitespace, followed by whitespace or the end |
| Text.CleanHtmlWords | src/cli_py/tech_feed/generate_feed.py:211-225 | for non-empty HTML the result is the extracted text's whitespace-separated words joined by single spaces, as `" ".join(text.split())` |
| Text.NormalizeSpaceWords | src/cli_py/tech_feed/generate_feed.py:223 | replacing whitespace runs with one space and stripping equals joining the words with single spaces |
| Text.LStrip | src/cli_py/tech_feed/generate_feed.py:223 | leading whitespace is removed and nothing else: the result is a suffix starting with a non-space |
| Text.RStrip | src/cli_py/tech_feed/generate_feed.py:223 | trailing whitespace is removed and nothing else: the result is a prefix ending with a non-space |
| Text.CollapseShape | src/cli_py/tech_feed/generate_feed.py:223 | after replacing each whitespace run with one space, no two whitespace characters are adjacent and every one is ' ' |
| Text.NormalizeSpaceTidy | src/cli_py/tech_feed/generate_feed.py:223 | collapsing and stripping leaves whitespace only as single spaces between words |
| Text.NormalizeSpaceKeepsText | src/cli_py/tech_feed/generate_feed.py:223 | collapsing and stripping removes only whitespace |
| Text.CollapseKeepsText | src/cli_py/tech_feed/generate_feed.py:223 | replacing whitespace runs keeps every other character in order |
| Text.NormalizeSpaceOfTidy | src/cli_py/tech_feed/generate_feed.py:223 | normalising already tidy text changes nothing, so cleaning twice equals cleaning once |
| XmlText.Replace | src/cli_py/tech_feed/generate_feed.py:788-792 | `str.replace` of a character absent from the text returns the text |
| XmlText.EscapeXmlText | src/cli_py/tech_feed/generate_feed.py:770-794 | empty text gives ""; the five ordered replacements equal escaping each character once, on its own |
| XmlText.EscapeXmlTextNoMarkup | src/cli_py/tech_feed/generate_feed.py:788-792 | escaped text contains no raw `<`, `>`, `"` or `'` |
| XmlText.EscapeXmlTextRoundTrip | src/cli_py/tech_feed/generate_feed.py:784-794 | decoding the five predefined entities in the escaped text gives back the original text |
| XmlText.EscapeChainPerChar | src/cli_py/tech_feed/generate_feed.py:788-792 | since `&` is replaced first, no entity made by a later replacement is escaped again |
| XmlText.UnescapeEscape | src/cli_py/tech_feed/generate_feed.py:788-792 | the per-character escape is undone by entity decoding |
| XmlText.EscapedAmpersandsOpenEntities | src/cli_py/tech_feed/generate_feed.py:788 | every `&` in escaped text starts one of the five entities |
| Lookup.GetHatenaCount | src/cli_py/tech_feed/generate_feed.py:1236-1254 | the count recorded for the link, and 0 when the link has none |
| Lookup.OgValue | src/cli_py/tech_feed/generate_feed.py:1126-1172 | "" for an unknown link; otherwise the first key when present, even if empty, else the fallback key, else "". `get_og_image_url` reads "ogImage" then "image"; `get_og_description` reads "ogDescription" then "description" |
| Lookup.OgImageOrFallback | src/cli_py/tech_feed/generate_feed.py:519-524 | "" for an unknown link; a non-empty "ogImage", otherwise "image" (or "") |
| Lookup.OgAbsentLikeEmpty | src/cli_py/tech_feed/generate_feed.py:519-524 | a link missing from the OG map reads like a link with an empty object, giving "" in every lookup |
| Lookup.ImageLookupsAgree | src/cli_py/tech_feed/generate_feed.py:1142-1146 | the summary's image lookup and the projection's lookup agree unless "ogImage" is present but empty and "image" is not |
| Crawler.Insert | src/cli_py/tech_feed/generate_feed.py:205 | inserting an item into a sorted list adds exactly that item |
| Crawler.SortNewestFirst | src/cli_py/tech_feed/generate_feed.py:205 | the sort is a permutation of its input, ordered by non-increasing publication time |
| Crawler.InsertNewestFirst | src/cli_py/tech_feed/generate_feed.py:205 | inserting keeps a newest-first list newest first |
| Crawler.ConsNewestFirst | src/cli_py/tech_feed/generate_feed.py:205 | putting an item no older than every item of a newest-first list in front keeps it newest first |
| Crawler.SortStable | src/cli_py/tech_feed/generate_feed.py:205 | items with equal publication time keep their encounter order |
| Crawler.NewestFirstUnique | src/cli_py/tech_feed/generate_feed.py:205 | a newest-first list with the same items at each time is unique, so stability and ordering determine the sort |
| Crawler.EntryItemsFrom | src/cli_py/tech_feed/generate_feed.py:183-202 | every item a feed contributes comes from one of its qualifying entries |
| Crawler.EntryItemsComplete | src/cli_py/tech_feed/generate_feed.py:183-202 | every qualifying entry of a feed contributes its item |
| Crawler.EntryItemsCount | src/cli_py/tech_feed/generate_feed.py:183-202 | a feed contributes as many items as it has qualifying entries |
| Crawler.CollectedCount | src/cli_py/tech_feed/generate_feed.py:182-202 | the collection has one item per qualifying entry of all feeds |
| Crawler.CollectedFrom | src/cli_py/tech_feed/generate_feed.py:182-202 | every collected item comes from a qualifying entry of some feed |
| Crawler.CollectedComplete | src/cli_py/tech_feed/generate_feed.py:182-202 | every qualifying entry of every feed is collected |
| Crawler.AggregateFeeds | src/cli_py/tech_feed/generate_feed.py:162-209 | the result is the stable newest-first sort of the qualifying items, in feed-then-entry order. It holds one item per qualifying entry, each published at or after the window start and made from a qualifying entry, and no qualifying entry is missed |
| Crawler.CollectFeedItems | src/cli_py/tech_feed/generate_feed.py:180-202 | the two nested loops build, in feed-then-entry order, exactly the items of the qualifying entries |
| Crawler.AggregateFacts | src/cli_py/tech_feed/generate_feed.py:185-205 | size, window bound, provenance and completeness carry over from the collection to the sorted list |
| Crawler.ItemLinks | src/cli_py/tech_feed/generate_feed.py:273 | one link per aggregated item, in order |
| Crawler.ChunksFlatten | src/cli_py/tech_feed/generate_feed.py:279-281 | the batches put back together are the link list |
| Crawler.ChunksShape | src/cli_py/tech_feed/generate_feed.py:279-281 | there are ceil(n/50) batches; batch k is `urls[50k:50k+50]`, non-empty, and only the last may be shorter than 50 |
| Crawler.ChunksCount | src/cli_py/tech_feed/generate_feed.py:279-281 | there are ceil(n/50) batches |
| Crawler.ChunkSlices | src/cli_py/tech_feed/generate_feed.py:279-281 | batch k starts inside the link list and is the slice `urls[50k:50k+50]` |
| Crawler.ChunksOf120 | src/cli_py/tech_feed/generate_feed.py:279-281 | 120 links make batches of 50, 50 and 20 |
| Crawler.ResponseKeysMeaning | src/cli_py/tech_feed/generate_feed.py:287-292 | a link is among the response keys exactly when some successful batch returned it |
| Crawler.MergeAllKeys | src/cli_py/tech_feed/generate_feed.py:287-292 | the count map's keys are exactly the keys of the successful responses |
| Crawler.MergeAllKeepsUntouched | src/cli_py/tech_feed/generate_feed.py:287-292 | a count no later batch returns is left as it was |
| Crawler.MergeAllLastWins | src/cli_py/tech_feed/generate_feed.py:287-292 | a link's count is the one from the last successful batch that returned it |
| Crawler.FetchHatenaCountMap | src/cli_py/tech_feed/generate_feed.py:272-296 | the map built batch by batch equals the ordered merge of the successful responses, and its keys are exactly their keys |
| Crawler.ChunksAt | src/cli_py/tech_feed/generate_feed.py:280-281 | the batches from offset i are `urls[i:i+50]` followed by the batches from i+50 |
| Crawler.Update | src/cli_py/tech_feed/generate_feed.py:291-292 | writing a response's entries one by one gives the map updated with the response, whose values win |
| Generator.ProjectItem | src/cli_py/tech_feed/generate_feed.py:508-541 | title, link, published text, source feed and category are copied; description (200) and content (500) are truncated with an ellipsis; the OG image falls back to "image" and then ""; the count defaults to 0; `date` is None |
| Generator.FeedShell | src/cli_py/tech_feed/generate_feed.py:487-505 | the channel metadata: site link, update time, and the Atom, RSS and JSON addresses under "feeds/" |
| Generator.GenerateAggregatedFeed | src/cli_py/tech_feed/generate_feed.py:486-553 | the fixed channel metadata and one projected item per aggregated item, in order |
| Generator.ProjectedBounds | src/cli_py/tech_feed/generate_feed.py:510-517 | rendered descriptions are at most 203 characters and contents at most 503, and each starts with the aggregated text |
| Markup.ConcatAppend | src/cli_py/tech_feed/generate_feed.py:694-764 | appending two runs of lines appends their texts |
| Markup.WithTag | src/cli_py/tech_feed/generate_feed.py:694-764 | the lines of an element are lines of the document, tagged with that element |
| Markup.WithTagAppend | src/cli_py/tech_feed/generate_feed.py:694-764 | element counts add up over appended runs of lines |
| Markup.AppendLines | src/cli_py/tech_feed/generate_feed.py:671-691 | successive `+=` of the lines gives the text followed by the lines' concatenation |
| Markup.UpTo | src/cli_py/tech_feed/generate_feed.py:699 | the text a reader takes up to a delimiter is a prefix without that delimiter |
| Markup.ReadEscaped | src/cli_py/tech_feed/generate_feed.py:699 | an escaped value followed by its closing delimiter reads back as the value |
| Markup.BetweenVerbatim | src/cli_py/tech_feed/generate_feed.py:739 | the verbatim text written between an opening and the final closing is recovered as written |
| Markup.UnescapePlain | src/cli_py/tech_feed/generate_feed.py:702-703 | text holding no '&' is unchanged by entity decoding |
| Markup.PlainReadsBack | src/cli_py/tech_feed/generate_feed.py:702-703 | an unescaped value holding no '&' and no closing delimiter reads back, through entity decoding, as written |
| Markup.EntityInVerbatimLink | src/cli_py/tech_feed/generate_feed.py:703 | a link written unescaped as "a&amp;b" is held verbatim between the tags but read back as "a&b" |
| AtomFeed.GenerateAtomFeed | src/cli_py/tech_feed/generate_feed.py:671-768 | the document is the header, each item's entry lines in order, and `</feed>` |
| AtomFeed.AppendEntries | src/cli_py/tech_feed/generate_feed.py:694-761 | the item loop appends the entry lines of every item in order |
| AtomFeed.LinesWellTagged | src/cli_py/tech_feed/generate_feed.py:695-761 | every line of an entry starts with the opening of the element it is tagged with |
| AtomFeed.EntryTitle | src/cli_py/tech_feed/generate_feed.py:697-699 | each entry has one title, which reads back as the item title, then a space, a vertical bar and a space, then the feed title |
| AtomFeed.EntrySummary | src/cli_py/tech_feed/generate_feed.py:732-735 | an entry has a summary exactly when the description is non-empty, and it reads back as the description |
| AtomFeed.EntryContent | src/cli_py/tech_feed/generate_feed.py:737-739 | each entry has one content, holding the item's content unescaped inside CDATA |
| AtomFeed.EntryCategory | src/cli_py/tech_feed/generate_feed.py:741-743 | each entry has one category, whose term attribute reads back as the category |
| AtomFeed.EntryLinkAndId | src/cli_py/tech_feed/generate_feed.py:702-703 | each entry has one link and one id, both holding the item's link as written, and reading back as it when it holds no '&' and no closing delimiter |
| AtomFeed.EntryAuthor | src/cli_py/tech_feed/generate_feed.py:745-751 | each entry has one author name, reading back as the feed title, and one uri holding the feed link |
| AtomFeed.EntryEnclosure | src/cli_py/tech_feed/generate_feed.py:757-759 | an entry has an image enclosure exactly when the OG image URL is non-empty, and it holds that URL |
| AtomFeed.EntryDates | src/cli_py/tech_feed/generate_feed.py:705-730 | one updated and one published element carry the same date: the formatted `date` if any, else the non-empty published text, else the render time |
| AtomFeed.EntriesCount | src/cli_py/tech_feed/generate_feed.py:694-761 | the item loop writes one entry opening and one entry closing per item |
| AtomFeed.HeaderLacks | src/cli_py/tech_feed/generate_feed.py:671-691 | the header opens no entry element |
| AtomFeed.DocumentEntries | src/cli_py/tech_feed/generate_feed.py:671-764 | the document holds exactly one entry per item and ends with `</feed>` |
| AtomFeed.EmptyDocument | src/cli_py/tech_feed/generate_feed.py:671-764 | a feed without items renders as the header followed by `</feed>` |
| RssFeed.GenerateRssFeed | src/cli_py/tech_feed/generate_feed.py:815-897 | the document is the channel header, each item's lines in order, then the channel and document closings |
| RssFeed.AppendItems | src/cli_py/tech_feed/generate_feed.py:842-891 | the item loop appends the lines of every item in order |
| RssFeed.LinesWellTagged | src/cli_py/tech_feed/generate_feed.py:843-891 | every line of an item starts with the opening of the element it is tagged with |
| RssFeed.ItemTitle | src/cli_py/tech_feed/generate_feed.py:845-847 | each item has one title, which reads back as the item title, then a space, a vertical bar and a space, then the feed title |
| RssFeed.ItemDescription | src/cli_py/tech_feed/generate_feed.py:850 | each item has one description, even an empty one, reading back as the description |
| RssFeed.ItemContent | src/cli_py/tech_feed/generate_feed.py:851 | each item has one encoded content, holding the content unescaped inside CDATA |
| RssFeed.ItemPubDate | src/cli_py/tech_feed/generate_feed.py:853-868 | each item has one pubDate: the formatted `date` when there is one, otherwise the render time |
| RssFeed.ItemCategoryAndSource | src/cli_py/tech_feed/generate_feed.py:870-882 | one category reading back as the category, one creator and one source reading back as the feed title, the source carrying the feed link |
| RssFeed.ItemLinkAndGuid | src/cli_py/tech_feed/generate_feed.py:849-885 | one link and one guid, both holding the item's link as written, and reading back as it when it holds no '&' and no '<' |
| RssFeed.ItemEnclosure | src/cli_py/tech_feed/generate_feed.py:887-889 | an item has an image enclosure exactly when the OG image URL is non-empty, and it holds that URL |
| RssFeed.ItemsCount | src/cli_py/tech_feed/generate_feed.py:842-891 | the item loop writes one item opening and one item closing per item |
| RssFeed.HeaderLacks | src/cli_py/tech_feed/generate_feed.py:815-840 | the channel header opens no item element |
| RssFeed.FooterText | src/cli_py/tech_feed/generate_feed.py:893-894 | the document closes with the channel and rss closing tags |
| RssFeed.DocumentItems | src/cli_py/tech_feed/generate_feed.py:815-894 | the document holds exactly one item per render item and ends with the two closings |
| RssFeed.EmptyDocument | src/cli_py/tech_feed/generate_feed.py:815-894 | a feed without items renders as the channel header followed by the two closings |
| JsonFeed.GenerateJsonFeed | src/cli_py/tech_feed/generate_feed.py:900-940 | version 1.1, the feed's title, description, language and link; feed_url is the link followed by "feed.json". Each JSON item has id and url equal to the link, the title without suffix, content, summary, published text, the source feed as author and the category as tag |
| JsonFeed.ItemOfDeterminesFields | src/cli_py/tech_feed/generate_feed.py:925-937 | a JSON item determines the render item fields it was built from |
| JsonFeed.FeedUrlDiffersFromLinks | src/cli_py/tech_feed/generate_feed.py:919 | the announced feed_url is not the JSON address recorded in the feed record |
| Formats.ItemAgreement | src/cli_py/tech_feed/generate_feed.py:697-743 | Atom and RSS titles read back identically, as the JSON title joined to the JSON author's name by the same separator; both hold the JSON content_html verbatim; both categories read back as the JSON tag |
| Formats.SummaryAgreement | src/cli_py/tech_feed/generate_feed.py:733-735 | the RSS description reads back as the JSON summary; Atom writes it exactly when it is non-empty |
| Formats.LinkAgreement | src/cli_py/tech_feed/generate_feed.py:702-885 | the RSS link and guid and the Atom link and id hold the JSON url and id; the Atom author uri is the JSON author url |
| Formats.SameEntryCount | src/cli_py/tech_feed/generate_feed.py:694-891 | the Atom entries and the RSS items both number the render items |
| Storer.DomainAt | src/cli_py/tech_feed/generate_feed.py:1047 | a match of the pattern at a position yields a non-empty host without '/' |
| Storer.ExtractDomain | src/cli_py/tech_feed/generate_feed.py:1033-1050 | the leftmost match's group, or ""; never contains '/' |
| Storer.ExtractDomainOfLink | src/cli_py/tech_feed/generate_feed.py:1047-1050 | a link `http(s)://host/path` gives back its host, whatever the path holds |
| Storer.ExtractDomainWithoutScheme | src/cli_py/tech_feed/generate_feed.py:1047-1050 | text without ':' has no domain |
| Storer.ContentHtml | src/cli_py/tech_feed/generate_feed.py:1201-1211 | the entry's content when non-empty, else its summary |
| Storer.Summaries | src/cli_py/tech_feed/generate_feed.py:1193-1232 | one summary item per dated entry |
| Storer.FirstEntries | src/cli_py/tech_feed/generate_feed.py:1193 | at most the first ten entries, all of them when there are no more |
| Storer.GetFeedItems | src/cli_py/tech_feed/generate_feed.py:1174-1234 | a summary item for each dated entry among the first ten, in order |
| Storer.ItemsStep | src/cli_py/tech_feed/generate_feed.py:1194-1199 | an undated entry adds nothing; a dated one adds its summary item |
| Storer.DatedComplete | src/cli_py/tech_feed/generate_feed.py:1195-1199 | every dated entry is kept |
| Storer.FeedItemsSound | src/cli_py/tech_feed/generate_feed.py:1193-1199 | at most ten items, each the summary item of a dated entry among the first ten |
| Storer.FeedItemsComplete | src/cli_py/tech_feed/generate_feed.py:1193-1199 | every dated entry among the first ten has its summary item |
| Storer.FeedItemsInOrder | src/cli_py/tech_feed/generate_feed.py:1193-1200 | the k-th summary item is made from the k-th dated entry among the first ten, the positions increase, and no such entry is skipped |
| Storer.SummaryItemBounds | src/cli_py/tech_feed/generate_feed.py:1218-1229 | summary at most 200 and content at most 500 characters, each a prefix of its source with no ellipsis; link, title, count and OG image taken from the entry |
| Storer.FeedItemsIgnoreLater | src/cli_py/tech_feed/generate_feed.py:1193 | entries after the tenth never affect the summary items |
| Storer.BuildBlogFeeds | src/cli_py/tech_feed/generate_feed.py:1016-1026 | one record per source, in order, with its title, link, OG image, OG description and summary items |
| Storer.BlogFeedFor | src/cli_py/tech_feed/generate_feed.py:1018-1026 | the record of one source: title, link, OG image and description lookups, and its summary items |
| Config.Tagged | src/cli_py/tech_feed/generate_feed.py:1316-1319 | one source per URL of a category, in order, each tagged with the category |
| Config.LoadFeedConfig | src/cli_py/tech_feed/generate_feed.py:1299-1323 | a configuration that cannot be loaded gives no sources; otherwise the categories' sources one after another |
| Config.FlattenConfigLength | src/cli_py/tech_feed/generate_feed.py:1314-1319 | one source per configured URL |
| Config.FlattenConfigMembership | src/cli_py/tech_feed/generate_feed.py:1314-1319 | a source is listed exactly when its URL appears under its category |
| Config.TaggedMembership | src/cli_py/tech_feed/generate_feed.py:1316-1319 | a category's sources are exactly its URLs tagged with it |
| Pipeline.MergeOgMaps | src/cli_py/tech_feed/generate_feed.py:1347 | the merged map has every link of both maps; the source pages' data wins on links in both |
| Pipeline.MergedImageLookup | src/cli_py/tech_feed/generate_feed.py:1347 | an image lookup in the merged map answers from the source pages for their links, otherwise from the item pages |
| Pipeline.WindowStart | src/cli_py/tech_feed/generate_feed.py:1337 | the window reaches back 192 hours from the run's time |
| Pipeline.BuildAggregatedFeed | src/cli_py/tech_feed/generate_feed.py:1331-1355 | the aggregated feed has the fixed metadata and one item per entry in the window. Each is the projection, newest first, of an aggregated item, with its batch-fetched count and the merged OG data |

## Left out

- HTTP retrieval of feeds, OG pages and bookmark counts, with its semaphores and `asyncio.gather`. Fetched feeds and OG maps are inputs, and each batch's response is an oracle.
- The error handling around the network (the `try`/`except` in the fetchers, the status code check) is not modelled separately. It is the oracle's None.
- Crawler.Update: a batch's response is all or nothing. The source writes `int(count)` key by key (lines 291-292), so an `int()` failure part way through a batch keeps the counts already written; the model cannot express that partial batch.
- Links, feed links and OG image URLs are written without escaping (lines 702-703, 750, 759, 849, 882, 885, 889), and CDATA content is not guarded against `]]>` (lines 739, 851). A value holding '&', '<', '"' or `]]>` makes the document ill-formed or read back differently (`Markup.EntityInVerbatimLink`). The lemmas about those elements state the verbatim text written (`Between`); what a reader gets back is stated only for values free of '&' and of the delimiter (`Markup.PlainReadsBack`).
- feedparser and BeautifulSoup. The extraction of text from HTML is the parameter `getText`; only the whitespace normalisation after it is modelled.
- `_decode_content`, the character-set detection and decoding, because it depends on codec tables outside the source.
- Date arithmetic and formatting (`time.mktime`, `fromtimestamp`, `isoformat`, `strftime`, `datetime.now`). Timestamps are integers, and formatting is a function parameter.
- The Atom and RSS channel headers are modelled as text built from the feed record, but no property is stated about their individual elements.
- `hashlib.md5` in `get_md5_hash`: the `linkMd5Hash` field of a source record is not modelled.
- `get_latest_entry_date`, which nothing calls.
- The serialisation `json.dumps`: the JSON Feed is the record it would serialise.
- File writes and directory creation: `save_feeds` (atom.xml and rss.xml under the site's feed directory, the JSON Feed as blog-feeds.json), and the uncalled `store_feed_distribution_set` and the write in `store_blog_feeds`. Also TOML parsing, logging, `main`'s exception handling and exit, and the `FeedValidator` methods, which do nothing.
- `FeedStorer.store_feeds`, which only sequences the uncalled writes above. No code in the file reaches it.
- The projection's optional "categories" and "author" keys (lines 543-549). The aggregated items never carry the keys they test.
- Storer.ContentHtml: the `content[0].value` and `summary_detail` branches of the fallback chain are not modelled. The entries that reach it store content as text and have no `summary_detail`.
- Config.LoadFeedConfig: a category whose value is not a list of URLs is not modelled; the configuration is typed as lists of strings.
- Crawler.AggregateFeeds: the sort key's default for an item without a time is not modelled. Every aggregated item has one.
