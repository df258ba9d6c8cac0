/**
 * The crawler's deterministic steps (`FeedCrawler`): flattening the fetched
 * feeds into one time-filtered list sorted newest first, and collecting
 * bookmark counts in batches of 50 links. Network retrieval is outside the
 * model: fetched feeds are an input and each batch's HTTP response is given by
 * an oracle function.
 */
module Crawler {
  import opened FeedModel
  import Text

  /** An aggregated item: entry fields, its publication time, its summary and
      content as plain text, and the metadata of the feed it came from. */
  datatype FeedItem = FeedItem(
    title: string,
    link: string,
    published: string,
    publishedDate: int,
    summary: string,
    content: string,
    feedTitle: string,
    feedLink: string,
    category: string)

  /** An entry takes part in the aggregation when it has a parsed publication
      time no earlier than the start of the window. */
  predicate Qualifies(e: Entry, startAt: int) {
    e.publishedParsed.Some? && e.publishedParsed.value >= startAt
  }

  function ToFeedItem(f: Feed, e: Entry, getText: string -> string): FeedItem
    requires e.publishedParsed.Some?
  {
    FeedItem(e.title, e.link, e.published, e.publishedParsed.value,
             Text.CleanHtml(getText, e.summary), Text.CleanHtml(getText, e.content),
             f.title, f.link, f.category)
  }

  /** The items one feed contributes from the entries `es`, in entry order. */
  function EntryItems(f: Feed, es: seq<Entry>, startAt: int, getText: string -> string): seq<FeedItem> {
    if es == [] then []
    else
      var e := es[|es| - 1];
      EntryItems(f, es[..|es| - 1], startAt, getText)
        + (if Qualifies(e, startAt) then [ToFeedItem(f, e, getText)] else [])
  }

  /** All qualifying items in encounter order: feed by feed, entry by entry. */
  function Collected(feeds: seq<Feed>, startAt: int, getText: string -> string): seq<FeedItem> {
    if feeds == [] then []
    else
      var f := feeds[|feeds| - 1];
      Collected(feeds[..|feeds| - 1], startAt, getText) + EntryItems(f, f.entries, startAt, getText)
  }

  /** Reference count of the qualifying entries. */
  function CountQualifying(es: seq<Entry>, startAt: int): nat {
    if es == [] then 0 else (if Qualifies(es[0], startAt) then 1 else 0) + CountQualifying(es[1..], startAt)
  }

  function QualifyingCount(feeds: seq<Feed>, startAt: int): nat {
    if feeds == [] then 0 else CountQualifying(feeds[0].entries, startAt) + QualifyingCount(feeds[1..], startAt)
  }

  /** Sorted newest first (non-increasing publication time). */
  ghost predicate NewestFirst(s: seq<FeedItem>) {
    forall i, j :: 0 <= i < j < |s| ==> s[i].publishedDate >= s[j].publishedDate
  }

  /** The items published at exactly `d`, in their order in `s`. */
  function WithDate(s: seq<FeedItem>, d: int): seq<FeedItem> {
    if s == [] then [] else (if s[0].publishedDate == d then [s[0]] else []) + WithDate(s[1..], d)
  }

  /** Places `x` before the first item of `t` that is not newer than it. */
  function Insert(x: FeedItem, t: seq<FeedItem>): (r: seq<FeedItem>)
    ensures multiset(r) == multiset(t) + multiset{x}
  {
    if t == [] || x.publishedDate >= t[0].publishedDate then [x] + t
    else
      assert t == [t[0]] + t[1..];
      [t[0]] + Insert(x, t[1..])
  }

  /** `list.sort(key=published_date, reverse=True)`: a stable sort, newest first. */
  function SortNewestFirst(s: seq<FeedItem>): (r: seq<FeedItem>)
    ensures multiset(r) == multiset(s) && |r| == |s|
    ensures NewestFirst(r)
  {
    if s == [] then []
    else
      var rest := SortNewestFirst(s[1..]);
      assert s == [s[0]] + s[1..];
      assert multiset(s) == multiset(s[1..]) + multiset{s[0]};
      InsertNewestFirst(s[0], rest);
      Insert(s[0], rest)
  }

  lemma {:induction false} InsertBounded(x: FeedItem, t: seq<FeedItem>, b: int)
    requires x.publishedDate <= b
    requires forall k :: 0 <= k < |t| ==> t[k].publishedDate <= b
    ensures forall k :: 0 <= k < |Insert(x, t)| ==> Insert(x, t)[k].publishedDate <= b
    decreases |t|
  {
    if t != [] && x.publishedDate < t[0].publishedDate {
      InsertBounded(x, t[1..], b);
    }
  }

  lemma {:induction false} InsertNewestFirst(x: FeedItem, t: seq<FeedItem>)
    requires NewestFirst(t)
    ensures NewestFirst(Insert(x, t))
    decreases |t|
  {
    if t == [] || x.publishedDate >= t[0].publishedDate {
      assert Insert(x, t) == [x] + t;
      assert forall k :: 0 <= k < |t| ==> t[k].publishedDate <= x.publishedDate by {
        forall k | 0 < k < |t| ensures t[k].publishedDate <= t[0].publishedDate { }
      }
      ConsNewestFirst(x, t);
    } else {
      var t', r' := t[1..], Insert(x, t[1..]);
      assert Insert(x, t) == [t[0]] + r';
      assert NewestFirst(t') by {
        forall i, j | 0 <= i < j < |t'| ensures t'[i].publishedDate >= t'[j].publishedDate {
          assert t'[i] == t[i + 1] && t'[j] == t[j + 1];
        }
      }
      assert forall k :: 0 <= k < |t'| ==> t'[k].publishedDate <= t[0].publishedDate by {
        forall k | 0 <= k < |t'| ensures t'[k].publishedDate <= t[0].publishedDate {
          assert t'[k] == t[k + 1];
        }
      }
      InsertNewestFirst(x, t');
      InsertBounded(x, t', t[0].publishedDate);
      ConsNewestFirst(t[0], r');
    }
  }

  /** An item no older than any item of a newest-first list can go in front of it. */
  lemma ConsNewestFirst(h: FeedItem, r: seq<FeedItem>)
    requires NewestFirst(r)
    requires forall k :: 0 <= k < |r| ==> r[k].publishedDate <= h.publishedDate
    ensures NewestFirst([h] + r)
  {
    var s := [h] + r;
    forall i, j | 0 <= i < j < |s| ensures s[i].publishedDate >= s[j].publishedDate {
      assert s[j] == r[j - 1];
      if i > 0 { assert s[i] == r[i - 1]; }
    }
  }

  lemma {:induction false} WithDateAppend(a: seq<FeedItem>, b: seq<FeedItem>, d: int)
    ensures WithDate(a + b, d) == WithDate(a, d) + WithDate(b, d)
  {
    if a == [] {
      assert a + b == b;
    } else {
      var h := if a[0].publishedDate == d then [a[0]] else [];
      var x, y := WithDate(a[1..], d), WithDate(b, d);
      assert (a + b)[0] == a[0] && (a + b)[1..] == a[1..] + b;
      assert h + (x + y) == (h + x) + y;
      WithDateAppend(a[1..], b, d);
    }
  }

  lemma {:induction false} InsertStable(x: FeedItem, t: seq<FeedItem>, d: int)
    requires NewestFirst(t)
    ensures WithDate(Insert(x, t), d) == (if x.publishedDate == d then [x] else []) + WithDate(t, d)
    decreases |t|
  {
    if t == [] || x.publishedDate >= t[0].publishedDate {
      WithDateAppend([x], t, d);
    } else {
      InsertStable(x, t[1..], d);
      WithDateAppend([t[0]], Insert(x, t[1..]), d);
      assert t == [t[0]] + t[1..];
      WithDateAppend([t[0]], t[1..], d);
    }
  }

  /** The sort is stable: items with equal publication times keep their
      encounter order. */
  lemma {:induction false} SortStable(s: seq<FeedItem>, d: int)
    ensures WithDate(SortNewestFirst(s), d) == WithDate(s, d)
  {
    if s != [] {
      SortStable(s[1..], d);
      InsertStable(s[0], SortNewestFirst(s[1..]), d);
    }
  }

  /** Equal publication times and sortedness pin the order down: any list
      sorted newest first with the same items at each time is the sort's result. */
  lemma {:induction false} NewestFirstUnique(a: seq<FeedItem>, b: seq<FeedItem>)
    requires NewestFirst(a) && NewestFirst(b)
    requires forall d :: WithDate(a, d) == WithDate(b, d)
    ensures a == b
    decreases |a| + |b|
  {
    if a != [] && b != [] {
      var da, db := a[0].publishedDate, b[0].publishedDate;
      WithDateHead(a);
      WithDateHead(b);
      if da < db {
        assert WithDate(b, db) != [];
        WithDateBelow(a, db);
      } else if db < da {
        assert WithDate(a, da) != [];
        WithDateBelow(b, da);
      } else {
        assert a[0] == WithDate(a, da)[0] == WithDate(b, db)[0] == b[0];
        forall d ensures WithDate(a[1..], d) == WithDate(b[1..], d) {
          var h := if da == d then [a[0]] else [];
          assert WithDate(a, d) == h + WithDate(a[1..], d);
          assert WithDate(b, d) == h + WithDate(b[1..], d);
          assert WithDate(a, d) == WithDate(b, d);
          assert (h + WithDate(a[1..], d))[|h|..] == WithDate(a[1..], d);
          assert (h + WithDate(b[1..], d))[|h|..] == WithDate(b[1..], d);
        }
        NewestFirstUnique(a[1..], b[1..]);
        assert a == [a[0]] + a[1..] && b == [b[0]] + b[1..];
      }
    } else if a != [] {
      WithDateHead(a);
    } else if b != [] {
      WithDateHead(b);
    }
  }

  lemma WithDateHead(s: seq<FeedItem>)
    requires s != []
    ensures WithDate(s, s[0].publishedDate) != [] && WithDate(s, s[0].publishedDate)[0] == s[0]
  {
  }

  lemma {:induction false} WithDateBelow(s: seq<FeedItem>, d: int)
    requires NewestFirst(s) && s != [] && s[0].publishedDate < d
    ensures WithDate(s, d) == []
  {
    if |s| > 1 {
      WithDateBelow(s[1..], d);
    }
  }

  /** `it` is the item made from some qualifying entry among `es` of feed `f`. */
  ghost predicate FromEntries(it: FeedItem, f: Feed, es: seq<Entry>, startAt: int, getText: string -> string) {
    exists j :: 0 <= j < |es| && Qualifies(es[j], startAt) && it == ToFeedItem(f, es[j], getText)
  }

  /** `it` is the item made from some qualifying entry of some feed. */
  ghost predicate FromFeeds(it: FeedItem, feeds: seq<Feed>, startAt: int, getText: string -> string) {
    exists i, j :: (0 <= i < |feeds| && 0 <= j < |feeds[i].entries|
      && Qualifies(feeds[i].entries[j], startAt) && it == ToFeedItem(feeds[i], feeds[i].entries[j], getText))
  }

  lemma {:induction false} EntryItemsFrom(f: Feed, es: seq<Entry>, startAt: int, getText: string -> string)
    ensures forall k :: 0 <= k < |EntryItems(f, es, startAt, getText)| ==>
      FromEntries(EntryItems(f, es, startAt, getText)[k], f, es, startAt, getText)
  {
    if es != [] {
      var es' := es[..|es| - 1];
      EntryItemsFrom(f, es', startAt, getText);
      var r' := EntryItems(f, es', startAt, getText);
      var r := EntryItems(f, es, startAt, getText);
      forall k | 0 <= k < |r| ensures FromEntries(r[k], f, es, startAt, getText) {
        if k < |r'| {
          assert r[k] == r'[k];
          assert FromEntries(r'[k], f, es', startAt, getText);
          var j :| 0 <= j < |es'| && Qualifies(es'[j], startAt) && r'[k] == ToFeedItem(f, es'[j], getText);
          assert es'[j] == es[j];
        } else {
          assert r[k] == ToFeedItem(f, es[|es| - 1], getText);
        }
      }
    }
  }

  lemma {:induction false} EntryItemsComplete(f: Feed, es: seq<Entry>, startAt: int, getText: string -> string, j: nat)
    requires j < |es| && Qualifies(es[j], startAt)
    ensures ToFeedItem(f, es[j], getText) in EntryItems(f, es, startAt, getText)
  {
    if j < |es| - 1 {
      EntryItemsComplete(f, es[..|es| - 1], startAt, getText, j);
      assert es[..|es| - 1][j] == es[j];
    }
  }

  lemma {:induction false} EntryItemsCount(f: Feed, es: seq<Entry>, startAt: int, getText: string -> string)
    ensures |EntryItems(f, es, startAt, getText)| == CountQualifying(es, startAt)
  {
    if es != [] {
      EntryItemsCount(f, es[..|es| - 1], startAt, getText);
      CountQualifyingSnoc(es[..|es| - 1], es[|es| - 1], startAt);
      assert es[..|es| - 1] + [es[|es| - 1]] == es;
    }
  }

  lemma {:induction false} CountQualifyingSnoc(es: seq<Entry>, e: Entry, startAt: int)
    ensures CountQualifying(es + [e], startAt) == CountQualifying(es, startAt) + (if Qualifies(e, startAt) then 1 else 0)
  {
    if es != [] {
      assert (es + [e])[1..] == es[1..] + [e];
      CountQualifyingSnoc(es[1..], e, startAt);
    }
  }

  lemma {:induction false} QualifyingCountSnoc(feeds: seq<Feed>, f: Feed, startAt: int)
    ensures QualifyingCount(feeds + [f], startAt) == QualifyingCount(feeds, startAt) + CountQualifying(f.entries, startAt)
  {
    if feeds != [] {
      assert (feeds + [f])[1..] == feeds[1..] + [f];
      QualifyingCountSnoc(feeds[1..], f, startAt);
    }
  }

  /** As many items as qualifying entries. */
  lemma {:induction false} CollectedCount(feeds: seq<Feed>, startAt: int, getText: string -> string)
    ensures |Collected(feeds, startAt, getText)| == QualifyingCount(feeds, startAt)
  {
    if feeds != [] {
      var f := feeds[|feeds| - 1];
      CollectedCount(feeds[..|feeds| - 1], startAt, getText);
      EntryItemsCount(f, f.entries, startAt, getText);
      QualifyingCountSnoc(feeds[..|feeds| - 1], f, startAt);
      assert feeds[..|feeds| - 1] + [f] == feeds;
    }
  }

  /** Every collected item is the projection of a qualifying entry of one of
      the feeds, carrying that feed's metadata. */
  lemma {:induction false} CollectedFrom(feeds: seq<Feed>, startAt: int, getText: string -> string)
    ensures forall k :: 0 <= k < |Collected(feeds, startAt, getText)| ==>
      FromFeeds(Collected(feeds, startAt, getText)[k], feeds, startAt, getText)
  {
    if feeds != [] {
      var n := |feeds| - 1;
      var f := feeds[n];
      var fs := feeds[..n];
      CollectedFrom(fs, startAt, getText);
      EntryItemsFrom(f, f.entries, startAt, getText);
      var c' := Collected(fs, startAt, getText);
      var e := EntryItems(f, f.entries, startAt, getText);
      var c := Collected(feeds, startAt, getText);
      assert c == c' + e;
      forall k | 0 <= k < |c| ensures FromFeeds(c[k], feeds, startAt, getText) {
        if k < |c'| {
          assert c[k] == c'[k];
          assert FromFeeds(c'[k], fs, startAt, getText);
          var i, j :| 0 <= i < |fs| && 0 <= j < |fs[i].entries|
            && Qualifies(fs[i].entries[j], startAt) && c'[k] == ToFeedItem(fs[i], fs[i].entries[j], getText);
          assert fs[i] == feeds[i];
        } else {
          assert c[k] == e[k - |c'|];
          assert FromEntries(e[k - |c'|], f, f.entries, startAt, getText);
          var j :| 0 <= j < |f.entries| && Qualifies(f.entries[j], startAt) && e[k - |c'|] == ToFeedItem(f, f.entries[j], getText);
          assert feeds[n] == f;
        }
      }
    }
  }

  /** Every qualifying entry of every feed is collected. */
  lemma {:induction false} CollectedComplete(feeds: seq<Feed>, startAt: int, getText: string -> string, i: nat, j: nat)
    requires i < |feeds| && j < |feeds[i].entries| && Qualifies(feeds[i].entries[j], startAt)
    ensures ToFeedItem(feeds[i], feeds[i].entries[j], getText) in Collected(feeds, startAt, getText)
  {
    var n := |feeds| - 1;
    if i < n {
      CollectedComplete(feeds[..n], startAt, getText, i, j);
      assert feeds[..n][i] == feeds[i];
    } else {
      EntryItemsComplete(feeds[n], feeds[n].entries, startAt, getText, j);
    }
  }

  /** `aggregate_feeds`: walks every entry of every feed, keeps those whose
      parsed publication time is at or after `startAt`, copies the feed's
      metadata onto each, and sorts the result newest first. */
  method AggregateFeeds(feeds: seq<Feed>, startAt: int, getText: string -> string) returns (items: seq<FeedItem>)
    ensures items == SortNewestFirst(Collected(feeds, startAt, getText))
    ensures |items| == QualifyingCount(feeds, startAt)
    ensures NewestFirst(items)
    ensures forall k :: 0 <= k < |items| ==> items[k].publishedDate >= startAt
    ensures forall k :: 0 <= k < |items| ==> FromFeeds(items[k], feeds, startAt, getText)
    ensures forall i, j :: (0 <= i < |feeds| && 0 <= j < |feeds[i].entries| && Qualifies(feeds[i].entries[j], startAt)
      ==> ToFeedItem(feeds[i], feeds[i].entries[j], getText) in items)
  {
    var allFeedItems := CollectFeedItems(feeds, startAt, getText);
    items := SortNewestFirst(allFeedItems);
    AggregateFacts(feeds, startAt, getText);
  }

  /** The two loops of `aggregate_feeds` that build the unsorted list: feed by
      feed, entry by entry, one item per qualifying entry. */
  method CollectFeedItems(feeds: seq<Feed>, startAt: int, getText: string -> string) returns (allFeedItems: seq<FeedItem>)
    ensures allFeedItems == Collected(feeds, startAt, getText)
  {
    allFeedItems := [];
    for i := 0 to |feeds|
      invariant allFeedItems == Collected(feeds[..i], startAt, getText)
    {
      var feed := feeds[i];
      for j := 0 to |feed.entries|
        invariant allFeedItems == Collected(feeds[..i], startAt, getText) + EntryItems(feed, feed.entries[..j], startAt, getText)
      {
        var entry := feed.entries[j];
        var publishedDate: Option<int> := None;
        if entry.publishedParsed.Some? {
          publishedDate := Some(entry.publishedParsed.value);
        }
        EntryStep(feed, feed.entries, j, startAt, getText);
        if publishedDate.Some? && publishedDate.value >= startAt {
          var feedItem := FeedItem(entry.title, entry.link, entry.published, publishedDate.value,
                                   Text.CleanHtml(getText, entry.summary), Text.CleanHtml(getText, entry.content),
                                   feed.title, feed.link, feed.category);
          allFeedItems := allFeedItems + [feedItem];
        }
      }
      assert feed.entries[..|feed.entries|] == feed.entries;
      assert feeds[..i + 1][..i] == feeds[..i];
    }
    assert feeds[..|feeds|] == feeds;
  }

  /** One more entry adds its item exactly when it qualifies. */
  lemma EntryStep(f: Feed, es: seq<Entry>, j: nat, startAt: int, getText: string -> string)
    requires j < |es|
    ensures EntryItems(f, es[..j + 1], startAt, getText) == EntryItems(f, es[..j], startAt, getText)
      + (if Qualifies(es[j], startAt) then [ToFeedItem(f, es[j], getText)] else [])
  {
    assert es[..j + 1][..j] == es[..j];
  }

  /** What the sorted collection promises: its size, its provenance and its
      completeness, carried over from the unsorted collection by the permutation. */
  lemma AggregateFacts(feeds: seq<Feed>, startAt: int, getText: string -> string)
    ensures var items := SortNewestFirst(Collected(feeds, startAt, getText));
      |items| == QualifyingCount(feeds, startAt)
      && (forall k :: 0 <= k < |items| ==> items[k].publishedDate >= startAt)
      && (forall k :: 0 <= k < |items| ==> FromFeeds(items[k], feeds, startAt, getText))
      && (forall i, j :: (0 <= i < |feeds| && 0 <= j < |feeds[i].entries| && Qualifies(feeds[i].entries[j], startAt)
        ==> ToFeedItem(feeds[i], feeds[i].entries[j], getText) in items))
  {
    var c := Collected(feeds, startAt, getText);
    var items := SortNewestFirst(c);
    CollectedCount(feeds, startAt, getText);
    CollectedFrom(feeds, startAt, getText);
    forall k | 0 <= k < |items| ensures FromFeeds(items[k], feeds, startAt, getText) && items[k].publishedDate >= startAt {
      assert items[k] in multiset(c);
      var m :| 0 <= m < |c| && c[m] == items[k];
      assert FromFeeds(c[m], feeds, startAt, getText);
    }
    forall i, j | 0 <= i < |feeds| && 0 <= j < |feeds[i].entries| && Qualifies(feeds[i].entries[j], startAt)
      ensures ToFeedItem(feeds[i], feeds[i].entries[j], getText) in items
    {
      CollectedComplete(feeds, startAt, getText, i, j);
      assert ToFeedItem(feeds[i], feeds[i].entries[j], getText) in multiset(items);
    }
  }

  // ---------------------------------------------------------------------------
  // Bookmark counts, fetched in batches

  const HatenaChunkSize := 50

  /** The links of the aggregated items, the keys of both enrichment lookups. */
  function ItemLinks(items: seq<FeedItem>): (r: seq<string>)
    ensures |r| == |items| && forall k :: 0 <= k < |r| ==> r[k] == items[k].link
  {
    seq(|items|, k requires 0 <= k < |items| => items[k].link)
  }

  /** `urls[i:]` with Python's clamping of an index past the end. */
  function Drop(urls: seq<string>, i: nat): seq<string> {
    if i >= |urls| then [] else urls[i..]
  }

  /** The batches `urls[i:i+50]` for `i` in `range(0, len(urls), 50)`. */
  function Chunks(urls: seq<string>): seq<seq<string>>
    decreases |urls|
  {
    if urls == [] then []
    else if |urls| <= HatenaChunkSize then [urls]
    else [urls[..HatenaChunkSize]] + Chunks(urls[HatenaChunkSize..])
  }

  function Flatten(cs: seq<seq<string>>): seq<string> {
    if cs == [] then [] else cs[0] + Flatten(cs[1..])
  }

  /** The batches put back together are the link list. */
  lemma {:induction false} ChunksFlatten(urls: seq<string>)
    ensures Flatten(Chunks(urls)) == urls
    decreases |urls|
  {
    if |urls| > HatenaChunkSize {
      ChunksFlatten(urls[HatenaChunkSize..]);
      assert urls == urls[..HatenaChunkSize] + urls[HatenaChunkSize..];
    }
  }

  /** There are ceil(n / 50) batches; batch `k` is `urls[50k : 50k + 50]`,
      non-empty, and only the last may hold fewer than 50 links. */
  lemma ChunksShape(urls: seq<string>)
    ensures |Chunks(urls)| == (|urls| + HatenaChunkSize - 1) / HatenaChunkSize
    ensures forall k :: 0 <= k < |Chunks(urls)| ==>
      var lo := HatenaChunkSize * k;
      lo < |urls| && Chunks(urls)[k] == urls[lo..Min(lo + HatenaChunkSize, |urls|)]
    ensures forall k :: 0 <= k < |Chunks(urls)| ==> 0 < |Chunks(urls)[k]| <= HatenaChunkSize
    ensures forall k :: 0 <= k < |Chunks(urls)| - 1 ==> |Chunks(urls)[k]| == HatenaChunkSize
  {
    var cs, n := Chunks(urls), |urls|;
    ChunksCount(urls);
    ChunkSlices(urls);
    forall k | 0 <= k < |cs|
      ensures var lo := HatenaChunkSize * k;
        lo < n && cs[k] == urls[lo..Min(lo + HatenaChunkSize, n)]
      ensures 0 < |cs[k]| <= HatenaChunkSize
      ensures k < |cs| - 1 ==> |cs[k]| == HatenaChunkSize
    {
      assert ChunkIsSlice(urls, k);
      if k < |cs| - 1 {
        assert HatenaChunkSize * |cs| <= n + HatenaChunkSize - 1;
        assert HatenaChunkSize * k + HatenaChunkSize <= n;
      }
    }
  }

  lemma {:induction false} ChunksCount(urls: seq<string>)
    ensures |Chunks(urls)| == (|urls| + HatenaChunkSize - 1) / HatenaChunkSize
    decreases |urls|
  {
    if |urls| > HatenaChunkSize {
      var rest := urls[HatenaChunkSize..];
      assert |rest| + HatenaChunkSize - 1 == |urls| - 1;
      ChunksCount(rest);
    }
  }

  /** Batch `k` holds the links from 50k up to 50k + 50 (or the end). */
  ghost predicate ChunkIsSlice(urls: seq<string>, k: nat)
    requires k < |Chunks(urls)|
  {
    var lo := HatenaChunkSize * k;
    lo < |urls| && Chunks(urls)[k] == urls[lo..Min(lo + HatenaChunkSize, |urls|)]
  }

  lemma {:induction false} ChunkSlices(urls: seq<string>)
    ensures forall k :: 0 <= k < |Chunks(urls)| ==> ChunkIsSlice(urls, k)
    decreases |urls|
  {
    if |urls| > HatenaChunkSize {
      var rest := urls[HatenaChunkSize..];
      ChunkSlices(rest);
      forall k | 0 <= k < |Chunks(urls)| ensures ChunkIsSlice(urls, k) {
        if k == 0 {
          FirstChunk(urls);
        } else {
          LaterChunk(urls, k);
        }
      }
    } else if urls != [] {
      assert Chunks(urls) == [urls];
      forall k | 0 <= k < 1 ensures ChunkIsSlice(urls, k) {
        assert HatenaChunkSize * k == 0 && Min(HatenaChunkSize, |urls|) == |urls|;
        assert urls[0..|urls|] == urls;
      }
    }
  }

  lemma FirstChunk(urls: seq<string>)
    requires |urls| > HatenaChunkSize
    ensures |Chunks(urls)| > 0 && ChunkIsSlice(urls, 0)
  {
    assert Chunks(urls) == [urls[..HatenaChunkSize]] + Chunks(urls[HatenaChunkSize..]);
    assert HatenaChunkSize * 0 == 0 && Min(HatenaChunkSize, |urls|) == HatenaChunkSize;
    assert urls[..HatenaChunkSize] == urls[0..HatenaChunkSize];
  }

  lemma LaterChunk(urls: seq<string>, k: nat)
    requires |urls| > HatenaChunkSize
    requires 0 < k < |Chunks(urls)|
    requires k - 1 < |Chunks(urls[HatenaChunkSize..])| && ChunkIsSlice(urls[HatenaChunkSize..], k - 1)
    ensures ChunkIsSlice(urls, k)
  {
    var rest, cs := urls[HatenaChunkSize..], Chunks(urls);
    assert cs == [urls[..HatenaChunkSize]] + Chunks(rest);
    var lo, lo' := HatenaChunkSize * k, HatenaChunkSize * (k - 1);
    var hi' := Min(lo' + HatenaChunkSize, |rest|);
    assert lo == HatenaChunkSize + lo' && HatenaChunkSize + hi' == Min(lo + HatenaChunkSize, |urls|);
    assert cs[k] == Chunks(rest)[k - 1] == rest[lo'..hi'];
    SliceOfTail(urls, HatenaChunkSize, lo', hi');
  }

  /** A slice of a suffix is a slice of the whole, shifted by where the suffix starts. */
  lemma SliceOfTail(s: seq<string>, d: nat, a: nat, b: nat)
    requires d <= |s| && a <= b <= |s| - d
    ensures s[d..][a..b] == s[d + a..d + b]
  {
    assert forall i :: 0 <= i < b - a ==> s[d..][a..b][i] == s[d + a + i];
  }

  /** The example of a batch split: 120 links make batches of 50, 50 and 20. */
  lemma ChunksOf120(urls: seq<string>)
    requires |urls| == 120
    ensures |Chunks(urls)| == 3
    ensures |Chunks(urls)[0]| == 50 && |Chunks(urls)[1]| == 50 && |Chunks(urls)[2]| == 20
  {
    ChunksShape(urls);
  }

  /** One batch's response was a success that mentions `url`. */
  predicate Responded(fetch: seq<string> -> Option<CountMap>, chunk: seq<string>, url: string) {
    fetch(chunk).Some? && url in fetch(chunk).value
  }

  /** A successful batch overwrites the counts it returns; a failed one adds nothing. */
  function MergeResponse(acc: CountMap, response: Option<CountMap>): CountMap {
    match response
    case None => acc
    case Some(data) => acc + data
  }

  /** The batches processed in order, starting from `acc`. */
  function MergeAll(acc: CountMap, chunks: seq<seq<string>>, fetch: seq<string> -> Option<CountMap>): CountMap
    decreases |chunks|
  {
    if chunks == [] then acc else MergeAll(MergeResponse(acc, fetch(chunks[0])), chunks[1..], fetch)
  }

  /** The count map `fetch_hatena_count_map` builds for a list of links. */
  function HatenaCounts(urls: seq<string>, fetch: seq<string> -> Option<CountMap>): CountMap {
    MergeAll(map[], Chunks(urls), fetch)
  }

  /** Every key some successful batch returned. */
  function ResponseKeys(chunks: seq<seq<string>>, fetch: seq<string> -> Option<CountMap>): set<string> {
    if chunks == [] then {}
    else (if fetch(chunks[0]).Some? then fetch(chunks[0]).value.Keys else {}) + ResponseKeys(chunks[1..], fetch)
  }

  lemma {:induction false} ResponseKeysMeaning(chunks: seq<seq<string>>, fetch: seq<string> -> Option<CountMap>, url: string)
    ensures url in ResponseKeys(chunks, fetch) <==> exists j :: 0 <= j < |chunks| && Responded(fetch, chunks[j], url)
  {
    if chunks != [] {
      ResponseKeysMeaning(chunks[1..], fetch, url);
      if url in ResponseKeys(chunks[1..], fetch) {
        var j :| 0 <= j < |chunks[1..]| && Responded(fetch, chunks[1..][j], url);
        assert chunks[1..][j] == chunks[j + 1];
      }
      if exists j :: 0 <= j < |chunks| && Responded(fetch, chunks[j], url) {
        var j :| 0 <= j < |chunks| && Responded(fetch, chunks[j], url);
        if j > 0 { assert chunks[1..][j - 1] == chunks[j]; }
      }
    }
  }

  /** The merged map holds exactly the starting keys and the keys of successful responses. */
  lemma {:induction false} MergeAllKeys(acc: CountMap, chunks: seq<seq<string>>, fetch: seq<string> -> Option<CountMap>)
    ensures MergeAll(acc, chunks, fetch).Keys == acc.Keys + ResponseKeys(chunks, fetch)
    decreases |chunks|
  {
    if chunks != [] {
      MergeAllKeys(MergeResponse(acc, fetch(chunks[0])), chunks[1..], fetch);
    }
  }

  lemma {:induction false} MergeAllKeepsUntouched(acc: CountMap, chunks: seq<seq<string>>, fetch: seq<string> -> Option<CountMap>, url: string)
    requires url in acc && url !in ResponseKeys(chunks, fetch)
    ensures url in MergeAll(acc, chunks, fetch) && MergeAll(acc, chunks, fetch)[url] == acc[url]
    decreases |chunks|
  {
    if chunks != [] {
      MergeAllKeepsUntouched(MergeResponse(acc, fetch(chunks[0])), chunks[1..], fetch, url);
    }
  }

  /** A link's count is the one given by the LAST successful batch that returned it. */
  lemma {:induction false} MergeAllLastWins(acc: CountMap, chunks: seq<seq<string>>, fetch: seq<string> -> Option<CountMap>, url: string)
    requires url in ResponseKeys(chunks, fetch)
    ensures url in MergeAll(acc, chunks, fetch)
    ensures exists j :: (0 <= j < |chunks| && Responded(fetch, chunks[j], url)
      && MergeAll(acc, chunks, fetch)[url] == fetch(chunks[j]).value[url]
      && forall j' :: j < j' < |chunks| ==> !Responded(fetch, chunks[j'], url))
    decreases |chunks|
  {
    var acc' := MergeResponse(acc, fetch(chunks[0]));
    MergeAllKeys(acc, chunks, fetch);
    if url in ResponseKeys(chunks[1..], fetch) {
      MergeAllLastWins(acc', chunks[1..], fetch, url);
      var j :| 0 <= j < |chunks[1..]| && Responded(fetch, chunks[1..][j], url)
        && MergeAll(acc', chunks[1..], fetch)[url] == fetch(chunks[1..][j]).value[url]
        && forall j' :: j < j' < |chunks[1..]| ==> !Responded(fetch, chunks[1..][j'], url);
      assert chunks[1..][j] == chunks[j + 1];
      forall j' | j + 1 < j' < |chunks| ensures !Responded(fetch, chunks[j'], url) {
        assert chunks[1..][j' - 1] == chunks[j'];
      }
    } else {
      assert Responded(fetch, chunks[0], url);
      MergeAllKeepsUntouched(acc', chunks[1..], fetch, url);
      ResponseKeysMeaning(chunks[1..], fetch, url);
      forall j' | 0 < j' < |chunks| ensures !Responded(fetch, chunks[j'], url) {
        assert chunks[1..][j' - 1] == chunks[j'];
      }
    }
  }

  /** `fetch_hatena_count_map`: asks for the counts of the item links 50 at a
      time and records every count a successful batch returns; a failed
      batch (`fetch` gives None) is skipped. */
  method FetchHatenaCountMap(feedItems: seq<FeedItem>, fetch: seq<string> -> Option<CountMap>) returns (hatenaCountMap: CountMap)
    ensures hatenaCountMap == HatenaCounts(ItemLinks(feedItems), fetch)
    ensures hatenaCountMap.Keys == ResponseKeys(Chunks(ItemLinks(feedItems)), fetch)
  {
    var urls := ItemLinks(feedItems);
    hatenaCountMap := map[];
    var i := 0;
    while i < |urls|
      invariant MergeAll(hatenaCountMap, Chunks(Drop(urls, i)), fetch) == HatenaCounts(urls, fetch)
      decreases |urls| - i
    {
      var chunkUrls := urls[i..Min(i + HatenaChunkSize, |urls|)];
      ChunksAt(urls, i);
      var response := fetch(chunkUrls);
      if response.Some? {
        hatenaCountMap := Update(hatenaCountMap, response.value);
      }
      i := i + HatenaChunkSize;
    }
    MergeAllKeys(map[], Chunks(urls), fetch);
  }

  /** The batches from position `i` on: the batch starting at `i`, then those after it. */
  lemma ChunksAt(urls: seq<string>, i: nat)
    requires i < |urls|
    ensures Chunks(Drop(urls, i))
      == [urls[i..Min(i + HatenaChunkSize, |urls|)]] + Chunks(Drop(urls, i + HatenaChunkSize))
  {
    var rest := urls[i..];
    assert Drop(urls, i) == rest;
    if |rest| > HatenaChunkSize {
      assert rest[..HatenaChunkSize] == urls[i..i + HatenaChunkSize];
      assert rest[HatenaChunkSize..] == Drop(urls, i + HatenaChunkSize);
    } else {
      assert rest == urls[i..Min(i + HatenaChunkSize, |urls|)];
      assert Drop(urls, i + HatenaChunkSize) == [];
    }
  }

  /** `dict.update`: the entries of `data` are written into `m` one at a time;
      a key already present takes its value from `data`. */
  method Update(m: CountMap, data: CountMap) returns (r: CountMap)
    ensures r == m + data
  {
    r := m;
    var pending := data.Keys;
    while pending != {}
      invariant pending <= data.Keys
      invariant r == m + map u | u in data.Keys - pending :: data[u]
      decreases pending
    {
      var url :| url in pending;
      r := r[url := data[url]];
      pending := pending - {url};
    }
    assert (map u | u in data.Keys - pending :: data[u]) == data;
  }
}
