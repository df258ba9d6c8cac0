/**
 * `load_feed_config`: the feed configuration maps each category to its list
 * of feed URLs, in the order the file lists them; the loader flattens it into
 * one list of sources, each tagged with its category. Reading and parsing the
 * TOML file is not modelled: `config` is the parsed table, or None when the
 * file could not be read or parsed.
 */
module Config {
  import opened FeedModel

  /** The sources of one category, in the order of its URLs. */
  function Tagged(category: string, urls: seq<string>): (r: seq<FeedInfo>)
    ensures |r| == |urls|
    ensures forall k :: 0 <= k < |r| ==> r[k] == FeedInfo(urls[k], category)
  {
    if urls == [] then []
    else Tagged(category, urls[..|urls| - 1]) + [FeedInfo(urls[|urls| - 1], category)]
  }

  /** The categories one after another, each contributing its sources. */
  function FlattenConfig(config: seq<(string, seq<string>)>): seq<FeedInfo> {
    if config == [] then []
    else FlattenConfig(config[..|config| - 1]) + Tagged(config[|config| - 1].0, config[|config| - 1].1)
  }

  /** The number of URLs in the configuration. */
  function UrlCount(config: seq<(string, seq<string>)>): nat {
    if config == [] then 0 else UrlCount(config[..|config| - 1]) + |config[|config| - 1].1|
  }

  /** `load_feed_config`: one source per URL, category by category; a
      configuration that could not be loaded gives no sources. */
  method LoadFeedConfig(config: Option<seq<(string, seq<string>)>>) returns (feedUrls: seq<FeedInfo>)
    ensures config.None? ==> feedUrls == []
    ensures config.Some? ==> feedUrls == FlattenConfig(config.value)
  {
    if config.None? {
      return [];
    }
    var table := config.value;
    feedUrls := [];
    for i := 0 to |table|
      invariant feedUrls == FlattenConfig(table[..i])
    {
      var (category, urls) := table[i];
      for j := 0 to |urls|
        invariant feedUrls == FlattenConfig(table[..i]) + Tagged(category, urls[..j])
      {
        assert urls[..j + 1][..j] == urls[..j];
        feedUrls := feedUrls + [FeedInfo(urls[j], category)];
      }
      assert urls[..|urls|] == urls;
      assert table[..i + 1][..i] == table[..i];
    }
    assert table[..|table|] == table;
  }

  /** Every URL of the configuration becomes exactly one source. */
  lemma {:induction false} FlattenConfigLength(config: seq<(string, seq<string>)>)
    ensures |FlattenConfig(config)| == UrlCount(config)
  {
    if config != [] {
      FlattenConfigLength(config[..|config| - 1]);
    }
  }

  /** A source is in the flattened list exactly when its URL is listed under
      its category. */
  lemma {:induction false} FlattenConfigMembership(config: seq<(string, seq<string>)>, url: string, category: string)
    ensures FeedInfo(url, category) in FlattenConfig(config)
      <==> exists i :: 0 <= i < |config| && Lists(config[i], url, category)
  {
    if config != [] {
      var n := |config| - 1;
      var front := config[..n];
      FlattenConfigMembership(front, url, category);
      TaggedMembership(config[n].0, config[n].1, url, category);
      assert FlattenConfig(config) == FlattenConfig(front) + Tagged(config[n].0, config[n].1);
      if exists i :: 0 <= i < |front| && Lists(front[i], url, category) {
        var i :| 0 <= i < |front| && Lists(front[i], url, category);
        assert config[i] == front[i];
      }
      if exists i :: 0 <= i < |config| && Lists(config[i], url, category) {
        var i :| 0 <= i < |config| && Lists(config[i], url, category);
        if i < n {
          assert front[i] == config[i];
        }
      }
    }
  }

  /** The configuration entry lists `url` under `category`. */
  predicate Lists(entry: (string, seq<string>), url: string, category: string) {
    entry.0 == category && url in entry.1
  }

  lemma TaggedMembership(c: string, urls: seq<string>, url: string, category: string)
    ensures FeedInfo(url, category) in Tagged(c, urls) <==> c == category && url in urls
  {
    var t := Tagged(c, urls);
    if FeedInfo(url, category) in t {
      var k :| 0 <= k < |t| && t[k] == FeedInfo(url, category);
      assert urls[k] == url;
    }
    if c == category && url in urls {
      var k :| 0 <= k < |urls| && urls[k] == url;
      assert t[k] == FeedInfo(url, category);
    }
  }
}
