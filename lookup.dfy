/**
 * Enrichment lookups by exact link string: Open Graph values and bookmark
 * counts. An OG fetch that failed leaves the link out of the map or maps it to
 * an empty object; every reader here treats the two alike.
 */
module Lookup {
  import opened FeedModel

  /** `dict.get(key, "")` on an OG object. */
  function Field(o: OgObject, key: string): string {
    if key in o then o[key] else ""
  }

  /** `get_hatena_count`: the count recorded for the link, 0 when none was fetched. */
  function GetHatenaCount(url: string, counts: CountMap): (r: int)
    ensures url in counts ==> r == counts[url]
    ensures url !in counts ==> r == 0
  {
    if url in counts then counts[url] else 0
  }

  /** The shape shared by `get_og_image_url` and `get_og_description`: the
      `key` value when that key is present (even if empty), else the
      `fallback` value, else ""; "" for a link without OG data. */
  function OgValue(url: string, og: OgMap, key: string, fallback: string): (r: string)
    ensures url !in og ==> r == ""
    ensures url in og && key in og[url] ==> r == og[url][key]
    ensures url in og && key !in og[url] ==> r == Field(og[url], fallback)
  {
    if url in og then
      var ogData := og[url];
      if key in ogData then ogData[key]
      else if fallback in ogData then ogData[fallback]
      else ""
    else ""
  }

  /** `get_og_image_url`: "ogImage", else "image". */
  function GetOgImageUrl(url: string, og: OgMap): string {
    OgValue(url, og, "ogImage", "image")
  }

  /** `get_og_description`: "ogDescription", else "description". */
  function GetOgDescription(url: string, og: OgMap): string {
    OgValue(url, og, "ogDescription", "description")
  }

  /** The image lookup inlined in the aggregated-feed projection:
      `og.get("ogImage", "") or og.get("image", "")`, so an EMPTY "ogImage"
      also falls through to "image". */
  function OgImageOrFallback(url: string, og: OgMap): (r: string)
    ensures url !in og ==> r == ""
    ensures url in og && Field(og[url], "ogImage") != "" ==> r == og[url]["ogImage"]
    ensures url in og && Field(og[url], "ogImage") == "" ==> r == Field(og[url], "image")
  {
    if url in og then
      var ogData := og[url];
      var image := Field(ogData, "ogImage");
      if image != "" then image else Field(ogData, "image")
    else ""
  }

  /** A link missing from the OG map reads exactly like a link mapped to an
      empty object, for every OG reader, and gives "". */
  lemma OgAbsentLikeEmpty(url: string, og: OgMap)
    requires url !in og
    ensures var og' := og[url := map[]];
      GetOgImageUrl(url, og) == GetOgImageUrl(url, og') == ""
      && GetOgDescription(url, og) == GetOgDescription(url, og') == ""
      && OgImageOrFallback(url, og) == OgImageOrFallback(url, og') == ""
  {
    var og' := og[url := map[]];
    assert og'[url] == map[];
    assert "ogImage" !in og'[url] && "image" !in og'[url];
  }

  /** The two image lookups differ only on an object whose "ogImage" key is
      present but empty. */
  lemma ImageLookupsAgree(url: string, og: OgMap)
    ensures GetOgImageUrl(url, og) == OgImageOrFallback(url, og)
        <== url !in og || "ogImage" !in og[url] || og[url]["ogImage"] != ""
    ensures GetOgImageUrl(url, og) != OgImageOrFallback(url, og)
        <== url in og && "ogImage" in og[url] && og[url]["ogImage"] == "" && Field(og[url], "image") != ""
  {
  }
}
