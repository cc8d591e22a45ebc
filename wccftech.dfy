/** WCCFTechScraper: a ladder of listing paths compared with `limit` unguarded, and the
  * shared article shape. */
module Wccftech {
  import opened Wrappers
  import opened Text
  import opened Ladders
  import Html
  import Links
  import PlainArticle

  const Base := "https://wccftech.com"
  const Name := "WCCFTech"

  /** The hard-coded URLs used when no listing path yields a link. */
  const Fallback: seq<string> := [
    "https://wccftech.com/xbox-price-increase-2024-series-x-s-games-accessories/",
    "https://wccftech.com/nintendo-switch-2-games-price-increase/",
    "https://wccftech.com/elden-ring-shadow-of-the-erdtree-release-date-trailer/",
    "https://wccftech.com/call-of-duty-black-ops-6-release-date-trailer/",
    "https://wccftech.com/gta-6-release-date-trailer/"
  ]

  /** get_article_urls: the first link selector with an href in each match; duplicates
    * are skipped; `len(article_links) >= limit` is evaluated even when `limit` is None. */
  const Site := Links.LinkSite(
    Base,
    Links.Paths(["/topic/games", "/", "/category/games", "/news"], Fallback),
    ["article.post", "article", "div.post", "div.article", "div.news-item", "div.entry"],
    Links.LinkRule(false, [], false, ["h2.entry-title a", "h2 a", "h3 a", "a.title", "a[href*='/20']"],
                   false, true),
    Links.Compares)

  /** scrape_article */
  const Recipe := PlainArticle.Recipe(
    Name,
    ["h1.entry-title", "h1.title", "h1.post-title", "h1"],
    ["div.entry-content img", "div.featured-image img", "div.post-thumbnail img", "img.wp-post-image",
     "picture img", "div.featured img"],
    ["wccftech", "/wp-content/"],
    ["div.entry-content", "div.post-content", "div.article-content", "article", "div.content"],
    ["main", "article", "div.post"])

  lemma FallbackDistinct()
    ensures NoDuplicates(Fallback)
  {
    var f := Fallback;
    assert |f[0]| == 75 && |f[1]| == 60 && |f[2]| == 75 && |f[3]| == 67 && |f[4]| == 48;
  }

  /** get_article_urls never fails; it returns distinct absolute links, at most `limit`
    * of them when a limit is given, each collected from a listing page or taken from
    * the hard-coded list. */
  lemma ArticleUrlsFacts(web: Html.Web, limit: Option<int>)
    ensures var r := Links.ArticleUrls(Site, web, limit);
      r.Ok? && NoDuplicates(r.value)
      && (limit.Some? && 0 <= limit.value ==> |r.value| <= limit.value)
      && forall i :: 0 <= i < |r.value| ==> StartsWith(r.value[i], "http") || r.value[i] in Fallback
  {
    Links.UrlsRaise(Site, web, limit);
    Links.UrlsOrigin(Site, web, limit);
    FallbackDistinct();
    Links.UrlsDistinct(Site, web, limit);
  }

  /** Without a limit every listing path raises TypeError inside its `try`, so the
    * result is always the whole hard-coded list. */
  lemma NoLimitGivesFallback(web: Html.Web)
    ensures Links.ArticleUrls(Site, web, None) == Ok(Fallback)
  {
    Links.ComparesWithoutLimit(Site, web);
  }
}
