/** PolygonScraper: a ladder of listing paths, and the shared article shape. */
module Polygon {
  import opened Wrappers
  import opened Text
  import opened Ladders
  import Html
  import Links
  import PlainArticle

  const Base := "https://www.polygon.com"
  const Name := "Polygon"

  /** The hard-coded URLs used when no listing path yields a link. */
  const Fallback: seq<string> := [
    "https://www.polygon.com/gaming/567454/blizzard-diablo-4-immortal-berserk-crossover-interview-lead-artists",
    "https://www.polygon.com/what-to-play/24151983/best-cozy-games-play-nintendo-switch-steam-playstation-xbox-pc",
    "https://www.polygon.com/gaming/582474/zelda-breath-of-the-wild-switch-2-speedrun",
    "https://www.polygon.com/news/576255/fortnite-ios-app-store-return-court-ruling",
    "https://www.polygon.com/gaming/564148/best-new-game-releases-may-2025"
  ]

  /** get_article_urls: a match that is itself an `<a>` gives its own href; otherwise
    * the first link selector with an href; duplicates are skipped; `limit = None`
    * means no cap. */
  const Site := Links.LinkSite(
    Base,
    Links.Paths(["/news", "/", "/gaming", "/games"], Fallback),
    ["div.c-entry-box--compact", "article", "div.c-entry-box", "div.c-compact-river__entry",
     "div.l-hero", "div.c-entry-box--compact--article", "a[data-analytics-link='article']"],
    Links.LinkRule(false, [], true,
                   ["h2.c-entry-box--compact__title a", "h2 a", "a.c-entry-box--compact__image-wrapper",
                    "a[href*='/20']", "a"],
                   false, true),
    Links.NoneMeansAll)

  /** scrape_article */
  const Recipe := PlainArticle.Recipe(
    Name,
    ["h1.c-page-title", "h1.p-entry-title", "h1.c-entry-title", "h1"],
    ["div.c-entry-hero img", "figure.e-image img", "div.c-picture img", "img.c-picture__image",
     "picture img", "img[data-chorus-optimize-field='main_image']"],
    ["polygon", "/uploads/"],
    ["div.c-entry-content", "div.entry-content", "div.c-entry-content", "article", "div.c-entry"],
    ["main", "article", "div.l-wrapper"])

  lemma FallbackDistinct()
    ensures NoDuplicates(Fallback)
  {
    var f := Fallback;
    assert |f[0]| == 105 && |f[1]| == 108 && |f[2]| == 80 && |f[3]| == 78 && |f[4]| == 69;
  }

  /** get_article_urls never fails; it returns distinct absolute links, at most `limit`
    * of them when a limit is given, each collected from a listing page or taken from
    * the hard-coded list. */
  lemma ArticleUrlsFacts(web: Html.Web, limit: Option<int>)
    ensures var r := Links.ArticleUrls(Site, web, limit);
      r.Ok? && NoDuplicates(r.value)
      && (limit.Some? && 0 <= limit.value ==> |r.value| <= limit.value)
      && forall i :: 0 <= i < |r.value| ==> StartsWith(r.value[i], "http") || r.value[i] in Fallback
  {
    Links.UrlsRaise(Site, web, limit);
    Links.UrlsOrigin(Site, web, limit);
    FallbackDistinct();
    Links.UrlsDistinct(Site, web, limit);
  }
}
