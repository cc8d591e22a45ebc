/** EurogamerScraper: a ladder of listing paths whose matches are links themselves,
  * compared with `limit` unguarded, and the shared article shape. */
module Eurogamer {
  import opened Wrappers
  import opened Text
  import opened Ladders
  import Html
  import Links
  import PlainArticle

  const Base := "https://www.eurogamer.net"
  const Name := "Eurogamer"

  /** The hard-coded URLs used when no listing path yields a link. */
  const Fallback: seq<string> := [
    "https://www.eurogamer.net/prime-gaming-members-get-22-more-games-in-may",
    "https://www.eurogamer.net/amidst-layoffs-apex-legends-announces-new-season-25-legend-sparrow-and-return-of-arenas-1",
    "https://www.eurogamer.net/confirmed-xbox-console-prices-are-going-up-worldwide",
    "https://www.eurogamer.net/super-mario-wonder-captain-toad-and-wario-sets-join-nintendo-lego-range",
    "https://www.eurogamer.net/evil-dead-the-game-disappears-from-sale-after-three-years"
  ]

  /** get_article_urls: each match's own href, kept only when it mentions "/news/" or
    * "/articles/"; duplicates are skipped; `len(article_links) >= limit` is evaluated
    * even when `limit` is None. */
  const Site := Links.LinkSite(
    Base,
    Links.Paths(["/news", "/", "/articles", "/reviews"], Fallback),
    ["a[href*='/news/']", "a[href*='/articles/']", "div.article a", "h2 a", "article a", "a.article-link"],
    Links.LinkRule(true, ["/news/", "/articles/"], false, [], false, true),
    Links.Compares)

  /** scrape_article */
  const Recipe := PlainArticle.Recipe(
    Name,
    ["h1", "h1.article__title", "h1.title", "header h1"],
    ["figure img", "picture img", "img[src*='eurogamer']", "img.lead", "img.article__image",
     "div.article__image-container img"],
    ["eurogamer", "/images/"],
    ["div[class*='article__body']", "div.article__content", "div.content", "article", "div.article-body"],
    ["main", "article", "div.article"])

  lemma FallbackDistinct()
    ensures NoDuplicates(Fallback)
  {
    var f := Fallback;
    assert |f[0]| == 71 && |f[1]| == 115 && |f[2]| == 78 && |f[3]| == 97 && |f[4]| == 83;
  }

  /** get_article_urls never fails; it returns distinct links, at most `limit` of them
    * when a limit is given, each either an absolute link that mentions "/news/" or
    * "/articles/" or one of the hard-coded list. */
  lemma ArticleUrlsFacts(web: Html.Web, limit: Option<int>)
    ensures var r := Links.ArticleUrls(Site, web, limit);
      r.Ok? && NoDuplicates(r.value)
      && (limit.Some? && 0 <= limit.value ==> |r.value| <= limit.value)
      && forall i :: 0 <= i < |r.value| ==>
           (StartsWith(r.value[i], "http")
            && (Contains(r.value[i], "/news/") || Contains(r.value[i], "/articles/")))
           || r.value[i] in Fallback
  {
    var r := Links.ArticleUrls(Site, web, limit);
    Links.UrlsRaise(Site, web, limit);
    Links.UrlsOrigin(Site, web, limit);
    FallbackDistinct();
    Links.UrlsDistinct(Site, web, limit);
    forall i | 0 <= i < |r.value| && r.value[i] !in Fallback
      ensures Contains(r.value[i], "/news/") || Contains(r.value[i], "/articles/")
    {
      assert Links.MarkOk(Site.rule.hrefMarks, r.value[i]);
      var k :| 0 <= k < 2 && Contains(r.value[i], Site.rule.hrefMarks[k]);
    }
  }

  /** Without a limit every listing path raises TypeError inside its `try`, so the
    * result is always the whole hard-coded list. */
  lemma NoLimitGivesFallback(web: Html.Web)
    ensures Links.ArticleUrls(Site, web, None) == Ok(Fallback)
  {
    Links.ComparesWithoutLimit(Site, web);
  }
}
