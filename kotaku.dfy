/** KotakuScraper: the front page's posts, compared with `limit` unguarded, and an
  * article scraper over the site's generated class names. */
module Kotaku {
  import opened Wrappers
  import opened Text
  import opened Html
  import opened Ladders
  import opened Fields
  import Utils
  import Links

  const Base := "https://kotaku.com"
  const Name := "Kotaku"

  /** get_article_urls: each post's `a.js_link` with an href; no deduplication;
    * `len(article_links) >= limit` is evaluated even when `limit` is None, and nothing
    * catches the TypeError. */
  const Site := Links.LinkSite(
    Base,
    Links.Page(""),
    ["article.js_post_item"],
    Links.LinkRule(false, [], false, ["a.js_link"], false, false),
    Links.Compares)

  /** get_article_urls fails exactly when no limit is given and the front page was
    * fetched and holds a post; otherwise it returns absolute links, at most `limit`
    * of them. */
  lemma ArticleUrlsFacts(web: Web, limit: Option<int>)
    ensures var r := Links.ArticleUrls(Site, web, limit);
      (r.Err? <==> limit.None? && Fetch(web, Base).Some?
                   && Select(Fetch(web, Base).value, "article.js_post_item") != [])
      && (r.Ok? ==> (limit.Some? && 0 <= limit.value ==> |r.value| <= limit.value)
                    && forall i :: 0 <= i < |r.value| ==> StartsWith(r.value[i], "http"))
  {
    assert Base + "" == Base;
    Links.UrlsRaise(Site, web, limit);
    Links.UrlsOrigin(Site, web, limit);
    if Fetch(web, Base).Some? {
      Links.MatchesNone(Site, Fetch(web, Base).value);
    }
  }

  // ---------------------------------------------------------------------------
  // scrape_article
  // ---------------------------------------------------------------------------

  const TitleSel := "h1.sc-1efpnfq-0"
  const ImageSels: seq<string> := ["div.sc-1i9kpqh-0 img", "picture img"]
  const ContentSel := "div.sc-r43lxo-1"

  /** The raw text of the title heading, or "". */
  function Title(doc: Elem): string
  {
    match SelectOne(doc, TitleSel)
    case None => ""
    case Some(h) => h.text
  }

  /** The src of the first image tag found, or "". */
  function Image(doc: Elem): string
  {
    match FirstPresent(doc, ImageSels)
    case None => ""
    case Some(t) => GetOr(t, "src", "")
  }

  /** The paragraph texts of the content container, joined with spaces, or "". */
  function Content(doc: Elem): string
  {
    match SelectOne(doc, ContentSel)
    case None => ""
    case Some(d) => JoinTexts(Select(d, "p"))
  }

  /** Every paragraph of the content container appears in the content. */
  lemma ContentHoldsParagraphs(doc: Elem, k: int)
    requires SelectOne(doc, ContentSel).Some?
    requires 0 <= k < |Select(SelectOne(doc, ContentSel).value, "p")|
    ensures Contains(Content(doc), Select(SelectOne(doc, ContentSel).value, "p")[k].text)
  {
    JoinTextsHolds(Select(SelectOne(doc, ContentSel).value, "p"), k);
  }

  function DraftOf(doc: Elem, url: string): Draft
  {
    Draft(Title(doc), Image(doc), Content(doc), url, Name)
  }

  /** scrape_article: None when the page cannot be fetched or fails the gate. */
  function Article(web: Web, url: string): Option<Draft>
  {
    match Fetch(web, url)
    case None => None
    case Some(doc) => Gated(DraftOf(doc, url))
  }

  /** An article needs the title heading and an image tag whose src is an http(s)
    * URL; its image is that src. */
  lemma ArticleNeeds(web: Web, url: string)
    ensures var a := Article(web, url);
      a.Some? ==> url in web && SelectOne(web[url], TitleSel).Some?
                  && FirstPresent(web[url], ImageSels).Some?
                  && a.value.imageUrl == GetOr(FirstPresent(web[url], ImageSels).value, "src", "")
                  && Utils.IsValidImageUrl(a.value.imageUrl)
  {
  }

  method ScrapeArticle(web: Web, url: string) returns (a: Option<Draft>)
    ensures a == Article(web, url)
  {
    var page := Fetch(web, url);
    if page.None? {
      return None;
    }
    var doc := page.value;
    var title := "";
    var h := SelectOne(doc, TitleSel);
    if h.Some? {
      title := h.value.text;
    }
    var image := "";
    var tag := FirstSome(ImageSels, SelectOnePick(doc));
    if tag.Some? {
      image := GetOr(tag.value, "src", "");
    }
    var content := Content(doc);
    if !Utils.IsValidTitle(title) || !Utils.IsValidImageUrl(image) {
      return None;
    }
    return Some(Draft(title, image, content, url, Name));
  }
}
