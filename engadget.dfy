/** EngadgetScraper: a ladder of listing paths compared with `limit` unguarded, and an
  * article scraper that makes every image URL absolute. */
module Engadget {
  import opened Wrappers
  import opened Text
  import opened Html
  import opened Ladders
  import opened Fields
  import Utils
  import Links

  const Base := "https://www.engadget.com"
  const Name := "Engadget"

  /** The hard-coded URLs used when no listing path yields a link. */
  const Fallback: seq<string> := [
    "https://www.engadget.com/gaming/epic-games-takes-aim-at-apple-and-steam-with-zero-commission-policy-for-developers-183956940.html",
    "https://www.engadget.com/gaming/nintendo/nintendo-switch-2-pre-orders-latest-updates-console-remains-sold-out-at-gamestop-walmart-target-best-buy-and-others-140931858.html",
    "https://www.engadget.com/gaming/microsoft-is-raising-prices-on-the-xbox-series-s-and-series-x-132004594.html",
    "https://www.engadget.com/gaming/call-of-duty-black-ops-6-release-date-trailer-142538921.html",
    "https://www.engadget.com/gaming/elden-ring-shadow-of-the-erdtree-release-date-trailer-164512834.html"
  ]

  /** get_article_urls: the first link selector with an href in each match; links to
    * tag or author pages and duplicates are skipped; `len(article_links) >= limit` is
    * evaluated even when `limit` is None. */
  const Site := Links.LinkSite(
    Base,
    Links.Paths(["/gaming", "/games", "/news", "/", "/tag/gaming"], Fallback),
    ["div.o-hit", "article", "div.article", "div.post", "div.c-entry", "div.card"],
    Links.LinkRule(false, [], false, ["a.o-hit__link", "h2 a", "h3 a", "a.article-link", "a[href*='/20']", "a"],
                   true, true),
    Links.Compares)

  lemma FallbackDistinct()
    ensures NoDuplicates(Fallback)
  {
    var f := Fallback;
    assert |f[0]| == 129 && |f[1]| == 171 && |f[2]| == 108 && |f[3]| == 92 && |f[4]| == 100;
  }

  /** get_article_urls never fails; it returns distinct links, at most `limit` of them
    * when a limit is given, each an absolute link to neither a tag nor an author page,
    * or one of the hard-coded list. */
  lemma ArticleUrlsFacts(web: Web, limit: Option<int>)
    ensures var r := Links.ArticleUrls(Site, web, limit);
      r.Ok? && NoDuplicates(r.value)
      && (limit.Some? && 0 <= limit.value ==> |r.value| <= limit.value)
      && forall i :: 0 <= i < |r.value| ==>
           (StartsWith(r.value[i], "http") && !Contains(r.value[i], "/tag/") && !Contains(r.value[i], "/author/"))
           || r.value[i] in Fallback
  {
    Links.UrlsRaise(Site, web, limit);
    Links.UrlsOrigin(Site, web, limit);
    FallbackDistinct();
    Links.UrlsDistinct(Site, web, limit);
  }

  /** Without a limit every listing path raises TypeError inside its `try`, so the
    * result is always the whole hard-coded list. */
  lemma NoLimitGivesFallback(web: Web)
    ensures Links.ArticleUrls(Site, web, None) == Ok(Fallback)
  {
    Links.ComparesWithoutLimit(Site, web);
  }

  // ---------------------------------------------------------------------------
  // scrape_article
  // ---------------------------------------------------------------------------

  const TitleSels: seq<string> := ["h1.t-h4", "h1.article-title", "h1.entry-title", "h1"]

  function Title(doc: Elem, url: string): string
  {
    var t := FirstText(doc, TitleSels);
    if t == "" then UrlTitleWithoutHtml(url) else t
  }

  predicate Absolute(v: string)
  {
    StartsWith(v, "http://") || StartsWith(v, "https://")
  }

  /** A relative image URL is resolved against the site: "/x" becomes base + "/x", any
    * other relative "x" becomes base + "/x". */
  function Absolutize(v: string): (r: string)
    ensures v == "" ==> r == ""
    ensures v != "" ==> Absolute(r)
    ensures Absolute(v) ==> r == v
  {
    if v != "" && !Absolute(v) then
      var r := if StartsWith(v, "/") then Base + v else Base + "/" + v;
      assert r[..8] == Base[..8] == "https://";
      assert StartsWith(r, "https://");
      r
    else v
  }

  const ImageSels: seq<string> :=
    ["div.t-article-image img", "div.article-image img", "div.featured-image img", "img.wp-post-image",
     "picture img", "div.article-image-wrapper img", "img.c-picture__image", "meta[property='og:image']"]

  /** What the image loop reads from a tag (a meta tag's content, otherwise the lazy
    * source), made absolute. */
  function ImageValue(sel: string, e: Elem): string
  {
    Absolutize(if sel == "meta[property='og:image']" then GetOr(e, "content", "") else LazySrc(e))
  }

  /** An `<img>` of the scan: a source that mentions "engadget", ".jpg" or ".png", made
    * absolute. */
  function ScanPick(e: Elem): Option<string>
  {
    var v := LazySrc(e);
    if v != "" && (Contains(v, "engadget") || Contains(v, ".jpg") || Contains(v, ".png"))
    then Some(Absolutize(v)) else None
  }

  /** The Engadget default image. The scheme is written apart from the rest so that the
    * verifier sees the URL's prefix without reading through the whole literal. */
  const DefaultImage := "https://" + "s.yimg.com/os/creatr-uploaded-images/2020-10/fe92d4b0-0f9c-11eb-bfce-a5570d2300c0"

  const Beacon := "/_td_api/beacon/"

  /** The image the loop and the scan find, before the default is considered. */
  function Found(doc: Elem): string
  {
    var v := ImageLadder(doc, ImageSels, ImageValue, NonEmpty, "");
    if v != "" then v else FirstSomeOf(Select(doc, "img"), ScanPick).GetOr("")
  }

  function Image(doc: Elem): string
  {
    var w := Found(doc);
    if w == "" || StartsWith(w, Beacon) then DefaultImage else w
  }

  /** Every image loop result is empty or absolute. */
  lemma {:induction false} LadderAbsolute(doc: Elem, sels: seq<string>, current: string)
    requires current == "" || Absolute(current)
    ensures var v := ImageLadder(doc, sels, ImageValue, NonEmpty, current); v == "" || Absolute(v)
    decreases |sels|
  {
    if sels != [] {
      match SelectOne(doc, sels[0])
      case None => LadderAbsolute(doc, sels[1..], current);
      case Some(t) => LadderAbsolute(doc, sels[1..], ImageValue(sels[0], t));
    }
  }

  /** A found image is absolute. */
  lemma FoundAbsolute(doc: Elem)
    ensures Found(doc) == "" || Absolute(Found(doc))
  {
    LadderAbsolute(doc, ImageSels, "");
    FirstSomeOfFrom(Select(doc, "img"), ScanPick);
  }

  /** The image is always an absolute http(s) URL. A found image never starts with the
    * beacon path, so the default replaces only a missing image. */
  lemma ImageAbsolute(doc: Elem)
    ensures Absolute(Image(doc))
    ensures !StartsWith(Found(doc), Beacon)
    ensures Found(doc) != "" ==> Image(doc) == Found(doc)
  {
    FoundAbsolute(doc);
    DefaultAbsolute();
    if Found(doc) != "" {
      AbsoluteNotBeacon(Found(doc));
    }
  }

  lemma AbsoluteNotBeacon(w: string)
    requires Absolute(w)
    ensures !StartsWith(w, Beacon)
  {
    assert w[..7][0] == w[0];
  }

  lemma DefaultAbsolute()
    ensures Absolute(DefaultImage)
  {
    assert DefaultImage[..8] == "https://";
  }

  method ImageOf(doc: Elem) returns (image: string)
    ensures image == Image(doc)
  {
    image := ImageLoop(doc, ImageSels, ImageValue, NonEmpty);
    if image == "" {
      var found := FirstSome(Select(doc, "img"), ScanPick);
      image := found.GetOr("");
    }
    if image == "" || StartsWith(image, Beacon) {
      image := DefaultImage;
    }
  }

  const ContentSels: seq<string> :=
    ["div.t-article-content", "div.article-content", "div.entry-content", "article", "div.content"]
  const MainSels: seq<string> := ["main", "article", "div.article"]

  function DraftOf(doc: Elem, url: string): Draft
  {
    var title := Title(doc, url);
    Draft(title, Image(doc), LadderContent(doc, ContentSels, MainSels, Name, title, url), url, Name)
  }

  /** scrape_article: None when the page cannot be fetched or fails the gate. */
  function Article(web: Web, url: string): Option<Draft>
  {
    match Fetch(web, url)
    case None => None
    case Some(doc) => Gated(DraftOf(doc, url))
  }

  method ScrapeArticle(web: Web, url: string) returns (a: Option<Draft>)
    ensures a == Article(web, url)
  {
    var page := Fetch(web, url);
    if page.None? {
      return None;
    }
    var doc := page.value;
    var title := FirstTextLoop(doc, TitleSels);
    if title == "" {
      title := UrlTitleWithoutHtml(url);
    }
    var image := ImageOf(doc);
    var content := ContentLoop(doc, ContentSels, MainSels, Name, title, url);
    if !Utils.IsValidTitle(title) || !Utils.IsValidImageUrl(image) {
      return None;
    }
    return Some(Draft(title, image, content, url, Name));
  }
}
