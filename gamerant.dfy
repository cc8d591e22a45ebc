/** GameRantScraper: a ladder of listing paths whose matches may be links themselves,
  * and an article scraper with a meta-tag-first title and a four-stage image search. */
module GameRant {
  import opened Wrappers
  import opened Text
  import opened Html
  import opened Ladders
  import opened Fields
  import Utils
  import Links

  const Base := "https://gamerant.com"
  const Name := "GameRant"

  /** The hard-coded URLs used when no listing path yields a link. */
  const Fallback: seq<string> := [
    "https://gamerant.com/best-rpgs-2024/",
    "https://gamerant.com/xbox-price-increase-2024/",
    "https://gamerant.com/nintendo-switch-2-games-price-increase/",
    "https://gamerant.com/elden-ring-shadow-of-the-erdtree-dlc-release-date-trailer/",
    "https://gamerant.com/call-of-duty-black-ops-6-release-date-trailer/"
  ]

  /** get_article_urls: a match that is itself an `<a>` gives its own href; otherwise
    * the first link selector with an href; duplicates are skipped; `limit = None`
    * means no cap. */
  const Site := Links.LinkSite(
    Base,
    Links.Paths(["/gaming", "/", "/news", "/game-news"], Fallback),
    ["article.browse-clip", "article", "div.article-card", "div.card", "a[href*='/game-']",
     "a[href*='/gaming/']", "a.article-link"],
    Links.LinkRule(false, [], true, ["a.bc-title-link", "a.title", "a[class*='title']", "a"], false, true),
    Links.NoneMeansAll)

  lemma FallbackDistinct()
    ensures NoDuplicates(Fallback)
  {
    var f := Fallback;
    assert |f[0]| == 36 && |f[1]| == 46 && |f[2]| == 60 && |f[3]| == 79 && |f[4]| == 67;
  }

  /** get_article_urls never fails; it returns distinct absolute links, at most `limit`
    * of them when a limit is given, each collected from a listing page or taken from
    * the hard-coded list. */
  lemma ArticleUrlsFacts(web: Web, limit: Option<int>)
    ensures var r := Links.ArticleUrls(Site, web, limit);
      r.Ok? && NoDuplicates(r.value)
      && (limit.Some? && 0 <= limit.value ==> |r.value| <= limit.value)
      && forall i :: 0 <= i < |r.value| ==> StartsWith(r.value[i], "http") || r.value[i] in Fallback
  {
    Links.UrlsRaise(Site, web, limit);
    Links.UrlsOrigin(Site, web, limit);
    FallbackDistinct();
    Links.UrlsDistinct(Site, web, limit);
  }

  // ---------------------------------------------------------------------------
  // The title
  // ---------------------------------------------------------------------------

  /** The site's own names, which the heading and URL steps do not settle for. */
  const Brands: seq<string> := ["game rant", "gamerant"]

  predicate Needs(title: string)
  {
    !Acceptable(title, Brands)
  }

  const Headings: seq<string> :=
    ["h1.title", "h1.entry-title", "h1.article-title", "h1", "header h1", ".article-title"]

  /** The stripped content of the og:title (else twitter:title) meta tag, or "". */
  function MetaTitle(doc: Elem): string
  {
    match FirstPresent(doc, ["meta[property=\"og:title\"]", "meta[name=\"twitter:title\"]"])
    case None => ""
    case Some(m) => if Truthy(Get(m, "content")) then Strip(Get(m, "content").value) else ""
  }

  function Title(doc: Elem, url: string): string
  {
    var t1 := MetaTitle(doc);
    var t2 := if Needs(t1) then AcceptedHeading(doc, Headings, Brands).GetOr(t1) else t1;
    var t3 := if Needs(t2) then UrlTitle(url) else t2;
    if Needs(t3) then UrlTitle(url) else t3
  }

  /** The title is the meta title when that is acceptable, else the first acceptable
    * heading, else the URL title; so it is the site's name only when the URL spells it. */
  lemma TitleChoice(doc: Elem, url: string)
    ensures var t := Title(doc, url);
      (Acceptable(MetaTitle(doc), Brands) ==> t == MetaTitle(doc))
      && (!Acceptable(MetaTitle(doc), Brands) && AcceptedHeading(doc, Headings, Brands).Some? ==>
            t == AcceptedHeading(doc, Headings, Brands).value)
      && (!Acceptable(MetaTitle(doc), Brands) && AcceptedHeading(doc, Headings, Brands).None? ==>
            t == UrlTitle(url))
  {
  }

  method TitleOf(doc: Elem, url: string) returns (title: string)
    ensures title == Title(doc, url)
  {
    title := MetaTitle(doc);
    if Needs(title) {
      var h := FirstSome(Headings, HeadingPick(doc, Brands));
      title := h.GetOr(title);
    }
    if Needs(title) {
      title := UrlTitle(url);
    }
    if Needs(title) {
      title := UrlTitle(url);
    }
  }

  // ---------------------------------------------------------------------------
  // The image
  // ---------------------------------------------------------------------------

  /** Mentions ".svg" or "logo" in any case. */
  predicate Logoish(v: string)
  {
    Contains(Lower(v), ".svg") || Contains(Lower(v), "logo")
  }

  /** Looks like a small author picture: mentions "author", "bio" or "w=90" in any case. */
  predicate Authorish(v: string)
  {
    Contains(Lower(v), "author") || Contains(Lower(v), "bio") || Contains(Lower(v), "w=90")
  }

  /** An image the meta step and the main-image loop accept. */
  predicate Clean(v: string)
  {
    v != "" && !Logoish(v) && !Authorish(v)
  }

  const MainImageSels: seq<string> :=
    ["div.header-img img", "figure.wp-block-image img", "div.featured-image img", "img.wp-post-image",
     "picture img", "div.article-featured-image img", "div.article-img img", "div.article-header img",
     "div.article-hero img", "div.entry-image img", "div.browse-clip-img img", "div.image-wrapper img",
     "div.lead-image img", "div.lead-img img"]

  const BodySels: seq<string> := ["div.article-body", "div.entry-content", "article"]

  /** The og:image (else twitter:image) content when it is clean, or "". */
  function MetaImage(doc: Elem): string
  {
    match FirstPresent(doc, ["meta[property=\"og:image\"]", "meta[name=\"twitter:image\"]"])
    case None => ""
    case Some(m) => if Truthy(Get(m, "content")) && Clean(Get(m, "content").value) then Get(m, "content").value else ""
  }

  function LazyOf(sel: string, e: Elem): string
  {
    LazySrc(e)
  }

  /** An `<img>` of the article body with a source that is no SVG or logo. */
  function BodyPick(e: Elem): Option<string>
  {
    var v := LazySrc(e);
    if v != "" && !Logoish(v) then Some(v) else None
  }

  /** An `<img>` of the page with a source that is no SVG or logo and lives in the
    * site's upload or image store. */
  function PagePick(e: Elem): Option<string>
  {
    var v := LazySrc(e);
    if v != "" && !Logoish(v) && (Contains(v, "wp-content/uploads") || Contains(v, "gamerantimages"))
    then Some(v) else None
  }

  /** The first stage that applies: meta image, main-image loop, body scan, page scan.
    * A later stage runs only while the image is empty (or, for the scans, an SVG or
    * logo) and keeps the earlier value when it finds nothing. */
  function Image(doc: Elem): string
  {
    var v1 := MetaImage(doc);
    var v2 := if v1 == "" then ImageLadder(doc, MainImageSels, LazyOf, Clean, "") else v1;
    PageScan(doc, BodyScan(doc, v2))
  }

  /** The scan of the article body's `<img>` tags, run while the image is empty, an SVG
    * or a logo. */
  function BodyScan(doc: Elem, v: string): string
  {
    if v == "" || Logoish(v) then
      match FirstPresent(doc, BodySels)
      case None => v
      case Some(body) => FirstSomeOf(Select(body, "img"), BodyPick).GetOr(v)
    else v
  }

  /** The scan of all the page's `<img>` tags, run while the image is empty, an SVG or
    * a logo. */
  function PageScan(doc: Elem, v: string): string
  {
    if v == "" || Logoish(v) then FirstSomeOf(Select(doc, "img"), PagePick).GetOr(v) else v
  }

  /** A clean meta image is the image. The image ends empty, or an SVG or logo, only
    * when no `<img>` of the page qualifies for the last scan. */
  lemma ImageFacts(doc: Elem)
    ensures MetaImage(doc) != "" ==> Image(doc) == MetaImage(doc)
    ensures Image(doc) == "" || Logoish(Image(doc)) ==>
      forall i :: 0 <= i < |Select(doc, "img")| ==> PagePick(Select(doc, "img")[i]).None?
  {
    var imgs := Select(doc, "img");
    FirstSomeOfNone(imgs, PagePick);
    FirstSomeOfFrom(imgs, PagePick);
    if MetaImage(doc) != "" {
      var m := FirstPresent(doc, ["meta[property=\"og:image\"]", "meta[name=\"twitter:image\"]"]).value;
      assert Clean(Get(m, "content").value);
    }
  }

  /** The main-image loop may end on a value it did not accept: the last image any of
    * its selectors matched, author pictures included. */
  lemma LadderKeepsLastValue(doc: Elem)
    ensures var v := ImageLadder(doc, MainImageSels, LazyOf, Clean, "");
      v == "" || Clean(v)
      || exists k :: 0 <= k < |MainImageSels| && SelectOne(doc, MainImageSels[k]).Some?
                     && v == LazySrc(SelectOne(doc, MainImageSels[k]).value)
  {
    ImageLadderFrom(doc, MainImageSels, LazyOf, Clean, "");
  }

  method ImageOf(doc: Elem) returns (image: string)
    ensures image == Image(doc)
  {
    image := MetaImage(doc);
    if image == "" {
      image := ImageLoop(doc, MainImageSels, LazyOf, Clean);
    }
    image := BodyScanLoop(doc, image);
    image := PageScanLoop(doc, image);
  }

  method BodyScanLoop(doc: Elem, v: string) returns (image: string)
    ensures image == BodyScan(doc, v)
  {
    image := v;
    if image == "" || Logoish(image) {
      var body := FirstSome(BodySels, SelectOnePick(doc));
      if body.Some? {
        var found := FirstSome(Select(body.value, "img"), BodyPick);
        image := found.GetOr(image);
      }
    }
  }

  method PageScanLoop(doc: Elem, v: string) returns (image: string)
    ensures image == PageScan(doc, v)
  {
    image := v;
    if image == "" || Logoish(image) {
      var found := FirstSome(Select(doc, "img"), PagePick);
      image := found.GetOr(image);
    }
  }

  // ---------------------------------------------------------------------------
  // scrape_article
  // ---------------------------------------------------------------------------

  const ContentSels: seq<string> :=
    ["div.article-body", "div.entry-content", "div.content-area", "article",
     "div[class*='article'] div[class*='content']"]
  const MainSels: seq<string> := ["main", "article", "div.content"]

  function DraftOf(doc: Elem, url: string): Draft
  {
    var title := Title(doc, url);
    Draft(title, Image(doc), LadderContent(doc, ContentSels, MainSels, Name, title, url), url, Name)
  }

  /** scrape_article: None when the page cannot be fetched or fails the gate. */
  function Article(web: Web, url: string): Option<Draft>
  {
    match Fetch(web, url)
    case None => None
    case Some(doc) => Gated(DraftOf(doc, url))
  }

  method ScrapeArticle(web: Web, url: string) returns (a: Option<Draft>)
    ensures a == Article(web, url)
  {
    var page := Fetch(web, url);
    if page.None? {
      return None;
    }
    var doc := page.value;
    var title := TitleOf(doc, url);
    var image := ImageOf(doc);
    var content := ContentLoop(doc, ContentSels, MainSels, Name, title, url);
    if !Utils.IsValidTitle(title) || !Utils.IsValidImageUrl(image) {
      return None;
    }
    return Some(Draft(title, image, content, url, Name));
  }
}
