/** PCGamerScraper: one listing page of result cards, and an article scraper with an
  * image ladder, a scan that resolves scheme-relative sources, and a default image. */
module PCGamer {
  import opened Wrappers
  import opened Text
  import opened Html
  import opened Ladders
  import opened Fields
  import Utils
  import Links

  const Base := "https://www.pcgamer.com"
  const Name := "PC Gamer"

  /** get_article_urls: each result card's `a.article-link` with an href; no
    * deduplication; `limit = None` means no cap. */
  const Site := Links.LinkSite(
    Base,
    Links.Page("/news"),
    ["div.listingResult"],
    Links.LinkRule(false, [], false, ["a.article-link"], false, false),
    Links.NoneMeansAll)

  /** get_article_urls never fails; it returns absolute links, at most `limit` of them
    * when a limit is given. */
  lemma ArticleUrlsFacts(web: Web, limit: Option<int>)
    ensures var r := Links.ArticleUrls(Site, web, limit);
      r.Ok?
      && (limit.Some? && 0 <= limit.value ==> |r.value| <= limit.value)
      && forall i :: 0 <= i < |r.value| ==> StartsWith(r.value[i], "http")
  {
    Links.UrlsRaise(Site, web, limit);
    Links.UrlsOrigin(Site, web, limit);
  }

  // ---------------------------------------------------------------------------
  // scrape_article
  // ---------------------------------------------------------------------------

  const TitleSels: seq<string> := ["h1.article-name", "h1.article-title", "h1"]

  const MetaSel := "meta[property='og:image']"

  const ImageSels: seq<string> :=
    ["figure.lead-image img", "div.image-wrap img", "picture img", MetaSel,
     "div.article-hero img", "div.featured-image img"]

  /** What the image loop reads from a tag: a meta tag's content, otherwise the lazy
    * source. */
  function ImageValue(sel: string, e: Elem): string
  {
    if sel == MetaSel then GetOr(e, "content", "") else LazySrc(e)
  }

  /** An `<img>` of the scan qualifies by a source that mentions ".jpg", ".png" or
    * ".webp"; a scheme-relative source gets "https:" in front. */
  function ScanPick(e: Elem): Option<string>
  {
    var v := LazySrc(e);
    if v != "" && (Contains(v, ".jpg") || Contains(v, ".png") || Contains(v, ".webp")) then
      Some(if StartsWith(v, "//") then "https:" + v else v)
    else None
  }

  const DefaultImage := "https://cdn.mos.cms.futurecdn.net/6bxva8DmZvNj8kaVrQZZMP-970-80.jpg"

  function Image(doc: Elem): string
  {
    var v := ImageLadder(doc, ImageSels, ImageValue, NonEmpty, "");
    var w := if v != "" then v else FirstSomeOf(Select(doc, "img"), ScanPick).GetOr("");
    if w == "" then DefaultImage else w
  }

  /** The image is never empty. When the ladder finds nothing, the first qualifying
    * `<img>` of the scan gives the image, never scheme-relative; when no `<img>`
    * qualifies, the default. */
  lemma ImageFacts(doc: Elem)
    ensures Image(doc) != ""
    ensures ImageLadder(doc, ImageSels, ImageValue, NonEmpty, "") != "" ==>
      Image(doc) == ImageLadder(doc, ImageSels, ImageValue, NonEmpty, "")
    ensures ImageLadder(doc, ImageSels, ImageValue, NonEmpty, "") == "" ==>
      ((forall i :: 0 <= i < |Select(doc, "img")| ==> ScanPick(Select(doc, "img")[i]).None?) ==>
         Image(doc) == DefaultImage)
      && ((exists i :: 0 <= i < |Select(doc, "img")| && ScanPick(Select(doc, "img")[i]).Some?) ==>
         !StartsWith(Image(doc), "//")
         && exists i :: 0 <= i < |Select(doc, "img")| && ScanPick(Select(doc, "img")[i]) == Some(Image(doc)))
  {
    var imgs := Select(doc, "img");
    FirstSomeOfNone(imgs, ScanPick);
    FirstSomeOfFrom(imgs, ScanPick);
    if FirstSomeOf(imgs, ScanPick).Some? {
      var i :| 0 <= i < |imgs| && ScanPick(imgs[i]) == FirstSomeOf(imgs, ScanPick);
      ScanAbsolute(imgs[i]);
    }
  }

  /** A scan hit is never scheme-relative. */
  lemma ScanAbsolute(e: Elem)
    ensures ScanPick(e).Some? ==> !StartsWith(ScanPick(e).value, "//")
  {
    var v := LazySrc(e);
    if ScanPick(e).Some? && StartsWith(v, "//") {
      assert ("https:" + v)[0] == 'h';
    }
  }

  method ImageOf(doc: Elem) returns (image: string)
    ensures image == Image(doc)
  {
    image := ImageLoop(doc, ImageSels, ImageValue, NonEmpty);
    if image == "" {
      var found := FirstSome(Select(doc, "img"), ScanPick);
      image := found.GetOr("");
    }
    if image == "" {
      image := DefaultImage;
    }
  }

  /** The texts of the paragraphs in `div#article-body`, joined with spaces, or "". */
  function Content(doc: Elem): string
  {
    match SelectOne(doc, "div#article-body")
    case None => ""
    case Some(d) => JoinTexts(Select(d, "p"))
  }

  /** Every paragraph of the article body appears in the content. */
  lemma ContentHoldsParagraphs(doc: Elem, k: int)
    requires SelectOne(doc, "div#article-body").Some?
    requires 0 <= k < |Select(SelectOne(doc, "div#article-body").value, "p")|
    ensures Contains(Content(doc), Select(SelectOne(doc, "div#article-body").value, "p")[k].text)
  {
    JoinTextsHolds(Select(SelectOne(doc, "div#article-body").value, "p"), k);
  }

  function DraftOf(doc: Elem, url: string): Draft
  {
    Draft(FirstText(doc, TitleSels), Image(doc), Content(doc), url, Name)
  }

  /** scrape_article: None when the page cannot be fetched or fails the gate. */
  function Article(web: Web, url: string): Option<Draft>
  {
    match Fetch(web, url)
    case None => None
    case Some(doc) => Gated(DraftOf(doc, url))
  }

  method ScrapeArticle(web: Web, url: string) returns (a: Option<Draft>)
    ensures a == Article(web, url)
  {
    var page := Fetch(web, url);
    if page.None? {
      return None;
    }
    var doc := page.value;
    var title := FirstTextLoop(doc, TitleSels);
    var image := ImageOf(doc);
    var content := Content(doc);
    if !Utils.IsValidTitle(title) || !Utils.IsValidImageUrl(image) {
      return None;
    }
    return Some(Draft(title, image, content, url, Name));
  }
}
