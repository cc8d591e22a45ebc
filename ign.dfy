/** IGNScraper: one listing page of content items, and an article scraper that reads
  * image sources from data-src, srcset or src, and that returns every fetched page
  * without validating it. */
module Ign {
  import opened Wrappers
  import opened Text
  import opened Html
  import opened Ladders
  import opened Fields
  import Links

  const Base := "https://www.ign.com"
  const Name := "IGN"

  /** get_article_urls: the first `<a>` with an href in each content item; no
    * deduplication; `limit = None` means no cap. */
  const Site := Links.LinkSite(
    Base,
    Links.Page("/news"),
    ["div.content-item"],
    Links.LinkRule(false, [], false, ["a"], false, false),
    Links.NoneMeansAll)

  /** get_article_urls never fails; it returns absolute links, at most `limit` of them
    * when a limit is given. */
  lemma ArticleUrlsFacts(web: Web, limit: Option<int>)
    ensures var r := Links.ArticleUrls(Site, web, limit);
      r.Ok?
      && (limit.Some? && 0 <= limit.value ==> |r.value| <= limit.value)
      && forall i :: 0 <= i < |r.value| ==> StartsWith(r.value[i], "http")
  {
    Links.UrlsRaise(Site, web, limit);
    Links.UrlsOrigin(Site, web, limit);
  }

  // ---------------------------------------------------------------------------
  // The image
  // ---------------------------------------------------------------------------

  const OgSel := "meta[property='og:image']"
  const TwitterSel := "meta[name='twitter:image']"
  const SourceSel := "div.jsx-3553238252 picture source"

  const ImageSels: seq<string> :=
    ["div.article-header img", "div.article-lead-image-wrap img", "figure.article-image img",
     OgSel, TwitterSel, "div.jsx-3553238252 img", "div.article-page img", "picture img", SourceSel]

  /** `e.get("srcset", "").split(" ")[0]`: the first URL of the srcset. */
  function FirstSrcset(e: Elem): (u: string)
    ensures ' ' !in u
  {
    var u := UntilAny(GetOr(e, "srcset", ""), " ");
    assert forall i :: 0 <= i < |u| ==> u[i] != ' ';
    u
  }

  /** `e.get("data-src") or <first srcset URL> or e.get("src", "")` */
  function Source(e: Elem): string
  {
    if Truthy(Get(e, "data-src")) then Get(e, "data-src").value
    else if FirstSrcset(e) != "" then FirstSrcset(e)
    else GetOr(e, "src", "")
  }

  /** What the image loop reads from a tag: a meta tag's content; a `<source>`'s first
    * srcset URL; otherwise the tag's source. */
  function ImageValue(sel: string, e: Elem): string
  {
    if sel == OgSel || sel == TwitterSel then GetOr(e, "content", "")
    else if sel == SourceSel then (if Truthy(Get(e, "srcset")) then FirstSrcset(e) else "")
    else Source(e)
  }

  /** An `<img>` of the scan qualifies by a source that mentions ".jpg", ".png" or
    * ".webp". */
  function ScanPick(e: Elem): Option<string>
  {
    var v := Source(e);
    if v != "" && (Contains(v, ".jpg") || Contains(v, ".png") || Contains(v, ".webp")) then Some(v) else None
  }

  const DefaultImage := "https://assets-prd.ignimgs.com/2023/09/20/ign-default-1695238495427.jpg"

  function Image(doc: Elem): string
  {
    var v := ImageLadder(doc, ImageSels, ImageValue, NonEmpty, "");
    var w := if v != "" then v else FirstSomeOf(Select(doc, "img"), ScanPick).GetOr("");
    if w == "" then DefaultImage else w
  }

  /** The image is never empty. It is the ladder's value when that is non-empty, else
    * the source of the first `<img>` that mentions an image extension, else the
    * default. */
  lemma ImageFacts(doc: Elem)
    ensures Image(doc) != ""
    ensures ImageLadder(doc, ImageSels, ImageValue, NonEmpty, "") != "" ==>
      Image(doc) == ImageLadder(doc, ImageSels, ImageValue, NonEmpty, "")
    ensures ImageLadder(doc, ImageSels, ImageValue, NonEmpty, "") == "" ==>
      ((forall i :: 0 <= i < |Select(doc, "img")| ==> ScanPick(Select(doc, "img")[i]).None?) ==>
         Image(doc) == DefaultImage)
      && ((exists i :: 0 <= i < |Select(doc, "img")| && ScanPick(Select(doc, "img")[i]).Some?) ==>
         exists i :: 0 <= i < |Select(doc, "img")| && Source(Select(doc, "img")[i]) == Image(doc))
  {
    var imgs := Select(doc, "img");
    FirstSomeOfNone(imgs, ScanPick);
    FirstSomeOfFrom(imgs, ScanPick);
  }

  /** The ladder's value is empty, or read from a matching tag; when it comes from a
    * `<source>`, it is a single srcset URL with no space in it. */
  lemma LadderOrigin(doc: Elem)
    ensures var v := ImageLadder(doc, ImageSels, ImageValue, NonEmpty, "");
      v == ""
      || exists k :: 0 <= k < |ImageSels| && SelectOne(doc, ImageSels[k]).Some?
                     && v == ImageValue(ImageSels[k], SelectOne(doc, ImageSels[k]).value)
    ensures forall e :: ' ' !in ImageValue(SourceSel, e)
  {
    ImageLadderFrom(doc, ImageSels, ImageValue, NonEmpty, "");
  }

  method ImageOf(doc: Elem) returns (image: string)
    ensures image == Image(doc)
  {
    image := ImageLoop(doc, ImageSels, ImageValue, NonEmpty);
    if image == "" {
      var found := FirstSome(Select(doc, "img"), ScanPick);
      image := found.GetOr("");
    }
    if image == "" {
      image := DefaultImage;
    }
  }

  // ---------------------------------------------------------------------------
  // scrape_article
  // ---------------------------------------------------------------------------

  const TitleSels: seq<string> := ["h1.article-title", "h1.display-title"]
  const ContentSels: seq<string> := ["div.article-content", "div.article-page"]

  /** The raw text of the first title heading, or "". */
  function Title(doc: Elem): string
  {
    match FirstPresent(doc, TitleSels)
    case None => ""
    case Some(h) => h.text
  }

  /** The paragraph texts of the first content container, joined with spaces, or "". */
  function Content(doc: Elem): string
  {
    match FirstPresent(doc, ContentSels)
    case None => ""
    case Some(d) => JoinTexts(Select(d, "p"))
  }

  /** Every paragraph of the content container appears in the content. */
  lemma ContentHoldsParagraphs(doc: Elem, k: int)
    requires FirstPresent(doc, ContentSels).Some?
    requires 0 <= k < |Select(FirstPresent(doc, ContentSels).value, "p")|
    ensures Contains(Content(doc), Select(FirstPresent(doc, ContentSels).value, "p")[k].text)
  {
    JoinTextsHolds(Select(FirstPresent(doc, ContentSels).value, "p"), k);
  }

  /** scrape_article: every page that can be fetched gives an article; its title and
    * image are not validated. */
  function Article(web: Web, url: string): Option<Draft>
  {
    match Fetch(web, url)
    case None => None
    case Some(doc) => Some(Draft(Title(doc), Image(doc), Content(doc), url, Name))
  }

  /** Unlike the other scrapers, IGN drops a page only when it cannot be fetched, and
    * its articles always carry an image. */
  lemma ArticleUngated(web: Web, url: string)
    ensures Article(web, url).Some? <==> url in web
    ensures Article(web, url).Some? ==> Article(web, url).value.imageUrl != ""
  {
    if url in web {
      ImageFacts(web[url]);
    }
  }

  method ScrapeArticle(web: Web, url: string) returns (a: Option<Draft>)
    ensures a == Article(web, url)
  {
    var page := Fetch(web, url);
    if page.None? {
      return None;
    }
    var doc := page.value;
    var title := "";
    var tag := FirstSome(TitleSels, SelectOnePick(doc));
    if tag.Some? {
      title := tag.value.text;
    }
    var image := ImageOf(doc);
    var content := Content(doc);
    return Some(Draft(title, image, content, url, Name));
  }
}
