/** GameSpotScraper: one listing page whose matches are the links themselves, compared
  * with `limit` unguarded, and an article scraper that looks for the article body by
  * container selectors and then by class name. */
module GameSpot {
  import opened Wrappers
  import opened Text
  import opened Html
  import opened Ladders
  import opened Fields
  import Utils
  import Links

  const Base := "https://www.gamespot.com"
  const Name := "GameSpot"

  /** get_article_urls: the first selector with matches; each match's own href is the
    * link; duplicates are skipped; `len(article_links) >= limit` is evaluated even when
    * `limit` is None, and nothing catches the TypeError. */
  const Site := Links.LinkSite(
    Base,
    Links.Page("/news"),
    ["a.card-item__link", "a[data-event-tracking='Thumb Click']", "a[href*='/articles/']"],
    Links.LinkRule(true, [], false, [], false, true),
    Links.Compares)

  /** get_article_urls fails exactly when no limit is given and the listing page was
    * fetched and matched something; otherwise it returns distinct absolute links, at
    * most `limit` of them. */
  lemma ArticleUrlsFacts(web: Web, limit: Option<int>)
    ensures var r := Links.ArticleUrls(Site, web, limit);
      (r.Err? <==> limit.None? && Fetch(web, Base + "/news").Some?
                   && Links.Matches(Site, Fetch(web, Base + "/news").value) != [])
      && (r.Ok? ==> NoDuplicates(r.value)
                    && (limit.Some? && 0 <= limit.value ==> |r.value| <= limit.value)
                    && forall i :: 0 <= i < |r.value| ==> StartsWith(r.value[i], "http"))
  {
    Links.UrlsRaise(Site, web, limit);
    Links.UrlsOrigin(Site, web, limit);
    Links.UrlsDistinct(Site, web, limit);
  }

  // ---------------------------------------------------------------------------
  // Title and image
  // ---------------------------------------------------------------------------

  /** The stripped text of the first `<h1>`, or "". */
  function Title(doc: Elem): (t: string)
    ensures Stripped(t)
    ensures SelectOne(doc, "h1").None? ==> t == ""
  {
    match SelectOne(doc, "h1")
    case None => ""
    case Some(h) => StripIsStripped(h.text); Strip(h.text)
  }

  const ImageSels: seq<string> := ["img.article-image", "picture img", "img[src*='gamespot']"]

  /** The first image tag's src, or its data-src when the src is missing or empty. */
  function Image(doc: Elem): string
  {
    match FirstPresent(doc, ImageSels)
    case None => ""
    case Some(t) =>
      var src := GetOr(t, "src", "");
      if src == "" && Truthy(Get(t, "data-src")) then Get(t, "data-src").value else src
  }

  /** The image is empty exactly when no image selector matches, or the first tag
    * found has neither a non-empty src nor a non-empty data-src; a non-empty src wins. */
  lemma ImageChoice(doc: Elem)
    ensures Image(doc) == "" <==>
      FirstPresent(doc, ImageSels).None?
      || (GetOr(FirstPresent(doc, ImageSels).value, "src", "") == ""
          && !Truthy(Get(FirstPresent(doc, ImageSels).value, "data-src")))
    ensures FirstPresent(doc, ImageSels).Some? && GetOr(FirstPresent(doc, ImageSels).value, "src", "") != "" ==>
      Image(doc) == GetOr(FirstPresent(doc, ImageSels).value, "src", "")
  {
  }

  method ImageOf(doc: Elem) returns (image: string)
    ensures image == Image(doc)
  {
    var tag := FirstSome(ImageSels, SelectOnePick(doc));
    image := "";
    if tag.Some? {
      image := GetOr(tag.value, "src", "");
      if image == "" && Truthy(Get(tag.value, "data-src")) {
        image := Get(tag.value, "data-src").value;
      }
    }
  }

  // ---------------------------------------------------------------------------
  // Content
  // ---------------------------------------------------------------------------

  const ContentSels: seq<string> :=
    ["div.article-body", "div.js-content-entity-body", "section.content-body", "div[data-id='article-body']"]

  /** The divs whose class attribute mentions "body". */
  const BodyDivs := "div[class*='body']"

  /** Class names that mark navigation rather than the article. */
  const Skipped: seq<string> := ["nav", "header", "footer", "menu"]

  /** A div whose class list holds none of the skipped class names. */
  predicate Unskipped(d: Elem)
  {
    forall k :: 0 <= k < |Skipped| ==> Skipped[k] !in Classes(d)
  }

  function BodyPick(d: Elem): Option<Elem>
  {
    if Unskipped(d) then Some(d) else None
  }

  /** The content container: the first container selector that matches, else the first
    * body div that is not navigation. */
  function ContentDiv(doc: Elem): Option<Elem>
  {
    match FirstPresent(doc, ContentSels)
    case Some(d) => Some(d)
    case None => FirstSomeOf(Select(doc, BodyDivs), BodyPick)
  }

  /** When no container selector matches, the container is a body div that is not
    * navigation, and there is none exactly when every body div carries a skipped class. */
  lemma ContentDivChoice(doc: Elem)
    ensures FirstPresent(doc, ContentSels).Some? ==> ContentDiv(doc) == FirstPresent(doc, ContentSels)
    ensures FirstPresent(doc, ContentSels).None? && ContentDiv(doc).Some? ==>
      ContentDiv(doc).value in Select(doc, BodyDivs) && Unskipped(ContentDiv(doc).value)
    ensures ContentDiv(doc).None? <==>
      FirstPresent(doc, ContentSels).None?
      && forall i :: 0 <= i < |Select(doc, BodyDivs)| ==> !Unskipped(Select(doc, BodyDivs)[i])
  {
    var divs := Select(doc, BodyDivs);
    FirstSomeOfNone(divs, BodyPick);
    FirstSomeOfFrom(divs, BodyPick);
  }

  /** `find_all(['p', 'h2', 'h3', 'li', 'span'])` */
  const SpanTags := "p, h2, h3, li, span"

  /** More than one paragraph: their non-empty stripped texts joined with spaces;
    * otherwise the texts over 20 characters of the text tags, each followed by a
    * space, then stripped. */
  function Content(doc: Elem): string
  {
    match ContentDiv(doc)
    case None => ""
    case Some(d) =>
      var ps := Select(d, "p");
      if |ps| > 1 then JoinStripped(ps) else SpacedContent(Select(d, SpanTags), 20)
  }

  /** Either way the content is a space-joined list of stripped texts, so it has no
    * surrounding whitespace; in the second case every text is over 20 characters. */
  lemma ContentJoined(doc: Elem)
    ensures Stripped(Content(doc))
    ensures ContentDiv(doc).Some? && |Select(ContentDiv(doc).value, "p")| <= 1 ==>
      Content(doc) == Join(" ", LongTexts(Select(ContentDiv(doc).value, SpanTags), 20))
    ensures ContentDiv(doc).Some? && |Select(ContentDiv(doc).value, "p")| > 1 ==>
      Content(doc) == Join(" ", LongTexts(Select(ContentDiv(doc).value, "p"), 0))
  {
    if ContentDiv(doc).Some? {
      var d := ContentDiv(doc).value;
      var ps := Select(d, "p");
      var ts := if |ps| > 1 then LongTexts(ps, 0) else LongTexts(Select(d, SpanTags), 20);
      SpacedContentIsJoin(Select(d, SpanTags), 20);
      LongTextsStripped(ps, 0);
      LongTextsStripped(Select(d, SpanTags), 20);
      JoinKeepsEnds(ts);
      assert Content(doc) == Join(" ", ts);
    }
  }

  method ContentOf(doc: Elem) returns (content: string)
    ensures content == Content(doc)
  {
    var div := FirstSome(ContentSels, SelectOnePick(doc));
    if div.None? {
      div := FirstSome(Select(doc, BodyDivs), BodyPick);
    }
    content := "";
    if div.Some? {
      var ps := Select(div.value, "p");
      if |ps| > 1 {
        var texts := CollectLongTexts(ps, 0);
        content := Join(" ", texts);
      } else {
        content := CollectSpaced(Select(div.value, SpanTags), 20);
      }
    }
  }

  // ---------------------------------------------------------------------------
  // scrape_article
  // ---------------------------------------------------------------------------

  function DraftOf(doc: Elem, url: string): Draft
  {
    Draft(Title(doc), Image(doc), Content(doc), url, Name)
  }

  /** scrape_article: None when the page cannot be fetched or fails the gate. */
  function Article(web: Web, url: string): Option<Draft>
  {
    match Fetch(web, url)
    case None => None
    case Some(doc) => Gated(DraftOf(doc, url))
  }

  /** An article needs a page with an `<h1>` whose text is a real title, and an image
    * tag with an http(s) source. */
  lemma ArticleNeeds(web: Web, url: string)
    ensures var a := Article(web, url);
      a.Some? ==> url in web && SelectOne(web[url], "h1").Some?
                  && FirstPresent(web[url], ImageSels).Some?
                  && a.value == DraftOf(web[url], url) && Utils.IsValidTitle(a.value.title)
  {
  }

  method ScrapeArticle(web: Web, url: string) returns (a: Option<Draft>)
    ensures a == Article(web, url)
  {
    var page := Fetch(web, url);
    if page.None? {
      return None;
    }
    var doc := page.value;
    var title := "";
    var h := SelectOne(doc, "h1");
    if h.Some? {
      title := Strip(h.value.text);
    }
    var image := ImageOf(doc);
    var content := ContentOf(doc);
    if !Utils.IsValidTitle(title) || !Utils.IsValidImageUrl(image) {
      return None;
    }
    return Some(Draft(title, image, content, url, Name));
  }
}
