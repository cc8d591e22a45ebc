/** The `scrape_article` shape the Polygon, WCCFTech and Eurogamer scrapers share:
  * heading ladder then URL title; image ladder then a scan of every `<img>` for one of
  * the site's marks; paragraphs, then substantial texts, then the placeholder; and
  * the validation gate. Only the selector lists, marks and names differ. */
module PlainArticle {
  import opened Wrappers
  import opened Text
  import opened Html
  import opened Ladders
  import opened Fields
  import Utils
  import Links

  /** What one of these scrapers plugs into the shared shape. */
  datatype Recipe = Recipe(
    name: string,               // self.name, and the name in the placeholder text
    titleSels: seq<string>,
    imageSels: seq<string>,
    imageMarks: seq<string>,    // an `<img>` found by the scan must mention one of these
    contentSels: seq<string>,
    mainSels: seq<string>)

  /** `e.get("data-src") or e.get("data-lazy-src") or e.get("src", "")`, whatever the
    * selector. */
  function LazyOf(sel: string, e: Elem): string
  {
    LazySrc(e)
  }

  /** An `<img>` of the scan qualifies by a non-empty source that mentions a mark. */
  function ScanPick(marks: seq<string>): Elem -> Option<string>
  {
    e => var v := LazySrc(e); if v != "" && Links.MarkOk(marks, v) then Some(v) else None
  }

  function Title(r: Recipe, doc: Elem, url: string): string
  {
    var t := FirstText(doc, r.titleSels);
    if t == "" then UrlTitle(url) else t
  }

  function Image(r: Recipe, doc: Elem): string
  {
    var v := ImageLadder(doc, r.imageSels, LazyOf, NonEmpty, "");
    if v != "" then v else FirstSomeOf(Select(doc, "img"), ScanPick(r.imageMarks)).GetOr("")
  }

  /** What scrape_article hands to create_article_object for a fetched page. */
  function DraftOf(r: Recipe, doc: Elem, url: string): Draft
  {
    var title := Title(r, doc, url);
    Draft(title, Image(r, doc), LadderContent(doc, r.contentSels, r.mainSels, r.name, title, url),
          url, r.name)
  }

  /** scrape_article: None when the page cannot be fetched or fails the gate. */
  function Article(r: Recipe, web: Web, url: string): Option<Draft>
  {
    match Fetch(web, url)
    case None => None
    case Some(doc) => Gated(DraftOf(r, doc, url))
  }

  method ScrapeArticle(r: Recipe, web: Web, url: string) returns (a: Option<Draft>)
    ensures a == Article(r, web, url)
  {
    var page := Fetch(web, url);
    if page.None? {
      return None;
    }
    var doc := page.value;
    var title := FirstTextLoop(doc, r.titleSels);
    if title == "" {
      title := UrlTitle(url);
    }
    var image := ImageLoop(doc, r.imageSels, LazyOf, NonEmpty);
    if image == "" {
      var found := FirstSome(Select(doc, "img"), ScanPick(r.imageMarks));
      image := found.GetOr("");
    }
    var content := ContentLoop(doc, r.contentSels, r.mainSels, r.name, title, url);
    if !Utils.IsValidTitle(title) || !Utils.IsValidImageUrl(image) {
      return None;
    }
    return Some(Draft(title, image, content, url, r.name));
  }

  /** The title has no surrounding whitespace: it is the stripped text of the first
    * heading that matches, or, when that is empty, the single-spaced URL title. */
  lemma TitleStripped(r: Recipe, doc: Elem, url: string)
    ensures Strip(Title(r, doc, url)) == Title(r, doc, url)
    ensures FirstPresent(doc, r.titleSels).Some? && Title(r, doc, url) != UrlTitle(url) ==>
      Title(r, doc, url) == Strip(FirstPresent(doc, r.titleSels).value.text)
  {
    var t := Title(r, doc, url);
    if FirstText(doc, r.titleSels) == "" {
      UrlTitleShape(url);
      SingleSpacedIsStripped(t);
    } else {
      StripIsStripped(FirstPresent(doc, r.titleSels).value.text);
      StripUnchanged(t);
    }
  }

  /** The image URL is empty, or read from a tag one of the image selectors matches, or
    * read from an `<img>` that mentions one of the marks. */
  lemma ImageOrigin(r: Recipe, doc: Elem)
    ensures var v := Image(r, doc);
      v == ""
      || (exists k :: 0 <= k < |r.imageSels| && SelectOne(doc, r.imageSels[k]).Some?
                      && v == LazySrc(SelectOne(doc, r.imageSels[k]).value))
      || (exists e :: e in Select(doc, "img") && v == LazySrc(e) && Links.MarkOk(r.imageMarks, v))
  {
    var v := Image(r, doc);
    var lad := ImageLadder(doc, r.imageSels, LazyOf, NonEmpty, "");
    ImageLadderFrom(doc, r.imageSels, LazyOf, NonEmpty, "");
    if lad == "" {
      var imgs := Select(doc, "img");
      FirstSomeOfFrom(imgs, ScanPick(r.imageMarks));
      if FirstSomeOf(imgs, ScanPick(r.imageMarks)).Some? {
        var i :| 0 <= i < |imgs| && ScanPick(r.imageMarks)(imgs[i]) == FirstSomeOf(imgs, ScanPick(r.imageMarks));
        assert v == LazySrc(imgs[i]);
      }
    } else {
      var k :| 0 <= k < |r.imageSels| && SelectOne(doc, r.imageSels[k]).Some?
               && lad == LazyOf(r.imageSels[k], SelectOne(doc, r.imageSels[k]).value);
      assert v == LazySrc(SelectOne(doc, r.imageSels[k]).value);
    }
  }

  /** An article is produced exactly when the page is fetched and its title and image
    * pass the gate; it then carries the URL, the scraper's name and non-empty content. */
  lemma ArticleGate(r: Recipe, web: Web, url: string)
    ensures var a := Article(r, web, url);
      a.Some? <==> url in web && Utils.IsValidTitle(Title(r, web[url], url))
                   && Utils.IsValidImageUrl(Image(r, web[url]))
    ensures var a := Article(r, web, url);
      a.Some? ==> a.value.url == url && a.value.sourceName == r.name && a.value.content != ""
                  && a.value.title == Title(r, web[url], url) && a.value.imageUrl == Image(r, web[url])
  {
  }
}
