/** TheGamerScraper: a ladder of listing paths that skips tag and author pages, and an
  * article scraper that never settles for the site's own name as a title and always
  * has an image. */
module TheGamer {
  import opened Wrappers
  import opened Text
  import opened Html
  import opened Ladders
  import opened Fields
  import Utils
  import Links

  const Base := "https://www.thegamer.com"
  const Name := "TheGamer"

  /** The hard-coded URLs used when no listing path yields a link. */
  const Fallback: seq<string> := [
    "https://www.thegamer.com/elden-ring-shadow-of-the-erdtree-release-date-trailer/",
    "https://www.thegamer.com/gta-6-release-date-trailer/",
    "https://www.thegamer.com/call-of-duty-black-ops-6-release-date-trailer/",
    "https://www.thegamer.com/nintendo-switch-2-release-date-news/",
    "https://www.thegamer.com/xbox-series-x-price-increase/"
  ]

  /** get_article_urls: the first link selector with an href in each match; links to
    * tag or author pages and duplicates are skipped; `limit = None` means no cap. */
  const Site := Links.LinkSite(
    Base,
    Links.Paths(["/category/game-news", "/gaming", "/games", "/news", "/"], Fallback),
    ["article.list-item", "article", "div.article", "div.post", "div.entry", "div.card"],
    Links.LinkRule(false, [], false, ["a.article-link", "h2 a", "h3 a", "a.title", "a[href*='/20']", "a"],
                   true, true),
    Links.NoneMeansAll)

  lemma FallbackDistinct()
    ensures NoDuplicates(Fallback)
  {
    var f := Fallback;
    assert |f[0]| == 79 && |f[1]| == 52 && |f[2]| == 71 && |f[3]| == 61 && |f[4]| == 54;
  }

  /** get_article_urls never fails; it returns distinct links, at most `limit` of them
    * when a limit is given, each an absolute link to neither a tag nor an author page,
    * or one of the hard-coded list. */
  lemma ArticleUrlsFacts(web: Web, limit: Option<int>)
    ensures var r := Links.ArticleUrls(Site, web, limit);
      r.Ok? && NoDuplicates(r.value)
      && (limit.Some? && 0 <= limit.value ==> |r.value| <= limit.value)
      && forall i :: 0 <= i < |r.value| ==>
           (StartsWith(r.value[i], "http") && !Contains(r.value[i], "/tag/") && !Contains(r.value[i], "/author/"))
           || r.value[i] in Fallback
  {
    Links.UrlsRaise(Site, web, limit);
    Links.UrlsOrigin(Site, web, limit);
    FallbackDistinct();
    Links.UrlsDistinct(Site, web, limit);
  }

  // ---------------------------------------------------------------------------
  // The title
  // ---------------------------------------------------------------------------

  /** The site's own names, which are never taken as a title. */
  const Brands: seq<string> := ["thegamer", "the gamer"]

  /** `not title or title.lower() == "thegamer" or title.lower() == "the gamer"` */
  predicate Needs(title: string)
  {
    !Acceptable(title, Brands)
  }

  const Headings: seq<string> :=
    ["h1.title", "h1.article-title", "h1.entry-title", "h1", "header h1", ".article-title",
     ".post-title", "article h1"]

  const ScriptSel := "script[type=\"application/ld+json\"]"

  /** The stripped content of the og:title (else twitter:title) meta tag, when acceptable. */
  function MetaTitle(doc: Elem): (r: Option<string>)
    ensures r.Some? ==> Acceptable(r.value, Brands)
  {
    match FirstPresent(doc, ["meta[property=\"og:title\"]", "meta[name=\"twitter:title\"]"])
    case None => None
    case Some(m) =>
      if Truthy(Get(m, "content")) && Acceptable(Strip(Get(m, "content").value), Brands)
      then Some(Strip(Get(m, "content").value)) else None
  }

  /** The `<title>` text, stripped and cut before " - ", when acceptable. */
  function TagTitle(doc: Elem): (r: Option<string>)
    ensures r.Some? ==> Acceptable(r.value, Brands)
  {
    match SelectOne(doc, "title")
    case None => None
    case Some(t) =>
      var p := Strip(t.text);
      var q := if Contains(p, " - ") then Strip(BeforeFirst(p, " - ")) else p;
      if Acceptable(q, Brands) then Some(q) else None
  }

  /** `headline` stands for `json.loads(script.string)['headline']`: the headline string
    * of a script that parses to a dictionary with one, and None for a script that does
    * not parse, has no headline, or has one that is not a string. */
  function JsonPick(headline: Elem -> Option<string>): Elem -> Option<string>
  {
    s => match headline(s)
         case None => None
         case Some(h) => if Acceptable(h, Brands) then Some(h) else None
  }

  /** The first JSON-LD headline that is acceptable. */
  function JsonTitle(doc: Elem, headline: Elem -> Option<string>): (r: Option<string>)
    ensures r.Some? ==> Acceptable(r.value, Brands)
  {
    FirstSomeOfFrom(Select(doc, ScriptSel), JsonPick(headline));
    FirstSomeOf(Select(doc, ScriptSel), JsonPick(headline))
  }

  /** One step of the title ladder: a later source is consulted only while the title
    * is empty or a brand name, and replaces it only with an acceptable title. */
  function Settle(c: Option<string>, title: string): string
  {
    if Needs(title) then c.GetOr(title) else title
  }

  /** The title sources in the order scrape_article consults them: meta tag, `<title>`,
    * headings, JSON-LD. */
  function Candidates(doc: Elem, headline: Elem -> Option<string>): (cs: seq<Option<string>>)
    ensures forall k :: 0 <= k < |cs| ==> cs[k].Some? ==> Acceptable(cs[k].value, Brands)
  {
    var cs := [MetaTitle(doc), TagTitle(doc), AcceptedHeading(doc, Headings, Brands), JsonTitle(doc, headline)];
    forall k | 0 <= k < |cs| && cs[k].Some?
      ensures Acceptable(cs[k].value, Brands)
    {
      if k == 0 {
        assert cs[k] == MetaTitle(doc);
      } else if k == 1 {
        assert cs[k] == TagTitle(doc);
      } else if k == 2 {
        assert cs[k] == AcceptedHeading(doc, Headings, Brands);
      } else {
        assert cs[k] == JsonTitle(doc, headline);
      }
    }
    cs
  }

  /** The title: each later source is tried only while the title is empty or a brand
    * name, and the URL title is forced three times over. */
  function Title(doc: Elem, url: string, headline: Elem -> Option<string>): string
  {
    var t4 := SettleAll(Candidates(doc, headline), "");
    var t5 := if Needs(t4) then UrlTitle(url) else t4;
    var t6 := if Needs(t5) then UrlTitle(url) else t5;
    if Lower(t6) in Brands then UrlTitle(url) else t6
  }

  function Identity(o: Option<string>): Option<string>
  {
    o
  }

  /** Over candidates that are each absent or acceptable, the ladder of Settle steps
    * from "" ends with the first candidate present, or "" when none is. */
  lemma {:induction false} SettleFirst(cs: seq<Option<string>>, title: string)
    requires forall k :: 0 <= k < |cs| ==> cs[k].Some? ==> Acceptable(cs[k].value, Brands)
    requires title == "" || Acceptable(title, Brands)
    ensures SettleAll(cs, title) == if title != "" then title else FirstSomeOf(cs, Identity).GetOr("")
    decreases |cs|
  {
    if cs != [] {
      SettleFirst(cs[1..], Settle(cs[0], title));
    }
  }

  /** Settle applied with each candidate in turn. */
  function SettleAll(cs: seq<Option<string>>, title: string): string
    decreases |cs|
  {
    if cs == [] then title else SettleAll(cs[1..], Settle(cs[0], title))
  }

  /** The title is the first acceptable candidate in the order meta tag, `<title>`,
    * headings, JSON-LD, and the URL title when none is acceptable. It is never the
    * site's name unless the URL itself spells it. */
  lemma TitleIsFirstAcceptable(doc: Elem, url: string, headline: Elem -> Option<string>)
    ensures Title(doc, url, headline) == FirstSomeOf(Candidates(doc, headline), Identity).GetOr(UrlTitle(url))
    ensures Acceptable(Title(doc, url, headline), Brands) || Title(doc, url, headline) == UrlTitle(url)
    ensures Lower(Title(doc, url, headline)) in Brands ==> Title(doc, url, headline) == UrlTitle(url)
  {
    var cands := Candidates(doc, headline);
    SettleFirst(cands, "");
    FirstSomeOfFrom(cands, Identity);
  }

  /** The title loops of scrape_article. */
  method TitleOf(doc: Elem, url: string, headline: Elem -> Option<string>) returns (title: string)
    ensures title == Title(doc, url, headline)
  {
    title := SourcesTitle(doc, headline);
    if Needs(title) {
      title := UrlTitle(url);
    }
    if Needs(title) {
      title := UrlTitle(url);
    }
    if Lower(title) in Brands {
      title := UrlTitle(url);
    }
  }

  /** The loops over the page's own title sources. */
  method SourcesTitle(doc: Elem, headline: Elem -> Option<string>) returns (title: string)
    ensures title == SettleAll(Candidates(doc, headline), "")
  {
    ghost var cs := Candidates(doc, headline);
    assert cs[0..] == cs;
    SettleAllStep(cs, 0, "");
    title := Settle(MetaTitle(doc), "");
    SettleAllStep(cs, 1, title);
    title := Settle(TagTitle(doc), title);
    SettleAllStep(cs, 2, title);
    if Needs(title) {
      var h := FirstSome(Headings, HeadingPick(doc, Brands));
      title := h.GetOr(title);
    }
    SettleAllStep(cs, 3, title);
    if Needs(title) {
      var j := FirstSome(Select(doc, ScriptSel), JsonPick(headline));
      title := j.GetOr(title);
    }
    assert cs[4..] == [];
  }

  /** The ladder from position `i` is one Settle step, then the ladder from `i + 1`. */
  lemma SettleAllStep(cs: seq<Option<string>>, i: int, title: string)
    requires 0 <= i < |cs|
    ensures SettleAll(cs[i..], title) == SettleAll(cs[i + 1..], Settle(cs[i], title))
  {
    assert cs[i..][1..] == cs[i + 1..];
  }

  // ---------------------------------------------------------------------------
  // The image
  // ---------------------------------------------------------------------------

  const ImageSels: seq<string> :=
    ["div.image-holder img", "figure.wp-block-image img", "div.featured-image img", "img.wp-post-image",
     "picture img", "div.article-image img", "meta[property='og:image']", "div.post-thumbnail img",
     "img.attachment-large"]

  const DefaultImage :=
    "https://static0.thegamerimages.com/wordpress/wp-content/uploads/2023/05/thegamer-default-og-1.jpg"

  /** Mentions ".svg" or "logo" in any case. */
  predicate Logoish(v: string)
  {
    Contains(Lower(v), ".svg") || Contains(Lower(v), "logo")
  }

  /** What the image loop reads from a tag: a meta tag's content, otherwise the lazy
    * source, with SVG and logo images reset to "". */
  function ImageValue(sel: string, e: Elem): (v: string)
    ensures v == "" || !Logoish(v)
  {
    var raw := if sel == "meta[property='og:image']" then GetOr(e, "content", "") else LazySrc(e);
    if raw != "" && Logoish(raw) then "" else raw
  }

  /** An `<img>` of the scan: a JPEG, PNG or WebP source that is no SVG or logo. */
  function ScanPick(e: Elem): Option<string>
  {
    var v := LazySrc(e);
    if v != "" && (Contains(v, ".jpg") || Contains(v, ".png") || Contains(v, ".webp")) && !Logoish(v)
    then Some(v) else None
  }

  function Image(doc: Elem): string
  {
    var v := ImageLadder(doc, ImageSels, ImageValue, NonEmpty, "");
    var w := if v != "" then v else FirstSomeOf(Select(doc, "img"), ScanPick).GetOr("");
    if w == "" || Contains(Lower(w), ".svg") then DefaultImage else w
  }

  /** Every image loop result is empty or free of ".svg" and "logo". */
  lemma {:induction false} LadderClean(doc: Elem, sels: seq<string>, current: string)
    requires current == "" || !Logoish(current)
    ensures var v := ImageLadder(doc, sels, ImageValue, NonEmpty, current); v == "" || !Logoish(v)
    decreases |sels|
  {
    if sels != [] {
      match SelectOne(doc, sels[0])
      case None => LadderClean(doc, sels[1..], current);
      case Some(t) => LadderClean(doc, sels[1..], ImageValue(sels[0], t));
    }
  }

  /** The image is never empty and never an SVG or logo: it is the default image or a
    * non-empty source that mentions neither ".svg" nor "logo". */
  lemma ImageClean(doc: Elem)
    ensures Image(doc) == DefaultImage || (Image(doc) != "" && !Logoish(Image(doc)))
  {
    LadderClean(doc, ImageSels, "");
    var imgs := Select(doc, "img");
    FirstSomeOfFrom(imgs, ScanPick);
  }

  /** The image loops of scrape_article. */
  method ImageOf(doc: Elem) returns (image: string)
    ensures image == Image(doc)
  {
    image := ImageLoop(doc, ImageSels, ImageValue, NonEmpty);
    if image == "" {
      var found := FirstSome(Select(doc, "img"), ScanPick);
      image := found.GetOr("");
    }
    ghost var w := image;
    assert w == if ImageLadder(doc, ImageSels, ImageValue, NonEmpty, "") != "" then ImageLadder(doc, ImageSels, ImageValue, NonEmpty, "")
                else FirstSomeOf(Select(doc, "img"), ScanPick).GetOr("");
    if image == "" || Contains(Lower(image), ".svg") {
      image := DefaultImage;
    }
  }

  // ---------------------------------------------------------------------------
  // scrape_article
  // ---------------------------------------------------------------------------

  const ContentSels: seq<string> :=
    ["div.article-body", "div.entry-content", "div.article-content", "article", "div.content"]
  const MainSels: seq<string> := ["main", "article", "div.article"]

  function DraftOf(doc: Elem, url: string, headline: Elem -> Option<string>): Draft
  {
    var title := Title(doc, url, headline);
    Draft(title, Image(doc), LadderContent(doc, ContentSels, MainSels, Name, title, url), url, Name)
  }

  /** scrape_article: None when the page cannot be fetched or fails the gate. */
  function Article(web: Web, url: string, headline: Elem -> Option<string>): Option<Draft>
  {
    match Fetch(web, url)
    case None => None
    case Some(doc) => Gated(DraftOf(doc, url, headline))
  }

  method ScrapeArticle(web: Web, url: string, headline: Elem -> Option<string>) returns (a: Option<Draft>)
    ensures a == Article(web, url, headline)
  {
    var page := Fetch(web, url);
    if page.None? {
      return None;
    }
    var doc := page.value;
    var title := TitleOf(doc, url, headline);
    var image := ImageOf(doc);
    var content := ContentLoop(doc, ContentSels, MainSels, Name, title, url);
    if !Utils.IsValidTitle(title) || !Utils.IsValidImageUrl(image) {
      return None;
    }
    return Some(Draft(title, image, content, url, Name));
  }
}
