/** BaseScraper: the name rule every scraper is constructed with, and `scrape`, which
  * collects a site's article URLs and scrapes each in turn, skipping the ones that
  * fail. The ten scrapers are the constructors of `Scraper`. */
module BaseScraper {
  import opened Wrappers
  import opened Text
  import opened Html
  import opened Ladders
  import opened Fields
  import Utils
  import Links
  import PlainArticle
  import TG = TheGamer
  import GR = GameRant
  import EG = Engadget
  import PG = Polygon
  import WC = Wccftech
  import EU = Eurogamer
  import GS = GameSpot
  import PC = PCGamer
  import IG = Ign
  import KO = Kotaku

  // ---------------------------------------------------------------------------
  // The name rule
  // ---------------------------------------------------------------------------

  /** `_extract_name_from_url`: the host without one leading "www.", then the first run
    * of characters other than '.', capitalised; the host itself when it holds no such
    * run. */
  function ExtractNameFromUrl(url: string): string
  {
    var domain := Utils.ExtractDomain(url);
    var after := SkipDots(domain);
    if after == "" then domain else Capitalize(UntilAny(after, "."))
  }

  /** `s` without its leading dots: where `re.search(r'([^.]+)', s)` starts looking. */
  function SkipDots(s: string): (r: string)
    ensures |r| <= |s| && r == s[|s| - |r|..]
    ensures r == [] || r[0] != '.'
    decreases |s|
  {
    if s != [] && s[0] == '.' then SkipDots(s[1..]) else s
  }

  /** `name or self._extract_name_from_url(base_url)` */
  function ScraperName(name: Option<string>, baseUrl: string): (r: string)
    ensures name.Some? && name.value != "" ==> r == name.value
  {
    if name.Some? && name.value != "" then name.value else ExtractNameFromUrl(baseUrl)
  }

  /** For a URL `scheme://[www.]first.rest...` the derived name is the capitalised
    * first label of the host. */
  lemma NameOfHost(scheme: string, www: bool, first: string, tail: string, rest: string)
    requires Utils.IsScheme(scheme)
    requires first != [] && '.' !in first && (tail == [] || tail[0] == '.')
    requires forall k :: 0 <= k < |first + tail| ==> (first + tail)[k] !in "/?#"
    requires !www ==> !StartsWith(first + tail, "www.")
    requires rest == [] || rest[0] in "/?#"
    ensures ExtractNameFromUrl(scheme + "://" + (if www then "www." else "") + first + tail + rest)
         == Capitalize(first)
  {
    var domain := first + tail;
    DomainOfHost(scheme, www, first, tail, rest);
    assert SkipDots(domain) == domain;
    UntilAnyConcat(first, tail, ".");
  }

  lemma DomainOfHost(scheme: string, www: bool, first: string, tail: string, rest: string)
    requires Utils.IsScheme(scheme)
    requires first != []
    requires forall k :: 0 <= k < |first + tail| ==> (first + tail)[k] !in "/?#"
    requires !www ==> !StartsWith(first + tail, "www.")
    requires rest == [] || rest[0] in "/?#"
    ensures Utils.ExtractDomain(scheme + "://" + (if www then "www." else "") + first + tail + rest)
         == first + tail
  {
    var prefix := if www then "www." else "";
    var host := prefix + (first + tail);
    assert scheme + "://" + prefix + first + tail + rest == scheme + "://" + host + rest;
    HostShape(www, first + tail);
    Utils.ExtractDomainOfUrl(scheme, host, rest);
  }

  /** A domain with an optional "www." in front: no '/', '?' or '#' in it, and removing
    * a leading "www." gives the domain back. */
  lemma HostShape(www: bool, domain: string)
    requires forall k :: 0 <= k < |domain| ==> domain[k] !in "/?#"
    requires !www ==> !StartsWith(domain, "www.")
    ensures var host := (if www then "www." else "") + domain;
      && (forall k :: 0 <= k < |host| ==> host[k] !in "/?#")
      && (if StartsWith(host, "www.") then host[4..] else host) == domain
  {
    var prefix := if www then "www." else "";
    var host := prefix + domain;
    forall k | 0 <= k < |host| ensures host[k] !in "/?#" {
      if k >= |prefix| {
        assert host[k] == domain[k - |prefix|];
      }
    }
    if www {
      assert host[..4] == "www.";
      assert host[4..] == domain;
    }
  }

  // ---------------------------------------------------------------------------
  // The scrapers
  // ---------------------------------------------------------------------------

  datatype Scraper =
    | TheGamer | GameRant | Engadget | Polygon | Wccftech | Eurogamer
    | GameSpot | PCGamer | Ign | Kotaku

  /** The name each scraper passes to the constructor. */
  function Name(s: Scraper): string
  {
    match s
    case TheGamer => TG.Name
    case GameRant => GR.Name
    case Engadget => EG.Name
    case Polygon => PG.Name
    case Wccftech => WC.Name
    case Eurogamer => EU.Name
    case GameSpot => GS.Name
    case PCGamer => PC.Name
    case Ign => IG.Name
    case Kotaku => KO.Name
  }

  function Site(s: Scraper): Links.LinkSite
  {
    match s
    case TheGamer => TG.Site
    case GameRant => GR.Site
    case Engadget => EG.Site
    case Polygon => PG.Site
    case Wccftech => WC.Site
    case Eurogamer => EU.Site
    case GameSpot => GS.Site
    case PCGamer => PC.Site
    case Ign => IG.Site
    case Kotaku => KO.Site
  }

  /** `self.get_article_urls(limit)` */
  function Urls(s: Scraper, web: Web, limit: Option<int>): Result<seq<string>>
  {
    Links.ArticleUrls(Site(s), web, limit)
  }

  /** `self.scrape_article(url)`; `headline` is TheGamer's reading of a JSON-LD script. */
  function Article(s: Scraper, web: Web, url: string, headline: Elem -> Option<string>): Option<Draft>
  {
    match s
    case TheGamer => TG.Article(web, url, headline)
    case GameRant => GR.Article(web, url)
    case Engadget => EG.Article(web, url)
    case Polygon => PlainArticle.Article(PG.Recipe, web, url)
    case Wccftech => PlainArticle.Article(WC.Recipe, web, url)
    case Eurogamer => PlainArticle.Article(EU.Recipe, web, url)
    case GameSpot => GS.Article(web, url)
    case PCGamer => PC.Article(web, url)
    case Ign => IG.Article(web, url)
    case Kotaku => KO.Article(web, url)
  }

  /** Every scraper names its source explicitly, and every article it produces carries
    * the article's URL and that name. */
  lemma ArticleLabels(s: Scraper, web: Web, url: string, headline: Elem -> Option<string>)
    ensures Name(s) != ""
    ensures var a := Article(s, web, url, headline);
      a.Some? ==> a.value.url == url && a.value.sourceName == Name(s)
  {
  }

  // ---------------------------------------------------------------------------
  // scrape
  // ---------------------------------------------------------------------------

  /** `self.scrape_article` as a function of the URL. */
  function ArticleOf(s: Scraper, web: Web, headline: Elem -> Option<string>): string -> Option<Draft>
  {
    url => Article(s, web, url, headline)
  }

  /** What scraping one URL adds: nothing when `scrape_article` raises (the URLs in
    * `fails`) or returns None, otherwise its article. */
  function Outcome(scrape: string -> Option<Draft>, fails: set<string>, url: string): seq<Draft>
  {
    if url in fails then []
    else match scrape(url)
      case None => []
      case Some(d) => [d]
  }

  /** The loop over the URLs, in order. */
  function Collect(scrape: string -> Option<Draft>, fails: set<string>, urls: seq<string>): (r: seq<Draft>)
    ensures |r| <= |urls|
    decreases |urls|
  {
    if urls == [] then []
    else Collect(scrape, fails, urls[..|urls| - 1]) + Outcome(scrape, fails, urls[|urls| - 1])
  }

  /** `scrape`: the TypeError of `get_article_urls` escapes; otherwise the articles of
    * the URLs in order (none at all for an empty URL list). */
  function Scrape(s: Scraper, web: Web, limit: Option<int>, fails: set<string>,
                  headline: Elem -> Option<string>): Result<seq<Draft>>
  {
    match Urls(s, web, limit)
    case Err(e) => Err(e)
    case Ok(urls) => Ok(Collect(ArticleOf(s, web, headline), fails, urls))
  }

  /** Scraping a list in two parts gives the two parts' articles one after the other:
    * each URL is scraped on its own. */
  lemma {:induction false} CollectAppend(scrape: string -> Option<Draft>, fails: set<string>,
                                         us: seq<string>, vs: seq<string>)
    ensures Collect(scrape, fails, us + vs) == Collect(scrape, fails, us) + Collect(scrape, fails, vs)
    decreases |vs|
  {
    if vs == [] {
      assert us + vs == us;
    } else {
      assert (us + vs)[..|us + vs| - 1] == us + vs[..|vs| - 1];
      assert (us + vs)[|us + vs| - 1] == vs[|vs| - 1];
      CollectAppend(scrape, fails, us, vs[..|vs| - 1]);
    }
  }

  /** A URL whose scraping raises contributes nothing and stops nothing: the URLs before
    * and after it are scraped as if it were absent. */
  lemma FailureSkipsOnly(scrape: string -> Option<Draft>, fails: set<string>,
                         pre: seq<string>, url: string, post: seq<string>)
    requires url in fails
    ensures Collect(scrape, fails, pre + [url] + post) == Collect(scrape, fails, pre) + Collect(scrape, fails, post)
  {
    var a := Collect(scrape, fails, pre);
    var b := Collect(scrape, fails, post);
    CollectAppend(scrape, fails, pre + [url], post);
    CollectAppend(scrape, fails, pre, [url]);
    CollectFailed(scrape, fails, url);
    assert Collect(scrape, fails, pre + [url]) == a;
  }

  /** One more URL adds its outcome. */
  lemma CollectStep(scrape: string -> Option<Draft>, fails: set<string>, urls: seq<string>, i: int)
    requires 0 <= i < |urls|
    ensures Collect(scrape, fails, urls[..i + 1]) == Collect(scrape, fails, urls[..i]) + Outcome(scrape, fails, urls[i])
  {
    assert urls[..i + 1][..i] == urls[..i];
  }

  /** The outcome of a URL that did not raise, from what scrape_article returned. */
  lemma OutcomeOf(scrape: string -> Option<Draft>, fails: set<string>, url: string, a: Option<Draft>)
    requires a == if url in fails then None else scrape(url)
    ensures Outcome(scrape, fails, url) == if a.Some? then [a.value] else []
  {
  }

  lemma CollectFailed(scrape: string -> Option<Draft>, fails: set<string>, url: string)
    requires url in fails
    ensures Collect(scrape, fails, [url]) == []
  {
    assert [url][..0] == [];
  }

  /** The article comes from a URL of the list that did not raise. */
  predicate FromUrls(scrape: string -> Option<Draft>, fails: set<string>, urls: seq<string>, d: Draft)
  {
    exists i :: 0 <= i < |urls| && urls[i] !in fails && scrape(urls[i]) == Some(d)
  }

  /** Every article comes from a URL of the list that did not raise. */
  lemma {:induction false} CollectOrigin(scrape: string -> Option<Draft>, fails: set<string>,
                                         urls: seq<string>)
    ensures forall d :: d in Collect(scrape, fails, urls) ==> FromUrls(scrape, fails, urls, d)
    decreases |urls|
  {
    if urls != [] {
      var init := urls[..|urls| - 1];
      var last := urls[|urls| - 1];
      CollectOrigin(scrape, fails, init);
      forall d | d in Collect(scrape, fails, urls) ensures FromUrls(scrape, fails, urls, d) {
        if d in Collect(scrape, fails, init) {
          assert FromUrls(scrape, fails, init, d);
          var i :| 0 <= i < |init| && init[i] !in fails && scrape(init[i]) == Some(d);
          assert urls[i] == init[i];
        } else {
          assert d in Outcome(scrape, fails, last);
          assert urls[|urls| - 1] == last;
        }
      }
    }
  }

  /** Every URL that does not raise and yields an article has that article in the
    * result. */
  lemma CollectCovers(scrape: string -> Option<Draft>, fails: set<string>, urls: seq<string>, i: int)
    requires 0 <= i < |urls| && urls[i] !in fails && scrape(urls[i]).Some?
    ensures scrape(urls[i]).value in Collect(scrape, fails, urls)
  {
    assert urls == urls[..i] + [urls[i]] + urls[i + 1..];
    CollectAppend(scrape, fails, urls[..i] + [urls[i]], urls[i + 1..]);
    CollectAppend(scrape, fails, urls[..i], [urls[i]]);
    assert [urls[i]][..0] == [];
  }

  /** scrape fails only when get_article_urls does. Otherwise it returns at most one
    * article per URL, and nothing for an empty URL list. */
  lemma ScrapeFacts(s: Scraper, web: Web, limit: Option<int>, fails: set<string>,
                    headline: Elem -> Option<string>)
    ensures Scrape(s, web, limit, fails, headline).Err? <==> Urls(s, web, limit).Err?
    ensures var r := Scrape(s, web, limit, fails, headline);
      r.Ok? ==> |r.value| <= |Urls(s, web, limit).value|
                && (Urls(s, web, limit).value == [] ==> r.value == [])
  {
  }

  /** Each article scrape returns comes from a listed URL that did not raise, and
    * carries that URL and the scraper's name. */
  lemma ScrapeOrigin(s: Scraper, web: Web, limit: Option<int>, fails: set<string>,
                     headline: Elem -> Option<string>)
    requires Urls(s, web, limit).Ok?
    ensures var r := Collect(ArticleOf(s, web, headline), fails, Urls(s, web, limit).value);
      Scrape(s, web, limit, fails, headline) == Ok(r)
      && forall k :: 0 <= k < |r| ==>
        r[k].url in Urls(s, web, limit).value && r[k].url !in fails
        && r[k].sourceName == Name(s)
  {
    var urls := Urls(s, web, limit).value;
    var scrape := ArticleOf(s, web, headline);
    var r := Collect(scrape, fails, urls);
    CollectOrigin(scrape, fails, urls);
    forall k | 0 <= k < |r|
      ensures r[k].url in urls && r[k].url !in fails && r[k].sourceName == Name(s)
    {
      assert FromUrls(scrape, fails, urls, r[k]);
      var i :| 0 <= i < |urls| && urls[i] !in fails && scrape(urls[i]) == Some(r[k]);
      ArticleLabels(s, web, urls[i], headline);
    }
  }

  /** Every listed URL that does not raise and whose scrape_article returns an article
    * has that article in scrape's result. */
  lemma ScrapeCovers(s: Scraper, web: Web, limit: Option<int>, fails: set<string>,
                     headline: Elem -> Option<string>, i: int)
    requires Urls(s, web, limit).Ok? && 0 <= i < |Urls(s, web, limit).value|
    requires Urls(s, web, limit).value[i] !in fails
    requires Article(s, web, Urls(s, web, limit).value[i], headline).Some?
    ensures Scrape(s, web, limit, fails, headline).Ok?
    ensures Article(s, web, Urls(s, web, limit).value[i], headline).value
            in Scrape(s, web, limit, fails, headline).value
  {
    var urls := Urls(s, web, limit).value;
    CollectCovers(ArticleOf(s, web, headline), fails, urls, i);
  }

  // ---------------------------------------------------------------------------
  // The loops
  // ---------------------------------------------------------------------------

  /** `self.scrape_article(url)`, as each scraper runs it. */
  method ScrapeOne(s: Scraper, web: Web, url: string, headline: Elem -> Option<string>)
    returns (a: Option<Draft>)
    ensures a == ArticleOf(s, web, headline)(url)
  {
    match s {
      case TheGamer => a := TG.ScrapeArticle(web, url, headline);
      case GameRant => a := GR.ScrapeArticle(web, url);
      case Engadget => a := EG.ScrapeArticle(web, url);
      case Polygon => a := PlainArticle.ScrapeArticle(PG.Recipe, web, url);
      case Wccftech => a := PlainArticle.ScrapeArticle(WC.Recipe, web, url);
      case Eurogamer => a := PlainArticle.ScrapeArticle(EU.Recipe, web, url);
      case GameSpot => a := GS.ScrapeArticle(web, url);
      case PCGamer => a := PC.ScrapeArticle(web, url);
      case Ign => a := IG.ScrapeArticle(web, url);
      case Kotaku => a := KO.ScrapeArticle(web, url);
    }
  }

  /** `scrape`: the URL list, then the loop over it. */
  method ScrapeAll(s: Scraper, web: Web, limit: Option<int>, fails: set<string>,
                   headline: Elem -> Option<string>) returns (r: Result<seq<Draft>>)
    ensures r == Scrape(s, web, limit, fails, headline)
  {
    var found := Links.CollectUrls(Site(s), web, limit);
    if found.Err? {
      return Err(found.error);
    }
    if found.value == [] {
      return Ok([]);
    }
    var articles := ScrapeUrls(s, web, fails, headline, found.value);
    return Ok(articles);
  }

  /** `for url in article_urls: try: article = self.scrape_article(url); if article:
    * articles.append(article) except Exception: pass` */
  method ScrapeUrls(s: Scraper, web: Web, fails: set<string>, headline: Elem -> Option<string>,
                    urls: seq<string>) returns (articles: seq<Draft>)
    ensures articles == Collect(ArticleOf(s, web, headline), fails, urls)
  {
    ghost var scrape := ArticleOf(s, web, headline);
    articles := [];
    var i := 0;
    while i < |urls|
      invariant 0 <= i <= |urls|
      invariant articles == Collect(scrape, fails, urls[..i])
    {
      CollectStep(scrape, fails, urls, i);
      var found := ScrapeStep(s, web, fails, headline, urls[i]);
      articles := articles + found;
      i := i + 1;
    }
    assert urls[..|urls|] == urls;
  }

  /** One pass of the loop body: the article of `url`, if scraping it neither raised nor
    * returned None. */
  method ScrapeStep(s: Scraper, web: Web, fails: set<string>, headline: Elem -> Option<string>,
                    url: string) returns (found: seq<Draft>)
    ensures found == Outcome(ArticleOf(s, web, headline), fails, url)
  {
    var a: Option<Draft> := None;
    if url !in fails {
      a := ScrapeOne(s, web, url, headline);
    }
    OutcomeOf(ArticleOf(s, web, headline), fails, url, a);
    found := if a.Some? then [a.value] else [];
  }
}
