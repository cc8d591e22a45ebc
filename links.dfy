/** The link-collection loops of the scrapers' `get_article_urls`: an ordered list of
  * listing paths (or one listing page), the first element selector with matches, the
  * link each match offers, the filters a link must pass, and the cap at `limit`. */
module Links {
  import opened Wrappers
  import opened Text
  import opened Html
  import opened Ladders

  /** How a scraper compares the number of collected links with `limit` before each
    * match: `limit is not None and len(links) >= limit`, or the bare
    * `len(links) >= limit`, which raises TypeError when `limit` is None. */
  datatype Guard = NoneMeansAll | Compares

  /** How a matched element yields a link, and which links are added. */
  datatype LinkRule = LinkRule(
    ownHref: bool,              // the match's own href is the link
    hrefMarks: seq<string>,     // with ownHref: the href must contain one of these ([] = any)
    direct: bool,               // a match that is itself an <a> with an href gives that href
    linkSelectors: seq<string>, // otherwise: the first of these inside the match with an href
    skipTagAuthor: bool,        // links containing "/tag/" or "/author/" are not added
    dedup: bool)                // a link already collected is not added again

  /** Where the listing comes from: base_url + each path in turn, with a hard-coded list
    * when no path yields a link, or one page whose failure gives []. */
  datatype Listing =
    | Paths(paths: seq<string>, fallback: seq<string>)
    | Page(page: string)

  datatype LinkSite = LinkSite(base: string, listing: Listing, selectors: seq<string>,
                               rule: LinkRule, guard: Guard)

  const TypeError := "TypeError: '>=' not supported between instances of 'int' and 'NoneType'"

  /** `url if url.startswith("http") else base_url + url` */
  function Absolute(base: string, href: string): (u: string)
    ensures StartsWith(base, "http") ==> StartsWith(u, "http")
  {
    if StartsWith(href, "http") then href
    else
      assert (base + href)[..|base|] == base;
      base + href
  }

  /** `tag.get("href")` when it is truthy. */
  function HrefOf(e: Elem): Option<string>
  {
    if Truthy(Get(e, "href")) then Get(e, "href") else None
  }

  /** The href contains one of the marks (any href when there are none). */
  predicate MarkOk(marks: seq<string>, href: string)
  {
    marks == [] || exists k :: 0 <= k < |marks| && Contains(href, marks[k])
  }

  /** The link a link selector finds inside a match, made absolute. */
  function LinkPick(base: string, e: Elem): string -> Option<string>
  {
    sel =>
      match SelectOne(e, sel)
      case None => None
      case Some(t) =>
        match HrefOf(t)
        case None => None
        case Some(h) => Some(Absolute(base, h))
  }

  /** The link one match offers: its own href, or (for a direct `<a>`) that href, or the
    * first link selector with an href, even if the link is then filtered out. */
  function Candidate(site: LinkSite, e: Elem): Option<string>
  {
    var rule := site.rule;
    if rule.ownHref then
      match HrefOf(e)
      case None => None
      case Some(h) => if MarkOk(rule.hrefMarks, h) then Some(Absolute(site.base, h)) else None
    else if rule.direct && e.name == "a" && HrefOf(e).Some? then
      Some(Absolute(site.base, HrefOf(e).value))
    else FirstSomeOf(rule.linkSelectors, LinkPick(site.base, e))
  }

  /** Whether an offered link is appended to the links collected so far. */
  predicate Admits(rule: LinkRule, u: string, links: seq<string>)
  {
    (!rule.dedup || u !in links)
    && (!rule.skipTagAuthor || (!Contains(u, "/tag/") && !Contains(u, "/author/")))
  }

  /** What one match does to the collected links. */
  function Step(site: LinkSite, e: Elem, links: seq<string>): seq<string>
  {
    match Candidate(site, e)
    case None => links
    case Some(u) => if Admits(site.rule, u, links) then links + [u] else links
  }

  /** A link the site's rule lets through: absolute, free of tag and author pages where
    * the site filters them, and carrying one of the marks where the site requires one. */
  predicate Collected(site: LinkSite, u: string)
  {
    StartsWith(u, "http")
    && (site.rule.skipTagAuthor ==> !Contains(u, "/tag/") && !Contains(u, "/author/"))
    && (site.rule.ownHref ==> MarkOk(site.rule.hrefMarks, u))
  }

  /** Every link a match offers is absolute and carries its mark. */
  lemma CandidateShape(site: LinkSite, e: Elem)
    requires StartsWith(site.base, "http")
    ensures Candidate(site, e).Some? ==>
      StartsWith(Candidate(site, e).value, "http")
      && (site.rule.ownHref ==> MarkOk(site.rule.hrefMarks, Candidate(site, e).value))
  {
    var rule := site.rule;
    if rule.ownHref {
      if HrefOf(e).Some? && MarkOk(rule.hrefMarks, HrefOf(e).value) && rule.hrefMarks != [] {
        var h := HrefOf(e).value;
        var k :| 0 <= k < |rule.hrefMarks| && Contains(h, rule.hrefMarks[k]);
        if !StartsWith(h, "http") {
          ContainsInConcat(site.base, h, [], rule.hrefMarks[k]);
          assert site.base + h + [] == Absolute(site.base, h);
        }
      }
    } else if !(rule.direct && e.name == "a" && HrefOf(e).Some?) {
      FirstSomeOfFrom(rule.linkSelectors, LinkPick(site.base, e));
    }
  }

  /** One match appends at most its own offered link, and only a collectable one that
    * is new where the site removes duplicates. */
  lemma StepFacts(site: LinkSite, e: Elem, links: seq<string>)
    requires StartsWith(site.base, "http")
    ensures var s := Step(site, e, links);
      s == links
      || (Candidate(site, e).Some? && s == links + [Candidate(site, e).value]
          && Collected(site, Candidate(site, e).value)
          && (site.rule.dedup ==> Candidate(site, e).value !in links))
  {
    CandidateShape(site, e);
  }

  /** The collected links after a page's matches, and whether the limit check raised. */
  datatype Harvest = Harvest(links: seq<string>, raised: bool)

  /** The loop over the matches of one page, starting from the links collected so far. */
  function HarvestFrom(site: LinkSite, limit: Option<int>, ms: seq<Elem>, links: seq<string>): Harvest
    decreases |ms|
  {
    if ms == [] then Harvest(links, false)
    else if site.guard == Compares && limit.None? then Harvest(links, true)
    else if limit.Some? && |links| >= limit.value then Harvest(links, false)
    else HarvestFrom(site, limit, ms[1..], Step(site, ms[0], links))
  }

  /** A page only appends to the links, and everything it appends is collectable. */
  lemma {:induction false} HarvestExtends(site: LinkSite, limit: Option<int>, ms: seq<Elem>,
                                          links: seq<string>)
    requires StartsWith(site.base, "http")
    ensures var h := HarvestFrom(site, limit, ms, links);
      |links| <= |h.links| && h.links[..|links|] == links
      && forall i :: |links| <= i < |h.links| ==> Collected(site, h.links[i])
    decreases |ms|
  {
    if ms != [] && !(site.guard == Compares && limit.None?)
       && !(limit.Some? && |links| >= limit.value) {
      var next := Step(site, ms[0], links);
      StepFacts(site, ms[0], links);
      HarvestExtends(site, limit, ms[1..], next);
      var h := HarvestFrom(site, limit, ms, links);
      assert h == HarvestFrom(site, limit, ms[1..], next);
      assert h.links[..|links|] == next[..|links|];
      forall i | |links| <= i < |h.links|
        ensures Collected(site, h.links[i])
      {
        if i < |next| {
          assert h.links[i] == next[i] == Candidate(site, ms[0]).value;
        }
      }
    }
  }

  /** Where the site removes duplicates, a page adds no link twice. */
  lemma {:induction false} HarvestDistinct(site: LinkSite, limit: Option<int>, ms: seq<Elem>,
                                           links: seq<string>)
    requires StartsWith(site.base, "http")
    requires site.rule.dedup && NoDuplicates(links)
    ensures NoDuplicates(HarvestFrom(site, limit, ms, links).links)
    decreases |ms|
  {
    if ms != [] && !(site.guard == Compares && limit.None?)
       && !(limit.Some? && |links| >= limit.value) {
      var next := Step(site, ms[0], links);
      StepFacts(site, ms[0], links);
      if next != links {
        forall i, j | 0 <= i < j < |next| ensures next[i] != next[j] {
          if j == |links| {
            assert next[i] == links[i];
          }
        }
      }
      HarvestDistinct(site, limit, ms[1..], next);
    }
  }

  /** Starting within the limit, a page never collects more than `limit` links. */
  lemma {:induction false} HarvestCapped(site: LinkSite, limit: Option<int>, ms: seq<Elem>,
                                         links: seq<string>)
    requires limit.Some? && |links| <= limit.value
    ensures |HarvestFrom(site, limit, ms, links).links| <= limit.value
    decreases |ms|
  {
    if ms != [] && !(limit.Some? && |links| >= limit.value) {
      var next := Step(site, ms[0], links);
      assert |next| <= |links| + 1;
      HarvestCapped(site, limit, ms[1..], next);
    }
  }

  /** The bare comparison raises exactly when `limit` is None and the page has a match,
    * and it raises before anything is appended. */
  lemma HarvestRaises(site: LinkSite, limit: Option<int>, ms: seq<Elem>, links: seq<string>)
    ensures var h := HarvestFrom(site, limit, ms, links);
      (h.raised <==> site.guard == Compares && limit.None? && ms != [])
      && (h.raised ==> h.links == links)
  {
    if ms != [] && !(site.guard == Compares && limit.None?) {
      HarvestNoRaise(site, limit, ms, links);
    }
  }

  lemma {:induction false} HarvestNoRaise(site: LinkSite, limit: Option<int>, ms: seq<Elem>,
                                          links: seq<string>)
    requires !(site.guard == Compares && limit.None?)
    ensures !HarvestFrom(site, limit, ms, links).raised
    decreases |ms|
  {
    if ms != [] && !(limit.Some? && |links| >= limit.value) {
      HarvestNoRaise(site, limit, ms[1..], Step(site, ms[0], links));
    }
  }

  function NonEmptyPick(page: Elem): string -> Option<seq<Elem>>
  {
    sel => if Select(page, sel) != [] then Some(Select(page, sel)) else None
  }

  /** The matches of the first element selector with any, or none. */
  function Matches(site: LinkSite, page: Elem): seq<Elem>
  {
    FirstSomeOf(site.selectors, NonEmptyPick(page)).GetOr([])
  }

  /** The first selector with a non-empty match list decides the matches. */
  lemma MatchesFirstNonEmpty(site: LinkSite, page: Elem, i: int)
    requires 0 <= i < |site.selectors| && Select(page, site.selectors[i]) != []
    requires forall j :: 0 <= j < i ==> Select(page, site.selectors[j]) == []
    ensures Matches(site, page) == Select(page, site.selectors[i])
  {
    FirstSomeOfAt(site.selectors, NonEmptyPick(page), i);
  }

  /** A page has no matches exactly when every selector matches nothing. */
  lemma MatchesNone(site: LinkSite, page: Elem)
    ensures Matches(site, page) == [] <==>
      forall j :: 0 <= j < |site.selectors| ==> Select(page, site.selectors[j]) == []
  {
    FirstSomeOfNone(site.selectors, NonEmptyPick(page));
    FirstSomeOfFrom(site.selectors, NonEmptyPick(page));
  }

  /** What one listing path does: nothing when the page cannot be fetched or has no
    * matches, otherwise the loop over its matches. */
  function PathStep(site: LinkSite, web: Web, limit: Option<int>, path: string,
                    links: seq<string>): Option<Harvest>
  {
    match Fetch(web, site.base + path)
    case None => None
    case Some(page) =>
      var ms := Matches(site, page);
      if ms == [] then None else Some(HarvestFrom(site, limit, ms, links))
  }

  /** The loop over listing paths: a raised TypeError skips to the next path; the first
    * path that ends with links stops the loop. */
  function PathsFrom(site: LinkSite, web: Web, limit: Option<int>, paths: seq<string>,
                     links: seq<string>): seq<string>
    decreases |paths|
  {
    if paths == [] then links
    else
      match PathStep(site, web, limit, paths[0], links)
      case None => PathsFrom(site, web, limit, paths[1..], links)
      case Some(h) =>
        if !h.raised && h.links != [] then h.links
        else PathsFrom(site, web, limit, paths[1..], h.links)
  }

  /** get_article_urls */
  function ArticleUrls(site: LinkSite, web: Web, limit: Option<int>): (r: Result<seq<string>>)
    ensures r.Ok? && limit.Some? && 0 <= limit.value ==> |r.value| <= limit.value
  {
    match site.listing
    case Paths(paths, fallback) =>
      var found := PathsFrom(site, web, limit, paths, []);
      Ok(SliceTo(if found == [] then SliceTo(fallback, limit) else found, limit))
    case Page(page) =>
      match Fetch(web, site.base + page)
      case None => Ok([])
      case Some(doc) =>
        var h := HarvestFrom(site, limit, Matches(site, doc), []);
        if h.raised then Err(TypeError) else Ok(SliceTo(h.links, limit))
  }

  predicate AllCollected(site: LinkSite, links: seq<string>)
  {
    forall i :: 0 <= i < |links| ==> Collected(site, links[i])
  }

  /** The links of the path loop are collectable, and distinct where the site removes
    * duplicates. */
  lemma {:induction false} PathsFromFacts(site: LinkSite, web: Web, limit: Option<int>,
                                          paths: seq<string>, links: seq<string>)
    requires StartsWith(site.base, "http")
    requires AllCollected(site, links)
    ensures AllCollected(site, PathsFrom(site, web, limit, paths, links))
    ensures site.rule.dedup && NoDuplicates(links) ==> NoDuplicates(PathsFrom(site, web, limit, paths, links))
    decreases |paths|
  {
    if paths != [] {
      var st := PathStep(site, web, limit, paths[0], links);
      if st.Some? {
        var page := Fetch(web, site.base + paths[0]).value;
        var ms := Matches(site, page);
        HarvestExtends(site, limit, ms, links);
        if site.rule.dedup && NoDuplicates(links) {
          HarvestDistinct(site, limit, ms, links);
        }
        var h := st.value;
        forall i | 0 <= i < |h.links| ensures Collected(site, h.links[i]) {
          if i < |links| {
            assert h.links[i] == h.links[..|links|][i];
          }
        }
        PathsFromFacts(site, web, limit, paths[1..], h.links);
      } else {
        assert PathsFrom(site, web, limit, paths, links) == PathsFrom(site, web, limit, paths[1..], links);
        PathsFromFacts(site, web, limit, paths[1..], links);
      }
    }
  }

  lemma SliceKeepsDistinct(s: seq<string>, k: Option<int>)
    requires NoDuplicates(s)
    ensures NoDuplicates(SliceTo(s, k))
  {
    var r := SliceTo(s, k);
    assert forall i :: 0 <= i < |r| ==> r[i] == s[i];
  }

  /** Every link get_article_urls returns is collectable or comes from the hard-coded
    * list. */
  lemma UrlsOrigin(site: LinkSite, web: Web, limit: Option<int>)
    requires StartsWith(site.base, "http")
    ensures var r := ArticleUrls(site, web, limit);
      r.Ok? ==> forall i :: 0 <= i < |r.value| ==>
        Collected(site, r.value[i]) || (site.listing.Paths? && r.value[i] in site.listing.fallback)
  {
    var r := ArticleUrls(site, web, limit);
    match site.listing
    case Paths(paths, fallback) =>
      PathsFromFacts(site, web, limit, paths, []);
      var found := PathsFrom(site, web, limit, paths, []);
      var pre := if found == [] then SliceTo(fallback, limit) else found;
      assert r.value == SliceTo(pre, limit);
      forall i | 0 <= i < |r.value|
        ensures Collected(site, r.value[i]) || r.value[i] in fallback
      {
        assert r.value[i] == pre[i];
        if found == [] {
          var fb := SliceTo(fallback, limit);
          assert pre[i] == fb[i] == fallback[i];
          assert r.value[i] in fallback;
        } else {
          assert pre[i] == found[i];
          assert Collected(site, found[i]);
        }
      }
    case Page(page) =>
      if Fetch(web, site.base + page).Some? {
        var doc := Fetch(web, site.base + page).value;
        HarvestExtends(site, limit, Matches(site, doc), []);
        var h := HarvestFrom(site, limit, Matches(site, doc), []);
        if !h.raised {
          assert r.value == SliceTo(h.links, limit);
          assert forall i :: 0 <= i < |r.value| ==> r.value[i] == h.links[i];
        }
      }
  }

  /** Where the site removes duplicates (and its hard-coded list has none), the result
    * holds no link twice. */
  lemma UrlsDistinct(site: LinkSite, web: Web, limit: Option<int>)
    requires StartsWith(site.base, "http") && site.rule.dedup
    requires site.listing.Paths? ==> NoDuplicates(site.listing.fallback)
    ensures var r := ArticleUrls(site, web, limit); r.Ok? ==> NoDuplicates(r.value)
  {
    match site.listing
    case Paths(paths, fallback) =>
      PathsFromFacts(site, web, limit, paths, []);
      var found := PathsFrom(site, web, limit, paths, []);
      SliceKeepsDistinct(fallback, limit);
      SliceKeepsDistinct(if found == [] then SliceTo(fallback, limit) else found, limit);
    case Page(page) =>
      if Fetch(web, site.base + page).Some? {
        var doc := Fetch(web, site.base + page).value;
        HarvestDistinct(site, limit, Matches(site, doc), []);
        SliceKeepsDistinct(HarvestFrom(site, limit, Matches(site, doc), []).links, limit);
      }
  }

  /** get_article_urls fails only on a single listing page compared with a None limit,
    * and then exactly when the page was fetched and has a match. */
  lemma UrlsRaise(site: LinkSite, web: Web, limit: Option<int>)
    ensures ArticleUrls(site, web, limit).Err? <==>
      site.listing.Page? && site.guard == Compares && limit.None?
      && Fetch(web, site.base + site.listing.page).Some?
      && Matches(site, Fetch(web, site.base + site.listing.page).value) != []
  {
    if site.listing.Page? && Fetch(web, site.base + site.listing.page).Some? {
      HarvestRaises(site, limit, Matches(site, Fetch(web, site.base + site.listing.page).value), []);
    }
  }

  /** With the bare comparison and no limit, every path raises and the loop keeps the
    * links it started with. */
  lemma {:induction false} PathsFromRaising(site: LinkSite, web: Web, limit: Option<int>,
                                            paths: seq<string>, links: seq<string>)
    requires site.guard == Compares && limit.None?
    ensures PathsFrom(site, web, limit, paths, links) == links
    decreases |paths|
  {
    if paths != [] {
      var st := PathStep(site, web, limit, paths[0], links);
      if st.Some? {
        var page := Fetch(web, site.base + paths[0]).value;
        HarvestRaises(site, limit, Matches(site, page), links);
      }
      PathsFromRaising(site, web, limit, paths[1..], links);
    }
  }

  /** A path-ladder site that compares with a None limit always returns its whole
    * hard-coded list: the TypeError is caught on every path. */
  lemma ComparesWithoutLimit(site: LinkSite, web: Web)
    requires site.listing.Paths? && site.guard == Compares
    ensures ArticleUrls(site, web, None) == Ok(site.listing.fallback)
  {
    PathsFromRaising(site, web, None, site.listing.paths, []);
  }

  /** A path yields no links: no page, no matches, or a loop that ended empty. */
  predicate Barren(st: Option<Harvest>)
  {
    st.None? || st.value.links == []
  }

  /** Paths that yield nothing are skipped; the first path that ends with links decides. */
  lemma {:induction false} PathsFromFirst(site: LinkSite, web: Web, limit: Option<int>,
                                          paths: seq<string>, i: int)
    requires 0 <= i <= |paths|
    requires forall j :: 0 <= j < i ==> Barren(PathStep(site, web, limit, paths[j], []))
    ensures PathsFrom(site, web, limit, paths, []) == PathsFrom(site, web, limit, paths[i..], [])
    decreases i
  {
    if i > 0 {
      assert Barren(PathStep(site, web, limit, paths[0], []));
      assert forall j :: 0 <= j < i - 1 ==> paths[1..][j] == paths[j + 1];
      PathsFromFirst(site, web, limit, paths[1..], i - 1);
      assert paths[1..][i - 1..] == paths[i..];
    }
  }

  /** The first listing path that ends with links (without a TypeError) decides the
    * result; later paths are not tried. */
  lemma FirstPathWins(site: LinkSite, web: Web, limit: Option<int>, i: int)
    requires site.listing.Paths? && 0 <= i < |site.listing.paths|
    requires forall j :: 0 <= j < i ==> Barren(PathStep(site, web, limit, site.listing.paths[j], []))
    requires var st := PathStep(site, web, limit, site.listing.paths[i], []);
      st.Some? && !st.value.raised && st.value.links != []
    ensures ArticleUrls(site, web, limit)
         == Ok(SliceTo(PathStep(site, web, limit, site.listing.paths[i], []).value.links, limit))
  {
    var paths := site.listing.paths;
    PathsFromFirst(site, web, limit, paths, i);
    assert paths[i..][0] == paths[i];
  }

  /** When no listing path yields a link, the result is a prefix of the hard-coded list,
    * sliced twice by `limit`. */
  lemma NothingFound(site: LinkSite, web: Web, limit: Option<int>)
    requires site.listing.Paths?
    requires forall j :: 0 <= j < |site.listing.paths| ==>
      Barren(PathStep(site, web, limit, site.listing.paths[j], []))
    ensures var fallback := site.listing.fallback;
      ArticleUrls(site, web, limit) == Ok(SliceTo(SliceTo(fallback, limit), limit))
      && StartsWith(fallback, ArticleUrls(site, web, limit).value)
  {
    var paths := site.listing.paths;
    PathsFromFirst(site, web, limit, paths, |paths|);
    assert paths[|paths|..] == [];
  }

  // ---------------------------------------------------------------------------
  // The loops
  // ---------------------------------------------------------------------------

  /** The link one match offers (the loop over link selectors ends at the first tag with
    * an href). */
  method LinkOf(site: LinkSite, e: Elem) returns (c: Option<string>)
    ensures c == Candidate(site, e)
  {
    var rule := site.rule;
    if rule.ownHref {
      var h := HrefOf(e);
      if h.Some? && MarkOk(rule.hrefMarks, h.value) {
        c := Some(Absolute(site.base, h.value));
      } else {
        c := None;
      }
    } else if rule.direct && e.name == "a" && HrefOf(e).Some? {
      c := Some(Absolute(site.base, HrefOf(e).value));
    } else {
      c := FirstSome(rule.linkSelectors, LinkPick(site.base, e));
    }
  }

  /** `for selector in selectors: articles = soup.select(selector); if articles: break` */
  method SelectMatches(site: LinkSite, page: Elem) returns (ms: seq<Elem>)
    ensures ms == Matches(site, page)
  {
    var found := FirstSome(site.selectors, NonEmptyPick(page));
    ms := found.GetOr([]);
  }

  /** `for article in articles: <limit check>; <append the offered link>` */
  method HarvestPage(site: LinkSite, limit: Option<int>, ms: seq<Elem>, start: seq<string>)
    returns (links: seq<string>, raised: bool)
    ensures Harvest(links, raised) == HarvestFrom(site, limit, ms, start)
  {
    links, raised := start, false;
    var i := 0;
    while i < |ms|
      invariant 0 <= i <= |ms|
      invariant HarvestFrom(site, limit, ms[i..], links) == HarvestFrom(site, limit, ms, start)
    {
      if site.guard == Compares && limit.None? {
        raised := true;
        return;
      }
      if limit.Some? && |links| >= limit.value {
        return;
      }
      var c := LinkOf(site, ms[i]);
      if c.Some? && Admits(site.rule, c.value, links) {
        links := links + [c.value];
      }
      assert ms[i..][1..] == ms[i + 1..];
      i := i + 1;
    }
  }

  /** get_article_urls, as the loops run it. */
  method CollectUrls(site: LinkSite, web: Web, limit: Option<int>) returns (r: Result<seq<string>>)
    ensures r == ArticleUrls(site, web, limit)
  {
    match site.listing {
      case Paths(paths, fallback) =>
        var links: seq<string> := [];
        var i := 0;
        while i < |paths|
          invariant 0 <= i <= |paths|
          invariant PathsFrom(site, web, limit, paths[i..], links) == PathsFrom(site, web, limit, paths, [])
        {
          var page := Fetch(web, site.base + paths[i]);
          if page.Some? {
            var ms := SelectMatches(site, page.value);
            if ms != [] {
              var found, raised := HarvestPage(site, limit, ms, links);
              if !raised && found != [] {
                links := found;
                break;
              }
              links := found;
            }
          }
          assert paths[i..][1..] == paths[i + 1..];
          i := i + 1;
        }
        assert links == PathsFrom(site, web, limit, paths, []);
        if links == [] {
          links := SliceTo(fallback, limit);
        }
        r := Ok(SliceTo(links, limit));
      case Page(page) =>
        var doc := Fetch(web, site.base + page);
        if doc.None? {
          return Ok([]);
        }
        var ms := SelectMatches(site, doc.value);
        var links, raised := HarvestPage(site, limit, ms, []);
        if raised {
          return Err(TypeError);
        }
        r := Ok(SliceTo(links, limit));
    }
  }
}
