# Gaming-news aggregator: ingestion and storage, modelled in Dafny

This project models the core of a gaming-news aggregator. Ten site scrapers read news
listings and article pages. Each scraper collects article links and extracts a title,
an image URL and text content for each article. It then validates them and hands them
to a normaliser that builds the stored article object. A SQLite-backed store keeps the
articles without duplicates and answers listing, counting, lookup, search and export
requests. A small seed set supplies five sample articles.

The model has one module per source file:

- `Database` (database.py): the article store, as the class `NewsDatabase`. It holds
  the `articles` rows and the `exportHistory` rows.
- `Utils` (utils.py): the validators, `clean_text`, `extract_domain`, the merge of
  `save_to_json`, the decisions of `download_image` and `find_fallback_image`, and
  `create_article_object`.
- `FallbackData` (fallback_data.py): the five sample articles.
- `BaseScraper` (scrapers/base_scraper.py): the scraper name rule, and the `scrape`
  loop over all ten scrapers.
- One module per site scraper: `TheGamer`, `GameRant`, `Engadget`, `Polygon`,
  `Wccftech`, `Eurogamer`, `GameSpot`, `PCGamer`, `Ign` and `Kotaku`.

Some modules are shared by the scrapers:

- `Links`: the link-collection loops. It covers the ordered listing paths and
  selectors, the link picking, relative-URL prefixing, filters and deduplication,
  the `limit` guard and cap, and the hard-coded fallback list. Each site is one
  `LinkSite` value.
- `Fields`: the field ladders. These are the URL-derived title, the first matching
  title, the image ladder, the content ladder with its placeholder, and the
  validation gate.
- `PlainArticle`: the article recipe that the Polygon, Wccftech and Eurogamer
  scrapers share.
- `Text`, `Html`, `Ladders`, `Wrappers`: Python string semantics, the abstract page,
  the first-match loops, and `Option`/`Result`.

A fetched page is an `Html.Elem`. It records its tag name, attributes and text, and
what each CSS selector matches inside it. The web is a map from URL to page. A URL
missing from the map is a page that could not be fetched. Selector matching itself is
not modelled.

## Model

| member | source | states |
|---|---|---|
| Database.NewsDatabase.constructor | database.py:11-13 | The store starts with no articles and no export history. |
| Database.NewsDatabase.GenerateArticleId | database.py:69-75 | The id depends only on `title ++ source_url`: articles whose title and URL run together into the same text get the same id. |
| Database.NewsDatabase.AddArticle | database.py:96-143 | The outcome is AlreadyStored exactly when a row has the URL, or the non-empty title and source pair. Otherwise exactly one row is appended, or the id clashes. URLs and ids stay unique. Export history is unchanged. |
| Database.AddKeepsInvariant | database.py:36-50 | add_article keeps the UNIQUE(source_url) and PRIMARY KEY(id) constraints, and every id stays the MD5 of its row's title and URL. |
| Database.AddGrowth | database.py:96-143 | add_article only appends. It adds one row exactly when the article is neither stored nor clashing on its id. |
| Database.AddThenExists | database.py:76-143 | After add_article the article is stored, unless its id clashed. |
| Database.AddTwice | database.py:96-143 | Adding the same article a second time leaves the table as the first call left it. |
| Database.ConcatenationClash | database.py:69-75 | ("ab", "c") and ("a", "bc") get the same id: the second insert hits the primary key. |
| Database.NewsDatabase.AddArticles | database.py:144-151 | The reported count equals the growth of the table. The batch is the fold of add_article over the items. An IntegrityError ends it with the earlier inserts kept. |
| Database.AddAllGrowth | database.py:144-151 | Over a batch the count is exactly the number of rows appended, at most the batch size, and both constraints still hold. |
| Database.AddAllStoresAll | database.py:144-151 | After a batch that did not raise, every article of the batch is stored. |
| Database.AddAllOfStored | database.py:144-151 | A batch of already stored articles adds nothing and changes nothing. |
| Database.AddAllTwice | database.py:144-151 | Adding a batch a second time adds nothing. |
| Database.AddAllKeepsStored | database.py:144-151 | A stored article stays stored through a batch. |
| Database.FreshBatchAllAdded | database.py:144-151 | A batch with pairwise distinct URLs, pairs and ids goes entirely into an empty store. |
| Database.SortIsNewestFirst | database.py:169 | The ORDER BY scrape_timestamp DESC sort gives non-increasing timestamps. |
| Database.ListingFacts | database.py:152-182 | A listing is newest first and holds only stored rows of the requested source. With N matching rows and start k = min(max(0, O), N), it has min(L, N - k) rows, or N - k rows without a limit. |
| Database.ListingComplete | database.py:152-182 | Without limit and offset, every stored row of the source is listed. |
| Database.NewsDatabase.GetAllArticles | database.py:152-182 | Returns the window size above, in non-increasing timestamp order; each entry is the selected columns of a stored row of the source. |
| Database.NewsDatabase.GetArticleById | database.py:183-191 | None exactly when no row has the id; otherwise a stored row with that id. |
| Database.NewsDatabase.GetArticleSources | database.py:192-199 | Has no duplicates, and holds a name exactly when some row has that source name. |
| Database.NewsDatabase.GetArticleCount | database.py:200-214 | Equals the length of the unlimited get_all_articles for the same source. |
| Database.ExportContentNeverBlank | database.py:226-241 | Exported content is never blank; non-blank stored content is exported unchanged. |
| Database.NewsDatabase.ExportToJson | database.py:215-276 | Every row is exported newest first, with the count equal to the row count. Exactly one history row is appended. The articles are unchanged. |
| Database.SearchFacts | database.py:277-291 | A search returns newest first stored rows whose title or content contains the query (ASCII case-insensitive). It returns exactly `limit` of the matching rows past the offset when that many are left (a negative limit sets no bound), else all that are left. |
| Database.SearchComplete | database.py:277-291 | With no bound and no offset, a search returns every matching stored row, each as often as it is stored. |
| Database.NewsDatabase.SearchArticles | database.py:277-291 | The same facts, stated for the store's own rows: at most `limit` rows, exactly as many as the window leaves of the matching rows, newest first, each matching. |
| Utils.SaveToJson | utils.py:28-84 | The file keeps the stored articles first and in order, then the new ones. The count is the combined length, and the return value is the number appended. It fails when an article of the batch has no source_url. |
| Utils.NewArticlesFresh | utils.py:53-58 | Every appended article has a URL that was not stored before. |
| Utils.NewArticlesDistinct | utils.py:53-58 | The appended articles have pairwise distinct URLs. |
| Utils.NewArticlesFromBatch | utils.py:53-58 | Every appended article comes from the batch. |
| Utils.NewArticlesCover | utils.py:53-58 | Every article of the batch is already stored, or its URL is among the appended ones. |
| Utils.NewArticlesAtIndices | utils.py:53-58 | The appended articles are the batch articles at strictly increasing indices, in batch order. |
| Utils.NewIndicesFirstNew | utils.py:53-58 | A batch index is kept exactly when its URL was not stored and no earlier batch article carries it. |
| Utils.NewArticlesKeepFirst | utils.py:53-58 | The appended articles are a subsequence of the batch. Of two batch articles with the same URL, the later one is never kept. |
| Utils.CleanTextWords | utils.py:85-101 | clean_text's words are the input's words with backslashes doubled, joined by single spaces. |
| Utils.CleanTextEmptyIffBlank | utils.py:85-101 | clean_text gives "" exactly when the input is empty or all whitespace. |
| Utils.CleanTextIdempotent | utils.py:85-101 | clean_text is idempotent on backslash-free input. |
| Utils.CleanTextDoublesBackslashesAgain | utils.py:85-101 | It is not idempotent in general: a lone backslash doubles again on the second pass. |
| Utils.BlankTitleInvalid | utils.py:104-113 | An empty or all-whitespace title is invalid. |
| Utils.BrandTitleInvalid | utils.py:104-113 | "thegamer" and "the gamer" are invalid in any ASCII case, with any surrounding whitespace. |
| Utils.ValidTitleIff | utils.py:104-113 | A title is valid exactly when it is not blank and, stripped and lower-cased, is none of "untitled", "no title", "none", "null", "thegamer" and "the gamer". |
| Utils.ValidImageUrlIff | utils.py:116-134 | Valid exactly when the stripped, lower-cased URL starts with http:// or https://, has no "base64" and does not end in ".svg". |
| Utils.DataUriInvalid | utils.py:116-134 | A data: URI is never valid. |
| Utils.ExtractDomainOfUrl | utils.py:136-144 | For a scheme://host URL the domain is the host with one leading "www." removed. |
| Utils.ImageExtension | utils.py:197-199 | The extension is one of .jpg/.jpeg/.png/.gif/.webp: the path's own when it is one of them, else .jpg. |
| Utils.KnownExtension | utils.py:197-199 | An extension is kept exactly when it is one of .jpg/.jpeg/.png/.gif/.webp; anything else becomes .jpg. |
| Utils.ImageUrlVerdict | utils.py:157-163 | An empty URL gives no image. A non-http(s) URL goes to the fallback. An accepted URL is http(s). |
| Utils.ImageUrlAccepted | utils.py:165-199 | An accepted URL is the given one cut at its first '?'. It has no "svg", "logo" or "icon" in it, and carries a known extension. |
| Utils.KeepIff | utils.py:214-260 | The download is kept exactly when the content type is image/* but not SVG, the first chunk has a raster signature, the Content-Length is at least 5000, and the file is written. |
| Utils.WebpTagWindow | utils.py:236 | "WEBP" counts only inside the first 20 bytes. |
| Utils.SizeThreshold | utils.py:244-249 | 4999 bytes goes to the fallback; 5000 bytes is kept. |
| Utils.DownloadImage | utils.py:146-264 | The returned path is the URL verdict and response verdict composed, with fallbacks where the source calls find_fallback_image. |
| Utils.ImagePathShape | utils.py:146-264 | The path is "" or lies under images/; an empty URL gives "". |
| Utils.ImageNaming | utils.py:146-264 | A kept image is named after the article id with its extension. An exception's fallback keeps the id as `{id}.jpg`. A rejected response's fallback drops the id. |
| Utils.FindFallbackImage | utils.py:267-323 | Returns the fallback path and the URL used, as FallbackPath and FallbackUrl define them. |
| Utils.FallbackUrlOrigin | utils.py:306-323 | The URL used is reachable, and is the source's own image or one of the pool. |
| Utils.FallbackPrefersSourceImage | utils.py:306-311 | A reachable source-specific image is always the one used. |
| Utils.FallbackNoneIff | utils.py:306-323 | Nothing is found exactly when neither the source image nor any pool image is reachable. |
| Utils.FallbackPathNaming | utils.py:326-366 | The path is "" exactly when nothing is found. Otherwise it is `images/{id}.jpg`, or a fresh `_fallback.jpg` name without an id. |
| Utils.ArticleContentOfText | utils.py:397-400 | Non-blank content is saved cleaned: the same words, with backslashes doubled. |
| Utils.ArticleContentNotice | utils.py:413-420 | Blank content becomes a notice (the video variant or the generic one) that ends with "Source: " and the source URL. |
| Utils.ArticleContentNeverBlank | utils.py:397-420 | The saved content is never blank. |
| Utils.CreateArticleObject | utils.py:390-458 | Defines every field of the article object. The title is cleaned and single-spaced. The source name falls back to the domain. The GitHub URLs are non-empty exactly when the local paths are. |
| FallbackData.GetFallbackArticles | fallback_data.py:11-78 | Exactly five articles. Each id is the store's MD5 of title ++ URL. The fields are copied and local_image_path is "". All share one timestamp. |
| FallbackData.SaveFallbackData | fallback_data.py:79-99 | article_count equals the number of articles written (five), and is returned. |
| FallbackData.SeedsDistinct | fallback_data.py:18-54 | The five source URLs are pairwise distinct, and so are the five titles. |
| FallbackData.SeedsFillEmptyStore | fallback_data.py:11-78 | All five seeds go into an empty store when their hashes differ. |
| BaseScraper.ScraperName | scrapers/base_scraper.py:11-13 | A given non-empty name is kept; otherwise it is derived from the base URL. |
| BaseScraper.NameOfHost | scrapers/base_scraper.py:15-28 | For scheme://[www.]first.tail the name is first, capitalised. |
| BaseScraper.ArticleLabels | scrapers/base_scraper.py:44-54 | Every scraper has a non-empty name, and its articles carry their URL and that name. |
| BaseScraper.CollectAppend | scrapers/base_scraper.py:78-89 | The scrape loop distributes over concatenated URL lists. |
| BaseScraper.FailureSkipsOnly | scrapers/base_scraper.py:81-86 | An exception on one URL drops only that URL's article. |
| BaseScraper.CollectOrigin | scrapers/base_scraper.py:78-89 | Every collected article comes from a URL of the list that did not raise. |
| BaseScraper.CollectCovers | scrapers/base_scraper.py:78-89 | Every URL that did not raise and gave an article has it collected. |
| BaseScraper.ScrapeFacts | scrapers/base_scraper.py:56-89 | scrape fails exactly when get_article_urls raises; otherwise it returns [] for no URLs and is never longer than the URL list. |
| BaseScraper.ScrapeOrigin | scrapers/base_scraper.py:56-89 | Each article scrape returns comes from a listed URL that did not raise, and carries that URL and the scraper's name. |
| BaseScraper.ScrapeCovers | scrapers/base_scraper.py:56-89 | Every listed URL that does not raise and whose scrape_article returns an article has that article in the result. |
| BaseScraper.ScrapeOne | scrapers/base_scraper.py:81-86 | One iteration is the scraper's scrape_article, or None when the URL raises. |
| BaseScraper.ScrapeAll | scrapers/base_scraper.py:56-89 | The method computes Scrape. |
| BaseScraper.ScrapeUrls | scrapers/base_scraper.py:78-89 | The loop returns the truthy results in URL order, as Collect defines them. |
| Links.CandidateShape | scrapers/thegamer_scraper.py:56-63 | A candidate link is absolute: the base URL is prefixed to a relative href. Where the match's own href is the link, it carries one of the site's path marks. |
| Links.StepFacts | scrapers/thegamer_scraper.py:59-65 | One match appends at most its candidate, and only when it passes the filters and, where duplicates are removed, is new. |
| Links.HarvestDistinct | scrapers/thegamer_scraper.py:61-63 | With deduplication the collected links stay distinct. |
| Links.HarvestCapped | scrapers/thegamer_scraper.py:53 | The guarded loop never collects more than `limit` links. |
| Links.HarvestRaises | scrapers/gamespot_scraper.py:28-39 | An unguarded `len >= limit` raises exactly when `limit` is None and the page has a match, before anything is appended. |
| Links.MatchesFirstNonEmpty | scrapers/thegamer_scraper.py:42-50 | The first selector with matches gives the page's matches. |
| Links.MatchesNone | scrapers/gamespot_scraper.py:18-26 | A page has no matches exactly when every selector matches nothing. |
| Links.ArticleUrls | scrapers/thegamer_scraper.py:11-87 | A successful result has at most `limit` links. |
| Links.UrlsOrigin | scrapers/thegamer_scraper.py:11-87 | Every link was collected from a page under the site's rule, or comes from the fallback list. |
| Links.UrlsDistinct | scrapers/thegamer_scraper.py:59-63 | With deduplication and a distinct fallback list, the result is distinct. |
| Links.UrlsRaise | scrapers/gamespot_scraper.py:28-39 | The result is an error exactly when a single listing page with an unguarded comparison is fetched, has a match, and `limit` is None. |
| Links.ComparesWithoutLimit | scrapers/engadget_scraper.py:50-85 | When every path catches the TypeError, no limit gives the whole fallback list. |
| Links.FirstPathWins | scrapers/thegamer_scraper.py:17-68 | The first listing path that yields a link ends the search. |
| Links.NothingFound | scrapers/thegamer_scraper.py:75-86 | When no path yields a link, the result is a prefix of the fallback list. |
| Links.CollectUrls | scrapers/thegamer_scraper.py:11-87 | The loops compute ArticleUrls. |
| Fields.UrlTitleShape | scrapers/polygon_scraper.py:120-128 | The URL title's words are the last segment's words, hyphens split and capitalised, joined by single spaces; it holds no '-' or '/'. |
| Fields.TitleCaseWords | scrapers/polygon_scraper.py:128 | Capitalising and joining gives single-spaced capitalised words. |
| Fields.AcceptedHeading | scrapers/thegamer_scraper.py:125-131 | An accepted heading is acceptable and comes from a matching selector. |
| Fields.ImageLadderFrom | scrapers/polygon_scraper.py:131-138 | The image ladder's value is its start value, or one read from a matching tag. |
| Fields.ImageLoop | scrapers/polygon_scraper.py:131-138 | The loop computes the image ladder. |
| Fields.LadderContent | scrapers/polygon_scraper.py:148-182 | Content is never empty. When neither ladder finds text, it is the "This article from ..." placeholder. |
| Fields.ContentLoop | scrapers/polygon_scraper.py:148-182 | The loops compute the content ladder. |
| Fields.LongTextsStripped | scrapers/engadget_scraper.py:180-184 | Every collected text is stripped and longer than the minimum length. |
| Fields.CollectLongTexts | scrapers/engadget_scraper.py:180-184 | The loop collects exactly the stripped texts longer than the minimum, in document order. |
| Fields.SpacedContentIsJoin | scrapers/gamespot_scraper.py:88-99 | Appending each long text and a space, then stripping, equals joining the long texts with spaces. |
| Fields.JoinTextsHolds | scrapers/pcgamer_scraper.py:74-86 | Every paragraph's text appears in the joined content. |
| PlainArticle.TitleStripped | scrapers/polygon_scraper.py:112-128 | The title has no surrounding whitespace. It is the first heading's stripped text unless it is the URL title. |
| PlainArticle.ImageOrigin | scrapers/polygon_scraper.py:130-146 | The image is "", or read from a matching image selector, or from an `<img>` that carries one of the site's marks. |
| PlainArticle.ArticleGate | scrapers/polygon_scraper.py:184-189 | An article exists exactly when the page is fetched and title and image pass validation. It then has the URL, the name, the title, the image and non-empty content. |
| PlainArticle.ScrapeArticle | scrapers/polygon_scraper.py:99-195 | The method computes Article. |
| TheGamer.ArticleUrlsFacts | scrapers/thegamer_scraper.py:11-87 | Never fails. The links are distinct and at most `limit`. Each is an absolute link to neither a /tag/ nor an /author/ page, or one of the hard-coded list. |
| TheGamer.TitleIsFirstAcceptable | scrapers/thegamer_scraper.py:102-174 | The title is the first acceptable candidate (meta, `<title>` cut at " - ", heading, JSON-LD), else the URL title. It is the brand only when the URL spells it. |
| TheGamer.TitleOf | scrapers/thegamer_scraper.py:102-174 | The loops compute Title. |
| TheGamer.ImageClean | scrapers/thegamer_scraper.py:176-207 | The image is the default, or a non-empty URL without ".svg" or "logo". |
| TheGamer.ImageOf | scrapers/thegamer_scraper.py:176-207 | The loops compute Image. |
| TheGamer.ScrapeArticle | scrapers/thegamer_scraper.py:89-256 | The method computes Article, which passes through the validation gate. |
| GameRant.ArticleUrlsFacts | scrapers/gamerant_scraper.py:11-97 | Never fails. The links are distinct and at most `limit`, each absolute or from the hard-coded list. |
| GameRant.TitleChoice | scrapers/gamerant_scraper.py:112-147 | An acceptable meta title wins, then the first acceptable heading, else the URL title. |
| GameRant.ImageFacts | scrapers/gamerant_scraper.py:149-210 | A clean meta image is the image. An empty, SVG or logo image remains only when no `<img>` qualifies for the last scan. |
| GameRant.LadderKeepsLastValue | scrapers/gamerant_scraper.py:179-186 | The main-image loop may end on the last matched value, even a rejected one. |
| GameRant.ScrapeArticle | scrapers/gamerant_scraper.py:99-259 | The method computes Article. |
| Engadget.ArticleUrlsFacts | scrapers/engadget_scraper.py:11-85 | Never fails. The links are distinct and at most `limit`. Each is absolute and neither a /tag/ nor an /author/ page, or from the hard-coded list. |
| Engadget.NoLimitGivesFallback | scrapers/engadget_scraper.py:50-85 | Without a limit the result is the whole hard-coded list. |
| Engadget.Absolutize | scrapers/engadget_scraper.py:129-134 | A relative URL becomes absolute under the site, with '/' inserted when missing; absolute and empty ones are unchanged. |
| Engadget.ImageAbsolute | scrapers/engadget_scraper.py:117-155 | The image is always an absolute URL. The beacon never survives, and a found image is kept. |
| Engadget.ScrapeArticle | scrapers/engadget_scraper.py:87-204 | The method computes Article. |
| Polygon.ArticleUrlsFacts | scrapers/polygon_scraper.py:11-97 | Never fails. The links are distinct and at most `limit`, each absolute or from the hard-coded list. |
| Wccftech.ArticleUrlsFacts | scrapers/wccftech_scraper.py:11-85 | Never fails. The links are distinct and at most `limit`, each absolute or from the hard-coded list. |
| Wccftech.NoLimitGivesFallback | scrapers/wccftech_scraper.py:50-85 | Without a limit the result is the whole hard-coded list. |
| Eurogamer.ArticleUrlsFacts | scrapers/eurogamer_scraper.py:11-81 | Never fails. The links are distinct and at most `limit`, each an absolute /news/ or /articles/ link or from the hard-coded list. |
| Eurogamer.NoLimitGivesFallback | scrapers/eurogamer_scraper.py:50-81 | Without a limit the result is the whole hard-coded list. |
| GameSpot.ArticleUrlsFacts | scrapers/gamespot_scraper.py:11-39 | Fails exactly when no limit is given and the page had matches. Otherwise the links are distinct, absolute and at most `limit`. |
| GameSpot.Title | scrapers/gamespot_scraper.py:47-48 | The title is stripped, and "" without an `<h1>`. |
| GameSpot.ImageChoice | scrapers/gamespot_scraper.py:50-61 | A non-empty src wins, and data-src is used only when src is empty. The image is "" exactly when no tag matches or both are empty. |
| GameSpot.ContentDivChoice | scrapers/gamespot_scraper.py:66-79 | A container selector wins. Otherwise the first body div without a nav/header/footer/menu class is used; there is none exactly when every body div has one. |
| GameSpot.ContentJoined | scrapers/gamespot_scraper.py:81-99 | With more than one paragraph, the content is their non-empty texts joined. Otherwise it is the texts over 20 characters joined. Either way it is stripped. |
| GameSpot.ScrapeArticle | scrapers/gamespot_scraper.py:41-106 | The method computes Article, which passes through the validation gate. |
| PCGamer.ArticleUrlsFacts | scrapers/pcgamer_scraper.py:11-32 | Never fails. The links are absolute and at most `limit`; duplicates are not removed. |
| PCGamer.ImageFacts | scrapers/pcgamer_scraper.py:47-72 | Never empty. The ladder's value wins. A scan hit is never "//"-relative. With no hit the image is the default. |
| PCGamer.ContentHoldsParagraphs | scrapers/pcgamer_scraper.py:74-86 | Every paragraph of the article body appears in the content. |
| PCGamer.ScrapeArticle | scrapers/pcgamer_scraper.py:34-93 | The method computes Article, which passes through the validation gate. |
| Ign.ArticleUrlsFacts | scrapers/ign_scraper.py:11-32 | Never fails. The links are absolute and at most `limit`. |
| Ign.FirstSrcset | scrapers/ign_scraper.py:55-57 | The srcset candidate is the text before the first space, and so has no space. |
| Ign.ImageFacts | scrapers/ign_scraper.py:45-71 | Never empty. The ladder's value wins, then the first `<img>` naming an image extension, then the default. |
| Ign.LadderOrigin | scrapers/ign_scraper.py:47-58 | The ladder's value is "" or read from a matching tag. |
| Ign.ArticleUngated | scrapers/ign_scraper.py:34-88 | There is no validation gate: an article exists exactly when the page is fetched, and its image is never empty. |
| Ign.ScrapeArticle | scrapers/ign_scraper.py:34-88 | The method computes Article. |
| Kotaku.ArticleUrlsFacts | scrapers/kotaku_scraper.py:11-30 | Fails exactly when no limit is given and the front page has a post. Otherwise the links are absolute and at most `limit`. |
| Kotaku.ArticleNeeds | scrapers/kotaku_scraper.py:37-67 | An article needs the title heading and an image tag whose src is a valid http(s) URL; that src is the image. |
| Kotaku.ContentHoldsParagraphs | scrapers/kotaku_scraper.py:50-62 | Every paragraph of the content container appears in the content. |
| Kotaku.ScrapeArticle | scrapers/kotaku_scraper.py:32-67 | The method computes Article, which passes through the validation gate. |

## Left out

- HTTP, `get_soup` and BeautifulSoup are not modelled. A page is an `Html.Elem` value
  whose selector matches are given, and the web is a map from URL to page.
- `decompose()` of unwanted elements is not modelled. The texts of a page are the
  texts left after the removal.
- The JSON-LD `json.loads` of the TheGamer title ladder is a parameter:
  `headline: Elem -> Option<string>`.
- File I/O is not modelled. That covers JSON reads and writes, image streaming,
  `save_content_to_txt` and the content-file reads of export_to_json. Each is a
  parameter instead: a map from path to text, a `written`/`contentSaved` flag, or a
  returned path.
- `hashlib.md5`, `uuid`, `datetime.now` and `random.shuffle` are parameters. The
  shuffle is any permutation of the fallback pool. The two `{YYYYMMDD}_{uuid8}` file
  stems are two fields of `Utils.FallbackEnv`: download_image's own and
  find_fallback_image's.
- `print` and logging are left out.
- scraper.py (thread-pool orchestration), app.py (web routes and scheduler) and
  update_scrapers.py (source rewriting) are not part of this model.
- Per-thread SQLite connections are not modelled: the store is one object with no
  concurrency.
- Database.NewsDatabase.SearchArticles requires a query free of '%' and '_', because
  SQLite's LIKE wildcards are not modelled. Case folding is ASCII only.
- Database.SortNewestFirst orders rows with equal timestamps by insertion order. SQLite
  leaves that order unspecified.
- `Text.Lower` and `Text.Capitalize` fold ASCII letters only.
- BaseScraper.Scrape models an exception raised inside scrape_article as the set
  `fails` of URLs that raise. It returns the drafts that scrape_article hands to
  create_article_object, not the finished article objects, which Utils.CreateArticleObject
  builds.
- The unreachable second `return` of get_article_urls (TheGamer, GameRant, Polygon,
  PC Gamer) is not modelled.
- The guard `if limit is not None and len(article_links) >= limit` is mis-indented in
  scrapers/thegamer_scraper.py:53 and scrapers/gamerant_scraper.py:54. It is modelled
  as intended, at the top of each match iteration, as in scrapers/polygon_scraper.py.
- The exception path of create_article_object that strips control characters
  (utils.py:407-412) is not modelled. `json.dumps` of a string does not raise.
- Utils.SaveToJson reports an error where the source raises KeyError for a batch
  article without "source_url". Stored articles without one are skipped, as in the
  source.
