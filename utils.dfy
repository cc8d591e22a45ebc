/** Shared helpers of the scraping pipeline: merging a scrape into the JSON file, text
  * cleaning, title and image-URL validation, domain extraction, the image download with
  * its fallback chain, and the standard article object. */
module Utils {
  import opened Wrappers
  import opened Text
  import Ladders

  // ---------------------------------------------------------------------------
  // save_to_json
  // ---------------------------------------------------------------------------

  /** The JSON document save_to_json writes. */
  datatype JsonFile<T> = JsonFile(scrapeTimestamp: string, articleCount: nat, articles: seq<T>)

  /** The `source_url` values of the stored articles that have one. */
  function StoredUrls<T>(stored: seq<T>, url: T -> Option<string>): (r: set<string>)
    ensures forall i :: 0 <= i < |stored| && url(stored[i]).Some? ==> url(stored[i]).value in r
    decreases |stored|
  {
    if stored == [] then {}
    else (if url(stored[0]).Some? then {url(stored[0]).value} else {}) + StoredUrls(stored[1..], url)
  }

  predicate AllHaveUrl<T>(batch: seq<T>, url: T -> Option<string>)
  {
    forall i :: 0 <= i < |batch| ==> url(batch[i]).Some?
  }

  /** The articles of `batch` whose URL is neither in `seen` nor carried by an earlier
    * article of the batch, in batch order. */
  function NewArticles<T>(seen: set<string>, batch: seq<T>, url: T -> Option<string>): seq<T>
    requires AllHaveUrl(batch, url)
    decreases |batch|
  {
    if batch == [] then []
    else
      var u := url(batch[0]).value;
      if u in seen then NewArticles(seen, batch[1..], url)
      else [batch[0]] + NewArticles(seen + {u}, batch[1..], url)
  }

  lemma {:induction false} NewArticlesFresh<T>(seen: set<string>, batch: seq<T>, url: T -> Option<string>)
    requires AllHaveUrl(batch, url)
    ensures forall x :: x in NewArticles(seen, batch, url) ==> url(x).Some? && url(x).value !in seen
    decreases |batch|
  {
    if batch != [] {
      var u := url(batch[0]).value;
      if u in seen {
        assert NewArticles(seen, batch, url) == NewArticles(seen, batch[1..], url);
        NewArticlesFresh(seen, batch[1..], url);
      } else {
        var r' := NewArticles(seen + {u}, batch[1..], url);
        assert NewArticles(seen, batch, url) == [batch[0]] + r';
        NewArticlesFresh(seen + {u}, batch[1..], url);
      }
    }
  }

  lemma {:induction false} NewArticlesDistinct<T>(seen: set<string>, batch: seq<T>, url: T -> Option<string>)
    requires AllHaveUrl(batch, url)
    ensures Ladders.NoDuplicates(UrlList(NewArticles(seen, batch, url), url))
    decreases |batch|
  {
    if batch != [] {
      var u := url(batch[0]).value;
      if u in seen {
        assert NewArticles(seen, batch, url) == NewArticles(seen, batch[1..], url);
        NewArticlesDistinct(seen, batch[1..], url);
      } else {
        var r' := NewArticles(seen + {u}, batch[1..], url);
        NewArticlesDistinct(seen + {u}, batch[1..], url);
        NewArticlesFresh(seen + {u}, batch[1..], url);
        var r := NewArticles(seen, batch, url);
        assert r == [batch[0]] + r';
        var l' := UrlList(r', url);
        assert UrlList(r, url) == [Some(u)] + l';
        assert Some(u) !in l' by {
          forall k | 0 <= k < |l'| ensures l'[k] != Some(u) {
            assert r'[k] in r';
          }
        }
      }
    }
  }

  lemma {:induction false} NewArticlesFromBatch<T>(seen: set<string>, batch: seq<T>, url: T -> Option<string>)
    requires AllHaveUrl(batch, url)
    ensures forall x :: x in NewArticles(seen, batch, url) ==> x in batch
    decreases |batch|
  {
    if batch != [] {
      var u := url(batch[0]).value;
      var rest := batch[1..];
      if u in seen {
        assert NewArticles(seen, batch, url) == NewArticles(seen, rest, url);
        NewArticlesFromBatch(seen, rest, url);
      } else {
        assert NewArticles(seen, batch, url) == [batch[0]] + NewArticles(seen + {u}, rest, url);
        NewArticlesFromBatch(seen + {u}, rest, url);
      }
      assert forall x :: x in rest ==> x in batch;
    }
  }

  function UrlList<T>(xs: seq<T>, url: T -> Option<string>): (r: seq<Option<string>>)
    ensures |r| == |xs| && forall i :: 0 <= i < |xs| ==> r[i] == url(xs[i])
  {
    seq(|xs|, i requires 0 <= i < |xs| => url(xs[i]))
  }

  lemma {:induction false} NewArticlesCover<T>(seen: set<string>, batch: seq<T>, url: T -> Option<string>)
    requires AllHaveUrl(batch, url)
    ensures forall x :: x in batch ==>
      url(x).value in seen || url(x) in UrlList(NewArticles(seen, batch, url), url)
    decreases |batch|
  {
    if batch != [] {
      var u := url(batch[0]).value;
      var rest := batch[1..];
      assert forall x :: x in batch ==> x == batch[0] || x in rest;
      if u in seen {
        assert NewArticles(seen, batch, url) == NewArticles(seen, rest, url);
        NewArticlesCover(seen, rest, url);
      } else {
        var r' := NewArticles(seen + {u}, rest, url);
        var r := NewArticles(seen, batch, url);
        assert r == [batch[0]] + r';
        NewArticlesCover(seen + {u}, rest, url);
        assert UrlList(r, url) == [url(batch[0])] + UrlList(r', url);
      }
    }
  }

  /** The batch article at index `j` has a URL outside `seen` that no earlier article of the
    * batch carries: it is the first occurrence of a new URL. */
  predicate FirstNew<T>(seen: set<string>, batch: seq<T>, url: T -> Option<string>, j: int)
    requires AllHaveUrl(batch, url) && 0 <= j < |batch|
  {
    url(batch[j]).value !in seen && forall i :: 0 <= i < j ==> url(batch[i]) != url(batch[j])
  }

  function Shifted(s: seq<nat>): (r: seq<nat>)
    ensures |r| == |s| && forall k :: 0 <= k < |s| ==> r[k] == s[k] + 1
  {
    seq(|s|, k requires 0 <= k < |s| => s[k] + 1)
  }

  /** The batch indices NewArticles keeps. */
  function NewIndices<T>(seen: set<string>, batch: seq<T>, url: T -> Option<string>): seq<nat>
    requires AllHaveUrl(batch, url)
    decreases |batch|
  {
    if batch == [] then []
    else
      var u := url(batch[0]).value;
      if u in seen then Shifted(NewIndices(seen, batch[1..], url))
      else [0] + Shifted(NewIndices(seen + {u}, batch[1..], url))
  }

  lemma ShiftedMember(s: seq<nat>, j: nat)
    ensures j + 1 in Shifted(s) <==> j in s
    ensures 0 !in Shifted(s)
  {
    var sh := Shifted(s);
    if j in s {
      var k :| 0 <= k < |s| && s[k] == j;
      assert sh[k] == j + 1;
    }
    if j + 1 in sh {
      var k :| 0 <= k < |sh| && sh[k] == j + 1;
      assert s[k] == j;
    }
  }

  /** Past the first article, being the first occurrence of a new URL is decided on the
    * rest of the batch, with the first article's URL counted as seen. */
  lemma FirstNewStep<T>(seen: set<string>, batch: seq<T>, url: T -> Option<string>, j: int)
    requires AllHaveUrl(batch, url) && 0 < j < |batch|
    ensures FirstNew(seen, batch, url, j) <==>
      FirstNew(seen + {url(batch[0]).value}, batch[1..], url, j - 1)
  {
    var u := url(batch[0]).value;
    var rest := batch[1..];
    assert url(batch[0]) == Some(u);
    assert rest[j - 1] == batch[j];
    if FirstNew(seen + {u}, rest, url, j - 1) {
      forall i | 0 <= i < j
        ensures url(batch[i]) != url(batch[j])
      {
        if i > 0 {
          assert rest[i - 1] == batch[i];
        }
      }
    }
    if FirstNew(seen, batch, url, j) {
      forall i | 0 <= i < j - 1
        ensures url(rest[i]) != url(rest[j - 1])
      {
        assert rest[i] == batch[i + 1];
      }
    }
  }

  /** NewIndices keeps an index exactly when it is the first occurrence of a new URL. */
  lemma {:induction false} NewIndicesFirstNew<T>(seen: set<string>, batch: seq<T>, url: T -> Option<string>)
    requires AllHaveUrl(batch, url)
    ensures forall j :: 0 <= j < |batch| ==> (j in NewIndices(seen, batch, url) <==> FirstNew(seen, batch, url, j))
    decreases |batch|
  {
    if batch != [] {
      var u := url(batch[0]).value;
      var rest := batch[1..];
      var idx := NewIndices(seen, batch, url);
      if u in seen {
        assert seen + {u} == seen;
        NewIndicesFirstNew(seen, rest, url);
        var idx' := NewIndices(seen, rest, url);
        assert idx == Shifted(idx');
        forall j | 0 <= j < |batch|
          ensures j in idx <==> FirstNew(seen, batch, url, j)
        {
          ShiftedMember(idx', if j == 0 then 0 else j - 1);
          if j > 0 {
            FirstNewStep(seen, batch, url, j);
          }
        }
      } else {
        NewIndicesFirstNew(seen + {u}, rest, url);
        var idx' := NewIndices(seen + {u}, rest, url);
        assert idx == [0] + Shifted(idx');
        forall j | 0 <= j < |batch|
          ensures j in idx <==> FirstNew(seen, batch, url, j)
        {
          ShiftedMember(idx', if j == 0 then 0 else j - 1);
          if j > 0 {
            FirstNewStep(seen, batch, url, j);
          }
        }
      }
    }
  }

  /** `r` is the subsequence of `batch` at the strictly increasing indices `idx`. */
  ghost predicate AtIndices<T>(r: seq<T>, batch: seq<T>, idx: seq<nat>)
  {
    && |idx| == |r|
    && (forall m :: 0 <= m < |idx| ==> idx[m] < |batch| && r[m] == batch[idx[m]])
    && (forall m, n :: 0 <= m < n < |idx| ==> idx[m] < idx[n])
  }

  /** A subsequence of the tail of a batch, with or without the batch's head in front. */
  lemma AtIndicesCons<T>(r: seq<T>, batch: seq<T>, idx: seq<nat>)
    requires batch != [] && AtIndices(r, batch[1..], idx)
    ensures AtIndices(r, batch, Shifted(idx))
    ensures AtIndices([batch[0]] + r, batch, [0] + Shifted(idx))
  {
    var sh := Shifted(idx);
    forall m | 0 <= m < |sh|
      ensures sh[m] < |batch| && r[m] == batch[sh[m]]
    {
      assert batch[1..][idx[m]] == batch[idx[m] + 1];
    }
    var r1 := [batch[0]] + r;
    var i1: seq<nat> := [0] + sh;
    forall m | 0 < m < |i1|
      ensures i1[m] < |batch| && r1[m] == batch[i1[m]]
    {
      assert i1[m] == sh[m - 1] && r1[m] == r[m - 1];
    }
    forall m, n | 0 <= m < n < |i1|
      ensures i1[m] < i1[n]
    {
      if m > 0 {
        assert i1[m] == sh[m - 1] && i1[n] == sh[n - 1];
      }
    }
  }

  /** The new articles are the batch articles at the indices NewIndices keeps, which
    * strictly increase: the new articles are a subsequence of the batch. */
  lemma {:induction false} NewArticlesAtIndices<T>(seen: set<string>, batch: seq<T>, url: T -> Option<string>)
    requires AllHaveUrl(batch, url)
    ensures AtIndices(NewArticles(seen, batch, url), batch, NewIndices(seen, batch, url))
    decreases |batch|
  {
    if batch != [] {
      var u := url(batch[0]).value;
      var rest := batch[1..];
      if u in seen {
        NewArticlesAtIndices(seen, rest, url);
        AtIndicesCons(NewArticles(seen, rest, url), batch, NewIndices(seen, rest, url));
      } else {
        NewArticlesAtIndices(seen + {u}, rest, url);
        AtIndicesCons(NewArticles(seen + {u}, rest, url), batch, NewIndices(seen + {u}, rest, url));
      }
    }
  }

  /** The new articles are a subsequence of the batch, at strictly increasing indices, and
    * an index is kept exactly when it is the first occurrence of a URL not yet stored: of
    * two batch articles with the same URL the earlier one is kept. */
  lemma NewArticlesKeepFirst<T>(seen: set<string>, batch: seq<T>, url: T -> Option<string>)
    requires AllHaveUrl(batch, url)
    ensures var r := NewArticles(seen, batch, url);
      var idx := NewIndices(seen, batch, url);
      && |idx| == |r|
      && (forall m :: 0 <= m < |idx| ==> idx[m] < |batch| && r[m] == batch[idx[m]])
      && (forall m, n :: 0 <= m < n < |idx| ==> idx[m] < idx[n])
      && (forall j :: 0 <= j < |batch| ==> (j in idx <==> FirstNew(seen, batch, url, j)))
      && (forall i, j :: 0 <= i < j < |batch| && url(batch[i]) == url(batch[j]) ==> j !in idx)
  {
    NewArticlesAtIndices(seen, batch, url);
    NewIndicesFirstNew(seen, batch, url);
    assert AtIndices(NewArticles(seen, batch, url), batch, NewIndices(seen, batch, url));
  }

  /** save_to_json: the articles read back from the file (empty when the file is missing or
    * unreadable) followed by the batch articles with a new URL. A batch article without
    * `source_url` raises KeyError before anything is written. Returns the document written
    * and the number of articles added. */
  method SaveToJson<T>(stored: seq<T>, batch: seq<T>, url: T -> Option<string>, timestamp: string)
    returns (r: Result<(JsonFile<T>, nat)>)
    ensures r.Ok? <==> AllHaveUrl(batch, url)
    ensures r.Ok? ==>
      var newOnes := NewArticles(StoredUrls(stored, url), batch, url);
      r.value.0 == JsonFile(timestamp, |stored| + |newOnes|, stored + newOnes) && r.value.1 == |newOnes|
  {
    var seen := StoredUrls(stored, url);
    var newOnes: seq<T> := [];
    var i := 0;
    while i < |batch|
      invariant 0 <= i <= |batch|
      invariant AllHaveUrl(batch[..i], url)
      invariant AllHaveUrl(batch, url) ==>
        newOnes + NewArticles(seen, batch[i..], url) == NewArticles(StoredUrls(stored, url), batch, url)
    {
      var u := url(batch[i]);
      if u.None? {
        return Err("KeyError: 'source_url'");
      }
      assert batch[..i + 1] == batch[..i] + [batch[i]];
      assert batch[i..][1..] == batch[i + 1..];
      if u.value !in seen {
        newOnes := newOnes + [batch[i]];
        seen := seen + {u.value};
      }
      i := i + 1;
    }
    assert batch[..i] == batch;
    return Ok((JsonFile(timestamp, |stored| + |newOnes|, stored + newOnes), |newOnes|));
  }

  // ---------------------------------------------------------------------------
  // clean_text
  // ---------------------------------------------------------------------------

  /** `w.replace('\\', '\\\\')`: every backslash doubled. */
  function Escape(w: string): string
  {
    ReplaceChar(w, '\\', "\\\\")
  }

  function EscapeAll(ws: seq<string>): (r: seq<string>)
    ensures |r| == |ws|
    ensures forall k :: 0 <= k < |ws| ==> r[k] == Escape(ws[k])
  {
    seq(|ws|, k requires 0 <= k < |ws| => Escape(ws[k]))
  }

  /** clean_text: whitespace runs become single spaces, the ends are stripped, and
    * backslashes are doubled. */
  function CleanText(text: string): string
  {
    if text == "" then ""
    else
      var t := Join(" ", Words(text));
      var t := Strip(t);
      ReplaceChar(t, '\\', "\\\\")
  }

  lemma EscapeIsWord(w: string)
    requires IsWord(w)
    ensures IsWord(Escape(w))
  {
    ReplaceCharNoSpace(w, '\\', "\\\\");
  }

  lemma {:induction false} EscapeJoin(ws: seq<string>)
    ensures Escape(Join(" ", ws)) == Join(" ", EscapeAll(ws))
    decreases |ws|
  {
    if |ws| > 1 {
      EscapeJoin(ws[1..]);
      ReplaceCharConcat(ws[0] + " ", Join(" ", ws[1..]), '\\', "\\\\");
      ReplaceCharConcat(ws[0], " ", '\\', "\\\\");
      assert Escape(" ") == " ";
      assert EscapeAll(ws)[1..] == EscapeAll(ws[1..]);
    }
  }

  lemma CleanTextIsEscapedJoin(text: string)
    ensures CleanText(text) == Join(" ", EscapeAll(Words(text)))
  {
    var ws := Words(text);
    if text != "" {
      var t := Join(" ", ws);
      assert t == Collapse(text);
      CollapseIsSingleSpaced(text);
      SingleSpacedIsStripped(t);
      assert CleanText(text) == Escape(t);
      EscapeJoin(ws);
    }
  }

  /** clean_text keeps the words of its input in order, each with its backslashes
    * doubled, joined by single spaces. */
  lemma CleanTextWords(text: string)
    ensures CleanText(text) == Join(" ", EscapeAll(Words(text)))
    ensures Words(CleanText(text)) == EscapeAll(Words(text))
    ensures SingleSpaced(CleanText(text))
  {
    var ws := Words(text);
    CleanTextIsEscapedJoin(text);
    var es := EscapeAll(ws);
    forall k | 0 <= k < |es|
      ensures IsWord(es[k])
    {
      EscapeIsWord(ws[k]);
    }
    WordsOfJoin(es);
  }

  /** clean_text returns the empty string exactly for blank input. */
  lemma CleanTextEmptyIffBlank(text: string)
    ensures CleanText(text) == "" <==> Blank(text)
  {
    CleanTextWords(text);
    var ws := Words(text);
    forall k | 0 <= k < |ws|
      ensures IsWord(EscapeAll(ws)[k])
    {
      EscapeIsWord(ws[k]);
    }
    JoinEnds(EscapeAll(ws));
    WordsEmptyIffBlank(text);
  }

  lemma WordsEmptyIffBlank(s: string)
    ensures Words(s) == [] <==> Blank(s)
  {
    var t := StripLeft(s);
    if t == [] {
      assert s[..|s|] == s;
    }
  }

  lemma {:induction false} EscapeNoBackslash(w: string)
    requires '\\' !in w
    ensures Escape(w) == w
  {
  }

  /** On text without backslashes, cleaning twice is the same as cleaning once. */
  lemma CleanTextIdempotent(text: string)
    requires '\\' !in text
    ensures CleanText(CleanText(text)) == CleanText(text)
  {
    var ws := Words(text);
    CleanTextWords(text);
    WordsOmit(text, '\\');
    assert EscapeAll(ws) == ws by {
      forall k | 0 <= k < |ws|
        ensures EscapeAll(ws)[k] == ws[k]
      {
        EscapeNoBackslash(ws[k]);
      }
    }
    CleanTextWords(CleanText(text));
    if CleanText(text) == "" {
    } else {
      assert EscapeAll(Words(CleanText(text))) == EscapeAll(ws) == ws;
    }
  }

  /** A single word is cleaned to itself with its backslashes doubled. */
  lemma CleanTextOfWord(w: string)
    requires IsWord(w)
    ensures CleanText(w) == Escape(w)
  {
    WordsOfJoin([w]);
    assert Join(" ", [w]) == w;
    CleanTextIsEscapedJoin(w);
    assert EscapeAll([w]) == [Escape(w)];
  }

  lemma EscapeBackslashes()
    ensures Escape("\\") == "\\\\"
    ensures Escape("\\\\") == "\\\\\\\\"
  {
    var one: string := "\\";
    assert Escape(one) == "\\\\";
    ReplaceCharConcat(one, one, '\\', "\\\\");
    assert one + one == "\\\\";
  }

  /** Because backslashes are doubled on every call, clean_text is not idempotent on
    * text that contains one. */
  lemma CleanTextDoublesBackslashesAgain()
    ensures CleanText("\\") == "\\\\"
    ensures CleanText(CleanText("\\")) == "\\\\\\\\"
  {
    var one: string := "\\";
    var two: string := "\\\\";
    assert IsWord(one) && IsWord(two);
    CleanTextOfWord(one);
    CleanTextOfWord(two);
    EscapeBackslashes();
  }

  // ---------------------------------------------------------------------------
  // is_valid_title, is_valid_image_url
  // ---------------------------------------------------------------------------

  /** Titles is_valid_title treats as placeholders, after strip() and lower(). */
  const PlaceholderTitles: seq<string> :=
    ["", "untitled", "no title", "none", "null", "thegamer", "the gamer"]

  /** is_valid_title */
  predicate IsValidTitle(title: string)
  {
    title != "" && Lower(Strip(title)) !in PlaceholderTitles
  }

  /** A blank title is never valid. */
  lemma BlankTitleInvalid(title: string)
    requires Blank(title)
    ensures !IsValidTitle(title)
  {
    StripEmptyIffBlank(title);
  }

  /** A title is valid exactly when it is not blank and, stripped and lower-cased, is none
    * of the generic placeholders. */
  lemma ValidTitleIff(title: string)
    ensures IsValidTitle(title) <==>
      !Blank(title) && Lower(Strip(title)) !in ["untitled", "no title", "none", "null", "thegamer", "the gamer"]
  {
    var named := ["untitled", "no title", "none", "null", "thegamer", "the gamer"];
    assert PlaceholderTitles == [""] + named;
    var l := Lower(Strip(title));
    StripEmptyIffBlank(title);
    if Blank(title) {
      assert l == "";
      assert l in PlaceholderTitles;
    } else {
      assert |l| > 0;
      assert title != "";
      assert l in PlaceholderTitles <==> l in named;
    }
  }

  /** The site's own brand name, in any ASCII case and with surrounding whitespace, is
    * never a valid title. */
  lemma BrandTitleInvalid(title: string)
    requires Lower(Strip(title)) == "thegamer" || Lower(Strip(title)) == "the gamer"
    ensures !IsValidTitle(title)
  {
  }

  /** is_valid_image_url */
  predicate IsValidImageUrl(url: string)
  {
    url != "" &&
    var u := Strip(url);
    u != "" &&
    var l := Lower(u);
    if StartsWith(l, "data:image/") || StartsWith(l, "data:") then false
    else if Contains(l, "base64") then false
    else if EndsWith(l, ".svg") then false
    else StartsWith(l, "http://") || StartsWith(l, "https://")
  }

  /** An image URL is valid exactly when, stripped and lower-cased, it is an http(s)
    * URL that neither mentions base64 nor ends in ".svg". */
  lemma ValidImageUrlIff(url: string)
    ensures var l := Lower(Strip(url));
      IsValidImageUrl(url) <==>
        (StartsWith(l, "http://") || StartsWith(l, "https://"))
        && !Contains(l, "base64") && !EndsWith(l, ".svg")
  {
    var u := Strip(url);
    var l := Lower(u);
    if StartsWith(l, "http://") || StartsWith(l, "https://") {
      HttpIsNotData(l);
      assert |l| == |u| <= |url|;
    }
  }

  /** An http(s) URL is not empty and is no data URI. */
  lemma HttpIsNotData(l: string)
    requires StartsWith(l, "http://") || StartsWith(l, "https://")
    ensures l != "" && !StartsWith(l, "data:") && !StartsWith(l, "data:image/")
  {
    assert l[0] == 'h' by {
      if StartsWith(l, "http://") {
        assert l[..7][0] == l[0];
      } else {
        assert l[..8][0] == l[0];
      }
    }
    assert l[..5][0] == 'h';
    if |l| >= 11 {
      assert l[..11][0] == 'h';
    }
  }

  /** A data URI is never a valid image URL, in any case and with any surrounding
    * whitespace. */
  lemma DataUriInvalid(url: string)
    requires StartsWith(Lower(Strip(url)), "data:")
    ensures !IsValidImageUrl(url)
  {
  }

  // ---------------------------------------------------------------------------
  // urlparse and extract_domain
  // ---------------------------------------------------------------------------

  predicate IsAsciiLetter(c: char)
  {
    'a' <= c <= 'z' || 'A' <= c <= 'Z'
  }

  /** The characters urlsplit accepts in a scheme. */
  predicate IsSchemeChar(c: char)
  {
    IsAsciiLetter(c) || '0' <= c <= '9' || c == '+' || c == '-' || c == '.'
  }

  /** What urlsplit takes as the scheme: the text before the first ':' when it is
    * non-empty, starts with a letter and holds only scheme characters. */
  function Scheme(url: string): Option<string>
  {
    var head := UntilAny(url, ":");
    if |head| < |url| && head != [] && IsAsciiLetter(head[0])
       && forall k :: 0 <= k < |head| ==> IsSchemeChar(head[k])
    then Some(head) else None
  }

  /** The URL with its scheme and ':' removed. */
  function AfterScheme(url: string): string
  {
    match Scheme(url)
    case Some(s) => url[|s| + 1..]
    case None => url
  }

  /** urlparse(url).netloc: after "//", up to the first '/', '?' or '#'. */
  function Netloc(url: string): string
  {
    var rest := AfterScheme(url);
    if StartsWith(rest, "//") then UntilAny(rest[2..], "/?#") else ""
  }

  /** The schemes for which urlparse splits off ";params" from the last path segment. */
  const ParamSchemes: seq<string> :=
    ["", "ftp", "hdl", "prospero", "http", "imap", "https", "shttp", "rtsp", "rtspu",
     "sip", "sips", "mms", "sftp", "tel"]

  /** urlparse(url).path: after the netloc, before '?' or '#', without ";params". */
  function UrlPath(url: string): string
  {
    var rest := AfterScheme(url);
    var tail := if StartsWith(rest, "//") then rest[2 + |Netloc(url)|..] else rest;
    var path := UntilAny(tail, "?#");
    if Lower(Scheme(url).GetOr("")) in ParamSchemes && ';' in path then
      var last := AfterLast(path, '/');
      path[..|path| - |last|] + BeforeFirst(last, ";")
    else path
  }

  /** extract_domain */
  function ExtractDomain(url: string): string
  {
    var domain := Netloc(url);
    if StartsWith(domain, "www.") then domain[4..] else domain
  }

  predicate IsScheme(s: string)
  {
    s != [] && IsAsciiLetter(s[0]) && forall k :: 0 <= k < |s| ==> IsSchemeChar(s[k])
  }

  /** For `scheme://host...` the netloc is the host. */
  lemma NetlocOfUrl(scheme: string, host: string, rest: string)
    requires IsScheme(scheme)
    requires forall k :: 0 <= k < |host| ==> host[k] !in "/?#"
    requires rest == [] || rest[0] in "/?#"
    ensures Netloc(scheme + "://" + host + rest) == host
  {
    var url := scheme + "://" + host + rest;
    var after := "//" + host + rest;
    assert url == scheme + ":" + after;
    SchemeOfUrl(scheme, after);
    assert AfterScheme(url) == after;
    assert StartsWith(after, "//");
    assert after[2..] == host + rest;
    UntilAnyConcat(host, rest, "/?#");
  }

  /** A well-formed scheme followed by ':' is what urlsplit takes as the scheme. */
  lemma SchemeOfUrl(scheme: string, after: string)
    requires IsScheme(scheme)
    ensures Scheme(scheme + ":" + after) == Some(scheme)
    ensures (scheme + ":" + after)[|scheme| + 1..] == after
  {
    var url := scheme + ":" + after;
    assert url == scheme + (":" + after);
    forall k | 0 <= k < |scheme| ensures scheme[k] !in ":" {
      assert IsSchemeChar(scheme[k]);
    }
    UntilAnyConcat(scheme, ":" + after, ":");
  }

  /** extract_domain returns the host of a `scheme://host...` URL without a leading "www.". */
  lemma ExtractDomainOfUrl(scheme: string, host: string, rest: string)
    requires IsScheme(scheme)
    requires forall k :: 0 <= k < |host| ==> host[k] !in "/?#"
    requires rest == [] || rest[0] in "/?#"
    ensures ExtractDomain(scheme + "://" + host + rest)
         == if StartsWith(host, "www.") then host[4..] else host
  {
    NetlocOfUrl(scheme, host, rest);
  }

  // ---------------------------------------------------------------------------
  // download_image, find_fallback_image, download_fallback_image
  // ---------------------------------------------------------------------------

  /** os.path.splitext(p)[1]: the last '.'-suffix of the last path segment, unless the
    * segment is only dots before it. */
  function SplitExt(p: string): (ext: string)
    ensures ext == [] || ext[0] == '.'
    ensures '/' !in ext
  {
    var base := AfterLast(p, '/');
    if '.' !in base then ""
    else
      var e := AfterLast(base, '.');
      var dot := |base| - |e| - 1;
      if exists k :: 0 <= k < dot && base[k] != '.' then "." + e else ""
  }

  const ImageExtensions: seq<string> := [".jpg", ".jpeg", ".png", ".gif", ".webp"]

  /** The extension download_image gives the saved file. */
  function ImageExtension(path: string): (ext: string)
    ensures ext in ImageExtensions
    ensures Lower(SplitExt(path)) in ImageExtensions ==> ext == Lower(SplitExt(path))
    ensures Lower(SplitExt(path)) !in ImageExtensions ==> ext == ".jpg"
  {
    KnownExtension(Lower(SplitExt(path)))
  }

  /** `ext if ext and len(ext) <= 5 and ext in [...] else ".jpg"` */
  function KnownExtension(e: string): (ext: string)
    ensures ext in ImageExtensions
    ensures e in ImageExtensions ==> ext == e
    ensures e !in ImageExtensions ==> ext == ".jpg"
  {
    if e == "" || |e| > 5 || e !in ImageExtensions then ".jpg" else e
  }

  /** The reply to the request download_image makes for an accepted URL. */
  datatype ImageResponse =
    | RequestFailed
      /** `contentType` is "" when the header is missing; `firstChunk` is the first chunk
        * of at most 256 bytes (empty for an empty body); `written` says whether saving
        * the file succeeded. */
    | Response(contentType: string, firstChunk: seq<bv8>, contentLength: LengthHeader, written: bool)

  /** The Content-Length header: absent (read as 0), a number, or text int() rejects. */
  datatype LengthHeader = NoLength | Length(n: int) | Unparsable

  const JpegMagic: seq<bv8> := [0xFF, 0xD8]
  const PngMagic: seq<bv8> := [0x89, 0x50, 0x4E, 0x47, 0x0D, 0x0A, 0x1A, 0x0A]
  const Gif87Magic: seq<bv8> := [0x47, 0x49, 0x46, 0x38, 0x37, 0x61]
  const Gif89Magic: seq<bv8> := [0x47, 0x49, 0x46, 0x38, 0x39, 0x61]
  const WebpTag: seq<bv8> := [0x57, 0x45, 0x42, 0x50]

  /** The file signatures download_image accepts as a raster image. */
  predicate IsRasterSignature(b: seq<bv8>)
  {
    StartsWith(b, JpegMagic) || StartsWith(b, PngMagic)
    || StartsWith(b, Gif87Magic) || StartsWith(b, Gif89Magic)
    || Contains(if |b| <= 20 then b else b[..20], WebpTag)
  }

  /** What download_image does after the request. */
  datatype ResponseVerdict =
    | Keep                /** the image is saved under the article's own name */
    | FallbackKeepingId   /** an exception: the fallback is named after the article */
    | FallbackDroppingId  /** a rejection: the fallback is looked up without the article id */

  function JudgeResponse(r: ImageResponse): ResponseVerdict
  {
    match r
    case RequestFailed => FallbackKeepingId
    case Response(ct, chunk, len, written) =>
      if !StartsWith(ct, "image/") || ct == "image/svg+xml" then FallbackDroppingId
      else if chunk == [] then FallbackKeepingId
      else if !IsRasterSignature(chunk) then FallbackDroppingId
      else match len
        case Unparsable => FallbackKeepingId
        case NoLength => FallbackDroppingId
        case Length(n) =>
          if n < 5000 then FallbackDroppingId
          else if written then Keep
          else FallbackKeepingId
  }

  /** Only a raster image of at least 5000 bytes, announced with an image content type other than SVG
    * and written to disk, is kept. */
  lemma KeepIff(r: ImageResponse)
    ensures JudgeResponse(r) == Keep <==>
      r.Response? && StartsWith(r.contentType, "image/") && r.contentType != "image/svg+xml"
      && IsRasterSignature(r.firstChunk) && r.contentLength.Length?
      && r.contentLength.n >= 5000 && r.written
  {
  }

  /** The WEBP tag only counts when it ends within the first 20 bytes. */
  lemma WebpTagWindow()
    ensures IsRasterSignature(seq(16, _ => 0) + WebpTag)
    ensures !IsRasterSignature(seq(17, _ => 0) + WebpTag)
  {
    var at16: seq<bv8> := seq(16, _ => 0) + WebpTag;
    assert at16[16..20] == WebpTag;
    ContainsWitness(at16, WebpTag, 16);
    var at17: seq<bv8> := seq(17, _ => 0) + WebpTag;
    assert at17[0] == 0;
    MissingElement(at17[..20], WebpTag, 0x50);
  }

  /** Anything under 5000 bytes is rejected, 5000 bytes and more kept. */
  lemma SizeThreshold()
    ensures JudgeResponse(Response("image/jpeg", JpegMagic, Length(4999), true)) == FallbackDroppingId
    ensures JudgeResponse(Response("image/jpeg", JpegMagic, Length(5000), true)) == Keep
  {
  }

  /** The eight general-purpose gaming images find_fallback_image tries, in source order. */
  const FallbackPool: seq<string> := [
    "https://static0.gamerantimages.com/wordpress/wp-content/uploads/2022/06/elder-scrolls-6-release-date-trailer-gameplay-setting-news.jpg",
    "https://static1.thegamerimages.com/wordpress/wp-content/uploads/2023/01/best-games-2023.jpg",
    "https://static0.gamerantimages.com/wordpress/wp-content/uploads/2022/12/most-anticipated-games-2023.jpg",
    "https://static1.thegamerimages.com/wordpress/wp-content/uploads/2022/06/ps5-games-coming-soon.jpg",
    "https://static0.gamerantimages.com/wordpress/wp-content/uploads/2022/09/xbox-series-x-games-coming-soon.jpg",
    "https://static1.thegamerimages.com/wordpress/wp-content/uploads/2022/12/nintendo-switch-games-coming-soon.jpg",
    "https://static0.gamerantimages.com/wordpress/wp-content/uploads/2022/08/pc-games-coming-soon.jpg",
    "https://static1.thegamerimages.com/wordpress/wp-content/uploads/2022/07/best-gaming-news-sites.jpg"
  ]

  /** The image find_fallback_image tries first for each source name. */
  const SourceImages: map<string, string> := map[
    "IGN" := "https://static1.thegamerimages.com/wordpress/wp-content/uploads/2022/07/ign-logo.jpg",
    "GameSpot" := "https://static0.gamerantimages.com/wordpress/wp-content/uploads/2022/07/gamespot-logo.jpg",
    "PCGamer" := "https://static1.thegamerimages.com/wordpress/wp-content/uploads/2022/07/pc-gamer-logo.jpg",
    "Eurogamer" := "https://static0.gamerantimages.com/wordpress/wp-content/uploads/2022/07/eurogamer-logo.jpg",
    "Polygon" := "https://static1.thegamerimages.com/wordpress/wp-content/uploads/2022/07/polygon-logo.jpg",
    "Kotaku" := "https://static0.gamerantimages.com/wordpress/wp-content/uploads/2022/07/kotaku-logo.jpg",
    "GameRant" := "https://static1.thegamerimages.com/wordpress/wp-content/uploads/2022/07/gamerant-logo.jpg",
    "TheGamer" := "https://static0.gamerantimages.com/wordpress/wp-content/uploads/2022/07/thegamer-logo.jpg",
    "WCCFTech" := "https://static1.thegamerimages.com/wordpress/wp-content/uploads/2022/07/wccftech-logo.jpg",
    "Engadget" := "https://static0.gamerantimages.com/wordpress/wp-content/uploads/2022/07/engadget-logo.jpg"
  ]

  /** What the image download and the fallback search depend on besides their arguments:
    * the order random.shuffle put the pool in, the image URLs whose download succeeds, and
    * the `{YYYYMMDD}_{uuid8}` stems that name a file when there is no article id — one drawn
    * by download_image for its own file, another drawn by find_fallback_image. */
  datatype FallbackEnv = FallbackEnv(shuffled: seq<string>, reachable: set<string>,
                                     ownStem: string, fallbackStem: string)

  /** download_fallback_image's file name. */
  function FallbackFileName(articleId: string, stem: string): string
  {
    if articleId != "" then articleId + ".jpg" else stem + "_fallback.jpg"
  }

  /** The images find_fallback_image tries, in order. */
  function FallbackCandidates(sourceName: string, env: FallbackEnv): seq<string>
  {
    (if sourceName in SourceImages then [SourceImages[sourceName]] else []) + env.shuffled
  }

  function ReachablePick(reachable: set<string>): string -> Option<string>
  {
    u => if u in reachable then Some(u) else None
  }

  /** The fallback image that ends up downloaded, if any. */
  function FallbackUrl(sourceName: string, env: FallbackEnv): Option<string>
  {
    Ladders.FirstSomeOf(FallbackCandidates(sourceName, env), ReachablePick(env.reachable))
  }

  /** find_fallback_image's result. */
  function FallbackPath(sourceName: string, articleId: string, env: FallbackEnv): string
  {
    if FallbackUrl(sourceName, env).Some? then "images/" + FallbackFileName(articleId, env.fallbackStem) else ""
  }

  /** find_fallback_image: the source's own image first, then the shuffled pool; the
    * first one that downloads is saved as `images/{article_id}.jpg` (or under the fallback stem). */
  method FindFallbackImage(sourceName: string, articleId: string, env: FallbackEnv)
    returns (path: string, used: Option<string>)
    ensures used == FallbackUrl(sourceName, env)
    ensures path == FallbackPath(sourceName, articleId, env)
  {
    var pick := ReachablePick(env.reachable);
    FallbackUrlSteps(sourceName, env);
    if sourceName in SourceImages {
      var specific := SourceImages[sourceName];
      if specific in env.reachable {
        return "images/" + FallbackFileName(articleId, env.fallbackStem), Some(specific);
      }
    }
    assert env.shuffled[0..] == env.shuffled;
    var i := 0;
    while i < |env.shuffled|
      invariant 0 <= i <= |env.shuffled|
      invariant Ladders.FirstSomeOf(env.shuffled[i..], pick) == FallbackUrl(sourceName, env)
    {
      var u := env.shuffled[i];
      if u in env.reachable {
        return "images/" + FallbackFileName(articleId, env.fallbackStem), Some(u);
      }
      assert env.shuffled[i..][1..] == env.shuffled[i + 1..];
      i := i + 1;
    }
    return "", None;
  }

  /** The search tries the source's own image, then the shuffled pool. */
  lemma FallbackUrlSteps(sourceName: string, env: FallbackEnv)
    ensures sourceName in SourceImages && SourceImages[sourceName] in env.reachable ==>
      FallbackUrl(sourceName, env) == Some(SourceImages[sourceName])
    ensures !(sourceName in SourceImages && SourceImages[sourceName] in env.reachable) ==>
      FallbackUrl(sourceName, env) == Ladders.FirstSomeOf(env.shuffled, ReachablePick(env.reachable))
  {
    var cands := FallbackCandidates(sourceName, env);
    if sourceName in SourceImages {
      assert cands[0] == SourceImages[sourceName];
      assert cands[1..] == env.shuffled;
    } else {
      assert cands == env.shuffled;
    }
  }

  /** The fallback image used is one that downloads, and it is either the source's own
    * image or one of the pool. */
  lemma FallbackUrlOrigin(sourceName: string, env: FallbackEnv)
    requires multiset(env.shuffled) == multiset(FallbackPool)
    ensures var used := FallbackUrl(sourceName, env);
      used.Some? ==>
        && used.value in env.reachable
        && (used.value in FallbackPool
            || (sourceName in SourceImages && used.value == SourceImages[sourceName]))
  {
    var used := FallbackUrl(sourceName, env);
    if used.Some? {
      var cands := FallbackCandidates(sourceName, env);
      var pick := ReachablePick(env.reachable);
      Ladders.FirstSomeOfFrom(cands, pick);
      var i :| 0 <= i < |cands| && pick(cands[i]) == used;
      assert cands[i] in env.reachable && used.value == cands[i];
      CandidateOrigin(sourceName, env, i);
    }
  }

  /** Every candidate is the source's own image or one of the pool. */
  lemma CandidateOrigin(sourceName: string, env: FallbackEnv, i: int)
    requires multiset(env.shuffled) == multiset(FallbackPool)
    requires 0 <= i < |FallbackCandidates(sourceName, env)|
    ensures var c := FallbackCandidates(sourceName, env)[i];
      c in FallbackPool || (sourceName in SourceImages && c == SourceImages[sourceName])
  {
    var cands := FallbackCandidates(sourceName, env);
    var k := if sourceName in SourceImages then 1 else 0;
    if i >= k {
      assert cands[i] == env.shuffled[i - k];
      assert cands[i] in env.shuffled;
      Ladders.SameElements(env.shuffled, FallbackPool);
    }
  }

  /** The source's own image wins whenever it downloads. */
  lemma FallbackPrefersSourceImage(sourceName: string, env: FallbackEnv)
    requires sourceName in SourceImages && SourceImages[sourceName] in env.reachable
    ensures FallbackUrl(sourceName, env) == Some(SourceImages[sourceName])
  {
  }

  /** The search comes up empty exactly when neither the source's own image nor any
    * image of the shuffled pool downloads. */
  lemma FallbackNoneOfCandidates(sourceName: string, env: FallbackEnv)
    ensures FallbackUrl(sourceName, env).None? <==>
      (sourceName !in SourceImages || SourceImages[sourceName] !in env.reachable)
      && forall u :: u in env.shuffled ==> u !in env.reachable
  {
    var cands := FallbackCandidates(sourceName, env);
    var pick := ReachablePick(env.reachable);
    Ladders.FirstSomeOfNone(cands, pick);
    var k := if sourceName in SourceImages then 1 else 0;
    assert cands[k..] == env.shuffled;
    assert forall i :: 0 <= i < |env.shuffled| ==> cands[k + i] == env.shuffled[i];
  }

  /** No fallback is found exactly when neither the source's own image nor any image of
    * the pool downloads. */
  lemma FallbackNoneIff(sourceName: string, env: FallbackEnv)
    requires multiset(env.shuffled) == multiset(FallbackPool)
    ensures FallbackUrl(sourceName, env).None? <==>
      (sourceName !in SourceImages || SourceImages[sourceName] !in env.reachable)
      && forall u :: u in FallbackPool ==> u !in env.reachable
  {
    FallbackNoneOfCandidates(sourceName, env);
    Ladders.SameElements(env.shuffled, FallbackPool);
  }

  /** find_fallback_image returns "" exactly when nothing downloads; a found image is
    * saved under the article id when there is one. */
  lemma FallbackPathNaming(sourceName: string, articleId: string, env: FallbackEnv)
    ensures var p := FallbackPath(sourceName, articleId, env);
      && (p == "" <==> FallbackUrl(sourceName, env).None?)
      && (p != "" && articleId != "" ==> p == "images/" + articleId + ".jpg")
      && (p != "" && articleId == "" ==> p == "images/" + env.fallbackStem + "_fallback.jpg")
  {
  }

  /** What download_image decides from the URL alone. */
  datatype UrlVerdict =
    | NoUrl                                      /** empty URL: no image */
    | Refused                                    /** not http(s), an SVG or a logo: fallback */
    | Accepted(cleanUrl: string, extension: string)  /** download it */

  /** `image_url.split("?")[0]` when the URL has a query: the URL up to its first '?'. */
  function CleanUrl(url: string): (c: string)
    ensures |c| <= |url| && c == url[..|c|]
    ensures |c| < |url| ==> url[|c|] == '?'
    ensures '?' !in url ==> c == url
  {
    if '?' in url then
      var r := BeforeFirst(url, "?");
      assert |r| < |url| ==> url[|r|..][0] == url[|r|];
      r
    else url
  }

  function JudgeImageUrl(imageUrl: string, sourceName: string): UrlVerdict
  {
    if imageUrl == "" then NoUrl
    else if !(StartsWith(imageUrl, "http://") || StartsWith(imageUrl, "https://")) then Refused
    else
      var clean := CleanUrl(imageUrl);
      var path := Lower(UrlPath(clean));
      var lower := Lower(clean);
      if EndsWith(path, ".svg") || Contains(path, ".svg?") || Contains(lower, "svg") then Refused
      else if Contains(lower, "logo") || Contains(lower, "icon") then Refused
      else if sourceName == "GameRant" && Contains(lower, "gamerantimages.com/assets/images/gr-logo") then Refused
      else Accepted(clean, ImageExtension(path))
  }

  /** download_image's URL decisions: no URL gives no image; a URL that is not http(s)
    * goes to the fallback; an accepted URL is described by ImageUrlAccepted. */
  lemma ImageUrlVerdict(imageUrl: string, sourceName: string)
    ensures var v := JudgeImageUrl(imageUrl, sourceName);
      && (v.NoUrl? <==> imageUrl == "")
      && (imageUrl != "" && !(StartsWith(imageUrl, "http://") || StartsWith(imageUrl, "https://")) ==> v.Refused?)
      && (v.Accepted? ==> StartsWith(imageUrl, "http://") || StartsWith(imageUrl, "https://"))
  {
  }

  /** An accepted URL is the given one cut at its first '?', has no "svg", "logo" or
    * "icon" in it, and keeps a known image extension. */
  lemma ImageUrlAccepted(imageUrl: string, sourceName: string)
    requires JudgeImageUrl(imageUrl, sourceName).Accepted?
    ensures var v := JudgeImageUrl(imageUrl, sourceName);
      && |v.cleanUrl| <= |imageUrl| && v.cleanUrl == imageUrl[..|v.cleanUrl|]
      && (|v.cleanUrl| < |imageUrl| ==> imageUrl[|v.cleanUrl|] == '?')
      && !Contains(Lower(v.cleanUrl), "svg")
      && !Contains(Lower(v.cleanUrl), "logo") && !Contains(Lower(v.cleanUrl), "icon")
      && v.extension in ImageExtensions
  {
    var v := JudgeImageUrl(imageUrl, sourceName);
    assert v.cleanUrl == CleanUrl(imageUrl);
  }

  /** download_image's own file name. */
  function OwnFileName(articleId: string, stem: string, extension: string): string
  {
    (if articleId != "" then articleId else stem) + extension
  }

  /** The local path download_image returns. */
  function ImagePath(imageUrl: string, sourceName: string, articleId: string,
                     response: ImageResponse, env: FallbackEnv): string
  {
    PathFor(JudgeImageUrl(imageUrl, sourceName), sourceName, articleId, response, env)
  }

  /** The local path, once the URL has been judged. */
  function PathFor(v: UrlVerdict, sourceName: string, articleId: string,
                   response: ImageResponse, env: FallbackEnv): string
  {
    match v
    case NoUrl => ""
    case Refused => FallbackPath(sourceName, articleId, env)
    case Accepted(_, ext) =>
      match JudgeResponse(response)
      case Keep => "images/" + OwnFileName(articleId, env.ownStem, ext)
      case FallbackKeepingId => FallbackPath(sourceName, articleId, env)
      case FallbackDroppingId => FallbackPath(sourceName, "", env)
  }

  /** download_image */
  method DownloadImage(imageUrl: string, sourceName: string, articleId: string,
                       response: ImageResponse, env: FallbackEnv) returns (path: string)
    ensures path == ImagePath(imageUrl, sourceName, articleId, response, env)
  {
    var verdict := JudgeImageUrl(imageUrl, sourceName);
    var fallbackUsed: Option<string>;
    if verdict.NoUrl? {
      return "";
    } else if verdict.Refused? {
      path, fallbackUsed := FindFallbackImage(sourceName, articleId, env);
      return;
    }
    match JudgeResponse(response)
    case Keep =>
      path := "images/" + OwnFileName(articleId, env.ownStem, verdict.extension);
    case FallbackKeepingId =>
      path, fallbackUsed := FindFallbackImage(sourceName, articleId, env);
    case FallbackDroppingId =>
      path, fallbackUsed := FindFallbackImage(sourceName, "", env);
  }

  lemma ImagesPrefix(name: string)
    ensures StartsWith("images/" + name, "images/")
  {
  }

  /** download_image returns either nothing or a path under images/, and nothing at all
    * for an empty URL. */
  lemma ImagePathShape(imageUrl: string, sourceName: string, articleId: string,
                       response: ImageResponse, env: FallbackEnv)
    ensures var p := ImagePath(imageUrl, sourceName, articleId, response, env);
      p == "" || StartsWith(p, "images/")
    ensures imageUrl == "" ==> ImagePath(imageUrl, sourceName, articleId, response, env) == ""
  {
    var p := ImagePath(imageUrl, sourceName, articleId, response, env);
    var v := JudgeImageUrl(imageUrl, sourceName);
    if v.NoUrl? {
      assert p == "";
    } else if v.Refused? {
      assert p == FallbackPath(sourceName, articleId, env);
      ImagesPrefix(FallbackFileName(articleId, env.fallbackStem));
    } else {
      var j := JudgeResponse(response);
      if j == Keep {
        assert p == "images/" + OwnFileName(articleId, env.ownStem, v.extension);
        ImagesPrefix(OwnFileName(articleId, env.ownStem, v.extension));
      } else if j == FallbackKeepingId {
        assert p == FallbackPath(sourceName, articleId, env);
        ImagesPrefix(FallbackFileName(articleId, env.fallbackStem));
      } else {
        assert p == FallbackPath(sourceName, "", env);
        ImagesPrefix(FallbackFileName("", env.fallbackStem));
      }
    }
  }

  /** A kept image, and a fallback reached through an exception, are named after the
    * article; a fallback reached through a rejected reply (wrong content type, bad
    * signature, too small) is named after the fallback stem instead. */
  lemma ImageNaming(imageUrl: string, sourceName: string, articleId: string,
                    response: ImageResponse, env: FallbackEnv)
    requires articleId != ""
    requires JudgeImageUrl(imageUrl, sourceName).Accepted?
    ensures var p := ImagePath(imageUrl, sourceName, articleId, response, env);
      && (JudgeResponse(response) == Keep ==>
            p == "images/" + articleId + JudgeImageUrl(imageUrl, sourceName).extension)
      && (JudgeResponse(response) == FallbackKeepingId && p != "" ==>
            p == "images/" + articleId + ".jpg")
      && (JudgeResponse(response) == FallbackDroppingId && p != "" ==>
            p == "images/" + env.fallbackStem + "_fallback.jpg")
  {
    var v := JudgeImageUrl(imageUrl, sourceName);
    assert ImagePath(imageUrl, sourceName, articleId, response, env)
        == PathFor(v, sourceName, articleId, response, env);
    PathNaming(v, sourceName, articleId, response, env);
  }

  lemma PathNaming(v: UrlVerdict, sourceName: string, articleId: string,
                   response: ImageResponse, env: FallbackEnv)
    requires articleId != "" && v.Accepted?
    ensures var p := PathFor(v, sourceName, articleId, response, env);
      && (JudgeResponse(response) == Keep ==> p == "images/" + articleId + v.extension)
      && (JudgeResponse(response) == FallbackKeepingId && p != "" ==>
            p == "images/" + articleId + ".jpg")
      && (JudgeResponse(response) == FallbackDroppingId && p != "" ==>
            p == "images/" + env.fallbackStem + "_fallback.jpg")
  {
    var p := PathFor(v, sourceName, articleId, response, env);
    var j := JudgeResponse(response);
    if j == Keep {
      assert p == "images/" + OwnFileName(articleId, env.ownStem, v.extension);
    } else if j == FallbackKeepingId {
      assert p == FallbackPath(sourceName, articleId, env);
    } else {
      assert p == FallbackPath(sourceName, "", env);
    }
  }

  // ---------------------------------------------------------------------------
  // create_article_object
  // ---------------------------------------------------------------------------

  /** The article dictionary create_article_object returns, field by field. */
  datatype ArticleObject = ArticleObject(
    id: string, title: string, imageUrl: string, localImagePath: string,
    githubImageUrl: string, contentFilePath: string, githubContentUrl: string,
    sourceUrl: string, sourceName: string, scrapedAt: string)

  /** The clock and uuid readings create_article_object takes: the day (YYYYMMDD), the
    * first eight characters of a uuid4, and the time of day stamp for `scraped_at`. */
  datatype Moment = Moment(day: string, uid: string, clock: string)

  const RawGithubPrefix := "https://raw.githubusercontent.com/solariscodes/newsrepo/master/"

  /** Python's str() of an optional source name. */
  function PyStr(s: Option<string>): string
  {
    match s
    case Some(v) => v
    case None => "None"
  }

  predicate IsVideoUrl(sourceUrl: string)
  {
    var l := Lower(sourceUrl);
    Contains(l, "video") || Contains(l, "youtube") || Contains(l, "vimeo") || Contains(l, "ign.com/videos")
  }

  /** The pieces of the notices create_article_object saves in place of blank content. */
  const VideoNoticeFrom := "\n\nThis is a video article from "
  const VideoNoticeWatch := ". Please visit the source URL to watch the video content."
  const NoContentNotice :=
    "No text content available for this article. Please visit the original source for more information."
  const SourceLine := "\n\nSource: "

  /** The text before the source line of the notice for blank content. */
  function NoticeHead(title: string, sourceUrl: string, sourceName: Option<string>): string
  {
    if IsVideoUrl(sourceUrl) then CleanText(title) + VideoNoticeFrom + PyStr(sourceName) + VideoNoticeWatch
    else NoContentNotice
  }

  /** The text create_article_object saves as the article's content. */
  function ArticleContent(title: string, content: string, sourceUrl: string,
                          sourceName: Option<string>): string
  {
    if content != "" && !Blank(content) then CleanText(content)
    else NoticeHead(title, sourceUrl, sourceName) + SourceLine + sourceUrl
  }

  /** Non-blank content is saved cleaned: the same words, backslashes doubled. */
  lemma ArticleContentOfText(title: string, content: string, sourceUrl: string,
                             sourceName: Option<string>)
    requires content != "" && !Blank(content)
    ensures var c := ArticleContent(title, content, sourceUrl, sourceName);
      !Blank(c) && Words(c) == EscapeAll(Words(content))
  {
    var c := ArticleContent(title, content, sourceUrl, sourceName);
    assert c == CleanText(content);
    CleanTextEmptyIffBlank(content);
    CleanTextWords(content);
    StripEmptyIffBlank(c);
    SingleSpacedIsStripped(c);
  }

  /** Blank content is replaced by a notice that ends with the source URL. */
  lemma ArticleContentNotice(title: string, content: string, sourceUrl: string,
                             sourceName: Option<string>)
    requires content == "" || Blank(content)
    ensures var c := ArticleContent(title, content, sourceUrl, sourceName);
      !Blank(c) && EndsWith(c, SourceLine + sourceUrl)
  {
    var c := ArticleContent(title, content, sourceUrl, sourceName);
    var head := NoticeHead(title, sourceUrl, sourceName);
    assert c == head + (SourceLine + sourceUrl);
    assert c[|head| + 2] == SourceLine[2] == 'S';
  }

  /** The saved content is never blank: non-blank input is cleaned, blank input is
    * replaced by a notice that ends with the source URL. */
  lemma ArticleContentNeverBlank(title: string, content: string, sourceUrl: string,
                                 sourceName: Option<string>)
    ensures !Blank(ArticleContent(title, content, sourceUrl, sourceName))
  {
    if content != "" && !Blank(content) {
      ArticleContentOfText(title, content, sourceUrl, sourceName);
    } else {
      ArticleContentNotice(title, content, sourceUrl, sourceName);
    }
  }

  /** create_article_object. `contentSaved` says whether writing content/{id}.txt
    * succeeded; `saved` is the text written there. */
  method CreateArticleObject(title: string, imageUrl: string, content: string, sourceUrl: string,
                             sourceName: Option<string>, now: Moment, contentSaved: bool,
                             response: ImageResponse, env: FallbackEnv)
    returns (a: ArticleObject, saved: string)
    ensures saved == ArticleContent(title, content, sourceUrl, sourceName) && !Blank(saved)
    ensures a.id == now.day + "_" + now.uid
    ensures a.title == CleanText(title) && SingleSpaced(a.title)
    ensures a.imageUrl == imageUrl && a.sourceUrl == sourceUrl && a.scrapedAt == now.clock
    ensures a.sourceName == if sourceName.Some? && sourceName.value != "" then sourceName.value
                            else ExtractDomain(sourceUrl)
    ensures a.contentFilePath == if contentSaved then "content/" + a.id + ".txt" else ""
    ensures a.localImagePath == ImagePath(imageUrl, a.sourceName, a.id, response, env)
    ensures a.githubImageUrl == if a.localImagePath == "" then "" else RawGithubPrefix + a.localImagePath
    ensures a.githubContentUrl == if a.contentFilePath == "" then "" else RawGithubPrefix + a.contentFilePath
    ensures a.githubImageUrl != "" <==> a.localImagePath != ""
    ensures a.githubContentUrl != "" <==> contentSaved
  {
    var cleanedTitle := CleanText(title);
    CleanTextWords(title);
    saved := ArticleContent(title, content, sourceUrl, sourceName);
    ArticleContentNeverBlank(title, content, sourceUrl, sourceName);
    var name := if sourceName.Some? && sourceName.value != "" then sourceName.value
                else ExtractDomain(sourceUrl);
    var id := now.day + "_" + now.uid;
    var contentPath := if contentSaved then "content/" + id + ".txt" else "";
    var imagePath := DownloadImage(imageUrl, name, id, response, env);
    var githubImage := if imagePath != "" then RawGithubPrefix + imagePath else "";
    var githubContent := if contentPath != "" then RawGithubPrefix + contentPath else "";
    a := ArticleObject(id, cleanedTitle, imageUrl, imagePath, githubImage, contentPath,
                       githubContent, sourceUrl, name, now.clock);
  }
}
