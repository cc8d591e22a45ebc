/** What the scrapers' `scrape_article` methods share: the title derived from the
  * article URL, the selector ladders for title, image and content, the placeholder
  * text, and the record handed to create_article_object. */
module Fields {
  import opened Wrappers
  import opened Text
  import opened Html
  import opened Ladders
  import Utils

  /** The arguments scrape_article passes to create_article_object: title, image URL,
    * content text, the article URL and the scraper's name. */
  datatype Draft = Draft(title: string, imageUrl: string, content: string, url: string,
                         sourceName: string)

  /** The validation gate in front of create_article_object. */
  function Gated(d: Draft): Option<Draft>
  {
    if Utils.IsValidTitle(d.title) && Utils.IsValidImageUrl(d.imageUrl) then Some(d) else None
  }

  // ---------------------------------------------------------------------------
  // The title derived from the URL
  // ---------------------------------------------------------------------------

  /** `url.rstrip('/').split('/')[-1]` */
  function LastSegment(url: string): (seg: string)
    ensures '/' !in seg
  {
    AfterLast(RStripChar(url, '/'), '/')
  }

  function CapitalizeAll(ws: seq<string>): (r: seq<string>)
    ensures |r| == |ws|
    ensures forall k :: 0 <= k < |ws| ==> r[k] == Capitalize(ws[k])
  {
    seq(|ws|, k requires 0 <= k < |ws| => Capitalize(ws[k]))
  }

  /** `' '.join(word.capitalize() for word in s.split())` */
  function TitleCase(s: string): string
  {
    Join(" ", CapitalizeAll(Words(s)))
  }

  /** The title derived from an article URL: the last path segment with hyphens turned
    * into spaces and its words capitalised. The segment holds no '/', so the
    * `.replace('/', ' ')` that follows changes nothing. */
  function UrlTitle(url: string): string
  {
    TitleCase(ReplaceChar(LastSegment(url), '-', " "))
  }

  /** Engadget's variant, which removes ".html" after turning hyphens into spaces. */
  function UrlTitleWithoutHtml(url: string): string
  {
    TitleCase(Replace(ReplaceChar(LastSegment(url), '-', " "), ".html", ""))
  }

  lemma CapitalizeOmits(w: string, d: char)
    requires d !in w && !Utils.IsAsciiLetter(d)
    ensures d !in Capitalize(w)
  {
    var r := Capitalize(w);
    forall i | 0 <= i < |r| ensures r[i] != d {
      if i > 0 {
        assert r[i] == r[1..][i - 1] == LowerChar(w[i]);
      }
    }
  }

  lemma {:induction false} JoinOmits(sep: string, ws: seq<string>, d: char)
    requires d !in sep && forall k :: 0 <= k < |ws| ==> d !in ws[k]
    ensures d !in Join(sep, ws)
    decreases |ws|
  {
    if |ws| > 1 {
      JoinOmits(sep, ws[1..], d);
    }
  }

  /** A title-cased text is single-spaced, and its words are the text's words,
    * capitalised. */
  lemma TitleCaseWords(s: string)
    ensures Words(TitleCase(s)) == CapitalizeAll(Words(s))
    ensures SingleSpaced(TitleCase(s))
  {
    var ws := CapitalizeAll(Words(s));
    forall k | 0 <= k < |ws| ensures IsWord(ws[k]) {
      CapitalizeKeepsSpaces(Words(s)[k]);
    }
    WordsOfJoin(ws);
  }

  /** A character that is neither whitespace nor a letter appears in the title-cased text
    * only if it appears in the text. */
  lemma TitleCaseOmits(s: string, d: char)
    requires d !in s && !Utils.IsAsciiLetter(d) && d != ' '
    ensures d !in TitleCase(s)
  {
    var ws := Words(s);
    WordsOmit(s, d);
    forall k | 0 <= k < |ws| ensures d !in CapitalizeAll(ws)[k] {
      CapitalizeOmits(ws[k], d);
    }
    JoinOmits(" ", CapitalizeAll(ws), d);
  }

  /** The URL-derived title is single-spaced, holds neither '-' nor '/', and its words are
    * the capitalised words of the last path segment split at hyphens and whitespace. */
  lemma UrlTitleShape(url: string)
    ensures Words(UrlTitle(url)) == CapitalizeAll(Words(ReplaceChar(LastSegment(url), '-', " ")))
    ensures SingleSpaced(UrlTitle(url))
    ensures '-' !in UrlTitle(url) && '/' !in UrlTitle(url)
  {
    UrlTitleOmits(url, '-');
    UrlTitleOmits(url, '/');
    var last := LastSegment(url);
    var seg := ReplaceChar(last, '-', " ");
    assert UrlTitle(url) == TitleCase(seg);
    TitleCaseWords(seg);
  }

  lemma UrlTitleOmits(url: string, d: char)
    requires d == '-' || d == '/'
    ensures d !in UrlTitle(url)
  {
    var seg := ReplaceChar(LastSegment(url), '-', " ");
    SegmentOmits(url, d);
    TitleCaseOmits(seg, d);
  }

  lemma SegmentOmits(url: string, d: char)
    requires d == '-' || d == '/'
    ensures d !in ReplaceChar(LastSegment(url), '-', " ")
  {
    var seg := LastSegment(url);
    assert d !in " ";
    assert d == '-' || d !in seg;
    ReplaceCharOmits(seg, '-', " ", d);
  }

  // ---------------------------------------------------------------------------
  // Title ladders
  // ---------------------------------------------------------------------------

  /** `tag.text.strip()` of the first selector that matches, or "" when none does. */
  function FirstText(doc: Elem, sels: seq<string>): string
  {
    match FirstPresent(doc, sels)
    case None => ""
    case Some(t) => Strip(t.text)
  }

  /** `for sel in sels: tag = soup.select_one(sel); if tag: title = tag.text.strip(); break` */
  method FirstTextLoop(doc: Elem, sels: seq<string>) returns (title: string)
    ensures title == FirstText(doc, sels)
  {
    var tag := FirstSome(sels, SelectOnePick(doc));
    title := if tag.Some? then Strip(tag.value.text) else "";
  }

  /** A title candidate a brand-rejecting ladder takes: non-empty and, lower-cased, not
    * one of the site's own names. */
  predicate Acceptable(t: string, brands: seq<string>)
  {
    t != "" && Lower(t) !in brands
  }

  function HeadingPick(doc: Elem, brands: seq<string>): string -> Option<string>
  {
    sel =>
      match SelectOne(doc, sel)
      case None => None
      case Some(t) => if Acceptable(Strip(t.text), brands) then Some(Strip(t.text)) else None
  }

  /** The stripped text of the first heading selector whose text is acceptable. */
  function AcceptedHeading(doc: Elem, sels: seq<string>, brands: seq<string>): (r: Option<string>)
    ensures r.Some? ==> Acceptable(r.value, brands)
    ensures r.Some? ==> exists k :: 0 <= k < |sels| && SelectOne(doc, sels[k]).Some?
                                  && r.value == Strip(SelectOne(doc, sels[k]).value.text)
  {
    FirstSomeOfFrom(sels, HeadingPick(doc, brands));
    FirstSomeOf(sels, HeadingPick(doc, brands))
  }

  // ---------------------------------------------------------------------------
  // Image ladders
  // ---------------------------------------------------------------------------

  /** The loop over image selectors: each selector that matches overwrites the image URL
    * with what `extract` reads from the tag, and the loop stops at the first value
    * `accept` approves. A loop that approves nothing leaves the last value it read. */
  function ImageLadder(doc: Elem, sels: seq<string>, extract: (string, Elem) -> string,
                       accept: string -> bool, current: string): string
    decreases |sels|
  {
    if sels == [] then current
    else
      match SelectOne(doc, sels[0])
      case None => ImageLadder(doc, sels[1..], extract, accept, current)
      case Some(t) =>
        var v := extract(sels[0], t);
        if accept(v) then v else ImageLadder(doc, sels[1..], extract, accept, v)
  }

  /** What the image loop ends with is the starting value or a value read from a matching
    * tag. */
  lemma {:induction false} ImageLadderFrom(doc: Elem, sels: seq<string>,
                                           extract: (string, Elem) -> string,
                                           accept: string -> bool, current: string)
    ensures var r := ImageLadder(doc, sels, extract, accept, current);
      r == current
      || exists k :: 0 <= k < |sels| && SelectOne(doc, sels[k]).Some?
                     && r == extract(sels[k], SelectOne(doc, sels[k]).value)
    decreases |sels|
  {
    if sels != [] {
      var r := ImageLadder(doc, sels, extract, accept, current);
      var next := if SelectOne(doc, sels[0]).Some? then extract(sels[0], SelectOne(doc, sels[0]).value)
                  else current;
      ImageLadderFrom(doc, sels[1..], extract, accept, next);
      if SelectOne(doc, sels[0]).Some? && r != next {
        var k :| 0 <= k < |sels[1..]| && SelectOne(doc, sels[1..][k]).Some?
                 && r == extract(sels[1..][k], SelectOne(doc, sels[1..][k]).value);
        assert sels[1..][k] == sels[k + 1];
      } else if SelectOne(doc, sels[0]).None? && r != current {
        var k :| 0 <= k < |sels[1..]| && SelectOne(doc, sels[1..][k]).Some?
                 && r == extract(sels[1..][k], SelectOne(doc, sels[1..][k]).value);
        assert sels[1..][k] == sels[k + 1];
      }
    }
  }

  method ImageLoop(doc: Elem, sels: seq<string>, extract: (string, Elem) -> string,
                   accept: string -> bool) returns (image: string)
    ensures image == ImageLadder(doc, sels, extract, accept, "")
  {
    image := "";
    var i := 0;
    while i < |sels|
      invariant 0 <= i <= |sels|
      invariant ImageLadder(doc, sels[i..], extract, accept, image) == ImageLadder(doc, sels, extract, accept, "")
    {
      var tag := SelectOne(doc, sels[i]);
      if tag.Some? {
        image := extract(sels[i], tag.value);
        if accept(image) {
          return;
        }
      }
      assert sels[i..][1..] == sels[i + 1..];
      i := i + 1;
    }
  }

  /** Approves any non-empty image URL (`if image_url: break`). */
  predicate NonEmpty(s: string)
  {
    s != ""
  }

  // ---------------------------------------------------------------------------
  // Content
  // ---------------------------------------------------------------------------

  /** A string with no whitespace at either end, as `strip()` leaves it. */
  predicate Stripped(t: string)
  {
    t != [] ==> !IsSpace(t[0]) && !IsSpace(t[|t| - 1])
  }

  lemma StripIsStripped(s: string)
    ensures Stripped(Strip(s))
  {
    var l := StripLeft(s);
    var r := Strip(s);
    if r != [] {
      assert r[0] == l[0];
    }
  }

  /** The stripped texts of the elements that are longer than `min` characters, in
    * order: `[e.text.strip() for e in es if e.text.strip() and len(e.text.strip()) > min]`. */
  function LongTexts(es: seq<Elem>, min: nat): (r: seq<string>)
    ensures |r| <= |es|
    decreases |es|
  {
    if es == [] then []
    else
      var rest := LongTexts(es[..|es| - 1], min);
      var t := Strip(es[|es| - 1].text);
      if t != "" && |t| > min then rest + [t] else rest
  }

  /** Every collected text is stripped and longer than `min`. */
  lemma {:induction false} LongTextStripped(es: seq<Elem>, min: nat, k: int)
    requires 0 <= k < |LongTexts(es, min)|
    ensures |LongTexts(es, min)[k]| > min && Stripped(LongTexts(es, min)[k])
    decreases |es|
  {
    var r := LongTexts(es, min);
    var rest := LongTexts(es[..|es| - 1], min);
    var t := Strip(es[|es| - 1].text);
    if k < |rest| {
      assert r[k] == rest[k];
      LongTextStripped(es[..|es| - 1], min, k);
    } else {
      assert r[k] == t;
      StripIsStripped(es[|es| - 1].text);
    }
  }

  lemma LongTextsStripped(es: seq<Elem>, min: nat)
    ensures forall k :: 0 <= k < |LongTexts(es, min)| ==>
      |LongTexts(es, min)[k]| > min && Stripped(LongTexts(es, min)[k])
  {
    forall k | 0 <= k < |LongTexts(es, min)|
      ensures |LongTexts(es, min)[k]| > min && Stripped(LongTexts(es, min)[k])
    {
      LongTextStripped(es, min, k);
    }
  }

  /** LongTexts of one more element. */
  lemma LongTextsSnoc(es: seq<Elem>, i: int, min: nat)
    requires 0 <= i < |es|
    ensures var t := Strip(es[i].text);
      LongTexts(es[..i + 1], min)
        == if t != "" && |t| > min then LongTexts(es[..i], min) + [t] else LongTexts(es[..i], min)
  {
    assert es[..i + 1][..i] == es[..i];
    assert es[..i + 1][i] == es[i];
  }

  /** The loop that collects the substantial texts. */
  method CollectLongTexts(es: seq<Elem>, min: nat) returns (texts: seq<string>)
    ensures texts == LongTexts(es, min)
  {
    texts := [];
    var i := 0;
    while i < |es|
      invariant 0 <= i <= |es|
      invariant texts == LongTexts(es[..i], min)
    {
      LongTextsSnoc(es, i, min);
      var t := Strip(es[i].text);
      if t != "" && |t| > min {
        texts := texts + [t];
      }
      i := i + 1;
    }
    assert es[..|es|] == es;
  }

  /** `" ".join([p.text.strip() for p in paragraphs if p.text.strip()])` */
  function JoinStripped(ps: seq<Elem>): string
  {
    Join(" ", LongTexts(ps, 0))
  }

  function ParagraphPick(doc: Elem): string -> Option<string>
  {
    sel =>
      match SelectOne(doc, sel)
      case None => None
      case Some(d) =>
        var ps := Select(d, "p");
        if |ps| > 1 then Some(JoinStripped(ps)) else None
  }

  /** The paragraphs of the first content container holding more than one, or "". */
  function ParagraphContent(doc: Elem, sels: seq<string>): string
  {
    FirstSomeOf(sels, ParagraphPick(doc)).GetOr("")
  }

  /** `find_all(['p', 'h2', 'h3', 'li'])` */
  const TextTags := "p, h2, h3, li"

  /** The substantial texts (over 30 characters) of the first main-content area, or "". */
  function MainText(doc: Elem, mainSels: seq<string>): string
  {
    match FirstPresent(doc, mainSels)
    case None => ""
    case Some(m) => Join(" ", LongTexts(Select(m, TextTags), 30))
  }

  /** The generic message used when no content was found. */
  function Placeholder(siteName: string, title: string, url: string): string
  {
    "This article from " + siteName + " discusses " + title + ". Visit " + url + " to read the full article."
  }

  /** The content ladder: paragraphs, then substantial texts, then the placeholder. */
  function LadderContent(doc: Elem, sels: seq<string>, mainSels: seq<string>, siteName: string,
                         title: string, url: string): (c: string)
    ensures c != ""
    ensures ParagraphContent(doc, sels) == "" && MainText(doc, mainSels) == "" ==>
      StartsWith(c, "This article from ") && EndsWith(c, " to read the full article.")
  {
    var p := ParagraphContent(doc, sels);
    if p != "" then p
    else
      var m := MainText(doc, mainSels);
      if m != "" then m else Placeholder(siteName, title, url)
  }

  /** The content loops of scrape_article. */
  method ContentLoop(doc: Elem, sels: seq<string>, mainSels: seq<string>, siteName: string,
                     title: string, url: string) returns (content: string)
    ensures content == LadderContent(doc, sels, mainSels, siteName, title, url)
  {
    var found := FirstSome(sels, ParagraphPick(doc));
    content := found.GetOr("");
    if content == "" {
      var main := FirstPresent(doc, mainSels);
      if main.Some? {
        var texts := CollectLongTexts(Select(main.value, TextTags), 30);
        if texts != [] {
          content := Join(" ", texts);
        }
      }
    }
    if content == "" {
      content := Placeholder(siteName, title, url);
    }
  }

  /** `content += t + " "` over the texts. */
  function Spaced(ts: seq<string>): string
  {
    if ts == [] then "" else ts[0] + " " + Spaced(ts[1..])
  }

  lemma {:induction false} SpacedAppend(ts: seq<string>, t: string)
    ensures Spaced(ts + [t]) == Spaced(ts) + t + " "
    decreases |ts|
  {
    if ts != [] {
      assert (ts + [t])[1..] == ts[1..] + [t];
      SpacedAppend(ts[1..], t);
    } else {
      assert [t][1..] == [];
    }
  }

  lemma {:induction false} SpacedIsJoin(ts: seq<string>)
    requires ts != []
    ensures Spaced(ts) == Join(" ", ts) + " "
    decreases |ts|
  {
    if |ts| > 1 {
      SpacedIsJoin(ts[1..]);
    }
  }

  lemma {:induction false} JoinKeepsEnds(ts: seq<string>)
    requires forall k :: 0 <= k < |ts| ==> ts[k] != [] && Stripped(ts[k])
    ensures ts != [] ==> Join(" ", ts) != [] && Stripped(Join(" ", ts))
    decreases |ts|
  {
    if |ts| > 1 {
      JoinKeepsEnds(ts[1..]);
      var j := Join(" ", ts[1..]);
      assert Join(" ", ts) == ts[0] + " " + j;
      assert (ts[0] + " " + j)[0] == ts[0][0];
    }
  }

  /** The substantial texts, each followed by a space, then stripped. */
  function SpacedContent(es: seq<Elem>, min: nat): string
  {
    Strip(Spaced(LongTexts(es, min)))
  }

  /** Appending each text and a space and stripping the result is the same as joining the
    * texts with single spaces. */
  lemma SpacedContentIsJoin(es: seq<Elem>, min: nat)
    ensures SpacedContent(es, min) == Join(" ", LongTexts(es, min))
  {
    var ts := LongTexts(es, min);
    if ts != [] {
      SpacedIsJoin(ts);
      LongTextsStripped(es, min);
      JoinKeepsEnds(ts);
      var j := Join(" ", ts);
      assert StripLeft(j + " ") == j + " ";
      assert (j + " ")[..|j + " "| - 1] == j;
      assert StripRight(j + " ") == StripRight(j);
    }
  }

  /** The loop `for elem in es: if <substantial>: content += text + " "`, then `strip()`. */
  method CollectSpaced(es: seq<Elem>, min: nat) returns (content: string)
    ensures content == SpacedContent(es, min)
  {
    content := "";
    var i := 0;
    while i < |es|
      invariant 0 <= i <= |es|
      invariant content == Spaced(LongTexts(es[..i], min))
    {
      LongTextsSnoc(es, i, min);
      var t := Strip(es[i].text);
      if t != "" && |t| > min {
        SpacedAppend(LongTexts(es[..i], min), t);
        content := content + t + " ";
      }
      i := i + 1;
    }
    assert es[..|es|] == es;
    content := Strip(content);
  }

  /** `[p.text for p in paragraphs]` */
  function Texts(ps: seq<Elem>): (ts: seq<string>)
    ensures |ts| == |ps|
    ensures forall k :: 0 <= k < |ps| ==> ts[k] == ps[k].text
  {
    seq(|ps|, k requires 0 <= k < |ps| => ps[k].text)
  }

  /** `" ".join([p.text for p in paragraphs])`: the raw texts, unstripped. */
  function JoinTexts(ps: seq<Elem>): string
  {
    Join(" ", Texts(ps))
  }

  /** Every part appears in the joined string. */
  lemma {:induction false} JoinHoldsParts(sep: string, parts: seq<string>, k: int)
    requires 0 <= k < |parts|
    ensures Contains(Join(sep, parts), parts[k])
    decreases k
  {
    if k == 0 {
      assert StartsWith(parts[0], parts[0]);
      var rest := if |parts| == 1 then [] else sep + Join(sep, parts[1..]);
      ContainsInConcat([], parts[0], rest, parts[0]);
      assert Join(sep, parts) == [] + parts[0] + rest;
    } else {
      JoinHoldsParts(sep, parts[1..], k - 1);
      ContainsInConcat(parts[0] + sep, Join(sep, parts[1..]), [], parts[k]);
      assert Join(sep, parts) == parts[0] + sep + Join(sep, parts[1..]) + [];
    }
  }

  /** Every paragraph's text appears in the joined content. */
  lemma JoinTextsHolds(ps: seq<Elem>, k: int)
    requires 0 <= k < |ps|
    ensures Contains(JoinTexts(ps), ps[k].text)
  {
    JoinHoldsParts(" ", Texts(ps), k);
  }
}
