/** The SQLite article store of database.py: an `articles` table whose rows are unique by
  * source URL and by id, and an `export_history` table, with the read queries the API
  * serves from them. */
module Database {
  import opened Wrappers
  import opened Text
  import Ladders

  // ---------------------------------------------------------------------------
  // Tables and records
  // ---------------------------------------------------------------------------

  /** The article dictionary add_article receives. A missing key reads as "", except
    * `content_file_path`, whose mere presence decides whether a file is consulted. */
  datatype Input = Input(
    title: string, description: string, content: string, sourceName: string,
    sourceUrl: string, publishedDate: string, imageUrl: string, localImagePath: string,
    contentFilePath: Option<string>)

  /** A row of the articles table. */
  datatype Row = Row(
    id: string, title: string, description: string, content: string, sourceName: string,
    sourceUrl: string, publishedDate: string, imageUrl: string, localImagePath: string,
    localContentPath: string, scrapeTimestamp: string)

  /** A row of the export_history table; its autoincrement id is its position. */
  datatype ExportRecord = ExportRecord(timestamp: string, filename: string, articleCount: nat)

  /** The columns get_all_articles selects. */
  datatype Listed = Listed(
    id: string, title: string, content: string, sourceName: string, sourceUrl: string,
    imageUrl: string, localImagePath: string, localContentPath: string, scrapeTimestamp: string)

  /** The eight fields export_to_json writes for an article, in this order. */
  datatype Exported = Exported(
    id: string, title: string, content: string, sourceName: string, sourceUrl: string,
    imageUrl: string, localImagePath: string, scrapeTimestamp: string)

  /** The JSON document export_to_json writes. */
  datatype ExportFile = ExportFile(scrapeTimestamp: string, articleCount: nat, articles: seq<Exported>)

  /** What add_article does with an article: inserts it, finds it already stored (False),
    * or hits the PRIMARY KEY on `id` and raises sqlite3.IntegrityError. */
  datatype InsertOutcome = Inserted | AlreadyStored | IdConflict

  // ---------------------------------------------------------------------------
  // Inserting
  // ---------------------------------------------------------------------------

  /** generate_article_id: the MD5 hex digest of the title followed by the source URL. */
  function ArticleId(md5: string -> string, a: Input): string
  {
    md5(a.title + a.sourceUrl)
  }

  predicate UrlStored(rows: seq<Row>, url: string)
  {
    exists i :: 0 <= i < |rows| && rows[i].sourceUrl == url
  }

  predicate PairStored(rows: seq<Row>, title: string, sourceName: string)
  {
    exists i :: 0 <= i < |rows| && rows[i].title == title && rows[i].sourceName == sourceName
  }

  predicate IdStored(rows: seq<Row>, id: string)
  {
    exists i :: 0 <= i < |rows| && rows[i].id == id
  }

  /** article_exists: the source URL is stored, or the title and source name are both
    * non-empty and stored together in one row. */
  predicate ArticleExists(rows: seq<Row>, a: Input)
  {
    UrlStored(rows, a.sourceUrl)
    || (a.title != "" && a.sourceName != "" && PairStored(rows, a.title, a.sourceName))
  }

  /** The content add_article stores: the given content, or, when that is blank and the
    * dictionary names a content file that can be read, the file's text. `files` holds
    * the readable files and their text. */
  function StoredContent(a: Input, files: map<string, string>): string
  {
    if Blank(a.content) && a.contentFilePath.Some? && a.contentFilePath.value in files
    then files[a.contentFilePath.value]
    else a.content
  }

  /** The row add_article inserts, stamped with the time `now`. */
  function NewRow(md5: string -> string, a: Input, now: string, files: map<string, string>): Row
  {
    Row(ArticleId(md5, a), a.title, a.description, StoredContent(a, files), a.sourceName,
        a.sourceUrl, a.publishedDate, a.imageUrl, a.localImagePath,
        a.contentFilePath.GetOr(""), now)
  }

  function AddOutcome(rows: seq<Row>, md5: string -> string, a: Input): InsertOutcome
  {
    if ArticleExists(rows, a) then AlreadyStored
    else if IdStored(rows, ArticleId(md5, a)) then IdConflict
    else Inserted
  }

  /** The articles table after add_article. */
  function AfterAdd(rows: seq<Row>, md5: string -> string, a: Input, now: string,
                    files: map<string, string>): seq<Row>
  {
    if AddOutcome(rows, md5, a) == Inserted then rows + [NewRow(md5, a, now, files)] else rows
  }

  /** The table's constraints: UNIQUE(source_url) and PRIMARY KEY(id). */
  predicate Unique(rows: seq<Row>)
  {
    forall i, j :: 0 <= i < j < |rows| ==>
      rows[i].sourceUrl != rows[j].sourceUrl && rows[i].id != rows[j].id
  }

  /** Every id is the hash of its row's title and source URL. */
  predicate HashedIds(rows: seq<Row>, md5: string -> string)
  {
    forall i :: 0 <= i < |rows| ==> rows[i].id == md5(rows[i].title + rows[i].sourceUrl)
  }

  /** add_article keeps both constraints and the id formula. */
  lemma AddKeepsInvariant(rows: seq<Row>, md5: string -> string, a: Input, now: string,
                          files: map<string, string>)
    requires Unique(rows) && HashedIds(rows, md5)
    ensures Unique(AfterAdd(rows, md5, a, now, files))
    ensures HashedIds(AfterAdd(rows, md5, a, now, files), md5)
  {
    if AddOutcome(rows, md5, a) == Inserted {
      var r := NewRow(md5, a, now, files);
      var after := rows + [r];
      forall i | 0 <= i < |rows|
        ensures after[i].sourceUrl != r.sourceUrl && after[i].id != r.id
      {
        assert after[i] == rows[i];
      }
    }
  }

  /** add_article adds exactly one row, at the end, when the article is neither stored
    * nor clashing on its id; otherwise it leaves the table as it was. */
  lemma AddGrowth(rows: seq<Row>, md5: string -> string, a: Input, now: string,
                  files: map<string, string>)
    ensures var after := AfterAdd(rows, md5, a, now, files);
      && rows <= after
      && |after| == |rows| + (if AddOutcome(rows, md5, a) == Inserted then 1 else 0)
      && (AddOutcome(rows, md5, a) == Inserted <==> !ArticleExists(rows, a) && !IdStored(rows, ArticleId(md5, a)))
  {
  }

  /** After add_article the article is stored, whatever the outcome, unless its id clashed. */
  lemma AddThenExists(rows: seq<Row>, md5: string -> string, a: Input, now: string,
                      files: map<string, string>)
    requires AddOutcome(rows, md5, a) != IdConflict
    ensures ArticleExists(AfterAdd(rows, md5, a, now, files), a)
  {
    var after := AfterAdd(rows, md5, a, now, files);
    if AddOutcome(rows, md5, a) == Inserted {
      assert after[|rows|].sourceUrl == a.sourceUrl;
    }
  }

  /** Adding the same article twice changes the table no more than adding it once. */
  lemma AddTwice(rows: seq<Row>, md5: string -> string, a: Input, now1: string, now2: string,
                 files: map<string, string>)
    ensures var once := AfterAdd(rows, md5, a, now1, files);
      AfterAdd(once, md5, a, now2, files) == once
  {
    var once := AfterAdd(rows, md5, a, now1, files);
    if AddOutcome(rows, md5, a) != IdConflict {
      AddThenExists(rows, md5, a, now1, files);
    } else {
      assert IdStored(once, ArticleId(md5, a));
    }
  }

  /** Two articles with different URLs whose title and URL run together into the same
    * text get the same id: the second one raises IntegrityError. */
  lemma ConcatenationClash(md5: string -> string, now: string, files: map<string, string>)
    ensures var first := Input("ab", "", "", "X", "c", "", "", "", None);
      var second := Input("a", "", "", "X", "bc", "", "", "", None);
      AddOutcome(AfterAdd([], md5, first, now, files), md5, second) == IdConflict
  {
    var first := Input("ab", "", "", "X", "c", "", "", "", None);
    var second := Input("a", "", "", "X", "bc", "", "", "", None);
    var rows := AfterAdd([], md5, first, now, files);
    assert first.title + first.sourceUrl == second.title + second.sourceUrl;
    assert rows[0].sourceUrl == "c" && rows[0].title == "ab";
    assert !ArticleExists(rows, second);
    assert rows[0].id == ArticleId(md5, second);
  }

  /** add_articles over a batch: the table afterwards, how many articles were added, and
    * whether an insert raised, which ends the batch with the earlier inserts kept. The
    * k-th article of the batch is stamped `clock(from + k)`. */
  datatype BatchOutcome = BatchOutcome(rows: seq<Row>, added: nat, failed: bool)

  function AddAll(rows: seq<Row>, md5: string -> string, items: seq<Input>,
                  clock: nat -> string, files: map<string, string>, from: nat): BatchOutcome
    decreases |items|
  {
    if items == [] then BatchOutcome(rows, 0, false)
    else
      match AddOutcome(rows, md5, items[0])
      case IdConflict => BatchOutcome(rows, 0, true)
      case AlreadyStored => AddAll(rows, md5, items[1..], clock, files, from + 1)
      case Inserted =>
        var rest := AddAll(AfterAdd(rows, md5, items[0], clock(from), files), md5,
                           items[1..], clock, files, from + 1);
        rest.(added := rest.added + 1)
  }

  /** One item of the batch: an id clash stops it, otherwise the rest of the batch runs
    * on the table that item leaves. */
  lemma AddAllStep(rows: seq<Row>, md5: string -> string, items: seq<Input>,
                   clock: nat -> string, files: map<string, string>, i: nat)
    requires i < |items|
    ensures var cur := AddAll(rows, md5, items[i..], clock, files, i);
      var out := AddOutcome(rows, md5, items[i]);
      var next := AddAll(AfterAdd(rows, md5, items[i], clock(i), files), md5, items[i + 1..], clock, files, i + 1);
      && (out == IdConflict ==> cur.rows == rows && cur.failed)
      && (out != IdConflict ==>
            cur.rows == next.rows && cur.failed == next.failed
            && cur.added == next.added + (if out == Inserted then 1 else 0))
  {
    assert items[i..][0] == items[i];
    assert items[i..][1..] == items[i + 1..];
  }

  /** The count add_articles reports is exactly the growth of the table, which only
    * grows at its end, and the constraints still hold. */
  lemma {:induction false} AddAllGrowth(rows: seq<Row>, md5: string -> string, items: seq<Input>,
                                        clock: nat -> string, files: map<string, string>, from: nat)
    requires Unique(rows) && HashedIds(rows, md5)
    ensures var o := AddAll(rows, md5, items, clock, files, from);
      && |o.rows| == |rows| + o.added
      && rows <= o.rows
      && o.added <= |items|
      && Unique(o.rows) && HashedIds(o.rows, md5)
    decreases |items|
  {
    if items != [] {
      var next := AfterAdd(rows, md5, items[0], clock(from), files);
      AddKeepsInvariant(rows, md5, items[0], clock(from), files);
      AddAllGrowth(next, md5, items[1..], clock, files, from + 1);
    }
  }

  /** After a batch that did not raise, every article of it is stored. */
  lemma {:induction false} AddAllStoresAll(rows: seq<Row>, md5: string -> string, items: seq<Input>,
                                       clock: nat -> string, files: map<string, string>, from: nat)
    requires !AddAll(rows, md5, items, clock, files, from).failed
    ensures var once := AddAll(rows, md5, items, clock, files, from).rows;
      forall a :: a in items ==> ArticleExists(once, a)
    decreases |items|
  {
    if items != [] {
      var next := AfterAdd(rows, md5, items[0], clock(from), files);
      AddThenExists(rows, md5, items[0], clock(from), files);
      AddAllStoresAll(next, md5, items[1..], clock, files, from + 1);
      var once := AddAll(rows, md5, items, clock, files, from).rows;
      assert once == AddAll(next, md5, items[1..], clock, files, from + 1).rows;
      AddAllKeepsStored(next, md5, items[1..], clock, files, from + 1, items[0]);
    }
  }

  /** A batch whose articles are all stored already adds nothing and changes nothing. */
  lemma {:induction false} AddAllOfStored(rows: seq<Row>, md5: string -> string, items: seq<Input>,
                                          clock: nat -> string, files: map<string, string>, from: nat)
    requires forall a :: a in items ==> ArticleExists(rows, a)
    ensures AddAll(rows, md5, items, clock, files, from) == BatchOutcome(rows, 0, false)
    decreases |items|
  {
    if items != [] {
      assert items[0] in items;
      assert forall a :: a in items[1..] ==> a in items;
      AddAllOfStored(rows, md5, items[1..], clock, files, from + 1);
    }
  }

  /** Adding a batch a second time adds nothing, as long as the first pass did not raise. */
  lemma AddAllTwice(rows: seq<Row>, md5: string -> string, items: seq<Input>,
                    clock1: nat -> string, clock2: nat -> string, files: map<string, string>)
    requires !AddAll(rows, md5, items, clock1, files, 0).failed
    ensures var once := AddAll(rows, md5, items, clock1, files, 0).rows;
      AddAll(once, md5, items, clock2, files, 0) == BatchOutcome(once, 0, false)
  {
    AddAllStoresAll(rows, md5, items, clock1, files, 0);
    AddAllOfStored(AddAll(rows, md5, items, clock1, files, 0).rows, md5, items, clock2, files, 0);
  }

  /** What is stored stays stored: rows are never removed. */
  lemma {:induction false} AddAllKeepsStored(rows: seq<Row>, md5: string -> string, items: seq<Input>,
                                             clock: nat -> string, files: map<string, string>,
                                             from: nat, a: Input)
    requires ArticleExists(rows, a)
    ensures ArticleExists(AddAll(rows, md5, items, clock, files, from).rows, a)
    decreases |items|
  {
    if items != [] {
      var next := AfterAdd(rows, md5, items[0], clock(from), files);
      assert rows <= next;
      assert ArticleExists(next, a) by {
        if UrlStored(rows, a.sourceUrl) {
          var i :| 0 <= i < |rows| && rows[i].sourceUrl == a.sourceUrl;
          assert next[i] == rows[i];
        } else {
          var i :| 0 <= i < |rows| && rows[i].title == a.title && rows[i].sourceName == a.sourceName;
          assert next[i] == rows[i];
        }
      }
      AddAllKeepsStored(next, md5, items[1..], clock, files, from + 1, a);
    }
  }

  // ---------------------------------------------------------------------------
  // Reading: ORDER BY scrape_timestamp DESC, LIMIT and OFFSET
  // ---------------------------------------------------------------------------

  /** Timestamps never increase along `s`. */
  predicate NewestFirst(s: seq<Row>)
  {
    forall i, j :: 0 <= i < j < |s| ==> LexLe(s[j].scrapeTimestamp, s[i].scrapeTimestamp)
  }

  /** No row of `s` is newer than `ts`. */
  predicate NoneNewer(s: seq<Row>, ts: string)
  {
    forall x :: x in s ==> LexLe(x.scrapeTimestamp, ts)
  }

  /** Places `r` after every row at least as new, so rows with equal timestamps keep
    * the order they were inserted in. */
  function InsertByTime(r: Row, s: seq<Row>): (o: seq<Row>)
    ensures multiset(o) == multiset(s) + multiset{r}
    ensures |o| == |s| + 1
    decreases |s|
  {
    if s == [] then [r]
    else if LexLe(r.scrapeTimestamp, s[0].scrapeTimestamp) then
      assert s == [s[0]] + s[1..];
      [s[0]] + InsertByTime(r, s[1..])
    else [r] + s
  }

  /** The rows ordered newest first; rows with equal timestamps are kept in the order
    * they were inserted in. */
  function SortNewestFirst(s: seq<Row>): (o: seq<Row>)
    ensures multiset(o) == multiset(s)
    ensures |o| == |s|
    decreases |s|
  {
    if s == [] then []
    else
      assert s == s[..|s| - 1] + [s[|s| - 1]];
      InsertByTime(s[|s| - 1], SortNewestFirst(s[..|s| - 1]))
  }

  lemma NewestFirstCons(h: Row, t: seq<Row>)
    ensures NewestFirst([h] + t) <==> NoneNewer(t, h.scrapeTimestamp) && NewestFirst(t)
  {
    var s := [h] + t;
    if NoneNewer(t, h.scrapeTimestamp) && NewestFirst(t) {
      forall i, j | 0 <= i < j < |s|
        ensures LexLe(s[j].scrapeTimestamp, s[i].scrapeTimestamp)
      {
        assert s[j] == t[j - 1];
        if i > 0 {
          assert s[i] == t[i - 1];
        }
      }
    }
    if NewestFirst(s) {
      forall x | x in t
        ensures LexLe(x.scrapeTimestamp, h.scrapeTimestamp)
      {
        var j :| 0 <= j < |t| && t[j] == x;
        assert s[0] == h && s[j + 1] == x;
      }
      forall i, j | 0 <= i < j < |t|
        ensures LexLe(t[j].scrapeTimestamp, t[i].scrapeTimestamp)
      {
        assert s[i + 1] == t[i] && s[j + 1] == t[j];
      }
    }
  }

  lemma {:induction false} InsertByTimeSorted(r: Row, s: seq<Row>)
    requires NewestFirst(s)
    ensures NewestFirst(InsertByTime(r, s))
    decreases |s|
  {
    if s != [] {
      var h := s[0];
      var t := s[1..];
      assert s == [h] + t;
      NewestFirstCons(h, t);
      if LexLe(r.scrapeTimestamp, h.scrapeTimestamp) {
        InsertByTimeSorted(r, t);
        var o := InsertByTime(r, t);
        forall x | x in o
          ensures LexLe(x.scrapeTimestamp, h.scrapeTimestamp)
        {
          assert x in multiset(t) + multiset{r} by {
            assert x in multiset(o);
          }
          if x != r {
            assert x in t;
          }
        }
        NewestFirstCons(h, o);
      } else {
        LexLeTotal(r.scrapeTimestamp, h.scrapeTimestamp);
        forall x | x in s
          ensures LexLe(x.scrapeTimestamp, r.scrapeTimestamp)
        {
          if x != h {
            assert x in t;
            LexLeTrans(x.scrapeTimestamp, h.scrapeTimestamp, r.scrapeTimestamp);
          }
        }
        NewestFirstCons(r, s);
      }
    }
  }

  /** ORDER BY scrape_timestamp DESC: the result is a newest-first permutation. */
  lemma {:induction false} SortIsNewestFirst(s: seq<Row>)
    ensures NewestFirst(SortNewestFirst(s))
    decreases |s|
  {
    if s != [] {
      SortIsNewestFirst(s[..|s| - 1]);
      InsertByTimeSorted(s[|s| - 1], SortNewestFirst(s[..|s| - 1]));
    }
  }

  /** The start of the window `LIMIT limit OFFSET offset` selects (a negative OFFSET
    * counts as zero). */
  function PageStart(n: nat, offset: int): (k: nat)
    ensures k <= n
  {
    if offset < 0 then 0 else if offset > n then n else offset
  }

  /** SQLite's `LIMIT limit OFFSET offset` (no LIMIT when `limit` is None, no upper bound
    * for a negative LIMIT). */
  function Page<T>(s: seq<T>, limit: Option<int>, offset: int): (r: seq<T>)
    ensures var k := PageStart(|s|, offset);
      && k + |r| <= |s| && r == s[k..k + |r|]
      && |r| == if limit.Some? && 0 <= limit.value < |s| - k then limit.value else |s| - k
  {
    var rest := s[PageStart(|s|, offset)..];
    match limit
    case None => rest
    case Some(l) => if l < 0 || l >= |rest| then rest else rest[..l]
  }

  /** A page of a newest-first sequence is newest first. */
  lemma PageNewestFirst(s: seq<Row>, limit: Option<int>, offset: int)
    requires NewestFirst(s)
    ensures NewestFirst(Page(s, limit, offset))
  {
    var r := Page(s, limit, offset);
    var k := PageStart(|s|, offset);
    forall i, j | 0 <= i < j < |r|
      ensures LexLe(r[j].scrapeTimestamp, r[i].scrapeTimestamp)
    {
      assert r[i] == s[k + i] && r[j] == s[k + j];
    }
  }

  /** `if source:` — a missing or empty source means no filter. */
  predicate FromSource(r: Row, source: Option<string>)
  {
    source.None? || source.value == "" || r.sourceName == source.value
  }

  function BySource(rows: seq<Row>, source: Option<string>): seq<Row>
  {
    Ladders.Filter(rows, (r: Row) => FromSource(r, source))
  }

  function Project(r: Row): Listed
  {
    Listed(r.id, r.title, r.content, r.sourceName, r.sourceUrl, r.imageUrl,
           r.localImagePath, r.localContentPath, r.scrapeTimestamp)
  }

  /** The rows get_all_articles returns, before the column selection. */
  function Listing(rows: seq<Row>, limit: Option<int>, offset: int, source: Option<string>): seq<Row>
  {
    Page(SortNewestFirst(BySource(rows, source)), limit, offset)
  }

  /** A listing holds stored rows of the requested source, newest first, as many as the
    * window leaves of the matching rows. */
  lemma ListingFacts(rows: seq<Row>, limit: Option<int>, offset: int, source: Option<string>)
    ensures var r := Listing(rows, limit, offset, source);
      var n := |BySource(rows, source)|;
      var k := PageStart(n, offset);
      && NewestFirst(r)
      && (forall x :: x in r ==> x in rows && FromSource(x, source))
      && |r| == if limit.Some? && 0 <= limit.value < n - k then limit.value else n - k
  {
    var f := BySource(rows, source);
    var sorted := SortNewestFirst(f);
    SortIsNewestFirst(f);
    PageNewestFirst(sorted, limit, offset);
    var r := Listing(rows, limit, offset, source);
    forall x | x in r
      ensures x in rows && FromSource(x, source)
    {
      assert x in sorted;
      assert x in multiset(sorted);
    }
  }

  /** Without LIMIT and OFFSET every stored row of the requested source is listed. */
  lemma ListingComplete(rows: seq<Row>, source: Option<string>)
    ensures forall x :: x in rows && FromSource(x, source) ==> x in Listing(rows, None, 0, source)
  {
    var f := BySource(rows, source);
    forall x | x in rows && FromSource(x, source)
      ensures x in Listing(rows, None, 0, source)
    {
      assert x in f;
      assert x in multiset(SortNewestFirst(f));
    }
  }

  /** Each listed entry is the selection of a stored row of the requested source. */
  predicate ListedFrom(r: seq<Listed>, rows: seq<Row>, source: Option<string>)
  {
    forall i :: 0 <= i < |r| ==> exists x :: x in rows && FromSource(x, source) && r[i] == Project(x)
  }

  /** The selected columns of each row. */
  function ProjectAll(rows: seq<Row>): (r: seq<Listed>)
    ensures |r| == |rows|
    ensures forall i :: 0 <= i < |rows| ==> r[i] == Project(rows[i])
  {
    seq(|rows|, i requires 0 <= i < |rows| => Project(rows[i]))
  }

  /** ListingFacts, after the column selection. */
  lemma ProjectedListingFacts(rows: seq<Row>, limit: Option<int>, offset: int, source: Option<string>)
    ensures var r := ProjectAll(Listing(rows, limit, offset, source));
      var n := |BySource(rows, source)|;
      var k := PageStart(n, offset);
      && |r| == (if limit.Some? && 0 <= limit.value < n - k then limit.value else n - k)
      && (forall i, j :: 0 <= i < j < |r| ==> LexLe(r[j].scrapeTimestamp, r[i].scrapeTimestamp))
      && ListedFrom(r, rows, source)
  {
    var l := Listing(rows, limit, offset, source);
    ListingFacts(rows, limit, offset, source);
    var r := ProjectAll(l);
    forall i | 0 <= i < |r|
      ensures exists x :: x in rows && FromSource(x, source) && r[i] == Project(x)
    {
      assert l[i] in l;
    }
    forall i, j | 0 <= i < j < |r|
      ensures LexLe(r[j].scrapeTimestamp, r[i].scrapeTimestamp)
    {
      assert r[i].scrapeTimestamp == l[i].scrapeTimestamp;
      assert r[j].scrapeTimestamp == l[j].scrapeTimestamp;
    }
  }

  // ---------------------------------------------------------------------------
  // Exporting
  // ---------------------------------------------------------------------------

  const VisitNotice := "Visit the source for more information: "

  /** The content export_to_json writes: the stored content unless blank, else the text
    * of the row's content file when that exists and is not blank, else a notice that
    * points to the source URL. */
  function ExportContent(r: Row, files: map<string, string>): string
  {
    if !Blank(r.content) then r.content
    else
      var fromFile := if r.localContentPath != "" && r.localContentPath in files
                      then files[r.localContentPath] else r.content;
      if !Blank(fromFile) then fromFile else VisitNotice + r.sourceUrl
  }

  function Export(r: Row, files: map<string, string>): Exported
  {
    Exported(r.id, r.title, ExportContent(r, files), r.sourceName, r.sourceUrl, r.imageUrl,
             r.localImagePath, r.scrapeTimestamp)
  }

  /** Exported content is never blank, and content that is not blank is exported as stored. */
  lemma ExportContentNeverBlank(r: Row, files: map<string, string>)
    ensures !Blank(ExportContent(r, files))
    ensures !Blank(r.content) ==> ExportContent(r, files) == r.content
  {
    if Blank(r.content) {
      var c := ExportContent(r, files);
      if c == VisitNotice + r.sourceUrl {
        assert c[0] == VisitNotice[0] == 'V';
      }
    }
  }

  // ---------------------------------------------------------------------------
  // Searching
  // ---------------------------------------------------------------------------

  /** `field LIKE '%query%'` for a query free of '%' and '_': a substring test that
    * ignores the case of ASCII letters. */
  predicate Like(field: string, query: string)
  {
    Contains(Lower(field), Lower(query))
  }

  predicate Matches(r: Row, query: string)
  {
    Like(r.title, query) || Like(r.content, query)
  }

  /** The rows search_articles returns. */
  function Search(rows: seq<Row>, query: string, limit: int, offset: int): seq<Row>
  {
    Page(SortNewestFirst(Hits(rows, query)), Some(limit), offset)
  }

  /** The stored rows that mention the query, in table order. */
  function Hits(rows: seq<Row>, query: string): seq<Row>
  {
    Ladders.Filter(rows, (r: Row) => Matches(r, query))
  }

  /** A search returns newest first stored rows that mention the query: `limit` of the
    * matching rows past the offset when that many are left (a negative limit sets no
    * bound), else all that are left. */
  lemma SearchFacts(rows: seq<Row>, query: string, limit: int, offset: int)
    ensures var r := Search(rows, query, limit, offset);
      var n := |Hits(rows, query)|;
      var k := PageStart(n, offset);
      && (0 <= limit ==> |r| <= limit)
      && |r| == (if 0 <= limit < n - k then limit else n - k)
      && NewestFirst(r)
      && forall x :: x in r ==> x in rows && Matches(x, query)
  {
    var f := Hits(rows, query);
    var sorted := SortNewestFirst(f);
    SortIsNewestFirst(f);
    PageNewestFirst(sorted, Some(limit), offset);
    var r := Search(rows, query, limit, offset);
    forall x | x in r
      ensures x in rows && Matches(x, query)
    {
      assert x in sorted;
      assert x in multiset(sorted);
    }
  }

  /** With no bound and no offset a search returns every stored row that mentions the
    * query, each as often as it is stored. */
  lemma SearchComplete(rows: seq<Row>, query: string, limit: int, offset: int)
    requires limit < 0 && offset <= 0
    ensures multiset(Search(rows, query, limit, offset)) == multiset(Hits(rows, query))
  {
    var f := Hits(rows, query);
    var sorted := SortNewestFirst(f);
    assert Search(rows, query, limit, offset) == sorted[0..];
    assert sorted[0..] == sorted;
  }

  // ---------------------------------------------------------------------------
  // The store
  // ---------------------------------------------------------------------------

  /** NewsDatabase: the two tables, and the hash function ids are made with. */
  class NewsDatabase {
    const md5: string -> string
    var articles: seq<Row>
    var exportHistory: seq<ExportRecord>

    /** The table constraints and the id formula. */
    predicate Valid()
      reads this
    {
      Unique(articles) && HashedIds(articles, md5)
    }

    /** A new database file: create_tables leaves both tables empty. */
    constructor(md5: string -> string)
      ensures this.md5 == md5 && articles == [] && exportHistory == []
      ensures Valid()
    {
      this.md5 := md5;
      articles := [];
      exportHistory := [];
    }

    /** generate_article_id: two articles whose title and URL run together into the same
      * text get the same id. */
    function GenerateArticleId(a: Input): (id: string)
      ensures forall b: Input :: b.title + b.sourceUrl == a.title + a.sourceUrl ==> id == ArticleId(md5, b)
    {
      ArticleId(md5, a)
    }

    /** article_exists */
    predicate Exists(a: Input)
      reads this
    {
      ArticleExists(articles, a)
    }

    /** add_article. `now` is the clock reading used as scrape_timestamp; `files` the
      * content files that can be read. */
    method AddArticle(a: Input, now: string, files: map<string, string>) returns (outcome: InsertOutcome)
      requires Valid()
      modifies this
      ensures Valid()
      ensures outcome == AddOutcome(old(articles), md5, a)
      ensures outcome == AlreadyStored <==> old(Exists(a))
      ensures articles == AfterAdd(old(articles), md5, a, now, files)
      ensures exportHistory == old(exportHistory)
    {
      AddKeepsInvariant(articles, md5, a, now, files);
      if ArticleExists(articles, a) {
        return AlreadyStored;
      }
      var id := GenerateArticleId(a);
      if IdStored(articles, id) {
        return IdConflict;
      }
      articles := articles + [NewRow(md5, a, now, files)];
      return Inserted;
    }

    /** add_articles: the number of articles added, or the IntegrityError an id clash
      * raises (rows added before it stay). The k-th article is stamped `clock(k)`. */
    method AddArticles(items: seq<Input>, clock: nat -> string, files: map<string, string>)
      returns (r: Result<nat>)
      requires Valid()
      modifies this
      ensures Valid()
      ensures var o := AddAll(old(articles), md5, items, clock, files, 0);
        && articles == o.rows
        && (if o.failed then r.Err? else r == Ok(o.added))
      ensures r.Ok? ==> |articles| == |old(articles)| + r.value
      ensures exportHistory == old(exportHistory)
    {
      ghost var o := AddAll(articles, md5, items, clock, files, 0);
      AddAllGrowth(articles, md5, items, clock, files, 0);
      var count := 0;
      var i := 0;
      while i < |items|
        invariant 0 <= i <= |items| && Valid()
        invariant exportHistory == old(exportHistory)
        invariant var rest := AddAll(articles, md5, items[i..], clock, files, i);
          rest.rows == o.rows && rest.failed == o.failed && rest.added + count == o.added
      {
        ghost var before := articles;
        AddAllStep(before, md5, items, clock, files, i);
        var outcome := AddArticle(items[i], clock(i), files);
        assert outcome == AddOutcome(before, md5, items[i]);
        assert articles == AfterAdd(before, md5, items[i], clock(i), files);
        if outcome == IdConflict {
          assert articles == before;
          return Err("sqlite3.IntegrityError: UNIQUE constraint failed: articles.id");
        }
        if outcome == Inserted {
          count := count + 1;
        }
        i := i + 1;
      }
      return Ok(count);
    }

    /** get_all_articles: newest first, only the requested source when `source` is
      * non-empty, `LIMIT limit OFFSET offset` when `limit` is given and only the offset
      * otherwise. */
    function GetAllArticles(limit: Option<int>, offset: int, source: Option<string>): (r: seq<Listed>)
      reads this
      ensures var n := |BySource(articles, source)|;
        var k := PageStart(n, offset);
        |r| == if limit.Some? && 0 <= limit.value < n - k then limit.value else n - k
      ensures forall i, j :: 0 <= i < j < |r| ==> LexLe(r[j].scrapeTimestamp, r[i].scrapeTimestamp)
      ensures ListedFrom(r, articles, source)
    {
      ProjectedListingFacts(articles, limit, offset, source);
      ProjectAll(Listing(articles, limit, offset, source))
    }

    /** get_article_by_id */
    function GetArticleById(id: string): (r: Option<Row>)
      reads this
      ensures r.None? <==> !IdStored(articles, id)
      ensures r.Some? ==> r.value in articles && r.value.id == id
    {
      var pick := (x: Row) => if x.id == id then Some(x) else None;
      Ladders.FirstSomeOfNone(articles, pick);
      Ladders.FirstSomeOfFrom(articles, pick);
      Ladders.FirstSomeOf(articles, pick)
    }

    /** get_article_sources: SELECT DISTINCT source_name. */
    function GetArticleSources(): (r: seq<string>)
      reads this
      ensures Ladders.NoDuplicates(r)
      ensures forall s :: s in r <==> exists x :: x in articles && x.sourceName == s
    {
      Distinct(SourceNames(articles))
    }

    /** get_article_count: the size of the unlimited listing of the same source. */
    function GetArticleCount(source: Option<string>): (n: nat)
      reads this
      ensures n == |GetAllArticles(None, 0, source)|
    {
      |BySource(articles, source)|
    }

    /** export_to_json: writes every row, newest first, with blank content replaced, and
      * records the export in export_history. `timestamp` is the clock reading; `files`
      * the content files that can be read. */
    method ExportToJson(outputFile: string, timestamp: string, files: map<string, string>)
      returns (count: nat, file: ExportFile)
      modifies this
      ensures articles == old(articles)
      ensures count == |articles|
      ensures file.scrapeTimestamp == timestamp && file.articleCount == count
      ensures |file.articles| == count
      ensures forall i :: 0 <= i < count ==>
        file.articles[i] == Export(SortNewestFirst(articles)[i], files)
      ensures exportHistory == old(exportHistory) + [ExportRecord(timestamp, outputFile, count)]
    {
      var sorted := SortNewestFirst(articles);
      var formatted: seq<Exported> := [];
      for i := 0 to |sorted|
        invariant |formatted| == i
        invariant forall k :: 0 <= k < i ==> formatted[k] == Export(sorted[k], files)
      {
        formatted := formatted + [Export(sorted[i], files)];
      }
      count := |formatted|;
      file := ExportFile(timestamp, count, formatted);
      exportHistory := exportHistory + [ExportRecord(timestamp, outputFile, count)];
    }

    /** search_articles: at most `limit` rows (no bound for a negative limit), and exactly
      * as many as the window leaves of the matching rows, newest first, each mentioning the
      * query in its title or content. SQLite's wildcards in the query are not modelled. */
    function SearchArticles(query: string, limit: int, offset: int): (r: seq<Row>)
      reads this
      requires '%' !in query && '_' !in query
      ensures 0 <= limit ==> |r| <= limit
      ensures var n := |Hits(articles, query)|;
        var k := PageStart(n, offset);
        |r| == (if 0 <= limit < n - k then limit else n - k)
      ensures NewestFirst(r)
      ensures forall x :: x in r ==> x in articles && Matches(x, query)
    {
      SearchFacts(articles, query, limit, offset);
      Search(articles, query, limit, offset)
    }
  }

  /** The source name of each row, in table order. */
  function SourceNames(rows: seq<Row>): (r: seq<string>)
    ensures forall s :: s in r <==> exists x :: x in rows && x.sourceName == s
  {
    var r := seq(|rows|, i requires 0 <= i < |rows| => rows[i].sourceName);
    assert forall i :: 0 <= i < |rows| ==> rows[i] in rows && r[i] == rows[i].sourceName;
    r
  }

  /** The distinct elements of `xs`, in order of first occurrence. */
  function Distinct(xs: seq<string>): (r: seq<string>)
    ensures Ladders.NoDuplicates(r)
    ensures forall s :: s in r <==> s in xs
    decreases |xs|
  {
    if xs == [] then []
    else
      var d := Distinct(xs[..|xs| - 1]);
      var last := xs[|xs| - 1];
      assert xs == xs[..|xs| - 1] + [last];
      if last in d then d else d + [last]
  }

  /** Every article of a fresh store's first batch with distinct URLs, titles and ids
    * is added. */
  lemma FreshBatchAllAdded(md5: string -> string, items: seq<Input>, clock: nat -> string,
                           files: map<string, string>)
    requires forall i, j :: 0 <= i < j < |items| ==>
      items[i].sourceUrl != items[j].sourceUrl && ArticleId(md5, items[i]) != ArticleId(md5, items[j])
      && (items[i].title != items[j].title || items[i].sourceName != items[j].sourceName)
    ensures AddAll([], md5, items, clock, files, 0).added == |items|
  {
    FreshBatchFrom(md5, items, clock, files, 0, []);
  }

  lemma {:induction false} FreshBatchFrom(md5: string -> string, items: seq<Input>, clock: nat -> string,
                                          files: map<string, string>, from: nat, rows: seq<Row>)
    requires forall i, j :: 0 <= i < j < |items| ==>
      items[i].sourceUrl != items[j].sourceUrl && ArticleId(md5, items[i]) != ArticleId(md5, items[j])
      && (items[i].title != items[j].title || items[i].sourceName != items[j].sourceName)
    requires forall a, x :: a in items && x in rows ==>
      x.sourceUrl != a.sourceUrl && x.id != ArticleId(md5, a)
      && (x.title != a.title || x.sourceName != a.sourceName)
    ensures AddAll(rows, md5, items, clock, files, from).added == |items|
    decreases |items|
  {
    if items != [] {
      var a := items[0];
      assert a in items;
      assert forall i :: 0 <= i < |rows| ==> rows[i] in rows;
      assert !ArticleExists(rows, a);
      assert !IdStored(rows, ArticleId(md5, a));
      var next := rows + [NewRow(md5, a, clock(from), files)];
      assert forall b :: b in items[1..] ==> exists j :: 0 < j < |items| && items[j] == b by {
        forall b | b in items[1..]
          ensures exists j :: 0 < j < |items| && items[j] == b
        {
          var k :| 0 <= k < |items[1..]| && items[1..][k] == b;
          assert items[k + 1] == b;
        }
      }
      FreshBatchFrom(md5, items[1..], clock, files, from + 1, next);
    }
  }
}
