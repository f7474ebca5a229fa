/**
 * The two sync services of `src/services/sync_fitgirl_rss.rs` over the
 * catalog store: `sync_fitgirl_rss` walks the feed down to the newest
 * stored release, `sync_all_releases` crawls the A-Z list and fetches every
 * post whose title is not stored yet. Each is a method whose effect on the
 * store and whose result are those of a function of the old contents.
 * The requests are inputs: the feed, the list pages and a `details`
 * function from URL to fetched post page. The extraction is a parameter
 * `extract` of the functions and methods; `SyncFitgirlRss` and
 * `SyncAllReleases` pass the extraction of `RssExtract` with the heading
 * tests fixed (`FreshIterator`), and the lemmas at the end show what the
 * extraction as written (`SharedIterator`, with a fused `text()` iterator)
 * makes of the two services. If the iterator starts again after `None`, the
 * program as written is the `FreshIterator` one.
 */
module SyncRust {
  import opened Wrappers
  import opened Text
  import opened Markup
  import opened Records
  import opened RssExtract
  import RssExtractFacts
  import opened Catalog
  import opened LastReleases
  import opened Frontier

  /** The inserts of `insert_data` for one extracted release. */
  function RustInsert(t: Tables, e: Extracted): Tables {
    Inserted(t, RustRow(t.nextId, e.release), e.languages, e.companies, e.genres)
  }

  // ---------------------------------------------------------------------------
  // sync_fitgirl_rss

  /** The feed request: it fails, or its body is not a feed, or it gives the items. */
  datatype FeedFetch = Unreachable | Unreadable | Feed(items: seq<FeedItem>)

  /** `get_release_from_item` with the heading tests fixed. */
  function FeedExtraction(item: FeedItem): Result<Extracted, ExtractError> {
    ReleaseFromItem(item, FreshIterator)
  }

  /** `get_release_from_item` as written. */
  function SharedFeedExtraction(item: FeedItem): Result<Extracted, ExtractError> {
    ReleaseFromItem(item, SharedIterator)
  }

  /** `filter_map` over the extraction: the items that extract, in feed order. */
  function Extractions(items: seq<FeedItem>, extract: FeedItem -> Result<Extracted, ExtractError>): (r: seq<Extracted>)
    ensures |r| <= |items|
  {
    if items == [] then []
    else
      var last := extract(items[|items| - 1]);
      Extractions(items[..|items| - 1], extract) + (if last.Success? then [last.value] else [])
  }

  /** `insert_data` for each extraction in turn. */
  function RustStored(t: Tables, es: seq<Extracted>): (r: Tables)
    ensures r.nextId == t.nextId + |es|
  {
    if es == [] then t else RustInsert(RustStored(t, es[..|es| - 1]), es[|es| - 1])
  }

  /** `res.0.title` of each extraction. */
  function ReleaseTitles(es: seq<Extracted>): (r: seq<string>)
    ensures |r| == |es|
  {
    if es == [] then [] else ReleaseTitles(es[..|es| - 1]) + [es[|es| - 1].release.title]
  }

  /**
   * `sync_fitgirl_rss`: the feed request, then `last_release` (an empty
   * table is an error, a bad stamp a panic), then the feed is read and every
   * frontier item that extracts is inserted and its title returned.
   */
  function RssSync(t: Tables, feed: FeedFetch, extract: FeedItem -> Result<Extracted, ExtractError>)
    : (Tables, Result<seq<string>, Stop>)
  {
    if feed.Unreachable? then (t, Failure(Raised(RequestFailed)))
    else
      match LastReleaseOf(t.releases)
      case Failure(e) => (t, Failure(e))
      case Success(last) =>
        if feed.Unreadable? then (t, Failure(Raised(FeedInvalid)))
        else
          var es := Extractions(RssFrontier(feed.items, last.title), extract);
          (RustStored(t, es), Success(ReleaseTitles(es)))
  }

  method SyncFeed(store: Store, feed: FeedFetch, extract: FeedItem -> Result<Extracted, ExtractError>)
      returns (r: Result<seq<string>, Stop>)
    requires store.Valid()
    modifies store
    ensures store.Valid()
    ensures (store.Contents(), r) == RssSync(old(store.Contents()), feed, extract)
  {
    if feed.Unreachable? {
      return Failure(Raised(RequestFailed));
    }
    var last := LastReleaseOf(store.releases);
    if last.Failure? {
      return Failure(last.error);
    }
    if feed.Unreadable? {
      return Failure(Raised(FeedInvalid));
    }
    var items := RssFrontier(feed.items, last.value.title);
    var titlesAdded := StoreExtractions(store, items, extract);
    r := Success(titlesAdded);
  }

  /** The `for` loop of `sync_fitgirl_rss`: extract each frontier item and insert the ones that extract. */
  method StoreExtractions(store: Store, items: seq<FeedItem>, extract: FeedItem -> Result<Extracted, ExtractError>)
      returns (titlesAdded: seq<string>)
    requires store.Valid()
    modifies store
    ensures store.Valid()
    ensures store.Contents() == RustStored(old(store.Contents()), Extractions(items, extract))
    ensures titlesAdded == ReleaseTitles(Extractions(items, extract))
  {
    ghost var t0 := store.Contents();
    ghost var done: seq<Extracted> := [];
    titlesAdded := [];
    for k := 0 to |items|
      invariant store.Valid()
      invariant done == Extractions(items[..k], extract)
      invariant store.Contents() == RustStored(t0, done)
      invariant titlesAdded == ReleaseTitles(done)
    {
      assert items[..k + 1][..k] == items[..k];
      var res := extract(items[k]);
      if res.Success? {
        titlesAdded := titlesAdded + [res.value.release.title];
        var id := store.InsertData(res.value.release, res.value.languages, res.value.companies, res.value.genres);
        ghost var prev := done;
        done := done + [res.value];
        assert done[..|done| - 1] == prev;
      }
    }
    assert items[..|items|] == items;
  }

  /** `sync_fitgirl_rss`. */
  method SyncFitgirlRss(store: Store, feed: FeedFetch) returns (r: Result<seq<string>, Stop>)
    requires store.Valid()
    modifies store
    ensures store.Valid()
    ensures (store.Contents(), r) == RssSync(old(store.Contents()), feed, FeedExtraction)
  {
    r := SyncFeed(store, feed, FeedExtraction);
  }

  /** The returned titles are the titles of the rows the run appended, in order. */
  lemma {:induction false} RustStoredTitles(t: Tables, es: seq<Extracted>)
    ensures Titles(RustStored(t, es).releases) == Titles(t.releases) + ReleaseTitles(es)
    decreases |es|
  {
    if es != [] {
      var front := es[..|es| - 1];
      RustStoredTitles(t, front);
      var e := es[|es| - 1];
      var t1 := RustStored(t, front);
      InsertedTitles(t1, RustRow(t1.nextId, e.release), e.languages, e.companies, e.genres);
      ConcatAssoc(Titles(t.releases), ReleaseTitles(front), [e.release.title]);
    }
  }

  /**
   * A feed sync leaves the catalog as it was when it fails; when it
   * succeeds it appends one row per returned title, with that title, in order.
   */
  lemma RssSyncTitles(t: Tables, feed: FeedFetch, extract: FeedItem -> Result<Extracted, ExtractError>)
    ensures var (t1, r) := RssSync(t, feed, extract);
      && (r.Failure? ==> t1 == t)
      && (r.Success? ==> Titles(t1.releases) == Titles(t.releases) + r.value && t1.nextId == t.nextId + |r.value|)
  {
    if RssSync(t, feed, extract).1.Success? {
      var last := LastReleaseOf(t.releases).value;
      RustStoredTitles(t, Extractions(RssFrontier(feed.items, last.title), extract));
    }
  }

  /** The feed sync cannot start from an empty catalog: `last_release` has no row to give. */
  lemma RssSyncNeedsRelease(t: Tables, feed: FeedFetch, extract: FeedItem -> Result<Extracted, ExtractError>)
    requires t.releases == [] && !feed.Unreachable?
    ensures RssSync(t, feed, extract) == (t, Failure(Raised(NoLastRelease)))
  {
    LastReleaseNewest(t.releases);
  }

  /** Every inserted release is the extraction of an item of the frontier. */
  lemma {:induction false} ExtractionsFromItems(items: seq<FeedItem>, extract: FeedItem -> Result<Extracted, ExtractError>, e: Extracted)
    requires e in Extractions(items, extract)
    ensures exists k :: 0 <= k < |items| && extract(items[k]) == Success(e)
    decreases |items|
  {
    var front := items[..|items| - 1];
    var last := extract(items[|items| - 1]);
    if e in Extractions(front, extract) {
      ExtractionsFromItems(front, extract, e);
      var k :| 0 <= k < |front| && extract(front[k]) == Success(e);
      assert front[k] == items[k];
    } else {
      assert last == Success(e);
    }
  }

  // ---------------------------------------------------------------------------
  // sync_all_releases

  /** `get_release_list` on a fetched page: each anchor's text and `href`, which `unwrap` demands. */
  function AnchorPairs(anchors: seq<Anchor>): (r: Result<seq<(string, string)>, Stop>)
    ensures r.Success? ==> |r.value| == |anchors|
    ensures r.Failure? <==> exists k :: 0 <= k < |anchors| && anchors[k].href.None?
    ensures r.Failure? ==> r.error == Panicked
  {
    if anchors == [] then Success([])
    else if anchors[0].href.None? then Failure(Panicked)
    else
      var rest := AnchorPairs(anchors[1..]);
      if rest.Failure? then
        var k :| 0 <= k < |anchors[1..]| && anchors[1..][k].href.None?;
        assert anchors[k + 1].href.None?;
        Failure(Panicked)
      else
        assert forall k :: 0 <= k < |anchors| ==> anchors[k].href.Some? by {
          forall k | 0 <= k < |anchors| ensures anchors[k].href.Some? {
            if k > 0 { assert anchors[k] == anchors[1..][k - 1]; }
          }
        }
        Success([(anchors[0].text, anchors[0].href.value)] + rest.value)
  }

  /** A list page: the request fails (`None`), or its `.lcp_catlist li a` anchors. */
  function ReleaseList(page: Option<seq<Anchor>>): Result<seq<(string, string)>, Stop> {
    match page
    case None => Failure(Raised(RequestFailed))
    case Some(anchors) => AnchorPairs(anchors)
  }

  function PairTitle(p: (string, string)): string {
    p.0
  }

  /**
   * The `for` loop over the candidates: a failed post request ends the run
   * with an error, a post that does not extract is skipped, the others are
   * inserted and their extracted titles collected.
   */
  function CrawlInserts(t: Tables, cands: seq<(string, string)>, details: string -> Option<DetailPage>,
                        extract: DetailPage -> Result<Extracted, ExtractError>): (Tables, Result<seq<string>, Stop>)
  {
    if cands == [] then (t, Success([]))
    else
      var (t1, r1) := CrawlInserts(t, cands[..|cands| - 1], details, extract);
      if r1.Failure? then (t1, r1)
      else
        match details(cands[|cands| - 1].1)
        case None => (t1, Failure(Raised(RequestFailed)))
        case Some(page) =>
          match extract(page)
          case Failure(_) => (t1, r1)
          case Success(e) => (RustInsert(t1, e), Success(r1.value + [e.release.title]))
  }

  /** `sync_all_releases`: the crawl, the filter on stored titles, then the inserts. */
  function FullSync(t: Tables, pages: seq<Option<seq<Anchor>>>, details: string -> Option<DetailPage>,
                    extract: DetailPage -> Result<Extracted, ExtractError>): (Tables, Result<seq<string>, Stop>)
  {
    match Crawl(pages, ReleaseList, 0)
    case Failure(e) => (t, Failure(e))
    case Success(list) => CrawlInserts(t, Fresh(list, PairTitle, Titles(t.releases)), details, extract)
  }

  /** Once a run has failed, the candidates after the failing one change nothing. */
  lemma {:induction false} CrawlInsertsStop(t: Tables, cands: seq<(string, string)>, details: string -> Option<DetailPage>,
                                            extract: DetailPage -> Result<Extracted, ExtractError>, k: nat)
    requires k <= |cands| && CrawlInserts(t, cands[..k], details, extract).1.Failure?
    ensures CrawlInserts(t, cands, details, extract) == CrawlInserts(t, cands[..k], details, extract)
    decreases |cands| - k
  {
    if k < |cands| {
      var front := cands[..|cands| - 1];
      assert front[..k] == cands[..k];
      CrawlInsertsStop(t, front, details, extract, k);
      assert CrawlInserts(t, front, details, extract).1.Failure?;
    } else {
      assert cands[..k] == cands;
    }
  }

  method SyncCrawl(store: Store, pages: seq<Option<seq<Anchor>>>, details: string -> Option<DetailPage>,
                   extract: DetailPage -> Result<Extracted, ExtractError>) returns (r: Result<seq<string>, Stop>)
    requires store.Valid()
    modifies store
    ensures store.Valid()
    ensures (store.Contents(), r) == FullSync(old(store.Contents()), pages, details, extract)
  {
    var fullGameList := CrawlPages(pages, ReleaseList);
    if fullGameList.Failure? {
      return Failure(fullGameList.error);
    }
    var existingTitles := Titles(store.releases);
    var cands := Fresh(fullGameList.value, PairTitle, existingTitles);
    r := StoreCandidates(store, cands, details, extract);
  }

  /** The `for` loop of `sync_all_releases` over the candidates. */
  method StoreCandidates(store: Store, cands: seq<(string, string)>, details: string -> Option<DetailPage>,
                         extract: DetailPage -> Result<Extracted, ExtractError>) returns (r: Result<seq<string>, Stop>)
    requires store.Valid()
    modifies store
    ensures store.Valid()
    ensures (store.Contents(), r) == CrawlInserts(old(store.Contents()), cands, details, extract)
  {
    ghost var t0 := store.Contents();
    var insertList: seq<string> := [];
    for k := 0 to |cands|
      invariant store.Valid()
      invariant (store.Contents(), Success(insertList)) == CrawlInserts(t0, cands[..k], details, extract)
    {
      assert cands[..k + 1][..k] == cands[..k];
      var html := details(cands[k].1);
      if html.None? {
        CrawlInsertsStop(t0, cands, details, extract, k + 1);
        return Failure(Raised(RequestFailed));
      }
      var data := extract(html.value);
      if data.Success? {
        var id := store.InsertData(data.value.release, data.value.languages, data.value.companies, data.value.genres);
        insertList := insertList + [data.value.release.title];
      }
    }
    assert cands[..|cands|] == cands;
    r := Success(insertList);
  }

  /** `get_release_from_html` with the heading tests fixed. */
  function PageExtraction(page: DetailPage): Result<Extracted, ExtractError> {
    ReleaseFromPage(page, FreshIterator)
  }

  /** `get_release_from_html` as written. */
  function SharedPageExtraction(page: DetailPage): Result<Extracted, ExtractError> {
    ReleaseFromPage(page, SharedIterator)
  }

  /** `sync_all_releases`. */
  method SyncAllReleases(store: Store, pages: seq<Option<seq<Anchor>>>, details: string -> Option<DetailPage>)
      returns (r: Result<seq<string>, Stop>)
    requires store.Valid()
    modifies store
    ensures store.Valid()
    ensures (store.Contents(), r) == FullSync(old(store.Contents()), pages, details, PageExtraction)
  {
    r := SyncCrawl(store, pages, details, PageExtraction);
  }

  /**
   * A full crawl only appends rows: the rows stored before a failing
   * request remain, and a successful run appends one row per returned title.
   */
  lemma {:induction false} CrawlInsertsGrows(t: Tables, cands: seq<(string, string)>, details: string -> Option<DetailPage>,
                                             extract: DetailPage -> Result<Extracted, ExtractError>)
    ensures var (t1, r1) := CrawlInserts(t, cands, details, extract);
      && t.releases <= t1.releases
      && (r1.Success? ==> Titles(t1.releases) == Titles(t.releases) + r1.value)
    decreases |cands|
  {
    if cands != [] {
      var front := cands[..|cands| - 1];
      CrawlInsertsGrows(t, front, details, extract);
      var (t1, r1) := CrawlInserts(t, front, details, extract);
      if r1.Success? {
        match details(cands[|cands| - 1].1)
        case None =>
        case Some(page) =>
          match extract(page)
          case Failure(_) =>
          case Success(e) =>
            InsertedTitles(t1, RustRow(t1.nextId, e.release), e.languages, e.companies, e.genres);
            ConcatAssoc(Titles(t.releases), r1.value, [e.release.title]);
      }
    }
  }

  lemma FullSyncGrows(t: Tables, pages: seq<Option<seq<Anchor>>>, details: string -> Option<DetailPage>,
                      extract: DetailPage -> Result<Extracted, ExtractError>)
    ensures var (t1, r1) := FullSync(t, pages, details, extract);
      && t.releases <= t1.releases
      && (r1.Success? ==> Titles(t1.releases) == Titles(t.releases) + r1.value)
  {
    if Crawl(pages, ReleaseList, 0).Success? {
      var list := Crawl(pages, ReleaseList, 0).value;
      CrawlInsertsGrows(t, Fresh(list, PairTitle, Titles(t.releases)), details, extract);
    }
  }

  // ---------------------------------------------------------------------------
  // The extraction as written

  /** An extraction that never succeeds leaves nothing to insert. */
  lemma {:induction false} NoExtractions(items: seq<FeedItem>, extract: FeedItem -> Result<Extracted, ExtractError>)
    requires forall item :: extract(item).Failure?
    ensures Extractions(items, extract) == []
    decreases |items|
  {
    if items != [] {
      NoExtractions(items[..|items| - 1], extract);
    }
  }

  /**
   * With the heading tests sharing one iterator, `sync_fitgirl_rss` never
   * stores anything: every item fails to extract, so a run that succeeds
   * returns no titles and leaves the catalog as it was.
   */
  lemma SharedFeedStoresNothing(t: Tables, feed: FeedFetch)
    ensures var (t1, r) := RssSync(t, feed, SharedFeedExtraction);
      t1 == t && (r.Success? ==> r.value == [])
  {
    forall item: FeedItem ensures SharedFeedExtraction(item).Failure? {
      RssExtractFacts.SharedItemFails(item);
    }
    if !feed.Unreachable? && !feed.Unreadable? && LastReleaseOf(t.releases).Success? {
      NoExtractions(RssFrontier(feed.items, LastReleaseOf(t.releases).value.title), SharedFeedExtraction);
    }
  }

  lemma {:induction false} NoCrawlInserts(t: Tables, cands: seq<(string, string)>, details: string -> Option<DetailPage>,
                                          extract: DetailPage -> Result<Extracted, ExtractError>)
    requires forall page :: extract(page).Failure?
    ensures var (t1, r1) := CrawlInserts(t, cands, details, extract);
      t1 == t && (r1.Success? ==> r1.value == [])
    decreases |cands|
  {
    if cands != [] {
      var front := cands[..|cands| - 1];
      NoCrawlInserts(t, front, details, extract);
      if CrawlInserts(t, front, details, extract).1.Success? {
        match details(cands[|cands| - 1].1)
        case None =>
        case Some(page) => assert extract(page).Failure?;
      }
    }
  }

  /** The same holds of `sync_all_releases`: its successful runs store nothing and return no titles. */
  lemma SharedCrawlStoresNothing(t: Tables, pages: seq<Option<seq<Anchor>>>, details: string -> Option<DetailPage>)
    ensures var (t1, r) := FullSync(t, pages, details, SharedPageExtraction);
      t1 == t && (r.Success? ==> r.value == [])
  {
    forall page: DetailPage ensures SharedPageExtraction(page).Failure? {
      RssExtractFacts.SharedPageFails(page);
    }
    if Crawl(pages, ReleaseList, 0).Success? {
      var list := Crawl(pages, ReleaseList, 0).value;
      NoCrawlInserts(t, Fresh(list, PairTitle, Titles(t.releases)), details, SharedPageExtraction);
    }
  }

  /** A list page with an anchor that has no `href` makes the crawl panic once it is reached. */
  lemma MissingHrefPanics(anchors: seq<Anchor>, k: nat)
    requires k < |anchors| && anchors[k].href.None?
    ensures ReleaseList(Some(anchors)) == Failure(Panicked)
  {
  }
}
