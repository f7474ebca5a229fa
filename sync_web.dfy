/**
 * The TypeScript writers: `main` of the one-shot script (`Script`, a full
 * crawl into SQLite) and `syncAll` / `syncRss` of the site (`Site`). Each
 * is a method on the catalog `Store`, proved against a function on
 * `Tables` that says what the run stores and what it returns.
 *
 * The network is an input: the list pages of the crawl, the parsed feed,
 * and `getGame`, the fetch and parse of one post page by its link.
 * `FetchGame` says what `getGame` is in terms of `PageExtract.GameOf`; the
 * writers take it as a parameter so that each can be stated for any page
 * parser.
 */
module SyncWeb {
  import opened Wrappers
  import opened Text
  import opened Markup
  import opened WebRecords
  import opened PageExtract
  import opened Catalog
  import opened LastReleases
  import opened Frontier

  // ---------------------------------------------------------------------------
  // Fetching

  /** A fetched list page: the request fails, or the items of its `.lcp_catlist` (`None` when it has none). */
  type ListFetch = Result<Option<seq<ListItem>>, JsError>

  /** `getGameList(p)` of the script. */
  function ScriptList(page: ListFetch): Result<seq<Entry>, JsError> {
    var list :- page;
    GameList(Script, list)
  }

  /** `getGameList(p)` of the site. */
  function SiteList(page: ListFetch): Result<seq<Entry>, JsError> {
    var list :- page;
    GameList(Site, list)
  }

  function EntryTitle(e: Entry): string {
    e.title
  }

  /**
   * `getGame(link)`: `fetch` of an undefined URL throws a `TypeError`;
   * otherwise the fetched page is parsed, with the URL as the game's link.
   */
  function FetchGame(v: Variant, fetch: string -> Result<DetailPage, JsError>, reparse: string -> Content,
                     link: Option<string>): (r: Result<Game, JsError>)
    ensures link.None? ==> r == Failure(TypeError)
    ensures r.Success? ==> link.Some? && r.value.link == link.value
  {
    match link
    case None => Failure(TypeError)
    case Some(url) =>
      var page :- fetch(url);
      var g := GameOf(v, page, url, reparse);
      if g.Success? then
        GameOfFields(v, page, url, reparse);
        g
      else g
  }

  /** `getGame` as the value the writers are given. */
  function Getter(v: Variant, fetch: string -> Result<DetailPage, JsError>, reparse: string -> Content)
    : Option<string> -> Result<Game, JsError>
  {
    link => FetchGame(v, fetch, reparse, link)
  }

  /** The games of `getGame` that succeed, in order: the `try`/`catch` around each call drops the others. */
  function Parsed(entries: seq<Entry>, getGame: Option<string> -> Result<Game, JsError>): (r: seq<Game>)
    ensures |r| <= |entries|
  {
    if entries == [] then []
    else
      var g := getGame(entries[|entries| - 1].link);
      Parsed(entries[..|entries| - 1], getGame) + (if g.Success? then [g.value] else [])
  }

  /** A game is parsed exactly when `getGame` returns it for one of the entries. */
  lemma {:induction false} ParsedFrom(entries: seq<Entry>, getGame: Option<string> -> Result<Game, JsError>, g: Game)
    ensures g in Parsed(entries, getGame) <==> exists k :: 0 <= k < |entries| && getGame(entries[k].link) == Success(g)
    decreases |entries|
  {
    if entries != [] {
      var front := entries[..|entries| - 1];
      ParsedFrom(front, getGame, g);
      if exists k :: 0 <= k < |entries| && getGame(entries[k].link) == Success(g) {
        var k :| 0 <= k < |entries| && getGame(entries[k].link) == Success(g);
        if k < |front| {
          assert front[k] == entries[k];
        }
      }
      if exists k :: 0 <= k < |front| && getGame(front[k].link) == Success(g) {
        var k :| 0 <= k < |front| && getGame(front[k].link) == Success(g);
        assert entries[k] == front[k];
      }
    }
  }

  /** With the real `getGame`, every parsed game links to the post of the entry it was fetched for. */
  lemma ParsedLinks(v: Variant, fetch: string -> Result<DetailPage, JsError>, reparse: string -> Content,
                    entries: seq<Entry>, g: Game)
    requires g in Parsed(entries, Getter(v, fetch, reparse))
    ensures exists k :: 0 <= k < |entries| && entries[k].link == Some(g.link)
  {
    ParsedFrom(entries, Getter(v, fetch, reparse), g);
    var k :| 0 <= k < |entries| && Getter(v, fetch, reparse)(entries[k].link) == Success(g);
    assert FetchGame(v, fetch, reparse, entries[k].link) == Success(g);
  }

  function GameTitles(games: seq<Game>): (r: seq<string>)
    ensures |r| == |games|
  {
    if games == [] then [] else GameTitles(games[..|games| - 1]) + [games[|games| - 1].title]
  }

  // ---------------------------------------------------------------------------
  // main of the script

  /** `storeGame(db, game)` of the script. */
  function ScriptInsert(t: Tables, g: Game): Tables {
    Inserted(t, ScriptRow(t.nextId, g), g.languages, g.companies, g.genres)
  }

  /** The storing loop: `storeGame` for each parsed game in turn. */
  function ScriptStored(t: Tables, games: seq<Game>): (r: Tables)
    ensures r.nextId == t.nextId + |games|
  {
    if games == [] then t else ScriptInsert(ScriptStored(t, games[..|games| - 1]), games[|games| - 1])
  }

  /**
   * `main`: the crawl (a failure rejects the whole run before anything is
   * stored), the filter on stored titles, the parse of every candidate with
   * the failures dropped, then one `storeGame` per parsed game.
   */
  function ScriptSync(t: Tables, pages: seq<ListFetch>, getGame: Option<string> -> Result<Game, JsError>)
    : (Tables, Result<(), JsError>)
  {
    match Crawl(pages, ScriptList, 0)
    case Failure(e) => (t, Failure(e))
    case Success(list) => (ScriptStored(t, Parsed(Fresh(list, EntryTitle, Titles(t.releases)), getGame)), Success(()))
  }

  method ScriptMain(store: Store, pages: seq<ListFetch>, getGame: Option<string> -> Result<Game, JsError>)
      returns (r: Result<(), JsError>)
    requires store.Valid()
    modifies store
    ensures store.Valid()
    ensures (store.Contents(), r) == ScriptSync(old(store.Contents()), pages, getGame)
  {
    var existingTitles := Titles(store.releases);
    var fullGameList := CrawlPages(pages, ScriptList);
    if fullGameList.Failure? {
      return Failure(fullGameList.error);
    }
    var filteredGameList := Fresh(fullGameList.value, EntryTitle, existingTitles);
    var parsedGameList: seq<Game> := [];
    for k := 0 to |filteredGameList|
      invariant parsedGameList == Parsed(filteredGameList[..k], getGame)
    {
      assert filteredGameList[..k + 1][..k] == filteredGameList[..k];
      var game := getGame(filteredGameList[k].link);
      if game.Success? {
        parsedGameList := parsedGameList + [game.value];
      }
    }
    assert filteredGameList[..|filteredGameList|] == filteredGameList;
    StoreGames(store, parsedGameList);
    r := Success(());
  }

  /** The last loop of `main`: `storeGame` for each parsed game. */
  method StoreGames(store: Store, games: seq<Game>)
    requires store.Valid()
    modifies store
    ensures store.Valid()
    ensures store.Contents() == ScriptStored(old(store.Contents()), games)
  {
    ghost var t0 := store.Contents();
    for k := 0 to |games|
      invariant store.Valid()
      invariant store.Contents() == ScriptStored(t0, games[..k])
    {
      assert games[..k + 1][..k] == games[..k];
      var id := store.StoreScript(games[k]);
    }
    assert games[..|games|] == games;
  }

  /** The rows `main` appends carry the parsed games' titles, in order. */
  lemma {:induction false} ScriptStoredTitles(t: Tables, games: seq<Game>)
    ensures t.releases <= ScriptStored(t, games).releases
    ensures Titles(ScriptStored(t, games).releases) == Titles(t.releases) + GameTitles(games)
    decreases |games|
  {
    if games != [] {
      var front := games[..|games| - 1];
      var g := games[|games| - 1];
      ScriptStoredTitles(t, front);
      var t1 := ScriptStored(t, front);
      InsertedTitles(t1, ScriptRow(t1.nextId, g), g.languages, g.companies, g.genres);
      ConcatAssoc(Titles(t.releases), GameTitles(front), [g.title]);
    }
  }

  /**
   * A run of `main` that crawls successfully appends one row for each
   * candidate whose page parses, and nothing otherwise; a failed crawl
   * stores nothing.
   */
  lemma ScriptSyncStores(t: Tables, pages: seq<ListFetch>, getGame: Option<string> -> Result<Game, JsError>)
    ensures var (t1, r) := ScriptSync(t, pages, getGame);
      && (r.Failure? <==> Crawl(pages, ScriptList, 0).Failure?)
      && (r.Failure? ==> t1 == t)
      && t.releases <= t1.releases
      && (r.Success? ==>
            var cands := Fresh(Crawl(pages, ScriptList, 0).value, EntryTitle, Titles(t.releases));
            Titles(t1.releases) == Titles(t.releases) + GameTitles(Parsed(cands, getGame)))
  {
    if Crawl(pages, ScriptList, 0).Success? {
      var cands := Fresh(Crawl(pages, ScriptList, 0).value, EntryTitle, Titles(t.releases));
      ScriptStoredTitles(t, Parsed(cands, getGame));
    }
  }

  // ---------------------------------------------------------------------------
  // Shared by syncAll and syncRss

  /**
   * `storeGame(game)` of the site: the tags and an id always, and the row
   * with its joins unless its slug is taken, when the release insert throws.
   */
  function SiteInsert(t: Tables, g: Game, slugOf: string -> string): Tables {
    if SlugTaken(t.releases, slugOf(g.title)) then Rejected(t, g.languages, g.companies, g.genres)
    else Inserted(t, SiteRow(t.nextId, slugOf(g.title), g), g.languages, g.companies, g.genres)
  }

  /** Whether `storeGame` of the site returns rather than throws. */
  predicate SiteStores(t: Tables, g: Game, slugOf: string -> string) {
    !SlugTaken(t.releases, slugOf(g.title))
  }

  lemma SiteInsertTitles(t: Tables, g: Game, slugOf: string -> string)
    ensures t.releases <= SiteInsert(t, g, slugOf).releases
    ensures SiteInsert(t, g, slugOf).nextId == t.nextId + 1
    ensures Titles(SiteInsert(t, g, slugOf).releases) ==
      Titles(t.releases) + (if SiteStores(t, g, slugOf) then [g.title] else [])
  {
    if SiteStores(t, g, slugOf) {
      InsertedTitles(t, SiteRow(t.nextId, slugOf(g.title), g), g.languages, g.companies, g.genres);
    } else {
      assert Titles(t.releases) + [] == Titles(t.releases);
    }
  }

  // ---------------------------------------------------------------------------
  // syncAll

  /**
   * The `for` loop of `syncAll`: every candidate is fetched and stored, a
   * throw from either is caught and skips the candidate, and the titles of
   * the stored games are collected.
   */
  function SiteInserts(t: Tables, cands: seq<Entry>, getGame: Option<string> -> Result<Game, JsError>,
                       slugOf: string -> string): (Tables, seq<string>)
  {
    if cands == [] then (t, [])
    else
      var (t1, added) := SiteInserts(t, cands[..|cands| - 1], getGame, slugOf);
      match getGame(cands[|cands| - 1].link)
      case Failure(_) => (t1, added)
      case Success(g) =>
        (SiteInsert(t1, g, slugOf), if SiteStores(t1, g, slugOf) then added + [g.title] else added)
  }

  /** `syncAll`: a failed crawl throws; otherwise the filter on stored titles and the inserts. */
  function SiteSyncAll(t: Tables, pages: seq<ListFetch>, getGame: Option<string> -> Result<Game, JsError>,
                       slugOf: string -> string): (Tables, Result<seq<string>, JsError>)
  {
    match Crawl(pages, SiteList, 0)
    case Failure(e) => (t, Failure(e))
    case Success(list) =>
      var (t1, added) := SiteInserts(t, Fresh(list, EntryTitle, Titles(t.releases)), getGame, slugOf);
      (t1, Success(added))
  }

  method SyncAll(store: Store, pages: seq<ListFetch>, getGame: Option<string> -> Result<Game, JsError>,
                 slugOf: string -> string) returns (r: Result<seq<string>, JsError>)
    requires store.Valid()
    modifies store
    ensures store.Valid()
    ensures (store.Contents(), r) == SiteSyncAll(old(store.Contents()), pages, getGame, slugOf)
  {
    var existingTitles := Titles(store.releases);
    var fullGameList := CrawlPages(pages, SiteList);
    if fullGameList.Failure? {
      return Failure(fullGameList.error);
    }
    var filteredGameList := Fresh(fullGameList.value, EntryTitle, existingTitles);
    var addedGames := StoreEntries(store, filteredGameList, getGame, slugOf);
    r := Success(addedGames);
  }

  /** The `for` loop of `syncAll` with its `try`/`catch`. */
  method StoreEntries(store: Store, cands: seq<Entry>, getGame: Option<string> -> Result<Game, JsError>,
                      slugOf: string -> string) returns (addedGames: seq<string>)
    requires store.Valid()
    modifies store
    ensures store.Valid()
    ensures (store.Contents(), addedGames) == SiteInserts(old(store.Contents()), cands, getGame, slugOf)
  {
    ghost var t0 := store.Contents();
    addedGames := [];
    for k := 0 to |cands|
      invariant store.Valid()
      invariant (store.Contents(), addedGames) == SiteInserts(t0, cands[..k], getGame, slugOf)
    {
      assert cands[..k + 1][..k] == cands[..k];
      var release := getGame(cands[k].link);
      if release.Success? {
        var stored := store.StoreSite(release.value, slugOf);
        if stored.Success? {
          addedGames := addedGames + [release.value.title];
        }
      }
    }
    assert cands[..|cands|] == cands;
  }

  /** `syncAll` only appends rows, and the titles it returns are those of the rows it appended, in order. */
  lemma {:induction false} SiteInsertsTitles(t: Tables, cands: seq<Entry>, getGame: Option<string> -> Result<Game, JsError>,
                                             slugOf: string -> string)
    ensures var (t1, added) := SiteInserts(t, cands, getGame, slugOf);
      && t.releases <= t1.releases
      && Titles(t1.releases) == Titles(t.releases) + added
      && |added| <= |cands|
    decreases |cands|
  {
    if cands != [] {
      var front := cands[..|cands| - 1];
      SiteInsertsTitles(t, front, getGame, slugOf);
      var (t1, added) := SiteInserts(t, front, getGame, slugOf);
      match getGame(cands[|cands| - 1].link)
      case Failure(_) =>
      case Success(g) =>
        SiteInsertTitles(t1, g, slugOf);
        if SiteStores(t1, g, slugOf) {
          ConcatAssoc(Titles(t.releases), added, [g.title]);
        } else {
          assert Titles(t1.releases) + [] == Titles(t1.releases);
        }
    }
  }

  /** Once the crawl succeeds `syncAll` cannot fail: every later error is caught. */
  lemma SiteSyncAllFails(t: Tables, pages: seq<ListFetch>, getGame: Option<string> -> Result<Game, JsError>,
                         slugOf: string -> string)
    ensures var (t1, r) := SiteSyncAll(t, pages, getGame, slugOf);
      && (r.Failure? <==> Crawl(pages, SiteList, 0).Failure?)
      && (r.Failure? ==> t1 == t)
      && t.releases <= t1.releases
      && (r.Success? ==> Titles(t1.releases) == Titles(t.releases) + r.value)
  {
    if Crawl(pages, SiteList, 0).Success? {
      SiteInsertsTitles(t, Fresh(Crawl(pages, SiteList, 0).value, EntryTitle, Titles(t.releases)), getGame, slugOf);
    }
  }

  // ---------------------------------------------------------------------------
  // syncRss

  /** The gathered titles in front of what the rest of the walk returns; the catalog is the rest's. */
  function Joined(added: seq<string>, rest: (Tables, Result<seq<string>, JsError>)): (Tables, Result<seq<string>, JsError>) {
    (rest.0, Prepend(added, rest.1))
  }

  /**
   * The `for` loop of `syncRss` from the catalog `t` on: it stops at the
   * first item with the latest title; `getGame` and `storeGame` are not
   * caught, so their first error ends the walk with the rows stored so far.
   */
  function RssWalk(t: Tables, items: seq<FeedItem>, latest: string, getGame: Option<string> -> Result<Game, JsError>,
                   slugOf: string -> string): (Tables, Result<seq<string>, JsError>)
    decreases |items|
  {
    if items == [] || items[0].title == Some(latest) then (t, Success([]))
    else
      match getGame(items[0].link)
      case Failure(e) => (t, Failure(e))
      case Success(g) =>
        if !SiteStores(t, g, slugOf) then (SiteInsert(t, g, slugOf), Failure(ConstraintError))
        else Joined([g.title], RssWalk(SiteInsert(t, g, slugOf), items[1..], latest, getGame, slugOf))
  }

  /**
   * `syncRss`: the feed, its Lossless Repack items, then the title of the
   * newest stored release (destructuring the empty result of the query on
   * an empty table throws a `TypeError`), then the walk.
   */
  function SiteSyncRss(t: Tables, feed: Result<seq<FeedItem>, JsError>, getGame: Option<string> -> Result<Game, JsError>,
                       slugOf: string -> string): (Tables, Result<seq<string>, JsError>)
  {
    match feed
    case Failure(e) => (t, Failure(e))
    case Success(items) =>
      if t.releases == [] then (t, Failure(TypeError))
      else RssWalk(t, LosslessRepacks(items), NewestFirst(t.releases)[0].title, getGame, slugOf)
  }

  method SyncRss(store: Store, feed: Result<seq<FeedItem>, JsError>, getGame: Option<string> -> Result<Game, JsError>,
                 slugOf: string -> string) returns (r: Result<seq<string>, JsError>)
    requires store.Valid()
    modifies store
    ensures store.Valid()
    ensures (store.Contents(), r) == SiteSyncRss(old(store.Contents()), feed, getGame, slugOf)
  {
    if feed.Failure? {
      return Failure(feed.error);
    }
    var releases := LosslessRepacks(feed.value);
    if store.releases == [] {
      return Failure(TypeError);
    }
    var lastReleaseTitle := NewestFirst(store.releases)[0].title;
    r := WalkFeed(store, releases, lastReleaseTitle, getGame, slugOf);
  }

  /** The `for` loop of `syncRss`, with its `break`. */
  method WalkFeed(store: Store, releases: seq<FeedItem>, lastReleaseTitle: string,
                  getGame: Option<string> -> Result<Game, JsError>, slugOf: string -> string)
      returns (r: Result<seq<string>, JsError>)
    requires store.Valid()
    modifies store
    ensures store.Valid()
    ensures (store.Contents(), r) == RssWalk(old(store.Contents()), releases, lastReleaseTitle, getGame, slugOf)
  {
    ghost var whole := RssWalk(store.Contents(), releases, lastReleaseTitle, getGame, slugOf);
    var addedGames: seq<string> := [];
    assert whole == Joined(addedGames, whole) by {
      if whole.1.Success? { assert [] + whole.1.value == whole.1.value; }
    }
    for k := 0 to |releases|
      invariant store.Valid()
      invariant whole == Joined(addedGames, RssWalk(store.Contents(), releases[k..], lastReleaseTitle, getGame, slugOf))
    {
      if releases[k].title == Some(lastReleaseTitle) {
        assert addedGames + [] == addedGames;
        return Success(addedGames);
      }
      var release := getGame(releases[k].link);
      if release.Failure? {
        return Failure(release.error);
      }
      assert releases[k..][1..] == releases[k + 1..];
      var stored := store.StoreSite(release.value, slugOf);
      if stored.Failure? {
        return Failure(stored.error);
      }
      ghost var rest := RssWalk(store.Contents(), releases[k + 1..], lastReleaseTitle, getGame, slugOf);
      if rest.1.Success? {
        ConcatAssoc(addedGames, [release.value.title], rest.1.value);
      }
      addedGames := addedGames + [release.value.title];
    }
    assert releases[|releases|..] == [];
    assert addedGames + [] == addedGames;
    r := Success(addedGames);
  }

  /** Only the items before the first one with the latest title matter: the walk never looks further. */
  lemma {:induction false} RssWalkFrontier(t: Tables, items: seq<FeedItem>, latest: string,
                                           getGame: Option<string> -> Result<Game, JsError>, slugOf: string -> string)
    ensures RssWalk(t, items, latest, getGame, slugOf) == RssWalk(t, UntilTitle(items, latest), latest, getGame, slugOf)
    decreases |items|
  {
    if items != [] && items[0].title != Some(latest) {
      var u := UntilTitle(items, latest);
      assert u == [items[0]] + UntilTitle(items[1..], latest);
      assert u[0] == items[0] && u[1..] == UntilTitle(items[1..], latest);
      match getGame(items[0].link)
      case Failure(_) =>
      case Success(g) =>
        RssWalkFrontier(SiteInsert(t, g, slugOf), items[1..], latest, getGame, slugOf);
    }
  }

  /**
   * `syncRss` only appends rows, whether it returns or throws: a failing
   * item keeps the rows stored before it. A run that returns appended one
   * row per returned title, with that title, in order.
   */
  lemma {:induction false} RssWalkTitles(t: Tables, items: seq<FeedItem>, latest: string,
                                         getGame: Option<string> -> Result<Game, JsError>, slugOf: string -> string)
    ensures var (t1, r) := RssWalk(t, items, latest, getGame, slugOf);
      && t.releases <= t1.releases
      && (r.Success? ==> Titles(t1.releases) == Titles(t.releases) + r.value)
    decreases |items|
  {
    if items != [] && items[0].title != Some(latest) {
      match getGame(items[0].link)
      case Failure(_) =>
      case Success(g) =>
        var t1 := SiteInsert(t, g, slugOf);
        SiteInsertTitles(t, g, slugOf);
        if SiteStores(t, g, slugOf) {
          RssWalkTitles(t1, items[1..], latest, getGame, slugOf);
          var (t2, r2) := RssWalk(t1, items[1..], latest, getGame, slugOf);
          if r2.Success? {
            ConcatAssoc(Titles(t.releases), [g.title], r2.value);
          }
        }
    }
  }

  /**
   * `syncRss` walks the Lossless Repack items of the feed, head included,
   * up to the newest stored title; on an empty catalog it throws before
   * fetching any post.
   */
  lemma SiteSyncRssWalks(t: Tables, items: seq<FeedItem>, getGame: Option<string> -> Result<Game, JsError>,
                         slugOf: string -> string)
    ensures t.releases == [] ==> SiteSyncRss(t, Success(items), getGame, slugOf) == (t, Failure(TypeError))
    ensures t.releases != [] ==>
      var latest := NewestFirst(t.releases)[0];
      && latest in t.releases
      && (forall k :: 0 <= k < |t.releases| ==> TextLe(t.releases[k].published, latest.published))
      && SiteSyncRss(t, Success(items), getGame, slugOf) ==
           RssWalk(t, SiteFrontier(items, latest.title), latest.title, getGame, slugOf)
  {
    if t.releases != [] {
      NewestFirstHead(t.releases);
      RssWalkFrontier(t, LosslessRepacks(items), NewestFirst(t.releases)[0].title, getGame, slugOf);
    }
  }
}
