/**
 * The catalog the three writers fill: a dimension table per kind of tag,
 * a join table per kind of tag holding (release id, tag) pairs, and the
 * release rows. `INSERT OR IGNORE` and `onConflictDoNothing` on a primary
 * key become set insertion; the UUID generators become a counter that
 * hands out an id no row has.
 */
module Catalog {
  import opened Wrappers
  import opened Timestamp
  import TimestampRoundTrip
  import opened Records
  import opened WebRecords
  import opened MirrorJson

  /** A row of `releases`; the columns a writer leaves NULL are `None`. */
  datatype Row = Row(
    id: nat,
    slug: Option<string>,
    title: string,
    link: string,
    published: string,
    coverSrc: string,
    originalSize: string,
    repackSize: string,
    mirrors: string,
    screenshots: Option<string>,
    repackDescription: Option<string>,
    gameDescription: Option<string>)

  datatype TagKind = LanguageTag | CompanyTag | GenreTag

  /** The distinct values of a list. */
  function Elements(xs: seq<string>): (r: set<string>)
    ensures forall x :: x in r <==> x in xs
  {
    set x | x in xs
  }

  /** The join rows linking release `id` to each value of a list. */
  function Pairs(id: nat, xs: seq<string>): (r: set<(nat, string)>)
    ensures forall p :: p in r <==> p.0 == id && p.1 in xs
  {
    set x | x in xs :: (id, x)
  }

  lemma ElementsSnoc(xs: seq<string>, i: nat)
    requires i < |xs|
    ensures Elements(xs[..i + 1]) == Elements(xs[..i]) + {xs[i]}
  {
    assert xs[..i + 1] == xs[..i] + [xs[i]];
  }

  lemma PairsSnoc(id: nat, xs: seq<string>, i: nat)
    requires i < |xs|
    ensures Pairs(id, xs[..i + 1]) == Pairs(id, xs[..i]) + {(id, xs[i])}
  {
    assert xs[..i + 1] == xs[..i] + [xs[i]];
  }

  /**
   * The same genre stored for two releases leaves one dimension row and
   * two join rows.
   */
  lemma SameTagTwice(tags: set<string>, joins: set<(nat, string)>, g: string, a: nat, b: nat)
    requires a != b && (a, g) !in joins && (b, g) !in joins
    ensures tags + Elements([g]) + Elements([g]) == tags + {g}
    ensures |tags + Elements([g]) + Elements([g])| == |tags + {g}|
    ensures joins + Pairs(a, [g]) + Pairs(b, [g]) == joins + {(a, g), (b, g)}
    ensures |joins + Pairs(a, [g]) + Pairs(b, [g])| == |joins| + 2
  {
    assert Elements([g]) == {g};
    assert Pairs(a, [g]) == {(a, g)};
    assert Pairs(b, [g]) == {(b, g)};
    assert (joins + {(a, g)}) + {(b, g)} == joins + {(a, g), (b, g)};
    assert |joins + {(a, g)}| == |joins| + 1;
  }

  // ---------------------------------------------------------------------------
  // The rows each writer inserts

  /** `insert_data`: `published` with whole seconds and `.000Z`, the JSON columns by serde. */
  function RustRow(id: nat, r: Release): Row {
    Row(id, None, r.title, r.link, Format(r.published), r.coverSrc, r.originalSize, r.repackSize,
        MirrorsJson(r.mirrors), Some(ScreenshotsJson(r.screenshots)),
        Some(r.repackDescription), Some(r.gameDescription))
  }

  /** `storeGame` of `src/index.ts`: `toISOString`, and the optional fields as they are. */
  function ScriptRow(id: nat, g: Game): Row {
    Row(id, None, g.title, g.link, IsoString(g.published), g.coverSrc, g.originalSize, g.repackSize,
        WebMirrorsJson(g.mirrors),
        if g.screenshots.Some? then Some(ScreenshotsJson(g.screenshots.value)) else None,
        g.repackDescription, g.gameDescription)
  }

  /** `storeGame` of `src/pages/db/_sync.ts`: a slug, and `[]` and `''` for the missing optional fields. */
  function SiteRow(id: nat, slug: string, g: Game): Row {
    Row(id, Some(slug), g.title, g.link, IsoString(g.published), g.coverSrc, g.originalSize, g.repackSize,
        WebMirrorsJson(g.mirrors), Some(ScreenshotsJson(g.screenshots.GetOr([]))),
        Some(g.repackDescription.GetOr("")), Some(g.gameDescription.GetOr("")))
  }

  /** A Rust row reads back: the date to the second, the mirrors and the screenshots unchanged. */
  lemma RustRowReadsBack(id: nat, r: Release)
    requires Valid(r.published)
    ensures Parse(RustRow(id, r).published) == Some(Truncate(r.published))
    ensures ReadList(RustRow(id, r).mirrors, ReadMirror) == Some((r.mirrors, ""))
    ensures RustRow(id, r).screenshots.Some?
    ensures ReadList(RustRow(id, r).screenshots.value, ReadString) == Some((r.screenshots, ""))
  {
    TimestampRoundTrip.FormatParseRoundTrip(r.published);
    MirrorsRoundTrip(r.mirrors);
    ScreenshotsRoundTrip(r.screenshots);
  }

  /** A row of the site's writer has every optional column filled and reads back. */
  lemma SiteRowReadsBack(id: nat, slug: string, g: Game)
    ensures var row := SiteRow(id, slug, g);
      && row.screenshots.Some? && row.repackDescription.Some? && row.gameDescription.Some?
      && ReadList(row.mirrors, ReadWebMirror) == Some((g.mirrors, ""))
      && ReadList(row.screenshots.value, ReadString) == Some((g.screenshots.GetOr([]), ""))
      && (g.screenshots.None? ==> row.screenshots == Some("[]"))
      && (g.repackDescription.None? ==> row.repackDescription == Some(""))
  {
    WebMirrorsRoundTrip(g.mirrors);
    ScreenshotsRoundTrip(g.screenshots.GetOr([]));
    EmptyList();
  }

  /** An empty list is written `[]`. */
  lemma EmptyList()
    ensures ScreenshotsJson([]) == "[]"
  {
    assert Items([], StringJson) == "";
    assert "[" + "" + "]" == "[]";
  }

  /** A row of the script's writer keeps the screenshots column NULL when the game has none. */
  lemma ScriptRowReadsBack(id: nat, g: Game)
    ensures var row := ScriptRow(id, g);
      && ReadList(row.mirrors, ReadWebMirror) == Some((g.mirrors, ""))
      && (row.screenshots.Some? <==> g.screenshots.Some?)
      && (g.screenshots.Some? ==> ReadList(row.screenshots.value, ReadString) == Some((g.screenshots.value, "")))
  {
    WebMirrorsRoundTrip(g.mirrors);
    if g.screenshots.Some? {
      ScreenshotsRoundTrip(g.screenshots.value);
    }
  }

  // ---------------------------------------------------------------------------
  // The store

  /** Some row has this id. */
  predicate HasId(rows: seq<Row>, id: nat) {
    exists i :: 0 <= i < |rows| && rows[i].id == id
  }

  /** Some row has this slug. */
  predicate SlugTaken(rows: seq<Row>, slug: string) {
    exists i :: 0 <= i < |rows| && rows[i].slug == Some(slug)
  }

  /** Every join row names a release that exists and a tag of its dimension table. */
  predicate Linked(joins: set<(nat, string)>, tags: set<string>, rows: seq<Row>) {
    forall p :: p in joins ==> p.1 in tags && HasId(rows, p.0)
  }

  /** The titles of some rows, in order. */
  function Titles(rows: seq<Row>): (r: seq<string>)
    ensures |r| == |rows| && forall k :: 0 <= k < |rows| ==> r[k] == rows[k].title
  {
    if rows == [] then [] else [rows[0].title] + Titles(rows[1..])
  }

  lemma TitlesAppend(rows: seq<Row>, more: seq<Row>)
    ensures Titles(rows + more) == Titles(rows) + Titles(more)
  {
  }

  /** The contents of the catalog at one moment. */
  datatype Tables = Tables(
    languages: set<string>,
    companies: set<string>,
    genres: set<string>,
    releaseLanguages: set<(nat, string)>,
    releaseCompanies: set<(nat, string)>,
    releaseGenres: set<(nat, string)>,
    releases: seq<Row>,
    nextId: nat)

  /** The tags a write adds, and the id it draws, when the release insert is rejected. */
  function Rejected(t: Tables, langs: seq<string>, comps: seq<string>, gens: seq<string>): Tables {
    t.(languages := t.languages + Elements(langs),
       companies := t.companies + Elements(comps),
       genres := t.genres + Elements(gens),
       nextId := t.nextId + 1)
  }

  /** A write that stores `row`: its tags, its id, the row after the others and its join rows. */
  function Inserted(t: Tables, row: Row, langs: seq<string>, comps: seq<string>, gens: seq<string>): Tables {
    Rejected(t, langs, comps, gens).(
      releases := t.releases + [row],
      releaseLanguages := t.releaseLanguages + Pairs(row.id, langs),
      releaseCompanies := t.releaseCompanies + Pairs(row.id, comps),
      releaseGenres := t.releaseGenres + Pairs(row.id, gens))
  }

  /** A write that stores a row appends its title to the titles of the catalog and draws one id. */
  lemma InsertedTitles(t: Tables, row: Row, langs: seq<string>, comps: seq<string>, gens: seq<string>)
    ensures Titles(Inserted(t, row, langs, comps, gens).releases) == Titles(t.releases) + [row.title]
    ensures Inserted(t, row, langs, comps, gens).nextId == t.nextId + 1
  {
    TitlesAppend(t.releases, [row]);
  }

  class Store {
    var languages: set<string>
    var companies: set<string>
    var genres: set<string>
    var releaseLanguages: set<(nat, string)>
    var releaseCompanies: set<(nat, string)>
    var releaseGenres: set<(nat, string)>
    var releases: seq<Row>
    /** The next id the generator hands out; no row has it or a larger one. */
    var nextId: nat

    /**
     * The constraints of the schema: ids increase along the rows and stay
     * below `nextId` (so they are distinct), slugs are unique, and the
     * join rows satisfy their foreign keys.
     */
    ghost predicate Valid()
      reads this
    {
      && (forall i :: 0 <= i < |releases| ==> releases[i].id < nextId)
      && (forall i, j :: 0 <= i < j < |releases| ==> releases[i].id < releases[j].id)
      && (forall i, j :: 0 <= i < j < |releases| && releases[i].slug.Some? ==> releases[i].slug != releases[j].slug)
      && Linked(releaseLanguages, languages, releases)
      && Linked(releaseCompanies, companies, releases)
      && Linked(releaseGenres, genres, releases)
    }

    /** The contents of the store. */
    function Contents(): Tables
      reads this
    {
      Tables.Tables(languages, companies, genres, releaseLanguages, releaseCompanies, releaseGenres, releases, nextId)
    }

    function TagSet(kind: TagKind): set<string>
      reads this
    {
      match kind
      case LanguageTag => languages
      case CompanyTag => companies
      case GenreTag => genres
    }

    function JoinSet(kind: TagKind): set<(nat, string)>
      reads this
    {
      match kind
      case LanguageTag => releaseLanguages
      case CompanyTag => releaseCompanies
      case GenreTag => releaseGenres
    }

    /** An empty catalog. */
    constructor()
      ensures Valid()
      ensures languages == {} && companies == {} && genres == {}
      ensures releaseLanguages == {} && releaseCompanies == {} && releaseGenres == {}
      ensures releases == [] && nextId == 0
    {
      languages, companies, genres := {}, {}, {};
      releaseLanguages, releaseCompanies, releaseGenres := {}, {}, {};
      releases, nextId := [], 0;
    }

    /** One `INSERT OR IGNORE INTO <dimension>` per value, in order. */
    method InsertTags(kind: TagKind, xs: seq<string>)
      modifies this
      ensures TagSet(kind) == old(TagSet(kind)) + Elements(xs)
      ensures forall k :: k != kind ==> TagSet(k) == old(TagSet(k))
      ensures releaseLanguages == old(releaseLanguages) && releaseCompanies == old(releaseCompanies)
      ensures releaseGenres == old(releaseGenres)
      ensures releases == old(releases) && nextId == old(nextId)
    {
      for i := 0 to |xs|
        invariant TagSet(kind) == old(TagSet(kind)) + Elements(xs[..i])
        invariant forall k :: k != kind ==> TagSet(k) == old(TagSet(k))
        invariant releaseLanguages == old(releaseLanguages) && releaseCompanies == old(releaseCompanies)
        invariant releaseGenres == old(releaseGenres)
        invariant releases == old(releases) && nextId == old(nextId)
      {
        ElementsSnoc(xs, i);
        match kind
        case LanguageTag => languages := languages + {xs[i]};
        case CompanyTag => companies := companies + {xs[i]};
        case GenreTag => genres := genres + {xs[i]};
      }
      assert xs[..|xs|] == xs;
    }

    /** One ignore-on-conflict insert into the join table per value, in order. */
    method InsertJoins(kind: TagKind, id: nat, xs: seq<string>)
      modifies this
      ensures JoinSet(kind) == old(JoinSet(kind)) + Pairs(id, xs)
      ensures forall k :: k != kind ==> JoinSet(k) == old(JoinSet(k))
      ensures languages == old(languages) && companies == old(companies) && genres == old(genres)
      ensures releases == old(releases) && nextId == old(nextId)
    {
      for i := 0 to |xs|
        invariant JoinSet(kind) == old(JoinSet(kind)) + Pairs(id, xs[..i])
        invariant forall k :: k != kind ==> JoinSet(k) == old(JoinSet(k))
        invariant languages == old(languages) && companies == old(companies) && genres == old(genres)
        invariant releases == old(releases) && nextId == old(nextId)
      {
        PairsSnoc(id, xs, i);
        match kind
        case LanguageTag => releaseLanguages := releaseLanguages + {(id, xs[i])};
        case CompanyTag => releaseCompanies := releaseCompanies + {(id, xs[i])};
        case GenreTag => releaseGenres := releaseGenres + {(id, xs[i])};
      }
      assert xs[..|xs|] == xs;
    }

    /** The three tag loops, languages first, then companies, then genres. */
    method InsertAllTags(langs: seq<string>, comps: seq<string>, gens: seq<string>)
      requires Valid()
      modifies this
      ensures Valid()
      ensures languages == old(languages) + Elements(langs)
      ensures companies == old(companies) + Elements(comps)
      ensures genres == old(genres) + Elements(gens)
      ensures releaseLanguages == old(releaseLanguages) && releaseCompanies == old(releaseCompanies)
      ensures releaseGenres == old(releaseGenres)
      ensures releases == old(releases) && nextId == old(nextId)
    {
      InsertTags(LanguageTag, langs);
      InsertTags(CompanyTag, comps);
      InsertTags(GenreTag, gens);
    }

    /** The UUID generator: an id no row has. */
    method FreshId() returns (id: nat)
      requires Valid()
      modifies this
      ensures id == old(nextId) && nextId == id + 1
      ensures !HasId(releases, id)
      ensures languages == old(languages) && companies == old(companies) && genres == old(genres)
      ensures releaseLanguages == old(releaseLanguages) && releaseCompanies == old(releaseCompanies)
      ensures releaseGenres == old(releaseGenres) && releases == old(releases)
      ensures Valid()
    {
      id := nextId;
      nextId := nextId + 1;
    }

    /** The new row goes after the others; the tags it names are in their tables. */
    method AppendRow(row: Row, langs: seq<string>, comps: seq<string>, gens: seq<string>)
      requires Valid() && row.id == nextId - 1 && !HasId(releases, row.id)
      requires forall i :: 0 <= i < |releases| ==> releases[i].id < row.id
      requires row.slug.Some? ==> !SlugTaken(releases, row.slug.value)
      requires Elements(langs) <= languages && Elements(comps) <= companies && Elements(gens) <= genres
      modifies this
      ensures releases == old(releases) + [row]
      ensures releaseLanguages == old(releaseLanguages) + Pairs(row.id, langs)
      ensures releaseCompanies == old(releaseCompanies) + Pairs(row.id, comps)
      ensures releaseGenres == old(releaseGenres) + Pairs(row.id, gens)
      ensures languages == old(languages) && companies == old(companies) && genres == old(genres)
      ensures nextId == old(nextId)
      ensures Valid()
    {
      releases := releases + [row];
      assert HasId(releases, row.id) by { assert releases[|releases| - 1].id == row.id; }
      forall i | 0 <= i < |old(releases)| ensures HasId(releases, old(releases)[i].id) {
        assert releases[i] == old(releases)[i];
      }
      InsertJoins(LanguageTag, row.id, langs);
      InsertJoins(GenreTag, row.id, gens);
      InsertJoins(CompanyTag, row.id, comps);
    }

    /**
     * `insert_data`: the tags of each kind, a fresh id, the row, then the
     * join rows for languages, genres and companies.
     */
    method InsertData(release: Release, langs: seq<string>, comps: seq<string>, gens: seq<string>)
        returns (id: nat)
      requires Valid()
      modifies this
      ensures Valid()
      ensures id == old(nextId) && nextId == old(nextId) + 1
      ensures releases == old(releases) + [RustRow(id, release)]
      ensures languages == old(languages) + Elements(langs)
      ensures companies == old(companies) + Elements(comps)
      ensures genres == old(genres) + Elements(gens)
      ensures releaseLanguages == old(releaseLanguages) + Pairs(id, langs)
      ensures releaseCompanies == old(releaseCompanies) + Pairs(id, comps)
      ensures releaseGenres == old(releaseGenres) + Pairs(id, gens)
      ensures Contents() == Inserted(old(Contents()), RustRow(id, release), langs, comps, gens)
    {
      InsertAllTags(langs, comps, gens);
      id := FreshId();
      AppendRow(RustRow(id, release), langs, comps, gens);
    }

    /** `storeGame` of `src/index.ts`. */
    method StoreScript(game: Game) returns (id: nat)
      requires Valid()
      modifies this
      ensures Valid()
      ensures id == old(nextId) && nextId == old(nextId) + 1
      ensures releases == old(releases) + [ScriptRow(id, game)]
      ensures languages == old(languages) + Elements(game.languages)
      ensures companies == old(companies) + Elements(game.companies)
      ensures genres == old(genres) + Elements(game.genres)
      ensures releaseLanguages == old(releaseLanguages) + Pairs(id, game.languages)
      ensures releaseCompanies == old(releaseCompanies) + Pairs(id, game.companies)
      ensures releaseGenres == old(releaseGenres) + Pairs(id, game.genres)
      ensures Contents() == Inserted(old(Contents()), ScriptRow(id, game), game.languages, game.companies, game.genres)
    {
      InsertAllTags(game.languages, game.companies, game.genres);
      id := FreshId();
      AppendRow(ScriptRow(id, game), game.languages, game.companies, game.genres);
    }

    /**
     * `storeGame` of `src/pages/db/_sync.ts`, with `slugOf` for the slug
     * package: the tags go in first, so a slug that is already taken makes
     * the release insert throw after them and no join row is written.
     */
    method StoreSite(game: Game, slugOf: string -> string) returns (r: Result<nat, JsError>)
      requires Valid()
      modifies this
      ensures Valid()
      ensures nextId == old(nextId) + 1
      ensures languages == old(languages) + Elements(game.languages)
      ensures companies == old(companies) + Elements(game.companies)
      ensures genres == old(genres) + Elements(game.genres)
      ensures SlugTaken(old(releases), slugOf(game.title)) ==>
        && r == Failure(ConstraintError)
        && releases == old(releases)
        && releaseLanguages == old(releaseLanguages) && releaseCompanies == old(releaseCompanies)
        && releaseGenres == old(releaseGenres)
      ensures !SlugTaken(old(releases), slugOf(game.title)) ==>
        && r == Success(old(nextId))
        && releases == old(releases) + [SiteRow(old(nextId), slugOf(game.title), game)]
        && releaseLanguages == old(releaseLanguages) + Pairs(old(nextId), game.languages)
        && releaseCompanies == old(releaseCompanies) + Pairs(old(nextId), game.companies)
        && releaseGenres == old(releaseGenres) + Pairs(old(nextId), game.genres)
      ensures Contents() == if SlugTaken(old(releases), slugOf(game.title))
        then Rejected(old(Contents()), game.languages, game.companies, game.genres)
        else Inserted(old(Contents()), SiteRow(old(nextId), slugOf(game.title), game), game.languages, game.companies, game.genres)
    {
      InsertAllTags(game.languages, game.companies, game.genres);
      var id := FreshId();
      var slug := slugOf(game.title);
      if exists i :: 0 <= i < |releases| && releases[i].slug == Some(slug) {
        return Failure(ConstraintError);
      }
      AppendRow(SiteRow(id, slug, game), game.languages, game.companies, game.genres);
      r := Success(id);
    }
  }
}
