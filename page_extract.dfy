/**
 * `getGame` and `getGameList` of the TypeScript scrapers, on the selector
 * results of `Markup`, for both copies of the scraper (`Variant`).
 */
module PageExtract {
  import opened Wrappers
  import opened Text
  import opened Timestamp
  import opened Markup
  import opened WebRecords
  import opened PageDecode
  import opened PageTags
  import opened PageSections

  // ---------------------------------------------------------------------------
  // getGame

  /** The content block: `.entry-content`, or the fallback markup as `reparse` parses it. */
  function ContentOf(v: Variant, page: DetailPage, reparse: string -> Content): Result<Content, JsError> {
    if page.entryContent.Some? then Success(page.entryContent.value)
    else match Fallback(v, page.header)
      case Failure(e) => Failure(e)
      case Success(elements) => Success(reparse("<div>" + FallbackHtml(elements) + "</div>"))
  }

  /** `parsedContent.published`; `None` is an Invalid Date. */
  function PublishedOf(v: Variant, page: DetailPage): Result<Option<DateTime>, JsError> {
    match page.publishedMeta
    case None => if v == Script then Failure(TypeError) else Failure(Thrown("Published time is missing"))
    case Some(None) => if v == Script then Success(None) else Failure(Thrown("Published time is missing"))
    case Some(Some(date)) =>
      if v == Site && date.text == "" then Failure(Thrown("Published time is missing")) else Success(date.js)
  }

  /** `parsedContent.title`. */
  function TitleOf(v: Variant, page: DetailPage): Result<string, JsError> {
    match page.title
    case None => if v == Script then Failure(TypeError) else Failure(Thrown("Title is missing"))
    case Some(t) => if v == Site && t == "" then Failure(Thrown("Title is missing")) else Success(Decode(t))
  }

  /** The game description: `.su-spoiler-content` anywhere (`Script`) or after `h3+ul+.su-spoiler` (`Site`), trimmed. */
  function DescriptionOf(v: Variant, c: Content): Option<string> {
    var inner := if v == Script then c.anySpoiler else c.spoiler;
    match inner case Some(html) => Some(JsTrim(html)) case None => None
  }

  /** `getGame(url)` on the fetched page; `reparse` is the HTML parser applied to the fallback markup. */
  function GameOf(v: Variant, page: DetailPage, url: string, reparse: string -> Content): Result<Game, JsError> {
    var c :- ContentOf(v, page, reparse);
    var published :- PublishedOf(v, page);
    var title :- TitleOf(v, page);
    GameFrom(v, c, published, title, url)
  }

  /** `parsedContent` before the sections: the metadata and the cover. */
  function Start(c: Content, published: Option<DateTime>, title: string, url: string): Draft {
    var cover := if c.cover.Some? && c.cover.value.Some? then c.cover.value else None;
    Draft(published, title, url, cover, NoTags(), None, None, None, None)
  }

  /** The rest of `getGame` once the content, the date and the title are known. */
  function GameFrom(v: Variant, c: Content, published: Option<DateTime>, title: string, url: string): Result<Game, JsError> {
    var d1 :- Sections(v, c, c.sections, Start(c, published, title, url));
    var tags :- Strongs(v, c.strongs, NoTags());
    Schema(d1.(tags := tags, gameDescription := DescriptionOf(v, c)))
  }

  /** `getGame`, statement by statement. */
  method GetGame(v: Variant, page: DetailPage, url: string, reparse: string -> Content) returns (r: Result<Game, JsError>)
    ensures r == GameOf(v, page, url, reparse)
  {
    var content: Content;
    if page.entryContent.Some? {
      content := page.entryContent.value;
    } else {
      var elements := CollectFallback(v, page.header);
      if elements.Failure? {
        return Failure(elements.error);
      }
      content := reparse("<div>" + FallbackHtml(elements.value) + "</div>");
    }
    var published := PublishedOf(v, page);
    if published.Failure? {
      return Failure(published.error);
    }
    var title := TitleOf(v, page);
    if title.Failure? {
      return Failure(title.error);
    }
    var cover := if content.cover.Some? && content.cover.value.Some? then content.cover.value else None;
    var parsed := Draft(published.value, title.value, url, cover, NoTags(), None, None, None, None);
    var sections := ApplySections(v, content, parsed);
    if sections.Failure? {
      return Failure(sections.error);
    }
    parsed := sections.value;
    var tags := Strongs(v, content.strongs, NoTags());
    if tags.Failure? {
      return Failure(tags.error);
    }
    parsed := parsed.(tags := tags.value);
    parsed := parsed.(gameDescription := DescriptionOf(v, content));
    r := Schema(parsed);
  }

  lemma GameFromFields(v: Variant, c: Content, published: Option<DateTime>, title: string, url: string)
    requires GameFrom(v, c, published, title, url).Success?
    ensures var g := GameFrom(v, c, published, title, url).value;
      var tags := StrongsEffect(c.strongs, NoTags());
      g.link == url && g.title == title && Some(g.published) == published
    ensures var g := GameFrom(v, c, published, title, url).value;
      var tags := StrongsEffect(c.strongs, NoTags());
      && Some(g.genres) == tags.genres && Some(g.companies) == tags.companies
      && Some(g.languages) == tags.languages
      && Some(g.originalSize) == tags.originalSize && Some(g.repackSize) == tags.repackSize
    ensures c.cover == Some(Some(GameFrom(v, c, published, title, url).value.coverSrc))
    ensures GameFrom(v, c, published, title, url).value.gameDescription == DescriptionOf(v, c)
  {
    var d0 := Start(c, published, title, url);
    SectionsKeep(v, c, c.sections, d0);
    StrongsResult(v, c.strongs, NoTags());
    var d1 := Sections(v, c, c.sections, d0).value;
    var tags := Strongs(v, c.strongs, NoTags()).value;
    var d2 := d1.(tags := tags, gameDescription := DescriptionOf(v, c));
    assert GameFrom(v, c, published, title, url) == Schema(d2);
    assert d2.title == title && d2.link == url && d2.published == published && d2.coverSrc == d0.coverSrc;
    assert d0.coverSrc.Some?;
  }

  /**
   * The mirrors of a game come from the last mirrors section, its
   * screenshots are all the images of the content iff there is a
   * screenshots section, and its repack description is the last repack
   * section's, trimmed.
   */
  lemma GameFromSections(v: Variant, c: Content, published: Option<DateTime>, title: string, url: string)
    requires GameFrom(v, c, published, title, url).Success?
    ensures var g := GameFrom(v, c, published, title, url).value;
      && LastHeaded(c.sections, MirrorsHeading).Some?
      && var ms := MirrorsOfItems(LastHeaded(c.sections, MirrorsHeading).value.items);
      && (forall k :: 0 <= k < |ms| ==> MirrorValid(ms[k]))
      && g.mirrors == MirrorsOf(ms)
    ensures var g := GameFrom(v, c, published, title, url).value;
      && (g.screenshots.Some? <==> LastHeaded(c.sections, ScreenshotsHeading).Some?)
      && (g.screenshots.Some? ==>
            (forall k :: 0 <= k < |c.images| ==> c.images[k].Some?) && g.screenshots.value == Present(c.images))
    ensures GameFrom(v, c, published, title, url).value.repackDescription ==
      match LastHeaded(c.sections, RepackHeading) case Some(sec) => Some(JsTrim(sec.innerHtml)) case None => None
  {
    var d0 := Start(c, published, title, url);
    SectionsLast(v, c, c.sections, d0);
    var d1 := Sections(v, c, c.sections, d0).value;
    var tags := Strongs(v, c.strongs, NoTags()).value;
    var d2 := d1.(tags := tags, gameDescription := DescriptionOf(v, c));
    assert GameFrom(v, c, published, title, url) == Schema(d2);
  }

  /**
   * A game `getGame` returns has the fetched URL as its link, the decoded
   * title, the last value each strong field was given, and the cover.
   */
  lemma GameOfFields(v: Variant, page: DetailPage, url: string, reparse: string -> Content)
    requires GameOf(v, page, url, reparse).Success?
    ensures var g := GameOf(v, page, url, reparse).value;
      var c := ContentOf(v, page, reparse).value;
      var tags := StrongsEffect(c.strongs, NoTags());
      && g.link == url
      && page.title.Some? && g.title == Decode(page.title.value)
      && Some(g.genres) == tags.genres && Some(g.companies) == tags.companies
      && Some(g.languages) == tags.languages
      && Some(g.originalSize) == tags.originalSize && Some(g.repackSize) == tags.repackSize
      && c.cover == Some(Some(g.coverSrc))
      && g.gameDescription == DescriptionOf(v, c)
  {
    var c := ContentOf(v, page, reparse).value;
    var published := PublishedOf(v, page).value;
    var title := TitleOf(v, page).value;
    assert GameOf(v, page, url, reparse) == GameFrom(v, c, published, title, url);
    GameFromFields(v, c, published, title, url);
  }

  /** The mirrors, screenshots and repack description of a game `getGame` returns come from the last section of each kind. */
  lemma GameOfSections(v: Variant, page: DetailPage, url: string, reparse: string -> Content)
    requires GameOf(v, page, url, reparse).Success?
    ensures var g := GameOf(v, page, url, reparse).value;
      var c := ContentOf(v, page, reparse).value;
      && LastHeaded(c.sections, MirrorsHeading).Some?
      && var ms := MirrorsOfItems(LastHeaded(c.sections, MirrorsHeading).value.items);
      && (forall k :: 0 <= k < |ms| ==> MirrorValid(ms[k]))
      && g.mirrors == MirrorsOf(ms)
    ensures var g := GameOf(v, page, url, reparse).value;
      var c := ContentOf(v, page, reparse).value;
      && (g.screenshots.Some? <==> LastHeaded(c.sections, ScreenshotsHeading).Some?)
      && (g.screenshots.Some? ==>
            (forall k :: 0 <= k < |c.images| ==> c.images[k].Some?) && g.screenshots.value == Present(c.images))
    ensures var g := GameOf(v, page, url, reparse).value;
      var c := ContentOf(v, page, reparse).value;
      g.repackDescription ==
        match LastHeaded(c.sections, RepackHeading) case Some(sec) => Some(JsTrim(sec.innerHtml)) case None => None
  {
    var c := ContentOf(v, page, reparse).value;
    var published := PublishedOf(v, page).value;
    var title := TitleOf(v, page).value;
    assert GameOf(v, page, url, reparse) == GameFrom(v, c, published, title, url);
    GameFromSections(v, c, published, title, url);
  }

  /** `getGame` fails on a page without a title or a published meta element, in both copies. */
  lemma GameOfNeedsTitleAndDate(v: Variant, page: DetailPage, url: string, reparse: string -> Content)
    requires page.title.None? || page.publishedMeta.None?
    ensures GameOf(v, page, url, reparse).Failure?
  {
  }

  // ---------------------------------------------------------------------------
  // getGameList

  /** An `li` of `.lcp_catlist`: its first `a`, if any. */
  datatype ListItem = ListItem(anchor: Option<Anchor>)

  /** A crawled entry: the decoded title and the `href`, which may be undefined. */
  datatype Entry = Entry(title: string, link: Option<string>)

  function EntryOf(a: Anchor): Entry {
    Entry(Decode(a.text), a.href)
  }

  /**
   * `getGameList` on a fetched list page (`None` when it has no
   * `.lcp_catlist`): `Script` fails on a missing list or on an item
   * without an anchor; `Site` throws on a missing list and drops the items
   * without an anchor.
   */
  function GameList(v: Variant, list: Option<seq<ListItem>>): Result<seq<Entry>, JsError> {
    match list
    case None => if v == Script then Failure(TypeError) else Failure(Thrown("List is missing"))
    case Some(items) => Entries(v, items)
  }

  function Entries(v: Variant, items: seq<ListItem>): Result<seq<Entry>, JsError> {
    if items == [] then Success([])
    else
      var rest :- Entries(v, items[1..]);
      match items[0].anchor
      case Some(a) => Success([EntryOf(a)] + rest)
      case None => if v == Script then Failure(TypeError) else Success(rest)
  }

  /** The anchors of the items, in order. */
  function Anchors(items: seq<ListItem>): seq<Anchor> {
    if items == [] then []
    else (match items[0].anchor case Some(a) => [a] case None => []) + Anchors(items[1..])
  }

  function EntriesOf(anchors: seq<Anchor>): (r: seq<Entry>)
    ensures |r| == |anchors|
  {
    if anchors == [] then [] else [EntryOf(anchors[0])] + EntriesOf(anchors[1..])
  }

  lemma EntriesOfCons(a: Anchor, rest: seq<Anchor>)
    ensures EntriesOf([a] + rest) == [EntryOf(a)] + EntriesOf(rest)
  {
    assert ([a] + rest)[0] == a && ([a] + rest)[1..] == rest;
  }

  /** What a successful `Entries` lists: one decoded entry per item that has an anchor, in order. */
  lemma {:induction false} EntriesAreAnchors(v: Variant, items: seq<ListItem>)
    ensures v == Site ==> Entries(v, items).Success?
    ensures Entries(v, items).Success? ==> Entries(v, items).value == EntriesOf(Anchors(items))
    decreases |items|
  {
    if items != [] {
      EntriesAreAnchors(v, items[1..]);
      var tail := Entries(v, items[1..]);
      var rest := Anchors(items[1..]);
      if tail.Success? {
        if items[0].anchor.Some? {
          var a := items[0].anchor.value;
          assert Entries(v, items) == Success([EntryOf(a)] + tail.value);
          assert Anchors(items) == [a] + rest;
          EntriesOfCons(a, rest);
        } else {
          assert [] + rest == rest;
          assert Anchors(items) == rest;
        }
      } else {
        assert Entries(v, items).Failure?;
      }
    } else {
      assert Entries(v, items) == Success([]) && Anchors(items) == [];
    }
  }

  /** `Script` lists the items only when every one of them has an anchor. */
  lemma {:induction false} ScriptEntriesNeedAnchors(items: seq<ListItem>)
    ensures Entries(Script, items).Success? <==> forall k :: 0 <= k < |items| ==> items[k].anchor.Some?
    decreases |items|
  {
    if items != [] {
      ScriptEntriesNeedAnchors(items[1..]);
      if forall k :: 0 <= k < |items[1..]| ==> items[1..][k].anchor.Some? {
        if items[0].anchor.Some? {
          forall k | 0 <= k < |items| ensures items[k].anchor.Some? {
            if k > 0 { assert items[k] == items[1..][k - 1]; }
          }
        }
      } else {
        var k :| 0 <= k < |items[1..]| && items[1..][k].anchor.None?;
        assert items[k + 1].anchor.None?;
      }
    }
  }
}
