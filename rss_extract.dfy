/**
 * The Rust extraction of a release from a post (`parse_info_from_html`,
 * `get_release_from_item` and `get_release_from_html` in
 * `src/services/sync_fitgirl_rss.rs`), on the selector results of `Markup`.
 *
 * The heading of each section is tested three times, for "Screenshots",
 * "Repack" and "Mirrors". The source runs the three tests on one `text()`
 * iterator, which the first test consumes; `HeadingTest` selects between
 * that behaviour (`SharedIterator`) and a fresh iterator per test
 * (`FreshIterator`), which the rest of the model uses.
 */
module RssExtract {
  import opened Wrappers
  import opened Text
  import opened Timestamp
  import opened Records
  import opened Markup

  datatype ExtractError =
    | NoPrevSibling
    | NoInfoParagraph
    | Uninitialized(field: string)
    | NoTitle
    | NoLink
    | NoPublicationDate
    | BadDate
    | NoContent
    | NoPubDateMetadata
    | NoTitleElement
    | NoLinkTag
    | NoLinkHref

  /** A release with its languages, companies and genres, as `insert_data` takes them. */
  datatype Extracted = Extracted(release: Release, languages: seq<string>, companies: seq<string>, genres: seq<string>)

  datatype HeadingTest = SharedIterator | FreshIterator

  datatype SectionKind = ScreenshotsSection | RepackSection | MirrorsSection | OtherSection

  // ---------------------------------------------------------------------------
  // The heading tests

  /** Some text node from `pos` on contains `needle`. */
  predicate HasTextFrom(texts: seq<string>, pos: nat, needle: string) {
    exists k :: pos <= k < |texts| && Contains(texts[k], needle)
  }

  /**
   * `any` on a `text()` iterator standing at `pos`: whether a node contains
   * `needle`, and where the iterator stands afterwards (just after the
   * matching node, or at the end).
   */
  function AnyFrom(texts: seq<string>, pos: nat, needle: string): (r: (bool, nat))
    requires pos <= |texts|
    ensures pos <= r.1 <= |texts|
    ensures r.0 <==> HasTextFrom(texts, pos, needle)
    ensures !r.0 ==> r.1 == |texts|
    decreases |texts| - pos
  {
    if pos == |texts| then (false, pos)
    else if Contains(texts[pos], needle) then (true, pos + 1)
    else
      var r := AnyFrom(texts, pos + 1, needle);
      assert HasTextFrom(texts, pos + 1, needle) ==> HasTextFrom(texts, pos, needle);
      r
  }

  /**
   * The three tests as written: the second and third continue where the first
   * one stopped. This assumes that scraper's `text()` iterator is fused: once
   * `any` has run it to `None`, it keeps returning `None`. An iterator that
   * starts again after `None` makes every test read the whole heading, which
   * is `ClassifyFresh`.
   */
  function ClassifyShared(texts: seq<string>): SectionKind {
    var (s, p1) := AnyFrom(texts, 0, "Screenshots");
    if s then ScreenshotsSection
    else
      var (r, p2) := AnyFrom(texts, p1, "Repack");
      if r then RepackSection
      else
        var (m, _) := AnyFrom(texts, p2, "Mirrors");
        if m then MirrorsSection else OtherSection
  }

  /** The three tests, each on the whole heading. */
  function ClassifyFresh(texts: seq<string>): SectionKind {
    if AnyFrom(texts, 0, "Screenshots").0 then ScreenshotsSection
    else if AnyFrom(texts, 0, "Repack").0 then RepackSection
    else if AnyFrom(texts, 0, "Mirrors").0 then MirrorsSection
    else OtherSection
  }

  function Classify(texts: seq<string>, test: HeadingTest): SectionKind {
    if test == SharedIterator then ClassifyShared(texts) else ClassifyFresh(texts)
  }

  /** As written, with a fused iterator, once the first test fails nothing is left for the other two. */
  lemma SharedIteratorOnlyScreenshots(texts: seq<string>)
    ensures ClassifyShared(texts) == ScreenshotsSection || ClassifyShared(texts) == OtherSection
    ensures ClassifyShared(texts) == ScreenshotsSection <==> HasTextFrom(texts, 0, "Screenshots")
  {
  }

  /** With a fresh iterator per test, the first heading word found in the order Screenshots, Repack, Mirrors decides. */
  lemma FreshIteratorClassifies(texts: seq<string>)
    ensures ClassifyFresh(texts) == ScreenshotsSection <==> HasTextFrom(texts, 0, "Screenshots")
    ensures ClassifyFresh(texts) == RepackSection <==>
      !HasTextFrom(texts, 0, "Screenshots") && HasTextFrom(texts, 0, "Repack")
    ensures ClassifyFresh(texts) == MirrorsSection <==>
      !HasTextFrom(texts, 0, "Screenshots") && !HasTextFrom(texts, 0, "Repack") && HasTextFrom(texts, 0, "Mirrors")
  {
  }

  // ---------------------------------------------------------------------------
  // Sections

  /** `filter_map(|img| img.value().attr("src"))`: the images that have a source. */
  function ImageSources(images: seq<Option<string>>): (r: seq<string>)
    ensures |r| <= |images|
    ensures forall x :: x in r <==> Some(x) in images
  {
    if images == [] then []
    else (match images[0] case Some(src) => [src] case None => []) + ImageSources(images[1..])
  }

  function LinkOf(a: Anchor): Link {
    Link(a.text, a.href.GetOr(""))
  }

  /** The mirror of one `li`: one link per anchor, in document order. */
  function MirrorOf(anchors: seq<Anchor>): (m: Mirror)
    ensures |m.links| == |anchors|
    ensures forall k :: 0 <= k < |anchors| ==> m.links[k] == LinkOf(anchors[k])
  {
    if anchors == [] then DefaultMirror()
    else Mirror([LinkOf(anchors[0])] + MirrorOf(anchors[1..]).links)
  }

  /** The mirrors of a section: one per `li`, in document order. */
  function MirrorsOf(items: seq<seq<Anchor>>): (r: seq<Mirror>)
    ensures |r| == |items|
    ensures forall k :: 0 <= k < |items| ==> r[k] == MirrorOf(items[k])
  {
    if items == [] then [] else [MirrorOf(items[0])] + MirrorsOf(items[1..])
  }

  /** What one section sets in the builder. */
  function ApplySection(c: Content, sec: Section, kind: SectionKind, b: ReleaseBuilder): ReleaseBuilder {
    match kind
    case ScreenshotsSection => b.(screenshots := Some(ImageSources(c.images)))
    case RepackSection => b.(repackDescription := Some(RustTrim(sec.innerHtml)))
    case MirrorsSection => b.(mirrors := Some(MirrorsOf(sec.items)))
    case OtherSection => b
  }

  /** The loop over the sections: a section without a previous sibling is an error. */
  function Sections(c: Content, secs: seq<Section>, test: HeadingTest, b: ReleaseBuilder): Result<ReleaseBuilder, ExtractError>
  {
    if secs == [] then Success(b)
    else match secs[0].prevText
      case None => Failure(NoPrevSibling)
      case Some(texts) => Sections(c, secs[1..], test, ApplySection(c, secs[0], Classify(texts, test), b))
  }

  // ---------------------------------------------------------------------------
  // The information paragraph

  /** The characters multi-valued fields are split at. */
  const ValueSeparators: set<char> := {',', '/'}

  /** Each piece trimmed, in order. */
  function TrimAll(pieces: seq<string>): (r: seq<string>)
    ensures |r| == |pieces|
    ensures forall k :: 0 <= k < |r| ==> r[k] == RustTrim(pieces[k])
  {
    if pieces == [] then [] else [RustTrim(pieces[0])] + TrimAll(pieces[1..])
  }

  /** `value.split([',', '/']).map(|x| x.trim().to_string())`. */
  function Values(value: string): seq<string> {
    TrimAll(SplitAny(value, ValueSeparators))
  }

  /** The fields a line of the paragraph can fill. */
  datatype InfoField = GenreField | CompanyField | LanguageField | OriginalSizeField | RepackSizeField

  /** The field a lowercased key selects: the first of genre, compan, language, original, repack it contains. */
  function FieldOf(category: string): Option<InfoField> {
    if Contains(category, "genre") then Some(GenreField)
    else if Contains(category, "compan") then Some(CompanyField)
    else if Contains(category, "language") then Some(LanguageField)
    else if Contains(category, "original") then Some(OriginalSizeField)
    else if Contains(category, "repack") then Some(RepackSizeField)
    else None
  }

  /** A line `key: value` that selects a field: the field and the text after the first `": "`. */
  function LineEntry(line: string): Option<(InfoField, string)> {
    match SplitOnce(line, ": ")
    case None => None
    case Some((key, value)) =>
      match FieldOf(ToLower(key))
      case None => None
      case Some(f) => Some((f, value))
  }

  /** The tag lists and the builder while the lines are read. */
  datatype Info = Info(genres: seq<string>, companies: seq<string>, languages: seq<string>, builder: ReleaseBuilder)

  /** One line: multi-valued fields are extended, sizes are set to the untrimmed value; other lines change nothing. */
  function InfoLine(line: string, acc: Info): Info {
    match LineEntry(line)
    case None => acc
    case Some((GenreField, value)) => acc.(genres := acc.genres + Values(value))
    case Some((CompanyField, value)) => acc.(companies := acc.companies + Values(value))
    case Some((LanguageField, value)) => acc.(languages := acc.languages + Values(value))
    case Some((OriginalSizeField, value)) => acc.(builder := acc.builder.(originalSize := Some(value)))
    case Some((RepackSizeField, value)) => acc.(builder := acc.builder.(repackSize := Some(value)))
  }

  /** The loop over the lines. */
  function InfoLines(lines: seq<string>, acc: Info): Info {
    if lines == [] then acc else InfoLines(lines[1..], InfoLine(lines[0], acc))
  }

  /** `parse_info_from_html`, given the builder its caller filled in. */
  function ParseInfo(c: Content, test: HeadingTest, b: ReleaseBuilder): Result<Extracted, ExtractError> {
    var b1 := match c.cover case Some(Some(src)) => b.(coverSrc := Some(src)) case _ => b;
    var b2 :- Sections(c, c.sections, test, b1);
    if c.info.None? then Failure(NoInfoParagraph)
    else
      var info := InfoLines(Lines(Collect(c.info.value)), Info([], [], [], b2));
      var b3 := info.builder.(gameDescription := Some(c.spoiler.GetOr("")));
      match Build(b3)
      case Failure(e) => Failure(Uninitialized(e.field))
      case Success(r) => Success(Extracted(r, info.languages, info.companies, info.genres))
  }

  /** `get_release_from_item`. */
  function ReleaseFromItem(item: FeedItem, test: HeadingTest): Result<Extracted, ExtractError> {
    if item.title.None? then Failure(NoTitle)
    else if item.link.None? then Failure(NoLink)
    else if item.pubDate.None? then Failure(NoPublicationDate)
    else if item.pubDate.value.chrono.None? then Failure(BadDate)
    else if item.content.None? then Failure(NoContent)
    else
      var b := EmptyBuilder().(title := item.title, link := item.link, published := item.pubDate.value.chrono);
      ParseInfo(item.content.value, test, b)
  }

  /** `get_release_from_html`. */
  function ReleaseFromPage(page: DetailPage, test: HeadingTest): Result<Extracted, ExtractError> {
    if page.entryContent.None? then Failure(NoContent)
    else if page.publishedMeta.None? then Failure(NoPubDateMetadata)
    else if page.publishedMeta.value.None? then Failure(BadDate)
    else if page.publishedMeta.value.value.chrono.None? then Failure(BadDate)
    else if page.title.None? then Failure(NoTitleElement)
    else if page.canonical.None? then Failure(NoLinkTag)
    else if page.canonical.value.None? then Failure(NoLinkHref)
    else
      var b := EmptyBuilder().(
        published := page.publishedMeta.value.value.chrono, title := page.title, link := page.canonical.value);
      ParseInfo(page.entryContent.value, test, b)
  }
}
