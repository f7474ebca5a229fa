/**
 * The Rust extraction as the source runs it: loops that push into the tag
 * vectors and set builder fields one at a time. Each method is proved to
 * compute the function of `RssExtract` that specifies it.
 */
module RssParse {
  import opened Wrappers
  import opened Text
  import opened Records
  import opened Markup
  import opened RssExtract

  /** `any(|txt| txt.contains(needle))` on an iterator standing at `pos`. */
  method AnyText(texts: seq<string>, pos: nat, needle: string) returns (found: bool, next: nat)
    requires pos <= |texts|
    ensures (found, next) == AnyFrom(texts, pos, needle)
  {
    next := pos;
    found := false;
    while next < |texts| && !found
      invariant pos <= next <= |texts|
      invariant found ==> pos < next && AnyFrom(texts, pos, needle) == (true, next)
      invariant !found ==> AnyFrom(texts, pos, needle) == AnyFrom(texts, next, needle)
      decreases |texts| - next, if found then 0 else 1
    {
      found := Contains(texts[next], needle);
      next := next + 1;
    }
  }

  /** The chain of three heading tests, as `test` runs them. */
  method ClassifyHeading(texts: seq<string>, test: HeadingTest) returns (kind: SectionKind)
    ensures kind == Classify(texts, test)
  {
    var screenshots, p1 := AnyText(texts, 0, "Screenshots");
    if screenshots {
      return ScreenshotsSection;
    }
    var from := if test == SharedIterator then p1 else 0;
    var repack, p2 := AnyText(texts, from, "Repack");
    if repack {
      return RepackSection;
    }
    from := if test == SharedIterator then p2 else 0;
    var mirrors, _ := AnyText(texts, from, "Mirrors");
    kind := if mirrors then MirrorsSection else OtherSection;
  }

  /** The fold over the anchors of one `li`, starting from `Mirror::default()`. */
  method FoldMirror(anchors: seq<Anchor>) returns (acc: Mirror)
    ensures acc == MirrorOf(anchors)
  {
    acc := DefaultMirror();
    for index := 0 to |anchors|
      invariant acc.links == MirrorOf(anchors[..index]).links
    {
      var a := anchors[index];
      if index == 0 {
        acc := Mirror([Link(a.text, a.href.GetOr(""))]);
      } else {
        acc := acc.(links := acc.links + [Link(a.text, a.href.GetOr(""))]);
      }
    }
    assert anchors[..|anchors|] == anchors;
  }

  /** One mirror per `li`, in document order. */
  method CollectMirrors(items: seq<seq<Anchor>>) returns (mirrors: seq<Mirror>)
    ensures mirrors == MirrorsOf(items)
  {
    mirrors := [];
    for k := 0 to |items|
      invariant |mirrors| == k
      invariant forall j :: 0 <= j < k ==> mirrors[j] == MirrorOf(items[j])
    {
      var m := FoldMirror(items[k]);
      mirrors := mirrors + [m];
    }
  }

  /** `parse_info_from_html`: `release` is the builder its caller filled in. */
  method ParseInfoFromHtml(c: Content, test: HeadingTest, release: ReleaseBuilder)
      returns (r: Result<Extracted, ExtractError>)
    ensures r == ParseInfo(c, test, release)
  {
    var genres: seq<string> := [];
    var companies: seq<string> := [];
    var languages: seq<string> := [];
    var builder := release;

    if c.cover.Some? && c.cover.value.Some? {
      builder := builder.(coverSrc := Some(c.cover.value.value));
    }
    ghost var b1 := builder;

    for i := 0 to |c.sections|
      invariant Sections(c, c.sections, test, b1) == Sections(c, c.sections[i..], test, builder)
    {
      var section := c.sections[i];
      assert c.sections[i..][1..] == c.sections[i + 1..];
      if section.prevText.None? {
        return Failure(NoPrevSibling);
      }
      var kind := ClassifyHeading(section.prevText.value, test);
      if kind == ScreenshotsSection {
        builder := builder.(screenshots := Some(ImageSources(c.images)));
      } else if kind == RepackSection {
        builder := builder.(repackDescription := Some(RustTrim(section.innerHtml)));
      } else if kind == MirrorsSection {
        var mirrors := CollectMirrors(section.items);
        builder := builder.(mirrors := Some(mirrors));
      }
    }

    if c.info.None? {
      return Failure(NoInfoParagraph);
    }
    var lines := Lines(Collect(c.info.value));
    for i := 0 to |lines|
      invariant InfoLines(lines, Info([], [], [], b1).(builder := Sections(c, c.sections, test, b1).value))
             == InfoLines(lines[i..], Info(genres, companies, languages, builder))
    {
      assert lines[i..][1..] == lines[i + 1..];
      var entry := LineEntry(lines[i]);
      if entry.Some? {
        var (field, value) := entry.value;
        match field
        case GenreField => genres := genres + Values(value);
        case CompanyField => companies := companies + Values(value);
        case LanguageField => languages := languages + Values(value);
        case OriginalSizeField => builder := builder.(originalSize := Some(value));
        case RepackSizeField => builder := builder.(repackSize := Some(value));
      }
    }
    assert lines[|lines|..] == [];

    builder := builder.(gameDescription := Some(c.spoiler.GetOr("")));
    var built := Build(builder);
    if built.Failure? {
      return Failure(Uninitialized(built.error.field));
    }
    r := Success(Extracted(built.value, languages, companies, genres));
  }

  /** `get_release_from_item`: the feed item's own fields, then the post content. */
  method GetReleaseFromItem(item: FeedItem, test: HeadingTest) returns (r: Result<Extracted, ExtractError>)
    ensures r == ReleaseFromItem(item, test)
  {
    var release := EmptyBuilder();
    if item.title.None? {
      return Failure(NoTitle);
    }
    release := release.(title := item.title);
    if item.link.None? {
      return Failure(NoLink);
    }
    release := release.(link := item.link);
    if item.pubDate.None? {
      return Failure(NoPublicationDate);
    }
    if item.pubDate.value.chrono.None? {
      return Failure(BadDate);
    }
    release := release.(published := item.pubDate.value.chrono);
    if item.content.None? {
      return Failure(NoContent);
    }
    r := ParseInfoFromHtml(item.content.value, test, release);
  }

  /** `get_release_from_html`: the page's metadata, then its content block. */
  method GetReleaseFromHtml(page: DetailPage, test: HeadingTest) returns (r: Result<Extracted, ExtractError>)
    ensures r == ReleaseFromPage(page, test)
  {
    var release := EmptyBuilder();
    if page.entryContent.None? {
      return Failure(NoContent);
    }
    if page.publishedMeta.None? {
      return Failure(NoPubDateMetadata);
    }
    if page.publishedMeta.value.None? || page.publishedMeta.value.value.chrono.None? {
      return Failure(BadDate);
    }
    release := release.(published := page.publishedMeta.value.value.chrono);
    if page.title.None? {
      return Failure(NoTitleElement);
    }
    release := release.(title := page.title);
    if page.canonical.None? {
      return Failure(NoLinkTag);
    }
    if page.canonical.value.None? {
      return Failure(NoLinkHref);
    }
    release := release.(link := page.canonical.value);
    r := ParseInfoFromHtml(page.entryContent.value, test, release);
  }
}
