/**
 * What the Rust extraction yields. As written, the heading tests share one
 * iterator; if that iterator is fused (it stays exhausted after `None`), no
 * section ever sets the mirrors or the repack description and every
 * extraction fails. With a fresh iterator per test, or one that starts again
 * after `None`, each field comes from the last section or line that names it.
 */
module RssExtractFacts {
  import opened Wrappers
  import opened Text
  import opened Records
  import opened Markup
  import opened RssExtract

  // ---------------------------------------------------------------------------
  // As written: the shared iterator, assumed fused

  /** As written, the sections never set the mirrors or the repack description. */
  lemma {:induction false} SharedSectionsKeepMirrors(c: Content, secs: seq<Section>, b: ReleaseBuilder)
    ensures var r := Sections(c, secs, SharedIterator, b);
      r.Success? ==> r.value.mirrors == b.mirrors && r.value.repackDescription == b.repackDescription
    decreases |secs|
  {
    if secs != [] && secs[0].prevText.Some? {
      SharedIteratorOnlyScreenshots(secs[0].prevText.value);
      SharedSectionsKeepMirrors(c, secs[1..], ApplySection(c, secs[0], Classify(secs[0].prevText.value, SharedIterator), b));
    }
  }

  /** The lines of the paragraph set only the two sizes in the builder. */
  lemma {:induction false} InfoLinesOnlySizes(lines: seq<string>, acc: Info)
    ensures var r := InfoLines(lines, acc).builder;
      r == acc.builder.(originalSize := r.originalSize, repackSize := r.repackSize)
    decreases |lines|
  {
    if lines != [] {
      InfoLinesOnlySizes(lines[1..], InfoLine(lines[0], acc));
    }
  }

  /** As written, extraction fails whenever the caller's builder has no mirrors yet. */
  lemma SharedParseInfoFails(c: Content, b: ReleaseBuilder)
    requires b.mirrors.None?
    ensures ParseInfo(c, SharedIterator, b).Failure?
  {
    var b1 := match c.cover case Some(Some(src)) => b.(coverSrc := Some(src)) case _ => b;
    SharedSectionsKeepMirrors(c, c.sections, b1);
    var s := Sections(c, c.sections, SharedIterator, b1);
    if s.Success? && c.info.Some? {
      var info := InfoLines(Lines(Collect(c.info.value)), Info([], [], [], s.value));
      InfoLinesOnlySizes(Lines(Collect(c.info.value)), Info([], [], [], s.value));
      assert info.builder.mirrors.None?;
    }
  }

  /** As written, no feed item yields a release. */
  lemma SharedItemFails(item: FeedItem)
    ensures ReleaseFromItem(item, SharedIterator).Failure?
  {
    if item.title.Some? && item.link.Some? && item.pubDate.Some? && item.pubDate.value.chrono.Some? && item.content.Some? {
      SharedParseInfoFails(item.content.value,
        EmptyBuilder().(title := item.title, link := item.link, published := item.pubDate.value.chrono));
    }
  }

  /** As written, no post page yields a release. */
  lemma SharedPageFails(page: DetailPage)
    ensures ReleaseFromPage(page, SharedIterator).Failure?
  {
    if ReleaseFromPage(page, SharedIterator).Success? {
      SharedParseInfoFails(page.entryContent.value, EmptyBuilder().(
        published := page.publishedMeta.value.value.chrono, title := page.title, link := page.canonical.value));
    }
  }

  // ---------------------------------------------------------------------------
  // Sections, with a fresh iterator per test

  predicate AllHavePrev(secs: seq<Section>) {
    forall k :: 0 <= k < |secs| ==> secs[k].prevText.Some?
  }

  /** The last section whose heading is of `kind`. */
  function LastOfKind(secs: seq<Section>, kind: SectionKind): (r: Option<Section>)
    ensures r.Some? ==> r.value in secs
  {
    if secs == [] then None
    else match LastOfKind(secs[1..], kind)
      case Some(s) => Some(s)
      case None =>
        if secs[0].prevText.Some? && ClassifyFresh(secs[0].prevText.value) == kind then Some(secs[0]) else None
  }

  /** What the sections leave in the builder: each field from the last section of its kind, or as it was. */
  function SectionsEffect(c: Content, secs: seq<Section>, b: ReleaseBuilder): ReleaseBuilder {
    b.(
      screenshots := if LastOfKind(secs, ScreenshotsSection).Some? then Some(ImageSources(c.images)) else b.screenshots,
      repackDescription := match LastOfKind(secs, RepackSection)
        case Some(s) => Some(RustTrim(s.innerHtml)) case None => b.repackDescription,
      mirrors := match LastOfKind(secs, MirrorsSection)
        case Some(s) => Some(MirrorsOf(s.items)) case None => b.mirrors)
  }

  lemma AllHavePrevCons(secs: seq<Section>)
    requires secs != [] && secs[0].prevText.Some?
    ensures AllHavePrev(secs) <==> AllHavePrev(secs[1..])
  {
    if AllHavePrev(secs[1..]) {
      forall k | 0 <= k < |secs| ensures secs[k].prevText.Some? {
        if k > 0 { assert secs[k] == secs[1..][k - 1]; }
      }
    }
  }

  /** The section loop fails exactly when a section has no previous sibling, whichever test is used. */
  lemma {:induction false} SectionsFailure(c: Content, secs: seq<Section>, test: HeadingTest, b: ReleaseBuilder)
    ensures Sections(c, secs, test, b).Failure? <==> !AllHavePrev(secs)
    ensures Sections(c, secs, test, b).Failure? ==> Sections(c, secs, test, b).error == NoPrevSibling
    decreases |secs|
  {
    if secs != [] {
      if secs[0].prevText.Some? {
        var texts := secs[0].prevText.value;
        SectionsFailure(c, secs[1..], test, ApplySection(c, secs[0], Classify(texts, test), b));
        AllHavePrevCons(secs);
      }
    }
  }

  /** One section and then the rest: the effect of the rest wins over the effect of the first. */
  lemma SectionsEffectCons(c: Content, secs: seq<Section>, b: ReleaseBuilder)
    requires secs != [] && secs[0].prevText.Some?
    ensures SectionsEffect(c, secs[1..], ApplySection(c, secs[0], ClassifyFresh(secs[0].prevText.value), b))
         == SectionsEffect(c, secs, b)
  {
    var kind := ClassifyFresh(secs[0].prevText.value);
    var b1 := ApplySection(c, secs[0], kind, b);
    LastOfKindCons(secs, ScreenshotsSection);
    LastOfKindCons(secs, RepackSection);
    LastOfKindCons(secs, MirrorsSection);
    match kind {
      case ScreenshotsSection =>
        assert b1 == b.(screenshots := Some(ImageSources(c.images)));
      case RepackSection =>
        assert b1 == b.(repackDescription := Some(RustTrim(secs[0].innerHtml)));
      case MirrorsSection =>
        assert b1 == b.(mirrors := Some(MirrorsOf(secs[0].items)));
      case OtherSection =>
        assert b1 == b;
    }
  }

  /** The last section of a kind is the last in the rest, or else the first section when it is of that kind. */
  lemma LastOfKindCons(secs: seq<Section>, kind: SectionKind)
    requires secs != [] && secs[0].prevText.Some?
    ensures LastOfKind(secs, kind) ==
      if LastOfKind(secs[1..], kind).Some? then LastOfKind(secs[1..], kind)
      else if ClassifyFresh(secs[0].prevText.value) == kind then Some(secs[0]) else None
  {
  }

  /** With a fresh iterator per test, the section loop leaves each field from the last section of its kind. */
  lemma {:induction false} FreshSections(c: Content, secs: seq<Section>, b: ReleaseBuilder)
    requires AllHavePrev(secs)
    ensures Sections(c, secs, FreshIterator, b) == Success(SectionsEffect(c, secs, b))
    decreases |secs|
  {
    if secs != [] {
      var texts := secs[0].prevText.value;
      assert AllHavePrev(secs[1..]) by {
        forall k | 0 <= k < |secs[1..]| ensures secs[1..][k].prevText.Some? {
          assert secs[1..][k] == secs[k + 1];
        }
      }
      FreshSections(c, secs[1..], ApplySection(c, secs[0], ClassifyFresh(texts), b));
      SectionsEffectCons(c, secs, b);
    }
  }

  // ---------------------------------------------------------------------------
  // The information paragraph

  /** The values one line gives to `f`. */
  function ValuesOfLine(line: string, f: InfoField): seq<string> {
    match LineEntry(line) case Some((g, v)) => if g == f then Values(v) else [] case None => []
  }

  /** The values of every line that selects `f`, in line order. */
  function ValuesFor(lines: seq<string>, f: InfoField): seq<string> {
    if lines == [] then [] else ValuesOfLine(lines[0], f) + ValuesFor(lines[1..], f)
  }

  /** The size a line gives to `f`, or `d` when it does not select `f`. */
  function SizeOfLine(line: string, f: InfoField, d: Option<string>): Option<string> {
    match LineEntry(line) case Some((g, v)) => if g == f then Some(v) else d case None => d
  }

  /** The value of the last line that selects `f`, or `d`. */
  function LastValueOr(lines: seq<string>, f: InfoField, d: Option<string>): Option<string> {
    if lines == [] then d else LastValueOr(lines[1..], f, SizeOfLine(lines[0], f, d))
  }

  /** The effect of the lines, as a function of the lines alone. */
  function LinesEffect(lines: seq<string>, acc: Info): Info {
    Info(
      acc.genres + ValuesFor(lines, GenreField),
      acc.companies + ValuesFor(lines, CompanyField),
      acc.languages + ValuesFor(lines, LanguageField),
      acc.builder.(
        originalSize := LastValueOr(lines, OriginalSizeField, acc.builder.originalSize),
        repackSize := LastValueOr(lines, RepackSizeField, acc.builder.repackSize)))
  }

  /** One line, field by field. */
  lemma InfoLineFields(line: string, acc: Info)
    ensures InfoLine(line, acc) == Info(
      acc.genres + ValuesOfLine(line, GenreField),
      acc.companies + ValuesOfLine(line, CompanyField),
      acc.languages + ValuesOfLine(line, LanguageField),
      acc.builder.(
        originalSize := SizeOfLine(line, OriginalSizeField, acc.builder.originalSize),
        repackSize := SizeOfLine(line, RepackSizeField, acc.builder.repackSize)))
  {
    assert acc.genres + [] == acc.genres;
    assert acc.companies + [] == acc.companies;
    assert acc.languages + [] == acc.languages;
  }

  /** Collecting the first line's values and then the rest's is collecting all of them. */
  lemma ValuesForCons(acc: seq<string>, lines: seq<string>, f: InfoField)
    requires lines != []
    ensures (acc + ValuesOfLine(lines[0], f)) + ValuesFor(lines[1..], f) == acc + ValuesFor(lines, f)
  {
    var x, y := ValuesOfLine(lines[0], f), ValuesFor(lines[1..], f);
    assert ValuesFor(lines, f) == x + y;
    ConcatAssoc(acc, x, y);
  }

  /** The lines after the first, applied to the first line's effect, give the effect of all the lines. */
  lemma LinesEffectCons(lines: seq<string>, acc: Info)
    requires lines != []
    ensures LinesEffect(lines[1..], InfoLine(lines[0], acc)) == LinesEffect(lines, acc)
  {
    InfoLineFields(lines[0], acc);
    ValuesForCons(acc.genres, lines, GenreField);
    ValuesForCons(acc.companies, lines, CompanyField);
    ValuesForCons(acc.languages, lines, LanguageField);
    assert LastValueOr(lines, OriginalSizeField, acc.builder.originalSize)
        == LastValueOr(lines[1..], OriginalSizeField, SizeOfLine(lines[0], OriginalSizeField, acc.builder.originalSize));
    assert LastValueOr(lines, RepackSizeField, acc.builder.repackSize)
        == LastValueOr(lines[1..], RepackSizeField, SizeOfLine(lines[0], RepackSizeField, acc.builder.repackSize));
  }

  /**
   * The effect of the lines: the multi-valued fields collect the values of
   * every line that selects them, in order; each size is the value of the
   * last line that selects it.
   */
  lemma {:induction false} InfoLinesEffect(lines: seq<string>, acc: Info)
    ensures InfoLines(lines, acc) == LinesEffect(lines, acc)
    decreases |lines|
  {
    if lines != [] {
      InfoLinesEffect(lines[1..], InfoLine(lines[0], acc));
      LinesEffectCons(lines, acc);
    } else {
      assert acc.genres + [] == acc.genres;
      assert acc.companies + [] == acc.companies;
      assert acc.languages + [] == acc.languages;
    }
  }

  /** A line without `": "` changes nothing. */
  lemma LineWithoutSeparator(line: string, acc: Info)
    requires !Contains(line, ": ")
    ensures InfoLine(line, acc) == acc
  {
  }

  /** A key that names two fields selects the first of genre, compan, language, original, repack. */
  lemma FirstFieldWins(category: string)
    requires Contains(category, "genre")
    ensures FieldOf(category) == Some(GenreField)
  {
  }

  /** A line splits at the `": "` after a key that holds none. */
  lemma SplitAfterKey(key: string, value: string)
    requires !Contains(key, ": ")
    ensures SplitOnce(key + ": " + value, ": ") == Some((key, value))
  {
    var line := key + ": " + value;
    assert OccursAt(line, ": ", |key|) by {
      assert line[|key|..|key| + 2] == ": ";
    }
    forall j | 0 <= j < |key| ensures !OccursAt(line, ": ", j) {
      if j + 2 <= |key| {
        assert line[j..j + 2] == key[j..j + 2];
        assert !OccursAt(key, ": ", j);
      } else {
        assert line[j + 1] == ':';
      }
    }
    var r := SplitOnce(line, ": ");
    var k := |r.value.0|;
    assert k == |key|;
    assert r.value.0 == line[..k] == key;
    assert r.value.1 == line[k + 2..] == value;
  }

  /** Sizes keep everything after the first `": "`, spaces included. */
  lemma SizeIsRestOfLine(key: string, value: string)
    requires !Contains(key, ": ")
    requires FieldOf(ToLower(key)) == Some(OriginalSizeField)
    ensures LineEntry(key + ": " + value) == Some((OriginalSizeField, value))
  {
    SplitAfterKey(key, value);
  }

  // ---------------------------------------------------------------------------
  // Multi-valued fields

  /** Splitting keeps empty pieces: one value more than there are separators. */
  lemma ValuesCount(value: string)
    ensures |Values(value)| == |SeparatorsIn(value, ValueSeparators)| + 1
  {
  }

  /** Each value is trimmed and holds no separator. */
  lemma ValuesClean(value: string)
    ensures forall k :: 0 <= k < |Values(value)| ==> RustTrim(Values(value)[k]) == Values(value)[k]
    ensures forall k, j :: 0 <= k < |Values(value)| && 0 <= j < |Values(value)[k]| ==> Values(value)[k][j] !in ValueSeparators
  {
    forall k | 0 <= k < |Values(value)|
      ensures RustTrim(Values(value)[k]) == Values(value)[k]
      ensures forall j :: 0 <= j < |Values(value)[k]| ==> Values(value)[k][j] !in ValueSeparators
    {
      var piece := SplitAny(value, ValueSeparators)[k];
      PieceClean(piece);
    }
  }

  /** A trimmed piece without separators is trimmed and still has none. */
  lemma PieceClean(piece: string)
    requires forall j :: 0 <= j < |piece| ==> piece[j] !in ValueSeparators
    ensures RustTrim(RustTrim(piece)) == RustTrim(piece)
    ensures forall j :: 0 <= j < |RustTrim(piece)| ==> RustTrim(piece)[j] !in ValueSeparators
  {
    TrimIdempotent(piece, RustSpace);
    TrimAvoids(piece, RustSpace, ValueSeparators);
  }

  // ---------------------------------------------------------------------------
  // The whole extraction, with a fresh iterator per test

  /**
   * A successful extraction: the sections had previous siblings, the
   * paragraph was there, and each field holds what the sections, the lines
   * and the description selector gave it.
   */
  lemma FreshParseInfo(c: Content, b: ReleaseBuilder)
    requires ParseInfo(c, FreshIterator, b).Success?
    ensures c.info.Some? && AllHavePrev(c.sections)
    ensures var e := ParseInfo(c, FreshIterator, b).value;
      var lines := Lines(Collect(c.info.value));
      var b1 := match c.cover case Some(Some(src)) => b.(coverSrc := Some(src)) case _ => b;
      var s := SectionsEffect(c, c.sections, b1);
      && e.genres == ValuesFor(lines, GenreField)
      && e.companies == ValuesFor(lines, CompanyField)
      && e.languages == ValuesFor(lines, LanguageField)
      && Some(e.release.originalSize) == LastValueOr(lines, OriginalSizeField, b.originalSize)
      && Some(e.release.repackSize) == LastValueOr(lines, RepackSizeField, b.repackSize)
      && Some(e.release.coverSrc) == b1.coverSrc
      && Some(e.release.mirrors) == s.mirrors
      && Some(e.release.screenshots) == s.screenshots
      && Some(e.release.repackDescription) == s.repackDescription
      && e.release.gameDescription == c.spoiler.GetOr("")
      && Some(e.release.title) == b.title && Some(e.release.link) == b.link
      && Some(e.release.published) == b.published
  {
    var b1 := match c.cover case Some(Some(src)) => b.(coverSrc := Some(src)) case _ => b;
    SectionsFailure(c, c.sections, FreshIterator, b1);
    FreshSections(c, c.sections, b1);
    var s := SectionsEffect(c, c.sections, b1);
    var lines := Lines(Collect(c.info.value));
    InfoLinesEffect(lines, Info([], [], [], s));
    var info := InfoLines(lines, Info([], [], [], s));
    assert [] + ValuesFor(lines, GenreField) == ValuesFor(lines, GenreField);
    assert [] + ValuesFor(lines, CompanyField) == ValuesFor(lines, CompanyField);
    assert [] + ValuesFor(lines, LanguageField) == ValuesFor(lines, LanguageField);
    BuildKeepsValues(info.builder.(gameDescription := Some(c.spoiler.GetOr(""))));
  }

  /** A section without a previous sibling, or a missing paragraph, makes the extraction fail. */
  lemma ParseInfoFailures(c: Content, test: HeadingTest, b: ReleaseBuilder)
    ensures !AllHavePrev(c.sections) ==> ParseInfo(c, test, b) == Failure(NoPrevSibling)
    ensures AllHavePrev(c.sections) && c.info.None? ==> ParseInfo(c, test, b) == Failure(NoInfoParagraph)
  {
    var b1 := match c.cover case Some(Some(src)) => b.(coverSrc := Some(src)) case _ => b;
    SectionsFailure(c, c.sections, test, b1);
  }
}
