/**
 * What the server-rendered pages derive from a stored release: the detail
 * page (`release_page`), the card on the listing (`release_card`) and the
 * full-size screenshot (`fullscreen_screenshot`). Only the values that end
 * up in the markup are modelled; the markup around them is not.
 */
module Views {
  import opened Wrappers
  import opened Text
  import opened Timestamp
  import opened Records

  /** The characters a title is cut at: the hyphen and the en dash. */
  const TitleSeparators: set<char> := {'-', '–'}

  /** The position of the first character of `s` that is in `seps`. */
  function FindAny(s: string, seps: set<char>): (r: Option<nat>)
    ensures r.Some? ==> r.value < |s| && s[r.value] in seps
    ensures r.Some? ==> forall j :: 0 <= j < r.value ==> s[j] !in seps
    ensures r.None? ==> forall j :: 0 <= j < |s| ==> s[j] !in seps
  {
    if s == [] then None
    else if s[0] in seps then Some(0)
    else match FindAny(s[1..], seps)
      case None => None
      case Some(i) => Some(i + 1)
  }

  // ---------------------------------------------------------------------------
  // The title of the detail page: `splitn(2, ['-', '–'])`

  /** The first item of `splitn(2, ...)`: the text before the first separator, or all of it. */
  function Heading(title: string): (h: string)
    ensures |h| <= |title| && h == title[..|h|]
    ensures forall j :: 0 <= j < |h| ==> h[j] !in TitleSeparators
  {
    match FindAny(title, TitleSeparators)
    case None => title
    case Some(i) => title[..i]
  }

  /** The second item of `splitn(2, ...)`, or `""`: everything after the first separator, later separators kept. */
  function Subtitle(title: string): (s: string)
    ensures |s| < |title| || s == []
  {
    match FindAny(title, TitleSeparators)
    case None => ""
    case Some(i) => title[i + 1..]
  }

  /** With a separator, heading, separator and subtitle put back together give the title. */
  lemma HeadingSeparatorSubtitle(title: string)
    requires exists k :: 0 <= k < |title| && title[k] in TitleSeparators
    ensures var h := Heading(title);
      |h| < |title| && title[|h|] in TitleSeparators
      && h + [title[|h|]] + Subtitle(title) == title
  {
    var k :| 0 <= k < |title| && title[k] in TitleSeparators;
    var i := FindAny(title, TitleSeparators).value;
    assert title == title[..i] + [title[i]] + title[i + 1..];
  }

  /** Without a separator, the heading is the whole title and the subtitle is empty. */
  lemma HeadingWithoutSeparator(title: string)
    requires forall k :: 0 <= k < |title| ==> title[k] !in TitleSeparators
    ensures Heading(title) == title && Subtitle(title) == ""
  {
  }

  // ---------------------------------------------------------------------------
  // The card title: `split(['-', '–']).next()`

  /** The first item of `split(...)`. */
  function CardTitle(title: string): string {
    SplitAny(title, TitleSeparators)[0]
  }

  /** The first piece of a split ends at the first separator. */
  lemma {:induction false} SplitAnyFirst(s: string, seps: set<char>)
    ensures SplitAny(s, seps)[0] == match FindAny(s, seps) case None => s case Some(i) => s[..i]
    decreases |s|
  {
    if s != [] && s[0] !in seps {
      SplitAnyFirst(s[1..], seps);
      match FindAny(s[1..], seps)
      case None =>
        assert s == [s[0]] + s[1..];
      case Some(i) =>
        assert s[..i + 1] == [s[0]] + s[1..][..i];
    }
  }

  /** The card shows the same title as the heading of the detail page. */
  lemma CardTitleIsHeading(title: string)
    ensures CardTitle(title) == Heading(title)
  {
    SplitAnyFirst(title, TitleSeparators);
  }

  /** A title that starts with a separator gives an empty card title. */
  lemma CardTitleLeadingSeparator(title: string)
    requires |title| > 0 && title[0] in TitleSeparators
    ensures CardTitle(title) == ""
  {
    CardTitleIsHeading(title);
  }

  /** The target of the card's anchor. */
  function CardLink(id: string): (r: string)
    ensures StartsWith(r, "/release/") && r[9..] == id
  {
    "/release/" + id
  }

  // ---------------------------------------------------------------------------
  // The screenshot grid: `screenshots.into_iter().skip(1).enumerate()`

  /** The id of the grid item at `index`. */
  function ScreenshotId(index: nat): string {
    "screenshot_" + Decimal(index)
  }

  /** Different positions get different ids. */
  lemma ScreenshotIdsDistinct(i: nat, j: nat)
    requires i != j
    ensures ScreenshotId(i) != ScreenshotId(j)
  {
    DecimalValue(i);
    DecimalValue(j);
    assert ScreenshotId(i)[11..] == Decimal(i);
    assert ScreenshotId(j)[11..] == Decimal(j);
  }

  /** One item of the grid: its id and the image it shows. */
  datatype GridItem = GridItem(id: string, src: string)

  /** The grid from position `from` on, numbered from `from - 1`. */
  function GridFrom(shots: seq<string>, from: nat): (r: seq<GridItem>)
    requires 1 <= from
    ensures |r| == if from <= |shots| then |shots| - from else 0
    ensures forall k :: 0 <= k < |r| ==> r[k] == GridItem(ScreenshotId(from - 1 + k), shots[from + k])
    decreases |shots| - from
  {
    if from >= |shots| then []
    else [GridItem(ScreenshotId(from - 1), shots[from])] + GridFrom(shots, from + 1)
  }

  /** The grid leaves out the first screenshot (the cover) and numbers the rest from 0. */
  function ScreenshotGrid(shots: seq<string>): (r: seq<GridItem>)
    ensures |r| == if |shots| == 0 then 0 else |shots| - 1
    ensures forall k :: 0 <= k < |r| ==> r[k] == GridItem(ScreenshotId(k), shots[k + 1])
  {
    GridFrom(shots, 1)
  }

  // ---------------------------------------------------------------------------
  // The download list and the dates

  /** One anchor of the download list: its target and its text. */
  datatype Anchor = Anchor(href: string, text: string)

  function LinkAnchors(links: seq<Link>): (r: seq<Anchor>)
    ensures |r| == |links|
    ensures forall k :: 0 <= k < |r| ==> r[k] == Anchor(links[k].link, links[k].name)
  {
    if links == [] then [] else [Anchor(links[0].link, links[0].name)] + LinkAnchors(links[1..])
  }

  /** One list per mirror, in stored order, each with that mirror's links in stored order. */
  function DownloadLists(mirrors: seq<Mirror>): (r: seq<seq<Anchor>>)
    ensures |r| == |mirrors|
    ensures forall m :: 0 <= m < |r| ==> r[m] == LinkAnchors(mirrors[m].links)
  {
    if mirrors == [] then [] else [LinkAnchors(mirrors[0].links)] + DownloadLists(mirrors[1..])
  }

  /** `format("%d/%m/%Y")`. */
  function ShortDate(t: DateTime): string {
    ZeroPad(t.day, 2) + "/" + ZeroPad(t.month, 2) + "/" + YearField(t.year, "")
  }

  // ---------------------------------------------------------------------------
  // The pages

  /** The values the detail page shows. */
  datatype ReleasePageView = ReleasePageView(
    cover: string,
    grid: seq<GridItem>,
    link: string,
    heading: string,
    subtitle: string,
    published: string,
    originalSize: string,
    repackSize: string,
    genres: seq<string>,
    downloads: seq<seq<Anchor>>,
    repackDescription: string,
    gameDescription: string)

  /** `release_page`: a release with its genres. */
  function ReleasePage(r: Release, genres: seq<string>): (v: ReleasePageView)
    ensures |v.grid| == if |r.screenshots| == 0 then 0 else |r.screenshots| - 1
    ensures forall k :: 0 <= k < |v.grid| ==> v.grid[k].src == r.screenshots[k + 1]
    ensures |v.downloads| == |r.mirrors|
    ensures forall m :: 0 <= m < |v.downloads| ==> |v.downloads[m]| == |r.mirrors[m].links|
    ensures forall m, k :: 0 <= m < |v.downloads| && 0 <= k < |v.downloads[m]| ==>
      v.downloads[m][k] == Anchor(r.mirrors[m].links[k].link, r.mirrors[m].links[k].name)
  {
    ReleasePageView(
      r.coverSrc, ScreenshotGrid(r.screenshots), r.link, Heading(r.title), Subtitle(r.title),
      ShortDate(r.published), r.originalSize, r.repackSize, genres, DownloadLists(r.mirrors),
      r.repackDescription, r.gameDescription)
  }

  /** `ReleaseCard`: what the listing knows of a release. */
  datatype ReleaseCard = ReleaseCard(id: string, title: string, coverSrc: string, published: DateTime)

  /** The values a card shows. */
  datatype CardView = CardView(title: string, href: string, cover: string, published: string)

  /** `release_card`. */
  function Card(c: ReleaseCard): (v: CardView)
    ensures v.href == CardLink(c.id)
  {
    CardView(CardTitle(c.title), CardLink(c.id), c.coverSrc, ShortDate(c.published))
  }

  /** The card and the detail page of a release show the same title and date. */
  lemma CardMatchesPage(c: ReleaseCard, r: Release, genres: seq<string>)
    requires c.title == r.title && c.published == r.published
    ensures Card(c).title == ReleasePage(r, genres).heading
    ensures Card(c).published == ReleasePage(r, genres).published
  {
    CardTitleIsHeading(r.title);
  }

  // ---------------------------------------------------------------------------
  // The full-size screenshot

  /** The marker of a reduced image in a screenshot URL. */
  const Reduced: string := ".240p.jpg"

  /** `original_url.replace(".240p.jpg", "")`. */
  function FullSizeUrl(url: string): string {
    ReplaceAll(url, Reduced, "")
  }

  /** The full-size URL is the URL cut at every marker, the pieces put back together. */
  lemma FullSizeUrlDropsMarkers(url: string)
    ensures FullSizeUrl(url) == Join(SplitOn(url, Reduced), "")
    ensures url == Join(SplitOn(url, Reduced), Reduced)
  {
    ReplaceAllIsJoinSplit(url, Reduced, "");
    JoinSplitOn(url, Reduced);
  }

  /** A URL without the marker is returned unchanged. */
  lemma FullSizeUrlWithoutMarker(url: string)
    requires !Contains(url, Reduced)
    ensures FullSizeUrl(url) == url
  {
    ReplaceAllAbsent(url, Reduced, "");
  }

  /** Each removed marker shortens the URL by nine characters. */
  lemma FullSizeUrlLength(url: string)
    ensures |FullSizeUrl(url)| == |url| - 9 * Occurrences(url, Reduced)
  {
    ReplaceAllLength(url, Reduced, "");
  }

  /** A text that does not start with the marker keeps its first character. */
  lemma FullSizeUrlKeeps(s: string)
    requires |s| >= |Reduced| && s[..9] != Reduced
    ensures FullSizeUrl(s) == [s[0]] + FullSizeUrl(s[1..])
  {
  }

  /** A text that starts with the marker loses it. */
  lemma FullSizeUrlDrops(rest: string)
    ensures FullSizeUrl(Reduced + rest) == FullSizeUrl(rest)
  {
    assert (Reduced + rest)[..9] == Reduced;
    assert (Reduced + rest)[9..] == rest;
  }

  /** A prefix without a dot, followed by at least a marker's length of text, is kept. */
  lemma {:induction false} FullSizeUrlKeepsPrefix(pre: string, rest: string)
    requires forall k :: 0 <= k < |pre| ==> pre[k] != '.'
    requires |rest| >= |Reduced|
    ensures FullSizeUrl(pre + rest) == pre + FullSizeUrl(rest)
  {
    if pre != [] {
      var s := pre + rest;
      assert s[0] == pre[0];
      assert s[..9][0] != Reduced[0];
      FullSizeUrlKeeps(s);
      assert s[1..] == pre[1..] + rest;
      FullSizeUrlKeepsPrefix(pre[1..], rest);
      calc {
        FullSizeUrl(s);
        [pre[0]] + FullSizeUrl(pre[1..] + rest);
        [pre[0]] + (pre[1..] + FullSizeUrl(rest));
        { assert [pre[0]] + pre[1..] == pre; }
        pre + FullSizeUrl(rest);
      }
    } else {
      assert pre + rest == rest;
    }
  }

  /** The marker after a dot-free prefix: the prefix and what follows the marker are kept. */
  lemma FullSizeUrlAfterPrefix(p4: string, ext: string)
    requires p4 == "240p" && |ext| < |Reduced|
    ensures FullSizeUrl(p4 + (Reduced + ext)) == p4 + ext
  {
    FullSizeUrlDrops(ext);
    FullSizeUrlKeepsPrefix(p4, Reduced + ext);
  }

  /** The leading dot of `.240p.240p.jpg` is not the start of a marker. */
  lemma FullSizeUrlLeadingDot(s: string, x: string, p4: string, ext: string)
    requires p4 == "240p" && x == p4 + (Reduced + ext) && s == "." + x
    ensures FullSizeUrl(s) == "." + FullSizeUrl(x)
  {
    assert s[1..] == x;
    assert s[6] == x[5] == (Reduced + ext)[1] == '2';
    assert s[..9][6] != Reduced[6];
    FullSizeUrlKeeps(s);
  }

  /** One pass is not idempotent: removing a marker can join the text around it into a new one. */
  lemma FullSizeUrlNotIdempotent(s: string, ext: string)
    requires ext == ".jpg" && s == ".240p" + Reduced + ext
    ensures FullSizeUrl(s) == Reduced
    ensures FullSizeUrl(FullSizeUrl(s)) == ""
  {
    var p4 := "240p";
    var x := p4 + (Reduced + ext);
    assert s == "." + x;
    FullSizeUrlLeadingDot(s, x, p4, ext);
    FullSizeUrlAfterPrefix(p4, ext);
    assert "." + (p4 + ext) == Reduced;
    FullSizeUrlDrops([]);
    assert Reduced + [] == Reduced;
  }
}
