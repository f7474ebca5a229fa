/**
 * What the HTML selector engines report about a release post, as plain
 * data. Each field is the result of one selector query of the source; the
 * HTML itself and the selector engines are not modelled.
 */
module Markup {
  import opened Wrappers
  import opened Timestamp
  import opened Text

  /** An `a` element: its text and its `href` attribute, if any. */
  datatype Anchor = Anchor(text: string, href: Option<string>)

  /**
   * An element that follows an `h3` (`h3 + *`): the text nodes of its
   * previous element sibling (`None` when it has none), its inner HTML, and
   * for each `li` inside it, the `a` elements of that item in document order.
   */
  datatype Section = Section(prevText: Option<seq<string>>, innerHtml: string, items: seq<seq<Anchor>>)

  /** A `strong` inside the paragraph after an `h3`: the text of its previous sibling node, and its own text. */
  datatype Strong = Strong(category: Option<string>, text: string)

  /** The content block of a release post. */
  datatype Content = Content(
    /** The first `h3 + p > a > img`, and its `src` attribute. */
    cover: Option<Option<string>>,
    /** Every `h3 + *`, in document order. */
    sections: seq<Section>,
    /** The `src` attribute of every `a > img`, in document order (the cover included). */
    images: seq<Option<string>>,
    /** The text nodes of the first `h3 + p`. */
    info: Option<seq<string>>,
    /** Every `h3 + p strong`, in document order. */
    strongs: seq<Strong>,
    /** The inner HTML of the first `h3+ul+.su-spoiler .su-spoiler-content`. */
    spoiler: Option<string>,
    /** The inner HTML of the first `.su-spoiler-content` anywhere. */
    anySpoiler: Option<string>)

  /** An element sibling: its tag name (upper case, as `tagName` reports it) and its outer HTML. */
  datatype Sibling = Sibling(tag: string, outerHtml: string)

  /** A post page fetched from the site. */
  datatype DetailPage = DetailPage(
    /** The first `.entry-content`. */
    entryContent: Option<Content>,
    /** The element siblings that follow `header.entry-header`, or `None` when there is no such header. */
    header: Option<seq<Sibling>>,
    /** The `article:published_time` meta element, and its `content` attribute. */
    publishedMeta: Option<Option<DateText>>,
    /** The text of the first `.entry-title`. */
    title: Option<string>,
    /** The canonical `link` element, and its `href` attribute. */
    canonical: Option<Option<string>>)

  /**
   * A date as written on the page or in the feed. The calendar parsers are
   * not modelled: `chrono` is what chrono's RFC 2822 parser (for the feed)
   * or RFC 3339 parser (for the page) makes of the text, converted to UTC,
   * and `js` is what `new Date` makes of it; `None` when the parser rejects it.
   */
  datatype DateText = DateText(text: string, chrono: Option<DateTime>, js: Option<DateTime>)

  /** An item of the RSS feed. */
  datatype FeedItem = FeedItem(
    title: Option<string>,
    link: Option<string>,
    pubDate: Option<DateText>,
    content: Option<Content>,
    categories: seq<string>)

  /** `text().collect::<String>()`: the text nodes one after the other. */
  function Collect(texts: seq<string>): (r: string)
    ensures texts == [] ==> r == []
    ensures |r| == TotalLength(texts)
  {
    if texts == [] then [] else texts[0] + Collect(texts[1..])
  }

  /** Collecting two runs of text nodes one after the other concatenates their texts. */
  lemma {:induction false} CollectAppend(a: seq<string>, b: seq<string>)
    ensures Collect(a + b) == Collect(a) + Collect(b)
    decreases |a|
  {
    if a == [] {
      assert a + b == b;
    } else {
      CollectAppend(a[1..], b);
      assert (a + b)[1..] == a[1..] + b;
      assert (a + b)[0] == a[0];
    }
  }
}
