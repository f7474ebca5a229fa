/**
 * Which feed items and which crawled list entries a sync run goes on to
 * fetch: the feed frontier of the Rust service and of the site's
 * `syncRss`, the paging of the full crawl, and the filter that drops the
 * titles already stored.
 */
module Frontier {
  import opened Wrappers
  import opened Text
  import opened Markup

  // ---------------------------------------------------------------------------
  // Feed frontier of `sync_fitgirl_rss`

  /** The `take_while` test: the item has a title and it is not the latest stored one. */
  predicate Continues(item: FeedItem, latest: string) {
    item.title.Some? && item.title.value != latest
  }

  /** `take_while`: the longest prefix whose items all pass `Continues`. */
  function TakeUntilLatest(items: seq<FeedItem>, latest: string): (r: seq<FeedItem>)
    ensures |r| <= |items| && r == items[..|r|]
    ensures forall k :: 0 <= k < |r| ==> Continues(r[k], latest)
    ensures |r| < |items| ==> !Continues(items[|r|], latest)
  {
    if items == [] || !Continues(items[0], latest) then []
    else [items[0]] + TakeUntilLatest(items[1..], latest)
  }

  /** `items().iter().skip(1).take_while(...)`: the head item (the pinned post) is never considered. */
  function RssFrontier(items: seq<FeedItem>, latest: string): (r: seq<FeedItem>)
    ensures items == [] ==> r == []
    ensures items != [] ==> r == TakeUntilLatest(items[1..], latest)
  {
    if items == [] then [] else TakeUntilLatest(items[1..], latest)
  }

  /**
   * The head is skipped, the walk stops before the item with the latest
   * title, and nothing after it is looked at: `[pinned, A, B, C]` with
   * latest `B` gives `[A]`, whatever the pinned item and `C` are.
   */
  lemma RssFrontierExample(pinned: FeedItem, a: FeedItem, b: FeedItem, c: FeedItem, latest: string)
    requires a.title.Some? && a.title.value != latest && b.title == Some(latest)
    ensures RssFrontier([pinned, a, b, c], latest) == [a]
  {
    assert [pinned, a, b, c][1..] == [a, b, c];
    assert [a, b, c][1..] == [b, c];
  }

  /** An item without a title ends the frontier as well. */
  lemma RssFrontierStopsAtUntitled(pinned: FeedItem, a: FeedItem, rest: seq<FeedItem>, latest: string)
    requires a.title.None?
    ensures RssFrontier([pinned, a] + rest, latest) == []
  {
    assert ([pinned, a] + rest)[1..] == [a] + rest;
  }

  // ---------------------------------------------------------------------------
  // Feed frontier of `syncRss`

  const LosslessRepack := "Lossless Repack"

  /** `feed.items.filter(x => x.categories?.includes('Lossless Repack'))`. */
  function LosslessRepacks(items: seq<FeedItem>): (r: seq<FeedItem>)
    ensures |r| <= |items|
    ensures forall x :: x in r <==> x in items && LosslessRepack in x.categories
  {
    if items == [] then []
    else (if LosslessRepack in items[0].categories then [items[0]] else []) + LosslessRepacks(items[1..])
  }

  /** The items the `for` loop reaches before its `break`: all of them up to the first with the latest title. */
  function UntilTitle(items: seq<FeedItem>, latest: string): (r: seq<FeedItem>)
    ensures |r| <= |items| && r == items[..|r|]
    ensures forall k :: 0 <= k < |r| ==> r[k].title != Some(latest)
    ensures |r| < |items| ==> items[|r|].title == Some(latest)
  {
    if items == [] || items[0].title == Some(latest) then []
    else [items[0]] + UntilTitle(items[1..], latest)
  }

  /** The items `syncRss` processes when no fetch or store fails. */
  function SiteFrontier(items: seq<FeedItem>, latest: string): seq<FeedItem> {
    UntilTitle(LosslessRepacks(items), latest)
  }

  lemma {:induction false} AllLosslessRepacks(items: seq<FeedItem>)
    requires forall k :: 0 <= k < |items| ==> LosslessRepack in items[k].categories
    ensures LosslessRepacks(items) == items
    decreases |items|
  {
    if items != [] {
      AllLosslessRepacks(items[1..]);
      assert [items[0]] + items[1..] == items;
    }
  }

  lemma {:induction false} UntilTitleAt(items: seq<FeedItem>, latest: string, k: nat)
    requires k < |items| && items[k].title == Some(latest)
    requires forall j :: 0 <= j < k ==> items[j].title != Some(latest)
    ensures UntilTitle(items, latest) == items[..k]
    decreases k
  {
    if k > 0 {
      UntilTitleAt(items[1..], latest, k - 1);
      assert items[..k] == [items[0]] + items[1..][..k - 1];
    }
  }

  lemma {:induction false} TakeUntilLatestAt(items: seq<FeedItem>, latest: string, k: nat)
    requires k < |items| && !Continues(items[k], latest)
    requires forall j :: 0 <= j < k ==> Continues(items[j], latest)
    ensures TakeUntilLatest(items, latest) == items[..k]
    decreases k
  {
    if k > 0 {
      TakeUntilLatestAt(items[1..], latest, k - 1);
      assert items[..k] == [items[0]] + items[1..][..k - 1];
    }
  }

  /**
   * On a feed of titled Lossless Repack posts, the two writers walk the same
   * items down to the latest stored title, except that the site's `syncRss`
   * also takes the head item that the Rust service skips.
   */
  lemma FrontiersDifferInHead(items: seq<FeedItem>, latest: string, k: nat)
    requires 1 <= k < |items| && items[k].title == Some(latest)
    requires forall j :: 0 <= j < k ==> items[j].title.Some? && items[j].title.value != latest
    requires forall j :: 0 <= j < |items| ==> LosslessRepack in items[j].categories
    ensures SiteFrontier(items, latest) == items[..k]
    ensures RssFrontier(items, latest) == items[1..k]
  {
    AllLosslessRepacks(items);
    UntilTitleAt(items, latest, k);
    var tail := items[1..];
    forall j | 0 <= j < k - 1 ensures Continues(tail[j], latest) {
      assert tail[j] == items[j + 1];
    }
    TakeUntilLatestAt(tail, latest, k - 1);
    assert tail[..k - 1] == items[1..k];
  }

  // ---------------------------------------------------------------------------
  // Paging of the full crawl

  /**
   * The crawl from page `from` on: the pages are read in order and their
   * entries concatenated until the first page with no entries; a page that
   * cannot be read ends the crawl with its error. `pages[i]` is page `i + 1`
   * of the site; every page after the last one has no entries.
   */
  function Crawl<P, T, E>(pages: seq<P>, read: P -> Result<seq<T>, E>, from: nat): Result<seq<T>, E>
    decreases |pages| - from
  {
    if from >= |pages| then Success([])
    else
      var list :- read(pages[from]);
      if list == [] then Success([])
      else
        var rest :- Crawl(pages, read, from + 1);
        Success(list + rest)
  }

  /** The entries gathered so far, in front of what the rest of the crawl gives. */
  function Prepend<T, E>(acc: seq<T>, r: Result<seq<T>, E>): Result<seq<T>, E> {
    match r
    case Failure(e) => Failure(e)
    case Success(xs) => Success(acc + xs)
  }

  /** The paging loop: `page` counts up from the first page until one has no entries. */
  method CrawlPages<P, T, E>(pages: seq<P>, read: P -> Result<seq<T>, E>) returns (r: Result<seq<T>, E>)
    ensures r == Crawl(pages, read, 0)
  {
    var full: seq<T> := [];
    var page := 0;
    assert Crawl(pages, read, 0) == Prepend(full, Crawl(pages, read, page)) by {
      match Crawl(pages, read, 0)
      case Failure(_) =>
      case Success(xs) => assert [] + xs == xs;
    }
    while page < |pages|
      invariant page <= |pages|
      invariant Crawl(pages, read, 0) == Prepend(full, Crawl(pages, read, page))
      decreases |pages| - page
    {
      var list := read(pages[page]);
      if list.Failure? {
        return Failure(list.error);
      }
      if list.value == [] {
        assert full + [] == full;
        return Success(full);
      }
      if Crawl(pages, read, page + 1).Success? {
        ConcatAssoc(full, list.value, Crawl(pages, read, page + 1).value);
      }
      page := page + 1;
      full := full + list.value;
    }
    assert full + [] == full;
    r := Success(full);
  }

  /** The pages after the first empty one are never consulted. */
  lemma {:induction false} CrawlStopsAtEmpty<P, T, E>(pages: seq<P>, read: P -> Result<seq<T>, E>, from: nat, k: nat)
    requires from <= k < |pages| && read(pages[k]) == Success([])
    ensures Crawl(pages, read, from) == Crawl(pages[..k + 1], read, from)
    decreases k - from
  {
    var front := pages[..k + 1];
    assert front[from] == pages[from];
    if from < k {
      CrawlStopsAtEmpty(pages, read, from + 1, k);
    }
  }

  /** Every crawled entry comes from a page that was read in full. */
  lemma {:induction false} CrawlFromPages<P, T, E>(pages: seq<P>, read: P -> Result<seq<T>, E>, from: nat, x: T)
    requires Crawl(pages, read, from).Success? && x in Crawl(pages, read, from).value
    ensures exists j :: from <= j < |pages| && read(pages[j]).Success? && x in read(pages[j]).value
    decreases |pages| - from
  {
    var list := read(pages[from]).value;
    if x !in list {
      var rest := Crawl(pages, read, from + 1).value;
      assert Crawl(pages, read, from).value == list + rest;
      CrawlFromPages(pages, read, from + 1, x);
    }
  }

  // ---------------------------------------------------------------------------
  // Dedup against the stored titles

  /** The entries whose title equals no stored title, in crawl order. */
  function Fresh<T(!new)>(xs: seq<T>, title: T -> string, stored: seq<string>): (r: seq<T>)
    ensures |r| <= |xs|
    ensures forall x :: x in r <==> x in xs && title(x) !in stored
  {
    if xs == [] then []
    else (if title(xs[0]) in stored then [] else [xs[0]]) + Fresh(xs[1..], title, stored)
  }

  /** The filter keeps crawl order: it works page by page. */
  lemma {:induction false} FreshAppend<T(!new)>(xs: seq<T>, ys: seq<T>, title: T -> string, stored: seq<string>)
    ensures Fresh(xs + ys, title, stored) == Fresh(xs, title, stored) + Fresh(ys, title, stored)
    decreases |xs|
  {
    if xs == [] {
      assert xs + ys == ys;
    } else {
      assert (xs + ys)[0] == xs[0] && (xs + ys)[1..] == xs[1..] + ys;
      FreshAppend(xs[1..], ys, title, stored);
      var head := if title(xs[0]) in stored then [] else [xs[0]];
      ConcatAssoc(head, Fresh(xs[1..], title, stored), Fresh(ys, title, stored));
    }
  }

  /** On an empty catalog every crawled entry is a candidate. */
  lemma {:induction false} FreshNothingStored<T(!new)>(xs: seq<T>, title: T -> string)
    ensures Fresh(xs, title, []) == xs
    decreases |xs|
  {
    if xs != [] {
      FreshNothingStored(xs[1..], title);
      assert [xs[0]] + xs[1..] == xs;
    }
  }
}
