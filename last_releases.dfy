/**
 * `last_releases` and `last_release` of `src/db/last_releases.rs`: the
 * newest rows of `releases` as release cards, with `published` read back
 * through the fixed storage pattern.
 */
module LastReleases {
  import opened Wrappers
  import opened Text
  import opened Timestamp
  import TimestampRoundTrip
  import opened Records
  import opened WebRecords
  import opened Catalog
  import opened Views

  /** The errors the Rust services pass up with `?`; `NoLastRelease` carries the text "No last release". */
  datatype RustError = RequestFailed | FeedInvalid | NoLastRelease

  /** How a Rust call ends without a value: an error passed up, or a panic. */
  datatype Stop = Raised(error: RustError) | Panicked

  // ---------------------------------------------------------------------------
  // ORDER BY published DESC

  /**
   * SQLite's BINARY collation on text: code point by code point (the order
   * of the UTF-8 bytes), a proper prefix first.
   */
  predicate TextLe(a: string, b: string)
    decreases |a|
  {
    a == [] || (b != [] && (a[0] < b[0] || (a[0] == b[0] && TextLe(a[1..], b[1..]))))
  }

  lemma {:induction false} TextLeTotal(a: string, b: string)
    ensures TextLe(a, b) || TextLe(b, a)
    decreases |a|
  {
    if a != [] && b != [] && a[0] == b[0] {
      TextLeTotal(a[1..], b[1..]);
    }
  }

  lemma {:induction false} TextLeTrans(a: string, b: string, c: string)
    requires TextLe(a, b) && TextLe(b, c)
    ensures TextLe(a, c)
    decreases |a|
  {
    if a != [] && a[0] == b[0] && b[0] == c[0] {
      TextLeTrans(a[1..], b[1..], c[1..]);
    }
  }

  /** Each row is at least as new as the next one. */
  predicate Descending(rows: seq<Row>) {
    forall k :: 0 < k < |rows| ==> TextLe(rows[k].published, rows[k - 1].published)
  }

  /** Puts `row` in front of the first row that is not newer than it. */
  function InsertNewest(row: Row, sorted: seq<Row>): (r: seq<Row>)
    ensures multiset(r) == multiset(sorted) + multiset{row}
    ensures |r| == |sorted| + 1
    ensures r[0] == row || (sorted != [] && r[0] == sorted[0])
  {
    if sorted != [] && !TextLe(sorted[0].published, row.published) then
      assert sorted == [sorted[0]] + sorted[1..];
      [sorted[0]] + InsertNewest(row, sorted[1..])
    else [row] + sorted
  }

  /** The rows newest first; rows with the same stamp keep the order they were written in. */
  function NewestFirst(rows: seq<Row>): (r: seq<Row>)
    ensures multiset(r) == multiset(rows) && |r| == |rows|
  {
    if rows == [] then []
    else
      assert rows == [rows[0]] + rows[1..];
      InsertNewest(rows[0], NewestFirst(rows[1..]))
  }

  lemma {:induction false} InsertNewestDescending(row: Row, sorted: seq<Row>)
    requires Descending(sorted)
    ensures Descending(InsertNewest(row, sorted))
    decreases |sorted|
  {
    var r := InsertNewest(row, sorted);
    if sorted != [] && !TextLe(sorted[0].published, row.published) {
      var tail := sorted[1..];
      assert Descending(tail) by {
        forall k | 0 < k < |tail| ensures TextLe(tail[k].published, tail[k - 1].published) {
          assert tail[k] == sorted[k + 1] && tail[k - 1] == sorted[k];
        }
      }
      InsertNewestDescending(row, tail);
      var rest := InsertNewest(row, tail);
      assert r == [sorted[0]] + rest;
      TextLeTotal(sorted[0].published, row.published);
      forall k | 0 < k < |r| ensures TextLe(r[k].published, r[k - 1].published) {
        if k == 1 {
          assert r[1] == rest[0];
          if rest[0] != row {
            assert rest[0] == tail[0] == sorted[1];
          }
        } else {
          assert r[k] == rest[k - 1] && r[k - 1] == rest[k - 2];
        }
      }
    } else {
      assert r == [row] + sorted;
      forall k | 0 < k < |r| ensures TextLe(r[k].published, r[k - 1].published) {
        if k > 1 {
          assert r[k] == sorted[k - 1] && r[k - 1] == sorted[k - 2];
        }
      }
    }
  }

  /** `ORDER BY published DESC` yields the rows, each once, newest first. */
  lemma {:induction false} NewestFirstDescending(rows: seq<Row>)
    ensures Descending(NewestFirst(rows))
    decreases |rows|
  {
    if rows != [] {
      NewestFirstDescending(rows[1..]);
      InsertNewestDescending(rows[0], NewestFirst(rows[1..]));
    }
  }

  /** The first row of a descending list is at least as new as every row in it. */
  lemma {:induction false} DescendingHead(rows: seq<Row>, k: nat)
    requires Descending(rows) && k < |rows|
    ensures TextLe(rows[k].published, rows[0].published)
    decreases k
  {
    if k == 0 {
      TextLeTotal(rows[0].published, rows[0].published);
    } else {
      DescendingHead(rows, k - 1);
      TextLeTrans(rows[k].published, rows[k - 1].published, rows[0].published);
    }
  }

  // ---------------------------------------------------------------------------
  // Release cards

  /** The text of a release id. */
  function IdText(id: nat): string {
    Decimal(id)
  }

  /**
   * A row as a card, with `parse` for the stamp parser (`Parse`, the
   * storage pattern); `None` when it rejects the stamp, where `unwrap` panics.
   */
  function CardOf(row: Row, parse: string -> Option<DateTime>): (c: Option<ReleaseCard>)
    ensures c.Some? <==> parse(row.published).Some?
    ensures c.Some? ==> c.value == ReleaseCard(IdText(row.id), row.title, row.coverSrc, parse(row.published).value)
  {
    match parse(row.published)
    case None => None
    case Some(t) => Some(ReleaseCard(IdText(row.id), row.title, row.coverSrc, t))
  }

  /** `query_map(...).filter_map(|row| row.ok())`: one card per row in order, or a panic at the first bad stamp. */
  function CardsOf(rows: seq<Row>, parse: string -> Option<DateTime>): (r: Result<seq<ReleaseCard>, Stop>)
    ensures r.Success? ==> |r.value| == |rows|
    ensures r.Failure? ==> r.error == Panicked
  {
    if rows == [] then Success([])
    else
      var c := CardOf(rows[0], parse);
      if c.None? then Failure(Panicked)
      else
        var rest :- CardsOf(rows[1..], parse);
        Success([c.value] + rest)
  }

  /** The rows `LIMIT n` keeps. */
  function Limit(rows: seq<Row>, n: nat): (r: seq<Row>)
    ensures |r| == if |rows| < n then |rows| else n
  {
    if |rows| < n then rows else rows[..n]
  }

  /** `last_releases`: the cards of the 30 newest rows. */
  function LastReleasesOf(rows: seq<Row>): Result<seq<ReleaseCard>, Stop> {
    CardsOf(Limit(NewestFirst(rows), 30), Parse)
  }

  /** `last_release`: the card of the newest row, or "No last release" on an empty table. */
  function LastReleaseOf(rows: seq<Row>): Result<ReleaseCard, Stop> {
    var cards :- CardsOf(Limit(NewestFirst(rows), 1), Parse);
    if cards == [] then Failure(Raised(NoLastRelease)) else Success(cards[|cards| - 1])
  }

  lemma {:induction false} CardsOfAt(rows: seq<Row>, parse: string -> Option<DateTime>, k: nat)
    requires k < |rows|
    ensures CardsOf(rows, parse).Success? ==> Some(CardsOf(rows, parse).value[k]) == CardOf(rows[k], parse)
    ensures CardOf(rows[k], parse).None? ==> CardsOf(rows, parse) == Failure(Panicked)
    decreases k
  {
    if k > 0 {
      CardsOfAt(rows[1..], parse, k - 1);
      assert rows[1..][k - 1] == rows[k];
    }
  }

  lemma {:induction false} CardsOfAllParse(rows: seq<Row>, parse: string -> Option<DateTime>)
    requires forall k :: 0 <= k < |rows| ==> parse(rows[k].published).Some?
    ensures CardsOf(rows, parse).Success?
    decreases |rows|
  {
    if rows != [] {
      CardsOfAllParse(rows[1..], parse);
    }
  }

  /**
   * `last_releases` gives at most 30 cards, the cards of the newest rows in
   * order, and panics when one of those rows has a stamp the pattern rejects.
   */
  lemma LastReleasesCards(rows: seq<Row>)
    ensures var r := LastReleasesOf(rows);
      && (r.Success? ==> |r.value| == if |rows| < 30 then |rows| else 30)
      && (r.Success? ==> forall k :: 0 <= k < |r.value| ==> Some(r.value[k]) == CardOf(NewestFirst(rows)[k], Parse))
      && (r.Failure? <==> StampRejected(NewestFirst(rows), Parse, 30))
  {
    TopCards(NewestFirst(rows), Parse, 30);
  }

  /** One of the first `n` rows has a stamp `parse` rejects. */
  ghost predicate StampRejected(sorted: seq<Row>, parse: string -> Option<DateTime>, n: nat) {
    exists k :: 0 <= k < |sorted| && k < n && CardOf(sorted[k], parse).None?
  }

  /** The cards of the first `n` sorted rows, for any stamp parser. */
  lemma TopCards(sorted: seq<Row>, parse: string -> Option<DateTime>, n: nat)
    ensures var r := CardsOf(Limit(sorted, n), parse);
      && (r.Success? ==> forall k :: 0 <= k < |r.value| ==> Some(r.value[k]) == CardOf(sorted[k], parse))
      && (r.Failure? <==> StampRejected(sorted, parse, n))
  {
    var top := Limit(sorted, n);
    var r := CardsOf(top, parse);
    if r.Success? {
      forall k | 0 <= k < |r.value| ensures Some(r.value[k]) == CardOf(sorted[k], parse) {
        CardsOfAt(top, parse, k);
        assert top[k] == sorted[k];
      }
      forall k | 0 <= k < |sorted| && k < n ensures CardOf(sorted[k], parse).Some? {
        CardsOfAt(top, parse, k);
        assert top[k] == sorted[k];
      }
    } else {
      if forall k :: 0 <= k < |top| ==> parse(top[k].published).Some? {
        CardsOfAllParse(top, parse);
      }
      var k :| 0 <= k < |top| && parse(top[k].published).None?;
      assert top[k] == sorted[k];
    }
  }

  lemma FirstCard(sorted: seq<Row>, parse: string -> Option<DateTime>)
    requires sorted != []
    ensures CardsOf(Limit(sorted, 1), parse) ==
      if CardOf(sorted[0], parse).None? then Failure(Panicked) else Success([CardOf(sorted[0], parse).value])
  {
    var top := Limit(sorted, 1);
    assert top == [sorted[0]] && top[1..] == [];
    assert CardsOf(top[1..], parse) == Success([]);
    var c := CardOf(sorted[0], parse);
    if c.Some? {
      assert [c.value] + [] == [c.value];
    }
  }

  /** The row `ORDER BY published DESC` puts first is one no other row is newer than. */
  lemma NewestFirstHead(rows: seq<Row>)
    requires rows != []
    ensures NewestFirst(rows)[0] in rows
    ensures forall k :: 0 <= k < |rows| ==> TextLe(rows[k].published, NewestFirst(rows)[0].published)
  {
    var sorted := NewestFirst(rows);
    assert sorted[0] in multiset(rows);
    NewestFirstDescending(rows);
    forall k | 0 <= k < |rows| ensures TextLe(rows[k].published, sorted[0].published) {
      assert rows[k] in multiset(sorted);
      var j :| 0 <= j < |sorted| && sorted[j] == rows[k];
      DescendingHead(sorted, j);
    }
  }

  /**
   * `last_release` fails with "No last release" exactly on an empty table,
   * and otherwise returns the card of the row `ORDER BY published DESC`
   * puts first, or panics when that row's stamp does not match the pattern.
   */
  lemma LastReleaseNewest(rows: seq<Row>)
    ensures rows == [] <==> LastReleaseOf(rows) == Failure(Raised(NoLastRelease))
    ensures rows != [] ==> (LastReleaseOf(rows).Success? <==> CardOf(NewestFirst(rows)[0], Parse).Some?)
    ensures rows != [] && LastReleaseOf(rows).Success? ==>
      Some(LastReleaseOf(rows).value) == CardOf(NewestFirst(rows)[0], Parse)
  {
    if rows != [] {
      FirstCard(NewestFirst(rows), Parse);
    }
  }

  // ---------------------------------------------------------------------------
  // Which writers' stamps the reader accepts

  /** A row written by `insert_data` reads back as a card with the stamp to the second. */
  lemma RustRowCard(id: nat, r: Release)
    requires Valid(r.published)
    ensures CardOf(RustRow(id, r), Parse) == Some(ReleaseCard(IdText(id), r.title, r.coverSrc, Truncate(r.published)))
  {
    RustRowReadsBack(id, r);
  }

  /**
   * A row written by a TypeScript writer carries `toISOString()`'s
   * milliseconds, so the Rust reader accepts it only when they are zero.
   */
  lemma ScriptRowCard(id: nat, g: Game)
    requires Valid(g.published) && 0 <= g.published.year <= 9999 && g.published.nano < NanosPerSecond
    ensures CardOf(ScriptRow(id, g), Parse).Some? <==> Millis(g.published) == 0
  {
    TimestampRoundTrip.IsoStringAgainstParse(g.published);
  }

  /** A table whose every stamp matches the pattern never makes the readers panic. */
  lemma NoPanicOnGoodStamps(rows: seq<Row>)
    requires forall k :: 0 <= k < |rows| ==> Parse(rows[k].published).Some?
    ensures LastReleasesOf(rows).Success?
    ensures rows != [] ==> LastReleaseOf(rows).Success?
  {
    var sorted := NewestFirst(rows);
    forall k | 0 <= k < |sorted| ensures Parse(sorted[k].published).Some? {
      assert sorted[k] in multiset(rows);
    }
    CardsOfAllParse(Limit(sorted, 30), Parse);
    CardsOfAllParse(Limit(sorted, 1), Parse);
  }
}
