/**
 * The query text of the catalog search (`search_db` in `src/db/search.rs`):
 * the optional title and genre filters become numbered placeholders and
 * their parameters, the filters are joined into one WHERE text shared by the
 * list query and the count query, and a page number becomes an OFFSET.
 */
module Search {
  import opened Wrappers
  import opened Text

  /** Rust's `usize` on a 64-bit target. */
  const UsizeLimit: nat := 0x1_0000_0000_0000_0000
  type Usize = n: nat | n < UsizeLimit

  /** The page size of the listing. */
  const PageSize: nat := 30

  const ListSelect: string :=
    "\n      SELECT r.id, r.title, r.coverSrc, r.published\n      FROM releases r INNER JOIN release_genre rg ON r.id = rg.release_id"
  const CountSelect: string :=
    "\n      SELECT count(distinct r.id)\n      FROM releases r INNER JOIN release_genre rg ON r.id = rg.release_id"
  const ListTail: string :=
    "\n      GROUP BY r.id\n      ORDER BY published DESC\n      LIMIT 30\n    "

  /** `SearchParams`. */
  datatype SearchParams = SearchParams(title: Option<string>, genre: Option<string>, page: Option<Usize>)

  /** The placeholder `$n`. */
  function Placeholder(n: nat): string {
    "$" + Decimal(n)
  }

  /** The title filter with its placeholder number. */
  function TitleClause(n: nat): string {
    "r.title ILIKE ('%' || " + Placeholder(n) + " || '%')"
  }

  /** The genre filter with its placeholder number. */
  function GenreClause(n: nat): string {
    "rg.genre = " + Placeholder(n)
  }

  /** What precedes the clause at `idx`: `WHERE` for the first, `and` for the others. */
  function Connective(idx: nat): string {
    if idx == 0 then "\n\tWHERE " else "\n\tand "
  }

  /** The WHERE text of the clauses: each clause after its connective, in order. */
  function WhereText(clauses: seq<string>): (w: string)
    ensures clauses == [] ==> w == ""
  {
    if clauses == [] then ""
    else WhereText(clauses[..|clauses| - 1]) + Connective(|clauses| - 1) + clauses[|clauses| - 1]
  }

  lemma WhereTextOne(c: string)
    ensures WhereText([c]) == "\n\tWHERE " + c
  {
    assert [c][..0] == [];
  }

  lemma WhereTextStep(clauses: seq<string>, p: string)
    requires |clauses| >= 2 && StartsWith(WhereText(clauses[..|clauses| - 1]), p)
    ensures StartsWith(WhereText(clauses), p)
  {
    var w := WhereText(clauses[..|clauses| - 1]);
    StartsWithAppend(w, p, Connective(|clauses| - 1));
    StartsWithAppend(w + Connective(|clauses| - 1), p, clauses[|clauses| - 1]);
  }

  /** A non-empty WHERE text starts with `WHERE` and the first clause. */
  lemma {:induction false} WhereTextStart(clauses: seq<string>)
    requires clauses != []
    ensures StartsWith(WhereText(clauses), "\n\tWHERE " + clauses[0])
    decreases |clauses|
  {
    var p := "\n\tWHERE " + clauses[0];
    if |clauses| == 1 {
      WhereTextOne(clauses[0]);
      assert clauses == [clauses[0]];
      assert p[..|p|] == p;
    } else {
      var init := clauses[..|clauses| - 1];
      WhereTextStart(init);
      assert init[0] == clauses[0];
      WhereTextStep(clauses, p);
    }
  }

  /** A second clause follows the first after `and`. */
  lemma WhereTextTwo(a: string, b: string)
    ensures WhereText([a, b]) == "\n\tWHERE " + a + "\n\tand " + b
  {
    assert [a, b][..1] == [a];
    assert [a][..0] == [];
  }

  /** `(page - 1) * 30` in `usize` arithmetic as a release build computes it: modulo 2^64. */
  function WrappingOffset(page: Usize): (r: Usize)
    ensures 1 <= page && (page - 1) * PageSize < UsizeLimit ==> r == (page - 1) * PageSize
  {
    (((page - 1) % UsizeLimit) * PageSize) % UsizeLimit
  }

  /** Page 0 does not mean the first page: the subtraction wraps around to the largest `usize`. */
  lemma WrappingOffsetPageZero()
    ensures WrappingOffset(0) == UsizeLimit - PageSize
  {
  }

  /** The OFFSET appended for a requested page. */
  function OffsetText(page: Option<Usize>): string {
    match page
    case None => ""
    case Some(p) => " OFFSET " + Decimal(WrappingOffset(p))
  }

  /**
   * `search_db` up to running the queries: the list query, the count query,
   * the clauses in the order they were added and their parameters in the same order.
   */
  method SearchQueries(params: SearchParams)
      returns (query: string, countQuery: string, whereClauses: seq<string>, whereParams: seq<string>)
    ensures |whereClauses| == |whereParams| <= 2
    ensures var title := ToLower(params.title.GetOr(""));
      (title != "" <==> (|whereClauses| > 0 && whereClauses[0] == TitleClause(1)))
      && (title != "" ==> whereParams[0] == title)
    ensures var genre := params.genre.GetOr("");
      (genre != "" <==> (|whereClauses| > 0 && whereClauses[|whereClauses| - 1] == GenreClause(|whereClauses|)))
      && (genre != "" ==> whereParams[|whereParams| - 1] == genre)
    ensures params.genre.GetOr("") != "" ==>
      whereClauses[|whereClauses| - 1] == GenreClause(if ToLower(params.title.GetOr("")) != "" then 2 else 1)
    ensures query == ListSelect + WhereText(whereClauses) + ListTail + OffsetText(params.page)
    ensures countQuery == CountSelect + WhereText(whereClauses)
  {
    whereClauses, whereParams := Filters(params);
    var whereClause := JoinWhere(whereClauses);
    query := ListSelect + whereClause;
    countQuery := CountSelect + whereClause;
    query := query + ListTail;
    if params.page.Some? {
      ConcatAssoc(query, " OFFSET ", Decimal(WrappingOffset(params.page.value)));
      query := query + " OFFSET " + Decimal(WrappingOffset(params.page.value));
    } else {
      assert query + OffsetText(params.page) == query;
    }
  }

  /** The filters of `search_db`: a title clause numbered 1, then a genre clause numbered after it. */
  method Filters(params: SearchParams) returns (whereClauses: seq<string>, whereParams: seq<string>)
    ensures |whereClauses| == |whereParams| <= 2
    ensures var title := ToLower(params.title.GetOr(""));
      (title != "" <==> (|whereClauses| > 0 && whereClauses[0] == TitleClause(1)))
      && (title != "" ==> whereParams[0] == title)
    ensures var genre := params.genre.GetOr("");
      (genre != "" <==> (|whereClauses| > 0 && whereClauses[|whereClauses| - 1] == GenreClause(|whereClauses|)))
      && (genre != "" ==> whereParams[|whereParams| - 1] == genre)
    ensures params.genre.GetOr("") != "" ==>
      whereClauses[|whereClauses| - 1] == GenreClause(if ToLower(params.title.GetOr("")) != "" then 2 else 1)
  {
    whereClauses := [];
    whereParams := [];
    var clauseNb := 1;

    var titleParam := TitleClause(clauseNb);
    var title := ToLower(params.title.GetOr(""));
    if title != "" {
      whereClauses := whereClauses + [titleParam];
      clauseNb := clauseNb + 1;
      whereParams := whereParams + [title];
    }

    var genreParam := GenreClause(clauseNb);
    var genre := params.genre.GetOr("");
    if genre != "" {
      whereClauses := whereClauses + [genreParam];
      whereParams := whereParams + [genre];
    }
    TitleIsNotGenre(1, 1);
  }

  /** The loop that joins the clauses into the WHERE text. */
  method JoinWhere(whereClauses: seq<string>) returns (whereClause: string)
    ensures whereClause == WhereText(whereClauses)
    ensures whereClauses != [] ==> StartsWith(whereClause, "\n\tWHERE " + whereClauses[0])
  {
    whereClause := "";
    for idx := 0 to |whereClauses|
      invariant whereClause == WhereText(whereClauses[..idx])
    {
      assert whereClauses[..idx + 1][..idx] == whereClauses[..idx];
      whereClause := whereClause + Connective(idx) + whereClauses[idx];
    }
    assert whereClauses[..|whereClauses|] == whereClauses;
    if whereClauses != [] {
      WhereTextStart(whereClauses);
    }
  }

  /** The title and genre filters are never confused: their texts differ. */
  lemma TitleIsNotGenre(m: nat, n: nat)
    ensures TitleClause(m) != GenreClause(n)
  {
    assert TitleClause(m)[1] == '.' && GenreClause(n)[1] == 'g';
  }
}
