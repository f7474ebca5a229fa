/**
 * The release record of the TypeScript scrapers (`parsedContentSchema` in
 * `src/index.ts` and `src/pages/db/_sync.ts`): the object `getGame` fills
 * in field by field, and the zod check that turns it into a validated game
 * or throws.
 */
module WebRecords {
  import opened Wrappers
  import opened Timestamp

  /**
   * The two copies of the scraper. They differ in how they treat missing
   * elements: `Script` is `src/index.ts`, which reads properties of whatever
   * the selectors return and so fails with a TypeError; `Site` is
   * `src/pages/db/_sync.ts`, which checks and throws its own errors.
   */
  datatype Variant = Script | Site

  /** How a call of the scrapers ends when it does not return. */
  datatype JsError =
    | TypeError              // a property read on `null` or `undefined`
    | Thrown(message: string) // an explicit `throw new Error(message)`
    | SchemaError            // `parsedContentSchema.parse` rejected the object
    | FetchError             // a request failed (the network is not modelled)
    | ConstraintError        // the database refused a row that breaks a unique constraint

  /** A link as the mirror `reduce` builds it; `link` is `a.attrs.href`, which may be undefined. */
  datatype DraftLink = DraftLink(name: string, link: Option<string>)

  /** A mirror as the `reduce` builds it from a non-empty list of anchors. */
  datatype DraftMirror = DraftMirror(name: string, links: seq<DraftLink>)

  /** What the reduce over the `strong` elements yields; a field no strong set is `None`. */
  datatype Tags = Tags(
    genres: Option<seq<string>>,
    companies: Option<seq<string>>,
    languages: Option<seq<string>>,
    originalSize: Option<string>,
    repackSize: Option<string>)

  function NoTags(): (t: Tags)
    ensures t.genres.None? && t.companies.None? && t.languages.None?
    ensures t.originalSize.None? && t.repackSize.None?
  {
    Tags(None, None, None, None, None)
  }

  /**
   * `parsedContent` before validation. `published` is `None` for an
   * Invalid Date; a mirror is `None` where the reduce returned its initial
   * `{}`; a screenshot is `None` where the image had no `src`.
   */
  datatype Draft = Draft(
    published: Option<DateTime>,
    title: string,
    link: string,
    coverSrc: Option<string>,
    tags: Tags,
    mirrors: Option<seq<Option<DraftMirror>>>,
    screenshots: Option<seq<Option<string>>>,
    repackDescription: Option<string>,
    gameDescription: Option<string>)

  datatype WebLink = WebLink(name: string, link: string)

  datatype WebMirror = WebMirror(name: string, links: seq<WebLink>)

  /** A value `parsedContentSchema` accepted. */
  datatype Game = Game(
    title: string,
    link: string,
    published: DateTime,
    coverSrc: string,
    genres: seq<string>,
    companies: seq<string>,
    languages: seq<string>,
    originalSize: string,
    repackSize: string,
    mirrors: seq<WebMirror>,
    screenshots: Option<seq<string>>,
    repackDescription: Option<string>,
    gameDescription: Option<string>)

  predicate LinkValid(l: DraftLink) {
    l.link.Some?
  }

  predicate MirrorValid(m: Option<DraftMirror>) {
    m.Some? && forall k :: 0 <= k < |m.value.links| ==> LinkValid(m.value.links[k])
  }

  function LinkOf(l: DraftLink): WebLink
    requires LinkValid(l)
  {
    WebLink(l.name, l.link.value)
  }

  function LinksOf(links: seq<DraftLink>): (r: seq<WebLink>)
    requires forall k :: 0 <= k < |links| ==> LinkValid(links[k])
    ensures |r| == |links|
    ensures forall k :: 0 <= k < |r| ==> r[k] == LinkOf(links[k])
  {
    if links == [] then [] else [LinkOf(links[0])] + LinksOf(links[1..])
  }

  function MirrorOf(m: Option<DraftMirror>): WebMirror
    requires MirrorValid(m)
  {
    WebMirror(m.value.name, LinksOf(m.value.links))
  }

  function MirrorsOf(ms: seq<Option<DraftMirror>>): (r: seq<WebMirror>)
    requires forall k :: 0 <= k < |ms| ==> MirrorValid(ms[k])
    ensures |r| == |ms|
    ensures forall k :: 0 <= k < |r| ==> r[k] == MirrorOf(ms[k])
  {
    if ms == [] then [] else [MirrorOf(ms[0])] + MirrorsOf(ms[1..])
  }

  function Present(xs: seq<Option<string>>): (r: seq<string>)
    requires forall k :: 0 <= k < |xs| ==> xs[k].Some?
    ensures |r| == |xs|
    ensures forall k :: 0 <= k < |r| ==> Some(r[k]) == xs[k]
  {
    if xs == [] then [] else [xs[0].value] + Present(xs[1..])
  }

  /** `parsedContentSchema.parse`: every required field present and of its type, the optional ones absent or of their type. */
  function Schema(d: Draft): (r: Result<Game, JsError>)
    ensures r.Failure? ==> r.error == SchemaError
    ensures r.Success? ==>
      && r.value.title == d.title && r.value.link == d.link
      && Some(r.value.published) == d.published
      && Some(r.value.coverSrc) == d.coverSrc
      && Some(r.value.genres) == d.tags.genres
      && Some(r.value.companies) == d.tags.companies
      && Some(r.value.languages) == d.tags.languages
      && Some(r.value.originalSize) == d.tags.originalSize
      && Some(r.value.repackSize) == d.tags.repackSize
      && r.value.repackDescription == d.repackDescription
      && r.value.gameDescription == d.gameDescription
      && (r.value.screenshots.Some? <==> d.screenshots.Some?)
    ensures r.Success? ==>
      && d.mirrors.Some?
      && (forall k :: 0 <= k < |d.mirrors.value| ==> MirrorValid(d.mirrors.value[k]))
      && r.value.mirrors == MirrorsOf(d.mirrors.value)
    ensures r.Success? && d.screenshots.Some? ==>
      && (forall k :: 0 <= k < |d.screenshots.value| ==> d.screenshots.value[k].Some?)
      && r.value.screenshots == Some(Present(d.screenshots.value))
  {
    if d.published.None? || d.coverSrc.None?
       || d.tags.genres.None? || d.tags.companies.None? || d.tags.languages.None?
       || d.tags.originalSize.None? || d.tags.repackSize.None? || d.mirrors.None?
    then Failure(SchemaError)
    else if !(forall k :: 0 <= k < |d.mirrors.value| ==> MirrorValid(d.mirrors.value[k])) then Failure(SchemaError)
    else if d.screenshots.Some? && !(forall k :: 0 <= k < |d.screenshots.value| ==> d.screenshots.value[k].Some?) then
      Failure(SchemaError)
    else
      Success(Game(
        d.title, d.link, d.published.value, d.coverSrc.value,
        d.tags.genres.value, d.tags.companies.value, d.tags.languages.value,
        d.tags.originalSize.value, d.tags.repackSize.value,
        MirrorsOf(d.mirrors.value),
        if d.screenshots.Some? then Some(Present(d.screenshots.value)) else None,
        d.repackDescription, d.gameDescription))
  }

  /**
   * The check throws on a missing required field, on a mirror the reduce
   * left empty, on a link without `href` and on an image without `src`;
   * the screenshots and the two descriptions may be missing.
   */
  lemma SchemaRejects(d: Draft)
    ensures d.published.None? || d.coverSrc.None? || d.mirrors.None? ==> Schema(d).Failure?
    ensures d.tags.genres.None? || d.tags.companies.None? || d.tags.languages.None? ==> Schema(d).Failure?
    ensures d.tags.originalSize.None? || d.tags.repackSize.None? ==> Schema(d).Failure?
    ensures d.mirrors.Some? && None in d.mirrors.value ==> Schema(d).Failure?
    ensures d.screenshots.Some? && None in d.screenshots.value ==> Schema(d).Failure?
  {
  }

  /** With the required fields present and well formed, the check passes whatever the optional fields are. */
  lemma SchemaAccepts(d: Draft)
    requires d.published.Some? && d.coverSrc.Some? && d.mirrors.Some?
    requires d.tags.genres.Some? && d.tags.companies.Some? && d.tags.languages.Some?
    requires d.tags.originalSize.Some? && d.tags.repackSize.Some?
    requires forall k :: 0 <= k < |d.mirrors.value| ==> MirrorValid(d.mirrors.value[k])
    requires d.screenshots.None? || forall k :: 0 <= k < |d.screenshots.value| ==> d.screenshots.value[k].Some?
    ensures Schema(d).Success?
    ensures Schema(d.(repackDescription := None, gameDescription := None)).Success?
    ensures Schema(d.(screenshots := None)).Success?
  {
  }
}
