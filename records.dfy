/**
 * The records the Rust side stores and renders (`src/db/mod.rs`): a download
 * link, a mirror (an ordered list of links), and a release with its ten
 * fields, built through a builder in which every field is required.
 */
module Records {
  import opened Wrappers
  import opened Timestamp

  /** One download link of a mirror: the anchor text and its target. */
  datatype Link = Link(name: string, link: string)

  /** A download mirror: its links in document order. */
  datatype Mirror = Mirror(links: seq<Link>)

  /** `Mirror::default()`. */
  function DefaultMirror(): (m: Mirror)
    ensures m.links == []
  {
    Mirror([])
  }

  datatype Release = Release(
    title: string,
    link: string,
    published: DateTime,
    coverSrc: string,
    originalSize: string,
    repackSize: string,
    mirrors: seq<Mirror>,
    screenshots: seq<string>,
    repackDescription: string,
    gameDescription: string)

  /** `ReleaseBuilder`: each field is unset until its setter is called. */
  datatype ReleaseBuilder = ReleaseBuilder(
    title: Option<string>,
    link: Option<string>,
    published: Option<DateTime>,
    coverSrc: Option<string>,
    originalSize: Option<string>,
    repackSize: Option<string>,
    mirrors: Option<seq<Mirror>>,
    screenshots: Option<seq<string>>,
    repackDescription: Option<string>,
    gameDescription: Option<string>)

  /** `ReleaseBuilder::default()`: nothing set. */
  function EmptyBuilder(): ReleaseBuilder {
    ReleaseBuilder(None, None, None, None, None, None, None, None, None, None)
  }

  /** `ReleaseBuilderError::UninitializedField` with the Rust name of the field. */
  datatype BuildError = UninitializedField(field: string)

  /** The Rust names of the fields, in declaration order. */
  const FieldNames: seq<string> := [
    "title", "link", "published", "cover_src", "original_size",
    "repack_size", "mirrors", "screenshots", "repack_description", "game_description"]

  /** Which fields are set, in declaration order. */
  function SetFields(b: ReleaseBuilder): (r: seq<bool>)
    ensures |r| == |FieldNames|
  {
    [b.title.Some?, b.link.Some?, b.published.Some?, b.coverSrc.Some?, b.originalSize.Some?,
     b.repackSize.Some?, b.mirrors.Some?, b.screenshots.Some?, b.repackDescription.Some?,
     b.gameDescription.Some?]
  }

  /** Index of the first `false`, or the length when there is none. */
  function FirstUnset(flags: seq<bool>): (i: nat)
    ensures i <= |flags|
    ensures forall j :: 0 <= j < i ==> flags[j]
    ensures i < |flags| ==> !flags[i]
  {
    if flags == [] then 0
    else if !flags[0] then 0
    else 1 + FirstUnset(flags[1..])
  }

  /** Every field of the builder has been set. */
  predicate AllSet(b: ReleaseBuilder) {
    && b.title.Some? && b.link.Some? && b.published.Some? && b.coverSrc.Some?
    && b.originalSize.Some? && b.repackSize.Some? && b.mirrors.Some? && b.screenshots.Some?
    && b.repackDescription.Some? && b.gameDescription.Some?
  }

  /** The first `false` is the one every earlier entry precedes. */
  lemma {:induction false} FirstUnsetIs(flags: seq<bool>, i: nat)
    requires i < |flags| && !flags[i]
    requires forall j :: 0 <= j < i ==> flags[j]
    ensures FirstUnset(flags) == i
  {
    if i > 0 {
      assert flags[0];
      FirstUnsetIs(flags[1..], i - 1);
    }
  }

  /**
   * `ReleaseBuilder::build()`: no field has a default, so each field is
   * checked in declaration order and the first one never set is the error.
   */
  function Build(b: ReleaseBuilder): (r: Result<Release, BuildError>)
    ensures r.Success? <==> AllSet(b)
  {
    if b.title.None? then Failure(UninitializedField("title"))
    else if b.link.None? then Failure(UninitializedField("link"))
    else if b.published.None? then Failure(UninitializedField("published"))
    else if b.coverSrc.None? then Failure(UninitializedField("cover_src"))
    else if b.originalSize.None? then Failure(UninitializedField("original_size"))
    else if b.repackSize.None? then Failure(UninitializedField("repack_size"))
    else if b.mirrors.None? then Failure(UninitializedField("mirrors"))
    else if b.screenshots.None? then Failure(UninitializedField("screenshots"))
    else if b.repackDescription.None? then Failure(UninitializedField("repack_description"))
    else if b.gameDescription.None? then Failure(UninitializedField("game_description"))
    else Success(Release(
      b.title.value, b.link.value, b.published.value, b.coverSrc.value, b.originalSize.value,
      b.repackSize.value, b.mirrors.value, b.screenshots.value, b.repackDescription.value,
      b.gameDescription.value))
  }

  /** A failed build names the first field, in declaration order, that was never set. */
  lemma BuildNamesFirstUnset(b: ReleaseBuilder)
    requires !AllSet(b)
    ensures var i := FirstUnset(SetFields(b));
      i < |FieldNames| && Build(b) == Failure(UninitializedField(FieldNames[i]))
  {
    var f := SetFields(b);
    var i: nat :=
      if b.title.None? then 0 else if b.link.None? then 1 else if b.published.None? then 2
      else if b.coverSrc.None? then 3 else if b.originalSize.None? then 4
      else if b.repackSize.None? then 5 else if b.mirrors.None? then 6
      else if b.screenshots.None? then 7 else if b.repackDescription.None? then 8 else 9;
    assert !f[i];
    assert forall j :: 0 <= j < i ==> f[j];
    FirstUnsetIs(f, i);
  }

  /** A built release carries exactly the values that were set. */
  lemma BuildKeepsValues(b: ReleaseBuilder)
    requires Build(b).Success?
    ensures var r := Build(b).value;
      && Some(r.title) == b.title && Some(r.link) == b.link && Some(r.published) == b.published
      && Some(r.coverSrc) == b.coverSrc && Some(r.originalSize) == b.originalSize
      && Some(r.repackSize) == b.repackSize && Some(r.mirrors) == b.mirrors
      && Some(r.screenshots) == b.screenshots
      && Some(r.repackDescription) == b.repackDescription
      && Some(r.gameDescription) == b.gameDescription
  {
  }

  /** A builder that never got its mirrors cannot build, whatever else was set. */
  lemma BuildNeedsMirrors(b: ReleaseBuilder)
    requires b.mirrors.None?
    ensures Build(b).Failure?
  {

  }

  /** Nothing set: the error names `title`. */
  lemma BuildEmpty()
    ensures Build(EmptyBuilder()) == Failure(UninitializedField("title"))
  {

  }
}
