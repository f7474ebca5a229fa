/**
 * The sections of a post in the TypeScript scrapers: the mirror reduce,
 * the loop over the headed lists, and the fallback markup collected after
 * the header when a page has no `.entry-content`.
 */
module PageSections {
  import opened Wrappers
  import opened Text
  import opened Markup
  import opened WebRecords
  import opened PageDecode

  // ---------------------------------------------------------------------------
  // The mirror reduce

  /** The reduce over the anchors after the first: each one's link appended with its name decoded. */
  function ReduceFrom(rest: seq<Anchor>, acc: DraftMirror): (r: DraftMirror)
    ensures r.name == acc.name
  {
    if rest == [] then acc
    else ReduceFrom(rest[1..], acc.(links := acc.links + [LaterLink(rest[0])]))
  }

  /** The reduce over the anchors of one `li`, from `{}`: `None` when the item has no anchor. */
  function MirrorReduce(anchors: seq<Anchor>): Option<DraftMirror> {
    if anchors == [] then None
    else
      var a := anchors[0];
      Some(ReduceFrom(anchors[1..], DraftMirror(Decode(a.text), [DraftLink(a.text, a.href)])))
  }

  /** A link after the first: its name decoded, its `href` kept. */
  function LaterLink(a: Anchor): DraftLink {
    DraftLink(Decode(a.text), a.href)
  }

  function LaterLinks(anchors: seq<Anchor>): (r: seq<DraftLink>)
    ensures |r| == |anchors|
  {
    if anchors == [] then [] else [LaterLink(anchors[0])] + LaterLinks(anchors[1..])
  }

  lemma {:induction false} LaterLinksAt(anchors: seq<Anchor>, k: nat)
    requires k < |anchors|
    ensures LaterLinks(anchors)[k] == LaterLink(anchors[k])
    decreases k
  {
    if k > 0 {
      LaterLinksAt(anchors[1..], k - 1);
    }
  }

  lemma {:induction false} ReduceFromLinks(rest: seq<Anchor>, acc: DraftMirror)
    ensures ReduceFrom(rest, acc).links == acc.links + LaterLinks(rest)
    decreases |rest|
  {
    if rest == [] {
      assert acc.links + [] == acc.links;
    } else {
      var l := LaterLink(rest[0]);
      ReduceFromLinks(rest[1..], acc.(links := acc.links + [l]));
      ConcatAssoc(acc.links, [l], LaterLinks(rest[1..]));
    }
  }

  lemma MirrorReduceLinks(anchors: seq<Anchor>)
    requires anchors != []
    ensures MirrorReduce(anchors).Some?
    ensures MirrorReduce(anchors).value.name == Decode(anchors[0].text)
    ensures MirrorReduce(anchors).value.links == [DraftLink(anchors[0].text, anchors[0].href)] + LaterLinks(anchors[1..])
  {
    var a := anchors[0];
    ReduceFromLinks(anchors[1..], DraftMirror(Decode(a.text), [DraftLink(a.text, a.href)]));
  }

  /**
   * The mirror of an `li` with anchors: its name is the first anchor's
   * decoded text; its links are all anchors in order, the first one's name
   * raw and the others' decoded.
   */
  lemma MirrorReduceShape(anchors: seq<Anchor>)
    ensures MirrorReduce(anchors).None? <==> anchors == []
    ensures anchors != [] ==>
      var m := MirrorReduce(anchors).value;
      && m.name == Decode(anchors[0].text)
      && |m.links| == |anchors|
      && m.links[0] == DraftLink(anchors[0].text, anchors[0].href)
      && forall k :: 1 <= k < |anchors| ==> m.links[k] == DraftLink(Decode(anchors[k].text), anchors[k].href)
  {
    if anchors != [] {
      MirrorReduceLinks(anchors);
      var m := MirrorReduce(anchors).value;
      var later := LaterLinks(anchors[1..]);
      forall k | 1 <= k < |anchors|
        ensures m.links[k] == DraftLink(Decode(anchors[k].text), anchors[k].href)
      {
        assert m.links[k] == later[k - 1];
        LaterLinksAt(anchors[1..], k - 1);
        assert anchors[1..][k - 1] == anchors[k];
      }
      assert m.links[0] == DraftLink(anchors[0].text, anchors[0].href);
    }
  }

  /** One mirror per `li`. */
  function MirrorsOfItems(items: seq<seq<Anchor>>): (r: seq<Option<DraftMirror>>)
    ensures |r| == |items|
  {
    if items == [] then [] else [MirrorReduce(items[0])] + MirrorsOfItems(items[1..])
  }


  // ---------------------------------------------------------------------------
  // Sections

  /** The text of a section's previous element sibling (`rawText`), if there is one. */
  function HeadingText(sec: Section): Option<string> {
    match sec.prevText case Some(texts) => Some(Collect(texts)) case None => None
  }

  /** The field a heading sets. */
  datatype HeadingKind = ScreenshotsHeading | RepackHeading | MirrorsHeading | OtherHeading

  /** The whole heading text is tested for "Screenshots", "Repack" and "Mirrors" in turn. */
  function KindOf(text: string): HeadingKind {
    if Contains(text, "Screenshots") then ScreenshotsHeading
    else if Contains(text, "Repack") then RepackHeading
    else if Contains(text, "Mirrors") then MirrorsHeading
    else OtherHeading
  }

  /**
   * One section. Without a previous sibling `Script` reads a property of
   * `null` and `Site` tests nothing.
   */
  function SectionStep(v: Variant, c: Content, sec: Section, d: Draft): Result<Draft, JsError> {
    match HeadingText(sec)
    case None => if v == Script then Failure(TypeError) else Success(d)
    case Some(text) =>
      match KindOf(text)
      case ScreenshotsHeading => Success(d.(screenshots := Some(c.images)))
      case RepackHeading => Success(d.(repackDescription := Some(JsTrim(sec.innerHtml))))
      case MirrorsHeading => Success(d.(mirrors := Some(MirrorsOfItems(sec.items))))
      case OtherHeading => Success(d)
  }

  /** The loop over the sections. */
  function Sections(v: Variant, c: Content, secs: seq<Section>, d: Draft): Result<Draft, JsError> {
    if secs == [] then Success(d)
    else match SectionStep(v, c, secs[0], d)
      case Failure(e) => Failure(e)
      case Success(next) => Sections(v, c, secs[1..], next)
  }

  /** `for (const section of sections)`, updating `parsedContent` in place. */
  method ApplySections(v: Variant, c: Content, d: Draft) returns (r: Result<Draft, JsError>)
    ensures r == Sections(v, c, c.sections, d)
  {
    var parsed := d;
    for i := 0 to |c.sections|
      invariant Sections(v, c, c.sections, d) == Sections(v, c, c.sections[i..], parsed)
    {
      var section := c.sections[i];
      assert c.sections[i..][1..] == c.sections[i + 1..];
      if section.prevText.None? {
        if v == Script {
          return Failure(TypeError);
        }
      } else {
        var text := Collect(section.prevText.value);
        if Contains(text, "Screenshots") {
          parsed := parsed.(screenshots := Some(c.images));
        } else if Contains(text, "Repack") {
          parsed := parsed.(repackDescription := Some(JsTrim(section.innerHtml)));
        } else if Contains(text, "Mirrors") {
          parsed := parsed.(mirrors := Some(MirrorsOfItems(section.items)));
        }
      }
    }
    assert c.sections[|c.sections|..] == [];
    r := Success(parsed);
  }

  /** In `Site` a section without a previous sibling is skipped; in `Script` it makes `getGame` fail. */
  lemma {:induction false} SectionsFailure(v: Variant, c: Content, secs: seq<Section>, d: Draft)
    ensures v == Site ==> Sections(v, c, secs, d).Success?
    ensures v == Script ==>
      (Sections(v, c, secs, d).Failure? <==> exists k :: 0 <= k < |secs| && secs[k].prevText.None?)
    decreases |secs|
  {
    if secs != [] {
      var step := SectionStep(v, c, secs[0], d);
      if step.Success? {
        SectionsFailure(v, c, secs[1..], step.value);
        if exists k :: 0 <= k < |secs[1..]| && secs[1..][k].prevText.None? {
          var k :| 0 <= k < |secs[1..]| && secs[1..][k].prevText.None?;
          assert secs[k + 1].prevText.None?;
        }
        if exists k :: 0 <= k < |secs| && secs[k].prevText.None? {
          var k :| 0 <= k < |secs| && secs[k].prevText.None?;
          if k > 0 {
            assert secs[1..][k - 1].prevText.None?;
          }
        }
      }
    }
  }

  /** One section sets only the screenshots, the repack description or the mirrors. */
  lemma SectionStepKeeps(v: Variant, c: Content, sec: Section, d: Draft)
    requires SectionStep(v, c, sec, d).Success?
    ensures var e := SectionStep(v, c, sec, d).value;
      e == d.(screenshots := e.screenshots, repackDescription := e.repackDescription, mirrors := e.mirrors)
  {
  }

  /** The sections set only the screenshots, the repack description and the mirrors. */
  lemma {:induction false} SectionsKeep(v: Variant, c: Content, secs: seq<Section>, d: Draft)
    requires Sections(v, c, secs, d).Success?
    ensures var e := Sections(v, c, secs, d).value;
      e == d.(screenshots := e.screenshots, repackDescription := e.repackDescription, mirrors := e.mirrors)
    decreases |secs|
  {
    if secs != [] {
      var step := SectionStep(v, c, secs[0], d);
      SectionStepKeeps(v, c, secs[0], d);
      SectionsKeep(v, c, secs[1..], step.value);
    }
  }

  /** The last section with a previous sibling whose heading is of `kind`. */
  function LastHeaded(secs: seq<Section>, kind: HeadingKind): (r: Option<Section>)
    ensures r.Some? ==> r.value in secs && HeadingText(r.value).Some? && KindOf(HeadingText(r.value).value) == kind
  {
    if secs == [] then None
    else match LastHeaded(secs[1..], kind)
      case Some(s) => Some(s)
      case None =>
        if HeadingText(secs[0]).Some? && KindOf(HeadingText(secs[0]).value) == kind then Some(secs[0]) else None
  }

  /** What the section loop leaves in the draft: each of the three fields from the last section of its kind, or as it was. */
  function SectionsEffect(c: Content, secs: seq<Section>, d: Draft): Draft {
    d.(
      screenshots := if LastHeaded(secs, ScreenshotsHeading).Some? then Some(c.images) else d.screenshots,
      repackDescription := match LastHeaded(secs, RepackHeading)
        case Some(s) => Some(JsTrim(s.innerHtml)) case None => d.repackDescription,
      mirrors := match LastHeaded(secs, MirrorsHeading)
        case Some(s) => Some(MirrorsOfItems(s.items)) case None => d.mirrors)
  }

  lemma LastHeadedCons(secs: seq<Section>, kind: HeadingKind)
    requires secs != []
    ensures LastHeaded(secs, kind) ==
      if LastHeaded(secs[1..], kind).Some? then LastHeaded(secs[1..], kind)
      else if HeadingText(secs[0]).Some? && KindOf(HeadingText(secs[0]).value) == kind then Some(secs[0])
      else None
  {
  }

  /** One step of the loop, then the effect of the rest, is the effect of all the sections. */
  lemma SectionsEffectCons(v: Variant, c: Content, secs: seq<Section>, d: Draft)
    requires secs != [] && SectionStep(v, c, secs[0], d).Success?
    ensures SectionsEffect(c, secs[1..], SectionStep(v, c, secs[0], d).value) == SectionsEffect(c, secs, d)
  {
    var d1 := SectionStep(v, c, secs[0], d).value;
    LastHeadedCons(secs, ScreenshotsHeading);
    LastHeadedCons(secs, RepackHeading);
    LastHeadedCons(secs, MirrorsHeading);
    match HeadingText(secs[0]) {
      case None =>
        assert d1 == d;
      case Some(text) =>
        match KindOf(text) {
          case ScreenshotsHeading =>
            assert d1 == d.(screenshots := Some(c.images));
          case RepackHeading =>
            assert d1 == d.(repackDescription := Some(JsTrim(secs[0].innerHtml)));
          case MirrorsHeading =>
            assert d1 == d.(mirrors := Some(MirrorsOfItems(secs[0].items)));
          case OtherHeading =>
            assert d1 == d;
        }
    }
  }

  /** When the loop gets through, each of the three fields comes from the last section of its kind. */
  lemma {:induction false} SectionsLast(v: Variant, c: Content, secs: seq<Section>, d: Draft)
    requires Sections(v, c, secs, d).Success?
    ensures Sections(v, c, secs, d).value == SectionsEffect(c, secs, d)
    decreases |secs|
  {
    if secs == [] {
      assert SectionsEffect(c, secs, d) == d;
    } else {
      var d1 := SectionStep(v, c, secs[0], d).value;
      SectionsLast(v, c, secs[1..], d1);
      SectionsEffectCons(v, c, secs, d);
    }
  }

  // ---------------------------------------------------------------------------
  // The fallback content

  /** The siblings before the first STYLE. */
  function UntilStyle(sibs: seq<Sibling>): (r: seq<Sibling>)
    ensures |r| <= |sibs| && r == sibs[..|r|]
    ensures forall k :: 0 <= k < |r| ==> r[k].tag != "STYLE"
    ensures |r| < |sibs| ==> sibs[|r|].tag == "STYLE"
  {
    if sibs == [] || sibs[0].tag == "STYLE" then []
    else [sibs[0]] + UntilStyle(sibs[1..])
  }

  /**
   * The elements the fallback collects after `header.entry-header`: the
   * first sibling whatever its tag, then the following ones up to the next
   * STYLE. `Script` fails without a header or without any sibling; `Site`
   * throws without a header and collects nothing without a sibling.
   */
  function Fallback(v: Variant, header: Option<seq<Sibling>>): Result<seq<Sibling>, JsError> {
    match header
    case None => if v == Script then Failure(TypeError) else Failure(Thrown("Header is missing"))
    case Some(sibs) =>
      if sibs == [] then (if v == Script then Failure(TypeError) else Success([]))
      else Success([sibs[0]] + UntilStyle(sibs[1..]))
  }

  lemma {:induction false} UntilStyleIs(sibs: seq<Sibling>, n: nat)
    requires n <= |sibs|
    requires forall k :: 0 <= k < n ==> sibs[k].tag != "STYLE"
    requires n == |sibs| || sibs[n].tag == "STYLE"
    ensures UntilStyle(sibs) == sibs[..n]
    decreases n
  {
    if n > 0 {
      UntilStyleIs(sibs[1..], n - 1);
      assert sibs[..n] == [sibs[0]] + sibs[1..][..n - 1];
    }
  }

  /** The `while` loop that walks the header's following siblings. */
  method CollectFallback(v: Variant, header: Option<seq<Sibling>>) returns (r: Result<seq<Sibling>, JsError>)
    ensures r == Fallback(v, header)
  {
    if header.None? {
      if v == Script {
        return Failure(TypeError);
      }
      return Failure(Thrown("Header is missing"));
    }
    var sibs := header.value;
    if sibs == [] {
      if v == Script {
        return Failure(TypeError);
      }
      return Success([]);
    }
    var elements := [];
    var current := 0;
    while true
      invariant 0 <= current < |sibs|
      invariant elements == sibs[..current]
      invariant forall k :: 1 <= k <= current ==> sibs[k].tag != "STYLE"
      decreases |sibs| - current
    {
      elements := elements + [sibs[current]];
      current := current + 1;
      if current == |sibs| || sibs[current].tag == "STYLE" {
        break;
      }
    }
    UntilStyleIs(sibs[1..], current - 1);
    assert elements == [sibs[0]] + sibs[1..][..current - 1];
    return Success(elements);
  }

  /** The fallback markup handed back to the HTML parser. */
  function FallbackHtml(elements: seq<Sibling>): string {
    if elements == [] then "" else elements[0].outerHtml + FallbackHtml(elements[1..])
  }
}
