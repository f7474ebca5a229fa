/**
 * The reduce over the `strong` elements of a post in the TypeScript
 * scrapers: the text before each one names the field, the text of the
 * element gives its values.
 */
module PageTags {
  import opened Wrappers
  import opened Text
  import opened Markup
  import opened WebRecords
  import opened PageDecode
  import RssExtract

  // ---------------------------------------------------------------------------
  // The `strong` reduce

  /**
   * One `strong`: the lowercased text before it selects the field (in the
   * order genre, compan, language, original, repack), and the new value
   * replaces whatever an earlier strong of that field gave.
   */
  function StrongStep(v: Variant, acc: Tags, s: Strong): Result<Tags, JsError> {
    if s.category.None? then
      if v == Script then Failure(TypeError) else Failure(Thrown("Category is missing"))
    else
      var category := ToLower(s.category.value);
      if v == Site && category == "" then Failure(Thrown("Category is missing"))
      else
        var f := RssExtract.FieldOf(category);
        if f == Some(RssExtract.GenreField) then Success(acc.(genres := Some(ListValues(s.text))))
        else if f == Some(RssExtract.CompanyField) then Success(acc.(companies := Some(ListValues(s.text))))
        else if f == Some(RssExtract.LanguageField) then Success(acc.(languages := Some(LanguageValues(s.text))))
        else if f == Some(RssExtract.OriginalSizeField) then Success(acc.(originalSize := Some(Decode(s.text))))
        else if f == Some(RssExtract.RepackSizeField) then Success(acc.(repackSize := Some(Decode(s.text))))
        else Success(acc)
  }

  /** The reduce over the strongs, from `acc`; the first throw ends it. */
  function Strongs(v: Variant, strongs: seq<Strong>, acc: Tags): Result<Tags, JsError> {
    if strongs == [] then Success(acc)
    else match StrongStep(v, acc, strongs[0])
      case Failure(e) => Failure(e)
      case Success(next) => Strongs(v, strongs[1..], next)
  }

  /** A strong that makes the reduce throw. */
  predicate BadCategory(v: Variant, s: Strong) {
    s.category.None? || (v == Site && s.category.value == "")
  }

  /** The field a strong selects. */
  function FieldOfStrong(s: Strong): Option<RssExtract.InfoField> {
    if s.category.None? then None else RssExtract.FieldOf(ToLower(s.category.value))
  }

  /** The last strong that selects `f`. */
  function LastStrong(strongs: seq<Strong>, f: RssExtract.InfoField): (r: Option<Strong>)
    ensures r.Some? ==> r.value in strongs && FieldOfStrong(r.value) == Some(f)
  {
    if strongs == [] then None
    else match LastStrong(strongs[1..], f)
      case Some(s) => Some(s)
      case None => if FieldOfStrong(strongs[0]) == Some(f) then Some(strongs[0]) else None
  }

  /** What the strongs leave: each field from the last strong that selects it, or as it was. */
  function StrongsEffect(strongs: seq<Strong>, acc: Tags): Tags {
    Tags(
      match LastStrong(strongs, RssExtract.GenreField) case Some(s) => Some(ListValues(s.text)) case None => acc.genres,
      match LastStrong(strongs, RssExtract.CompanyField) case Some(s) => Some(ListValues(s.text)) case None => acc.companies,
      match LastStrong(strongs, RssExtract.LanguageField) case Some(s) => Some(LanguageValues(s.text)) case None => acc.languages,
      match LastStrong(strongs, RssExtract.OriginalSizeField) case Some(s) => Some(Decode(s.text)) case None => acc.originalSize,
      match LastStrong(strongs, RssExtract.RepackSizeField) case Some(s) => Some(Decode(s.text)) case None => acc.repackSize)
  }

  lemma ToLowerEmpty(s: string)
    ensures ToLower(s) == "" <==> s == ""
  {
    if s != [] {
      assert |ToLower(s)| == |s|;
    }
  }

  lemma LastStrongSingle(s: Strong, f: RssExtract.InfoField)
    ensures LastStrong([s], f) == if FieldOfStrong(s) == Some(f) then Some(s) else None
  {
    assert [s][1..] == [];
  }

  lemma StrongStepEffect(v: Variant, acc: Tags, s: Strong)
    requires !BadCategory(v, s)
    ensures StrongStep(v, acc, s) == Success(StrongsEffect([s], acc))
  {
    ToLowerEmpty(s.category.value);
    LastStrongSingle(s, RssExtract.GenreField);
    LastStrongSingle(s, RssExtract.CompanyField);
    LastStrongSingle(s, RssExtract.LanguageField);
    LastStrongSingle(s, RssExtract.OriginalSizeField);
    LastStrongSingle(s, RssExtract.RepackSizeField);
  }

  lemma LastStrongCons(strongs: seq<Strong>, f: RssExtract.InfoField)
    requires strongs != []
    ensures LastStrong(strongs, f) ==
      if LastStrong(strongs[1..], f).Some? then LastStrong(strongs[1..], f) else LastStrong([strongs[0]], f)
  {
    assert [strongs[0]][1..] == [];
  }

  lemma StrongsEffectCons(strongs: seq<Strong>, acc: Tags)
    requires strongs != []
    ensures StrongsEffect(strongs[1..], StrongsEffect([strongs[0]], acc)) == StrongsEffect(strongs, acc)
  {
    LastStrongCons(strongs, RssExtract.GenreField);
    LastStrongCons(strongs, RssExtract.CompanyField);
    LastStrongCons(strongs, RssExtract.LanguageField);
    LastStrongCons(strongs, RssExtract.OriginalSizeField);
    LastStrongCons(strongs, RssExtract.RepackSizeField);
  }

  /**
   * The reduce throws exactly when some strong has no text before it (or,
   * in `Site`, an empty one); otherwise a later strong of a field replaces
   * an earlier one.
   */
  lemma {:induction false} StrongsResult(v: Variant, strongs: seq<Strong>, acc: Tags)
    ensures Strongs(v, strongs, acc).Failure? <==> exists k :: 0 <= k < |strongs| && BadCategory(v, strongs[k])
    ensures Strongs(v, strongs, acc).Success? ==> Strongs(v, strongs, acc).value == StrongsEffect(strongs, acc)
    decreases |strongs|
  {
    if strongs != [] {
      var s := strongs[0];
      if BadCategory(v, s) {
        if s.category.Some? {
          ToLowerEmpty(s.category.value);
        }
      } else {
        StrongStepEffect(v, acc, s);
        StrongsResult(v, strongs[1..], StrongsEffect([s], acc));
        StrongsEffectCons(strongs, acc);
        if exists k :: 0 <= k < |strongs[1..]| && BadCategory(v, strongs[1..][k]) {
          var k :| 0 <= k < |strongs[1..]| && BadCategory(v, strongs[1..][k]);
          assert BadCategory(v, strongs[k + 1]);
        }
        if exists k :: 0 <= k < |strongs| && BadCategory(v, strongs[k]) {
          var k :| 0 <= k < |strongs| && BadCategory(v, strongs[k]);
          assert k > 0;
          assert BadCategory(v, strongs[1..][k - 1]);
        }
      }
    }
  }
}
