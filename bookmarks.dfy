/**
 * The `toggleBookmark` action (`src/actions/index.ts`): the bookmarked
 * release slugs live in a cookie; toggling a slug removes every copy of it
 * when it is there and appends it otherwise, and answers whether it is now
 * bookmarked.
 */
module Bookmarks {
  import opened Wrappers
  import Text

  /** `list.filter((s) => s != slug)`. */
  function Without<T(==, !new)>(list: seq<T>, slug: T): (r: seq<T>)
    ensures forall x :: x in r <==> x in list && x != slug
    ensures |r| <= |list|
  {
    if list == [] then []
    else (if list[0] == slug then [] else [list[0]]) + Without(list[1..], slug)
  }

  /** Filtering distributes over concatenation, so the other slugs keep their order. */
  lemma {:induction false} WithoutAppend<T(!new)>(a: seq<T>, b: seq<T>, slug: T)
    ensures Without(a + b, slug) == Without(a, slug) + Without(b, slug)
    decreases |a|
  {
    if a == [] {
      assert a + b == b;
    } else {
      WithoutAppend(a[1..], b, slug);
      assert (a + b)[1..] == a[1..] + b;
      assert (a + b)[0] == a[0];
      if a[0] != slug {
        var x, y := Without(a[1..], slug), Without(b, slug);
        assert [a[0]] + (x + y) == ([a[0]] + x) + y;
      }
    }
  }

  /** A list without the slug is left as it is. */
  lemma {:induction false} WithoutAbsent<T(!new)>(list: seq<T>, slug: T)
    requires slug !in list
    ensures Without(list, slug) == list
    decreases |list|
  {
    if list != [] {
      WithoutAbsent(list[1..], slug);
      assert [list[0]] + list[1..] == list;
    }
  }

  /** The new list: without the slug when it was there, with it appended at the end otherwise. */
  function Toggled(list: seq<string>, slug: string): seq<string> {
    if slug in list then Without(list, slug) else list + [slug]
  }

  /** After a toggle the slug is bookmarked exactly when it was not before. */
  lemma ToggledMembership(list: seq<string>, slug: string)
    ensures slug in Toggled(list, slug) <==> slug !in list
  {
  }

  /** Toggling twice a slug that was not bookmarked restores the list. */
  lemma ToggleTwiceRestores(list: seq<string>, slug: string)
    requires slug !in list
    ensures Toggled(Toggled(list, slug), slug) == list
  {
    WithoutAppend(list, [slug], slug);
    WithoutAbsent(list, slug);
    assert Without([slug], slug) == [];
  }

  /** Removing a bookmark drops that one slug: the others keep their relative order. */
  lemma ToggledKeepsOthers(a: seq<string>, b: seq<string>, slug: string)
    requires slug !in a && slug !in b
    ensures Toggled(a + [slug] + b, slug) == a + b
  {
    var list := a + [slug] + b;
    assert list[|a|] == slug;
    WithoutAppend(a + [slug], b, slug);
    WithoutAppend(a, [slug], slug);
    WithoutAbsent(a, slug);
    WithoutAbsent(b, slug);
    assert Without([slug], slug) == [];
    assert Without(a + [slug], slug) == a;
  }

  /** What `cookies.get("bookmarks")?.json()` finds. */
  datatype Cookie =
    | Unset                            // no `bookmarks` cookie: `undefined`
    | NotJson                          // `JSON.parse` throws a SyntaxError
    | JsonNull                         // the JSON value `null`
    | JsonStrings(items: seq<string>)  // a JSON array of strings
    | JsonText(text: string)           // a JSON string
    | JsonOther                        // a JSON number, boolean or object

  /** How the action ends when it throws. */
  datatype ActionError = SyntaxError | TypeError

  /** `[...text]`: one string per character. */
  function Characters(text: string): (r: seq<string>)
    ensures |r| == |text|
    ensures forall k :: 0 <= k < |r| ==> r[k] == [text[k]]
  {
    seq(|text|, k requires 0 <= k < |text| => [text[k]])
  }

  /** The cookie jar of a request, as far as the action sees it. */
  class Session {
    var bookmarks: Cookie

    constructor (cookie: Cookie)
      ensures bookmarks == cookie
    {
      bookmarks := cookie;
    }

    /** The list the action works on: `?? []` turns `undefined` and `null` into an empty list; `None` when the value is no list. */
    function Current(): (r: Option<seq<string>>)
      reads this
      ensures r.Some? <==> bookmarks.Unset? || bookmarks.JsonNull? || bookmarks.JsonStrings?
      ensures bookmarks.JsonStrings? ==> r == Some(bookmarks.items)
      ensures bookmarks.Unset? || bookmarks.JsonNull? ==> r == Some([])
    {
      match bookmarks
      case Unset => Some([])
      case JsonNull => Some([])
      case JsonStrings(items) => Some(items)
      case _ => None
    }

    /**
     * `toggleBookmark(slug)`: rewrites the cookie and answers whether the
     * slug is now bookmarked. A cookie that is not JSON throws in `json()`;
     * a number, boolean or object throws at `includes`. A JSON string has
     * `includes` (a substring test) but no `filter`, so it throws when the
     * slug occurs in it and is spread into its characters otherwise.
     */
    method Toggle(slug: string) returns (r: Result<bool, ActionError>)
      modifies this
      ensures old(Current()).Some? ==>
        && bookmarks == JsonStrings(Toggled(old(Current()).value, slug))
        && r == Success(slug !in old(Current()).value)
      ensures old(bookmarks) == NotJson ==> r == Failure(SyntaxError) && bookmarks == old(bookmarks)
      ensures old(bookmarks) == JsonOther ==> r == Failure(TypeError) && bookmarks == old(bookmarks)
      ensures old(bookmarks).JsonText? && Text.Contains(old(bookmarks).text, slug) ==>
        r == Failure(TypeError) && bookmarks == old(bookmarks)
      ensures old(bookmarks).JsonText? && !Text.Contains(old(bookmarks).text, slug) ==>
        r == Success(true) && bookmarks == JsonStrings(Characters(old(bookmarks).text) + [slug])
      ensures r.Success? ==> Current().Some? && (r.value <==> slug in Current().value)
    {
      var current := Current();
      if current.Some? {
        var existing := current.value;
        if slug in existing {
          bookmarks := JsonStrings(Without(existing, slug));
          r := Success(false);
        } else {
          bookmarks := JsonStrings(existing + [slug]);
          r := Success(true);
        }
      } else if bookmarks.JsonText? {
        var text := bookmarks.text;
        if Text.Contains(text, slug) {
          r := Failure(TypeError);
        } else {
          bookmarks := JsonStrings(Characters(text) + [slug]);
          r := Success(true);
        }
      } else if bookmarks.NotJson? {
        r := Failure(SyntaxError);
      } else {
        r := Failure(TypeError);
      }
    }
  }
}
