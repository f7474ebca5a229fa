/**
 * The JSON text the writers store in the `mirrors` and `screenshots`
 * columns: serde_json's compact form for the Rust `Link`/`Mirror` structs
 * and `JSON.stringify` for the TypeScript objects. Both write a string
 * between quotes with `"`, `\` and the control characters escaped (the
 * named escapes where JSON has one, `\u00xx` with lower-case hex digits
 * otherwise), an object's members in declaration order and a list between
 * brackets with commas and no spaces. The reader accepts that compact form,
 * and reading back what was written yields the written value.
 */
module MirrorJson {
  import opened Wrappers
  import opened Text
  import opened Records
  import opened WebRecords

  // ---------------------------------------------------------------------------
  // Strings

  function HexDigit(d: nat): (c: char)
    requires d < 16
  {
    if d < 10 then (48 + d) as char else (87 + d) as char
  }

  /** The value of a hex digit in either case. */
  function HexValue(c: char): (r: Option<nat>)
    ensures r.Some? ==> r.value < 16
  {
    if '0' <= c <= '9' then Some(c as int - 48)
    else if 'a' <= c <= 'f' then Some(c as int - 87)
    else if 'A' <= c <= 'F' then Some(c as int - 55)
    else None
  }

  /** The JSON text of one character inside a string. */
  function EscapeChar(c: char): (r: string)
    ensures |r| > 0
  {
    if c == '"' then ['\\', '"']
    else if c == '\\' then ['\\', '\\']
    else if c as int == 8 then ['\\', 'b']
    else if c as int == 12 then ['\\', 'f']
    else if c == '\n' then ['\\', 'n']
    else if c == '\r' then ['\\', 'r']
    else if c == '\t' then ['\\', 't']
    else if c as int < 0x20 then ['\\', 'u', '0', '0', HexDigit(c as int / 16), HexDigit(c as int % 16)]
    else [c]
  }

  /** The characters of a string, escaped. */
  function Escape(s: string): (r: string)
    ensures |r| >= |s|
  {
    if s == [] then [] else EscapeChar(s[0]) + Escape(s[1..])
  }

  /** A string as JSON. */
  function StringJson(s: string): string {
    "\"" + Escape(s) + "\""
  }

  /** The character an escape after `\` stands for, and how many characters it takes. */
  function Unescape(t: string): (r: Option<(char, nat)>)
    ensures r.Some? ==> 1 <= r.value.1 <= |t|
  {
    if t == [] then None
    else if t[0] == '"' || t[0] == '\\' || t[0] == '/' then Some((t[0], 1))
    else if t[0] == 'b' then Some((8 as char, 1))
    else if t[0] == 'f' then Some((12 as char, 1))
    else if t[0] == 'n' then Some(('\n', 1))
    else if t[0] == 'r' then Some(('\r', 1))
    else if t[0] == 't' then Some(('\t', 1))
    else if t[0] == 'u' && |t| >= 5 then
      match (HexValue(t[1]), HexValue(t[2]), HexValue(t[3]), HexValue(t[4]))
      case (Some(a), Some(b), Some(c), Some(d)) =>
        var v := ((a * 16 + b) * 16 + c) * 16 + d;
        if 0xD800 <= v < 0xE000 then None else Some((v as char, 5))
      case _ => None
    else None
  }

  /** Puts `c` before the string a read produced. */
  function Prepend(c: char, r: Option<(string, string)>): Option<(string, string)> {
    match r
    case Some((x, rest)) => Some(([c] + x, rest))
    case None => None
  }

  /** The characters of a string up to its closing quote, and what follows the quote. */
  function ReadStringBody(s: string): Option<(string, string)>
    decreases |s|
  {
    if s == [] then None
    else if s[0] == '"' then Some(([], s[1..]))
    else if s[0] == '\\' then
      match Unescape(s[1..])
      case None => None
      case Some((c, n)) => Prepend(c, ReadStringBody(s[1 + n..]))
    else if s[0] as int < 0x20 then None
    else Prepend(s[0], ReadStringBody(s[1..]))
  }

  /** A string in quotes, and what follows it. */
  function ReadString(s: string): Option<(string, string)> {
    if StartsWith(s, "\"") then ReadStringBody(s[1..]) else None
  }

  lemma HexRoundTrip(d: nat)
    requires d < 16
    ensures HexValue(HexDigit(d)) == Some(d)
  {
  }

  /** A control character written as `\u00xx` reads back as itself. */
  lemma UnescapeControl(c: char, t: string)
    requires c as int < 0x20
    ensures Unescape(EscapeChar(c)[1..] + t) == Some((c, |EscapeChar(c)| - 1))
  {
    var e := EscapeChar(c)[1..] + t;
    if |EscapeChar(c)| == 6 {
      HexRoundTrip(c as int / 16);
      HexRoundTrip(c as int % 16);
      assert e[0] == 'u' && e[1] == '0' && e[2] == '0';
      assert e[3] == HexDigit(c as int / 16) && e[4] == HexDigit(c as int % 16);
    }
  }

  /** Reading an escaped character then the rest is reading the rest with the character in front. */
  lemma ReadEscapedChar(c: char, t: string)
    ensures ReadStringBody(EscapeChar(c) + t) == Prepend(c, ReadStringBody(t))
  {
    var e := EscapeChar(c);
    var s := e + t;
    if |e| == 1 {
      assert s[0] == c && s[1..] == t;
    } else {
      assert s[0] == '\\' && s[1..] == e[1..] + t;
      if c as int < 0x20 {
        UnescapeControl(c, t);
      } else {
        assert e[1..] + t == [e[1]] + t;
      }
      assert s[1 + (|e| - 1)..] == t;
    }
  }

  /** An escaped string followed by its closing quote reads back as the string. */
  lemma {:induction false} ReadEscaped(x: string, t: string)
    requires |t| > 0 && t[0] == '"'
    ensures ReadStringBody(Escape(x) + t) == Some((x, t[1..]))
    decreases |x|
  {
    if x == [] {
      assert Escape(x) + t == t;
    } else {
      ReadEscaped(x[1..], t);
      ReadEscapedStep(x, t);
    }
  }

  lemma ReadEscapedStep(x: string, t: string)
    requires |t| > 0 && x != []
    requires ReadStringBody(Escape(x[1..]) + t) == Some((x[1..], t[1..]))
    ensures ReadStringBody(Escape(x) + t) == Some((x, t[1..]))
  {
    var c, more := x[0], Escape(x[1..]);
    assert Escape(x) == EscapeChar(c) + more;
    ConcatAssoc(EscapeChar(c), more, t);
    ReadEscapedChar(c, more + t);
    HeadTail(x);
    assert Prepend(c, Some((x[1..], t[1..]))) == Some((x, t[1..]));
    assert ReadStringBody(Escape(x) + t) == ReadStringBody(EscapeChar(c) + (more + t));
  }

  /** A string written as JSON reads back as itself. */
  lemma StringRoundTrip(x: string, rest: string)
    ensures ReadString(StringJson(x) + rest) == Some((x, rest))
  {
    var s := StringJson(x) + rest;
    assert s == "\"" + (Escape(x) + ("\"" + rest));
    assert s[1..] == Escape(x) + ("\"" + rest);
    ReadEscaped(x, "\"" + rest);
    assert ("\"" + rest)[1..] == rest;
  }

  // ---------------------------------------------------------------------------
  // Literal text

  /** What follows `lit`, when `s` starts with it. */
  function Expect(s: string, lit: string): (r: Option<string>)
    ensures r.Some? ==> s == lit + r.value
  {
    if StartsWith(s, lit) then
      assert s == s[..|lit|] + s[|lit|..];
      Some(s[|lit|..])
    else None
  }

  lemma ExpectLiteral(lit: string, t: string)
    ensures Expect(lit + t, lit) == Some(t)
  {
    assert (lit + t)[..|lit|] == lit;
  }

  // ---------------------------------------------------------------------------
  // Lists

  /** The items of a list, separated by commas. */
  function Items<T>(xs: seq<T>, write: T -> string): string {
    if xs == [] then ""
    else write(xs[0]) + (if |xs| == 1 then "" else "," + Items(xs[1..], write))
  }

  /** A list as JSON. */
  function ListJson<T>(xs: seq<T>, write: T -> string): string {
    "[" + Items(xs, write) + "]"
  }

  /** Items separated by commas up to the closing bracket, and what follows the bracket. */
  function ReadItems<T>(s: string, read: string -> Option<(T, string)>): Option<(seq<T>, string)>
    decreases |s|
  {
    match read(s)
    case None => None
    case Some((x, r)) =>
      if |r| > |s| then None
      else if StartsWith(r, ",") then
        match ReadItems(r[1..], read)
        case None => None
        case Some((xs, rest)) => Some(([x] + xs, rest))
      else if StartsWith(r, "]") then Some(([x], r[1..]))
      else None
  }

  /** A list in brackets, and what follows it. */
  function ReadList<T>(s: string, read: string -> Option<(T, string)>): Option<(seq<T>, string)> {
    if StartsWith(s, "[]") then Some(([], s[2..]))
    else if StartsWith(s, "[") then ReadItems(s[1..], read)
    else None
  }

  /** `read` reads back what `write` wrote, and nothing `write` writes starts like an empty list's end. */
  ghost predicate Codec<T(!new)>(write: T -> string, read: string -> Option<(T, string)>) {
    && (forall x, t :: read(write(x) + t) == Some((x, t)))
    && (forall x :: |write(x)| > 0 && write(x)[0] != ']')
  }

  /** The last item, then the closing bracket. */
  lemma ReadLastItem<T>(x: T, w: string, read: string -> Option<(T, string)>, rest: string)
    requires read(w + ("]" + rest)) == Some((x, "]" + rest))
    ensures ReadItems(w + ("]" + rest), read) == Some(([x], rest))
  {
    assert ("]" + rest)[..1] == "]";
    assert !StartsWith("]" + rest, ",");
  }

  /** An item, a comma, then more items. */
  lemma ReadMoreItems<T>(x: T, w: string, read: string -> Option<(T, string)>, more: string, xs: seq<T>, rest: string)
    requires read(w + ("," + more)) == Some((x, "," + more))
    requires ReadItems(more, read) == Some((xs, rest))
    ensures ReadItems(w + ("," + more), read) == Some(([x] + xs, rest))
  {
    assert ("," + more)[..1] == ",";
    assert ("," + more)[1..] == more;
  }

  /** A one-item list: the item, then the closing bracket. */
  lemma ItemsLast<T>(xs: seq<T>, write: T -> string, read: string -> Option<(T, string)>, rest: string)
    requires |xs| == 1 && read(write(xs[0]) + ("]" + rest)) == Some((xs[0], "]" + rest))
    ensures ReadItems(Items(xs, write) + "]" + rest, read) == Some((xs, rest))
  {
    var w := write(xs[0]);
    assert Items(xs, write) + "]" + rest == w + ("]" + rest);
    ReadLastItem(xs[0], w, read, rest);
    assert [xs[0]] == xs;
  }

  /** A longer list: the first item, a comma, then the items the rest of the list reads back as. */
  lemma ItemsMore<T>(xs: seq<T>, write: T -> string, read: string -> Option<(T, string)>, rest: string)
    requires |xs| >= 2
    requires var more := Items(xs[1..], write) + "]" + rest;
      read(write(xs[0]) + ("," + more)) == Some((xs[0], "," + more))
    requires ReadItems(Items(xs[1..], write) + "]" + rest, read) == Some((xs[1..], rest))
    ensures ReadItems(Items(xs, write) + "]" + rest, read) == Some((xs, rest))
  {
    var w := write(xs[0]);
    var more := Items(xs[1..], write) + "]" + rest;
    assert Items(xs, write) + "]" + rest == w + ("," + more);
    ReadMoreItems(xs[0], w, read, more, xs[1..], rest);
    HeadTail(xs);
  }

  lemma {:induction false} ItemsRoundTrip<T(!new)>(xs: seq<T>, write: T -> string, read: string -> Option<(T, string)>, rest: string)
    requires Codec(write, read)
    requires xs != []
    ensures ReadItems(Items(xs, write) + "]" + rest, read) == Some((xs, rest))
    decreases |xs|
  {
    var w := write(xs[0]);
    if |xs| == 1 {
      assert read(w + ("]" + rest)) == Some((xs[0], "]" + rest));
      ItemsLast(xs, write, read, rest);
    } else {
      var more := Items(xs[1..], write) + "]" + rest;
      assert read(w + ("," + more)) == Some((xs[0], "," + more));
      ItemsRoundTrip(xs[1..], write, read, rest);
      ItemsMore(xs, write, read, rest);
    }
  }

  /** A list written as JSON reads back as itself. */
  lemma ListRoundTrip<T(!new)>(xs: seq<T>, write: T -> string, read: string -> Option<(T, string)>, rest: string)
    requires Codec(write, read)
    ensures ReadList(ListJson(xs, write) + rest, read) == Some((xs, rest))
  {
    if xs == [] {
      EmptyListRoundTrip(xs, write, read, rest);
    } else {
      assert |write(xs[0])| > 0 && write(xs[0])[0] != ']';
      ItemsRoundTrip(xs, write, read, rest);
      ListOfItems(xs, write, read, rest);
    }
  }

  lemma EmptyListRoundTrip<T>(xs: seq<T>, write: T -> string, read: string -> Option<(T, string)>, rest: string)
    requires xs == []
    ensures ReadList(ListJson(xs, write) + rest, read) == Some((xs, rest))
  {
    var s := ListJson(xs, write) + rest;
    assert s == "[]" + rest;
    assert s[..2] == "[]";
  }

  /** A non-empty list is its items after the opening bracket, since no item starts with `]`. */
  lemma ListOfItems<T>(xs: seq<T>, write: T -> string, read: string -> Option<(T, string)>, rest: string)
    requires xs != [] && |write(xs[0])| > 0 && write(xs[0])[0] != ']'
    requires ReadItems(Items(xs, write) + "]" + rest, read) == Some((xs, rest))
    ensures ReadList(ListJson(xs, write) + rest, read) == Some((xs, rest))
  {
    var s := ListJson(xs, write) + rest;
    var w := write(xs[0]);
    assert Items(xs, write)[0] == w[0];
    assert s[1] == w[0];
    assert !StartsWith(s, "[]");
    assert s[1..] == Items(xs, write) + "]" + rest;
  }

  // ---------------------------------------------------------------------------
  // The Rust records (`#[derive(Serialize, Deserialize)]` on `Link` and `Mirror`)

  const NameKey: string := "{\"name\":"
  const LinkKey: string := ",\"link\":"
  const LinksKey: string := "{\"links\":"

  function LinkJson(l: Link): string {
    NameKey + StringJson(l.name) + LinkKey + StringJson(l.link) + "}"
  }

  function ReadLink(s: string): Option<(Link, string)> {
    var r0 :- Expect(s, NameKey);
    var name :- ReadString(r0);
    var r2 :- Expect(name.1, LinkKey);
    var link :- ReadString(r2);
    var r4 :- Expect(link.1, "}");
    Some((Link(name.0, link.0), r4))
  }

  function MirrorJson(m: Mirror): string {
    LinksKey + ListJson(m.links, LinkJson) + "}"
  }

  function ReadMirror(s: string): Option<(Mirror, string)> {
    var r0 :- Expect(s, LinksKey);
    var links :- ReadList(r0, ReadLink);
    var r2 :- Expect(links.1, "}");
    Some((Mirror(links.0), r2))
  }

  /** `serde_json::to_string(&release.mirrors)`. */
  function MirrorsJson(ms: seq<Mirror>): string {
    ListJson(ms, MirrorJson)
  }

  /** `serde_json::to_string(&release.screenshots)`. */
  function ScreenshotsJson(shots: seq<string>): string {
    ListJson(shots, StringJson)
  }

  lemma LinkRoundTrip(l: Link, t: string)
    ensures ReadLink(LinkJson(l) + t) == Some((l, t))
  {
    var s2 := StringJson(l.link) + ("}" + t);
    var s1 := StringJson(l.name) + (LinkKey + s2);
    LinkText(l, t);
    ExpectLiteral(NameKey, s1);
    StringRoundTrip(l.name, LinkKey + s2);
    ExpectLiteral(LinkKey, s2);
    StringRoundTrip(l.link, "}" + t);
    ExpectLiteral("}", t);
  }

  lemma LinkText(l: Link, t: string)
    ensures LinkJson(l) + t == NameKey + (StringJson(l.name) + (LinkKey + (StringJson(l.link) + ("}" + t))))
  {
  }

  lemma LinkCodec()
    ensures Codec(LinkJson, ReadLink)
  {
    forall l, t ensures ReadLink(LinkJson(l) + t) == Some((l, t)) {
      LinkRoundTrip(l, t);
    }
  }

  lemma MirrorRoundTrip(m: Mirror, t: string)
    ensures ReadMirror(MirrorJson(m) + t) == Some((m, t))
  {
    var links := ListJson(m.links, LinkJson);
    var s1 := links + ("}" + t);
    Reassociate(LinksKey, links, "}", t);
    ExpectLiteral(LinksKey, s1);
    LinksRoundTrip(m.links, "}" + t);
    ExpectLiteral("}", t);
  }

  lemma Reassociate(a: string, b: string, c: string, t: string)
    ensures a + b + c + t == a + (b + (c + t))
  {
  }

  lemma LinksRoundTrip(links: seq<Link>, t: string)
    ensures ReadList(ListJson(links, LinkJson) + t, ReadLink) == Some((links, t))
  {
    LinkCodec();
    ListRoundTrip(links, LinkJson, ReadLink, t);
  }

  lemma MirrorCodec()
    ensures Codec(MirrorJson, ReadMirror)
  {
    forall m, t ensures ReadMirror(MirrorJson(m) + t) == Some((m, t)) {
      MirrorRoundTrip(m, t);
    }
  }

  lemma StringCodec()
    ensures Codec(StringJson, ReadString)
  {
    forall x, t ensures ReadString(StringJson(x) + t) == Some((x, t)) {
      StringRoundTrip(x, t);
    }
  }

  /** A mirrors column reads back as the same mirrors, in the same order, with the same links. */
  lemma MirrorsRoundTrip(ms: seq<Mirror>)
    ensures ReadList(MirrorsJson(ms), ReadMirror) == Some((ms, ""))
  {
    MirrorCodec();
    ListRoundTrip(ms, MirrorJson, ReadMirror, "");
    assert MirrorsJson(ms) + "" == MirrorsJson(ms);
  }

  /** A screenshots column reads back as the same list. */
  lemma ScreenshotsRoundTrip(shots: seq<string>)
    ensures ReadList(ScreenshotsJson(shots), ReadString) == Some((shots, ""))
  {
    StringCodec();
    ListRoundTrip(shots, StringJson, ReadString, "");
    assert ScreenshotsJson(shots) + "" == ScreenshotsJson(shots);
  }

  // ---------------------------------------------------------------------------
  // The TypeScript records (`JSON.stringify` of the validated `mirrors`)

  const NamedLinksKey: string := ",\"links\":"

  /** A link as `JSON.stringify` writes it: the same text as the Rust record with the same fields. */
  function WebLinkJson(l: WebLink): string {
    LinkJson(Link(l.name, l.link))
  }

  function ReadWebLink(s: string): Option<(WebLink, string)> {
    var p :- ReadLink(s);
    Some((WebLink(p.0.name, p.0.link), p.1))
  }

  /** A mirror as `JSON.stringify` writes it: its name, then its links. */
  function WebMirrorJson(m: WebMirror): string {
    NameKey + StringJson(m.name) + NamedLinksKey + ListJson(m.links, WebLinkJson) + "}"
  }

  function ReadWebMirror(s: string): Option<(WebMirror, string)> {
    var r0 :- Expect(s, NameKey);
    var name :- ReadString(r0);
    var r2 :- Expect(name.1, NamedLinksKey);
    var links :- ReadList(r2, ReadWebLink);
    var r4 :- Expect(links.1, "}");
    Some((WebMirror(name.0, links.0), r4))
  }

  /** `JSON.stringify(parsedContent.mirrors)`. */
  function WebMirrorsJson(ms: seq<WebMirror>): string {
    ListJson(ms, WebMirrorJson)
  }

  lemma WebLinkCodec()
    ensures Codec(WebLinkJson, ReadWebLink)
  {
    forall l, t ensures ReadWebLink(WebLinkJson(l) + t) == Some((l, t)) {
      LinkRoundTrip(Link(l.name, l.link), t);
    }
  }

  lemma WebMirrorText(m: WebMirror, t: string)
    ensures WebMirrorJson(m) + t
      == NameKey + (StringJson(m.name) + (NamedLinksKey + (ListJson(m.links, WebLinkJson) + ("}" + t))))
  {
  }

  lemma WebLinksRoundTrip(links: seq<WebLink>, t: string)
    ensures ReadList(ListJson(links, WebLinkJson) + t, ReadWebLink) == Some((links, t))
  {
    WebLinkCodec();
    ListRoundTrip(links, WebLinkJson, ReadWebLink, t);
  }

  lemma WebMirrorRoundTrip(m: WebMirror, t: string)
    ensures ReadWebMirror(WebMirrorJson(m) + t) == Some((m, t))
  {
    var s3 := ListJson(m.links, WebLinkJson) + ("}" + t);
    var s2 := NamedLinksKey + s3;
    WebMirrorText(m, t);
    ExpectLiteral(NameKey, StringJson(m.name) + s2);
    StringRoundTrip(m.name, s2);
    ExpectLiteral(NamedLinksKey, s3);
    WebLinksRoundTrip(m.links, "}" + t);
    ExpectLiteral("}", t);
  }

  lemma WebMirrorCodec()
    ensures Codec(WebMirrorJson, ReadWebMirror)
  {
    forall m, t ensures ReadWebMirror(WebMirrorJson(m) + t) == Some((m, t)) {
      WebMirrorRoundTrip(m, t);
    }
  }

  /** The mirrors column the TypeScript scrapers write reads back as the same mirrors. */
  lemma WebMirrorsRoundTrip(ms: seq<WebMirror>)
    ensures ReadList(WebMirrorsJson(ms), ReadWebMirror) == Some((ms, ""))
  {
    WebMirrorCodec();
    ListRoundTrip(ms, WebMirrorJson, ReadWebMirror, "");
    assert WebMirrorsJson(ms) + "" == WebMirrorsJson(ms);
  }
}
