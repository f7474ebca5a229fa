/**
 * `decode` and the splitting of the multi-valued fields in the TypeScript
 * scrapers (`src/index.ts`, `src/pages/db/_sync.ts`).
 */
module PageDecode {
  import opened Wrappers
  import opened Text

  // ---------------------------------------------------------------------------
  // decode

  /** The length of the run of decimal digits at the start of `s`. */
  function DigitRun(s: string): (n: nat)
    ensures n <= |s|
    ensures forall k :: 0 <= k < n ==> IsDigit(s[k])
    ensures n < |s| ==> !IsDigit(s[n])
  {
    if s != [] && IsDigit(s[0]) then 1 + DigitRun(s[1..]) else 0
  }

  /** `&#N;` at the start of `s`: the number N and the length of the reference. */
  function EntityAt(s: string): (r: Option<(nat, nat)>)
    ensures r.Some? ==> 4 <= r.value.1 <= |s|
    ensures r.Some? ==> s[0] == '&'
  {
    if |s| >= 2 && s[0] == '&' && s[1] == '#' then
      var k := DigitRun(s[2..]);
      if k > 0 && 2 + k < |s| && s[2 + k] == ';' then
        assert AllDigits(s[2..2 + k]);
        Some((DigitsValue(s[2..2 + k]), 3 + k))
      else None
    else None
  }

  /**
   * `String.fromCharCode(n)`: the UTF-16 code unit `n` modulo 2^16. A
   * surrogate code unit stands alone in JavaScript and becomes U+FFFD here.
   */
  function CodeUnit(n: nat): char {
    var u := n % 0x1_0000;
    if 0xD800 <= u < 0xE000 then 0xFFFD as char else u as char
  }

  /** `replace(/&#(\d+);/g, ...)`: each numeric reference, left to right, becomes its character. */
  function ReplaceEntities(s: string): (r: string)
    decreases |s|
  {
    if s == [] then []
    else match EntityAt(s)
      case Some((n, len)) => [CodeUnit(n)] + ReplaceEntities(s[len..])
      case None => [s[0]] + ReplaceEntities(s[1..])
  }

  /** `decode`: trim, replace numeric references, then turn every `’` into `'`. */
  function Decode(s: string): string {
    ReplaceAll(ReplaceEntities(JsTrim(s)), "’", "'")
  }

  lemma {:induction false} ReplaceAllRemovesChar(s: string, c: char, rep: string)
    requires c !in rep
    ensures c !in ReplaceAll(s, [c], rep)
    decreases |s|
  {
    if |s| >= 1 {
      ReplaceAllRemovesChar(s[1..], c, rep);
      if s[..1] != [c] {
        assert s[0] != c by { assert s[..1] == [s[0]]; }
      }
    }
  }

  /** No `’` survives `decode`, not even one written as `&#8217;`. */
  lemma DecodeNoCurlyQuote(s: string)
    ensures '’' !in Decode(s)
  {
    ReplaceAllRemovesChar(ReplaceEntities(JsTrim(s)), '’', "'");
  }

  lemma {:induction false} ReplaceEntitiesPlain(s: string)
    requires '&' !in s
    ensures ReplaceEntities(s) == s
    decreases |s|
  {
    if s != [] {
      assert s[0] != '&';
      ReplaceEntitiesPlain(s[1..]);
      assert [s[0]] + s[1..] == s;
    }
  }

  lemma NotContainsChar(s: string, c: char)
    requires c !in s
    ensures !Contains(s, [c])
  {
    forall i | 0 <= i && i + 1 <= |s| ensures !OccursAt(s, [c], i) {
      assert s[i..i + 1] == [s[i]];
    }
  }

  /** Trimmed text without `&` or `’` is left as it is. */
  lemma DecodePlain(s: string)
    requires JsTrim(s) == s && '&' !in s && '’' !in s
    ensures Decode(s) == s
  {
    ReplaceEntitiesPlain(s);
    NotContainsChar(s, '’');
    ReplaceAllAbsent(s, "’", "'");
  }

  /** Surrounding white space makes no difference. */
  lemma DecodeTrimmed(s: string)
    ensures Decode(JsTrim(s)) == Decode(s)
  {
    TrimIdempotent(s, JsSpace);
  }

  /** A reference `&#d;` at the front becomes its character, and the rest is replaced on its own. */
  lemma DecodeReference(d: string, rest: string)
    requires d != [] && AllDigits(d)
    ensures ReplaceEntities("&#" + d + ";" + rest) == [CodeUnit(DigitsValue(d))] + ReplaceEntities(rest)
  {
    var s := "&#" + d + ";" + rest;
    var k := DigitRun(s[2..]);
    assert s[2..] == d + ";" + rest;
    assert s[2 + |d|] == ';';
    assert s[2..][|d|] == ';';
    assert k == |d|;
    assert s[2..2 + k] == d;
    assert s[3 + k..] == rest;
  }

  /** `&#38;` is the ampersand. */
  lemma DecodeAmpersand(s: string, digits: string)
    requires digits == "38" && s == "&#" + digits + ";"
    ensures ReplaceEntities(s) == "&"
  {
    assert s[2..] == digits + ";";
    assert DigitRun(digits + ";") == 2 by {
      assert (digits + ";")[1..] == "8;";
      assert ("8;")[1..] == ";";
    }
    assert s[2..4] == digits;
    assert DigitsValue(digits) == 38 by {
      assert digits[..1] == "3";
      assert ("3")[..0] == "";
    }
    assert s[5..] == [];
  }

  // ---------------------------------------------------------------------------
  // The multi-valued fields

  /** `flatMap((x) => x.split(sep))`. */
  function SplitEach(pieces: seq<string>, sep: string): (r: seq<string>)
    requires |sep| > 0
    ensures |r| >= |pieces|
  {
    if pieces == [] then [] else SplitOn(pieces[0], sep) + SplitEach(pieces[1..], sep)
  }

  /** `map(decode)`. */
  function DecodeAll(xs: seq<string>): seq<string>
  {
    seq(|xs|, k requires 0 <= k < |xs| => Decode(xs[k]))
  }


  /** `map((x) => decode(x.toUpperCase()))`. */
  function DecodeUpperAll(xs: seq<string>): seq<string>
  {
    seq(|xs|, k requires 0 <= k < |xs| => Decode(ToUpper(xs[k])))
  }


  /** Genres and companies: split at `", "`, each piece at `"/"`, then decoded. */
  function ListValues(raw: string): seq<string> {
    DecodeAll(SplitEach(SplitOn(raw, ", "), "/"))
  }

  /** Languages: split at `"/"` (twice), upper-cased, then decoded. */
  function LanguageValues(raw: string): seq<string> {
    DecodeUpperAll(SplitEach(SplitOn(raw, "/"), "/"))
  }

  /** The pieces of a split at one character hold no such character. */
  lemma {:induction false} SplitOnCharPieces(s: string, c: char)
    ensures forall k :: 0 <= k < |SplitOn(s, [c])| ==> c !in SplitOn(s, [c])[k]
    decreases |s|
  {
    if |s| >= 1 {
      SplitOnCharPieces(s[1..], c);
      assert s[..1] == [s[0]];
    }
  }

  lemma {:induction false} SplitEachNoop(pieces: seq<string>, c: char)
    requires forall k :: 0 <= k < |pieces| ==> c !in pieces[k]
    ensures SplitEach(pieces, [c]) == pieces
    decreases |pieces|
  {
    if pieces != [] {
      NotContainsChar(pieces[0], c);
      SplitOnAbsent(pieces[0], [c]);
      SplitEachNoop(pieces[1..], c);
      assert [pieces[0]] + pieces[1..] == pieces;
    }
  }

  /** The second split of the languages changes nothing: they are split at `"/"` only. */
  lemma LanguageValuesSplitOnce(raw: string)
    ensures LanguageValues(raw) == DecodeUpperAll(SplitOn(raw, "/"))
  {
    SplitOnCharPieces(raw, '/');
    SplitEachNoop(SplitOn(raw, "/"), '/');
  }

  /** A comma not followed by a space does not split: `"A,B"` stays one value. */
  lemma ListValuesSingle(raw: string)
    requires !Contains(raw, ", ") && '/' !in raw
    ensures ListValues(raw) == [Decode(raw)]
  {
    SplitOnAbsent(raw, ", ");
    NotContainsChar(raw, '/');
    SplitOnAbsent(raw, "/");
    assert SplitEach([raw], "/") == SplitOn(raw, "/") + SplitEach([], "/");
  }
}
