/**
 * String operations of the Rust standard library and of JavaScript that the
 * ingestion code relies on: trimming, case mapping, searching, the three
 * kinds of `split`, `split_once`, `lines`, `replace`/`replaceAll` and decimal
 * digits. Strings are sequences of Unicode scalar values.
 */
module Text {
  import opened Wrappers

  // ---------------------------------------------------------------------------
  // White space

  /** White space that both Rust's `char::is_whitespace` and JavaScript's `trim` remove. */
  predicate IsCommonSpace(c: char) {
    || ('\t' <= c <= '\r')
    || c == ' '
    || c == '\U{00A0}'
    || c == '\U{1680}'
    || ('\U{2000}' <= c <= '\U{200A}')
    || c == '\U{2028}'
    || c == '\U{2029}'
    || c == '\U{202F}'
    || c == '\U{205F}'
    || c == '\U{3000}'
  }

  /** Which notion of white space a trim uses. */
  datatype SpaceSet =
    | RustSpace  // Rust's `char::is_whitespace` (the Unicode White_Space property)
    | JsSpace    // the characters JavaScript's `String.prototype.trim` removes

  predicate IsSpace(ws: SpaceSet, c: char) {
    IsCommonSpace(c) || (if ws == RustSpace then c == '\U{0085}' else c == '\U{FEFF}')
  }

  /** The number of leading characters that are white space in `ws`. */
  function LeadingSpaces(s: string, ws: SpaceSet): (n: nat)
    ensures n <= |s|
    ensures forall k :: 0 <= k < n ==> IsSpace(ws, s[k])
    ensures n < |s| ==> !IsSpace(ws, s[n])
    decreases |s|
  {
    if |s| > 0 && IsSpace(ws, s[0]) then 1 + LeadingSpaces(s[1..], ws) else 0
  }

  /** Drops the leading characters that are white space in `ws`. */
  function TrimStart(s: string, ws: SpaceSet): (r: string)
    ensures |r| <= |s| && r == s[|s| - |r|..]
    ensures r == [] || !IsSpace(ws, r[0])
  {
    s[LeadingSpaces(s, ws)..]
  }

  /** Nothing is trimmed from a text that does not start with white space. */
  lemma TrimStartKeeps(s: string, ws: SpaceSet)
    requires |s| > 0 && !IsSpace(ws, s[0])
    ensures TrimStart(s, ws) == s
  {
  }

  /** Everything `TrimStart` cuts off is white space. */
  lemma TrimStartCut(s: string, ws: SpaceSet)
    ensures forall k :: 0 <= k < |s| - |TrimStart(s, ws)| ==> IsSpace(ws, s[k])
  {
    assert |s| - |TrimStart(s, ws)| == LeadingSpaces(s, ws);
  }

  /** The number of trailing characters that are white space in `ws`. */
  function TrailingSpaces(s: string, ws: SpaceSet): (n: nat)
    ensures n <= |s|
    ensures forall k :: |s| - n <= k < |s| ==> IsSpace(ws, s[k])
    ensures n < |s| ==> !IsSpace(ws, s[|s| - n - 1])
    decreases |s|
  {
    if |s| > 0 && IsSpace(ws, s[|s| - 1]) then 1 + TrailingSpaces(s[..|s| - 1], ws) else 0
  }

  /** Drops the trailing characters that are white space in `ws`. */
  function TrimEnd(s: string, ws: SpaceSet): (r: string)
    ensures |r| <= |s| && r == s[..|r|]
    ensures r == [] || !IsSpace(ws, r[|r| - 1])
  {
    s[..|s| - TrailingSpaces(s, ws)]
  }

  /** Everything `TrimEnd` cuts off is white space. */
  lemma TrimEndCut(s: string, ws: SpaceSet)
    ensures forall k :: |TrimEnd(s, ws)| <= k < |s| ==> IsSpace(ws, s[k])
  {
    assert |TrimEnd(s, ws)| == |s| - TrailingSpaces(s, ws);
  }

  /** Drops white space at both ends. */
  function Trim(s: string, ws: SpaceSet): string {
    TrimEnd(TrimStart(s, ws), ws)
  }

  /** Rust's `str::trim`. */
  function RustTrim(s: string): string {
    Trim(s, RustSpace)
  }

  /** JavaScript's `String.prototype.trim`. */
  function JsTrim(s: string): string {
    Trim(s, JsSpace)
  }

  /**
   * `Trim` keeps exactly one infix of its input: everything cut off is white
   * space, and the infix neither starts nor ends with white space.
   */
  lemma TrimIsInfix(s: string, ws: SpaceSet) returns (i: nat)
    ensures i + |Trim(s, ws)| <= |s| && Trim(s, ws) == s[i..i + |Trim(s, ws)|]
    ensures forall k :: 0 <= k < i ==> IsSpace(ws, s[k])
    ensures forall k :: i + |Trim(s, ws)| <= k < |s| ==> IsSpace(ws, s[k])
    ensures Trim(s, ws) == [] || (!IsSpace(ws, Trim(s, ws)[0]) && !IsSpace(ws, Trim(s, ws)[|Trim(s, ws)| - 1]))
  {
    i := |s| - |TrimStart(s, ws)|;
    TrimInfix(s, ws);
    TrimStartCut(s, ws);
    TrimCutBack(s, ws);
    TrimEndsClean(s, ws);
  }

  /** What `Trim` keeps is the infix of `s` that starts where `TrimStart` cut. */
  lemma TrimInfix(s: string, ws: SpaceSet)
    ensures var i := |s| - |TrimStart(s, ws)|;
      i + |Trim(s, ws)| <= |s| && Trim(s, ws) == s[i..i + |Trim(s, ws)|]
  {
    PrefixOfSuffix(s, TrimStart(s, ws), Trim(s, ws));
  }

  /** A prefix of a suffix of `s` is an infix of `s`. */
  lemma PrefixOfSuffix(s: string, t: string, r: string)
    requires |t| <= |s| && t == s[|s| - |t|..]
    requires |r| <= |t| && r == t[..|r|]
    ensures |s| - |t| + |r| <= |s| && r == s[|s| - |t|..|s| - |t| + |r|]
  {
  }

  /** Everything `Trim` cuts from the end is white space. */
  lemma TrimCutBack(s: string, ws: SpaceSet)
    ensures forall k :: |s| - |TrimStart(s, ws)| + |Trim(s, ws)| <= k < |s| ==> IsSpace(ws, s[k])
  {
    var t := TrimStart(s, ws);
    var i := |s| - |t|;
    TrimEndCut(t, ws);
    forall k | i + |Trim(s, ws)| <= k < |s| ensures IsSpace(ws, s[k]) {
      assert s[k] == t[k - i];
    }
  }

  /** What `Trim` keeps neither starts nor ends with white space. */
  lemma TrimEndsClean(s: string, ws: SpaceSet)
    ensures Trim(s, ws) == [] || (!IsSpace(ws, Trim(s, ws)[0]) && !IsSpace(ws, Trim(s, ws)[|Trim(s, ws)| - 1]))
  {
    var t := TrimStart(s, ws);
    var r := TrimEnd(t, ws);
    if r != [] {
      assert r[0] == t[0];
    }
  }

  /** Trimming twice is trimming once. */
  lemma TrimIdempotent(s: string, ws: SpaceSet)
    ensures Trim(Trim(s, ws), ws) == Trim(s, ws)
  {
    var r := Trim(s, ws);
    var _ := TrimIsInfix(s, ws);
    assert TrimStart(r, ws) == r;
    assert TrimEnd(r, ws) == r;
  }

  /** A text without characters of `bad` keeps none after trimming. */
  lemma TrimAvoids(s: string, ws: SpaceSet, bad: set<char>)
    requires forall j :: 0 <= j < |s| ==> s[j] !in bad
    ensures forall j :: 0 <= j < |Trim(s, ws)| ==> Trim(s, ws)[j] !in bad
  {
    var t := TrimStart(s, ws);
    forall j | 0 <= j < |t| ensures t[j] !in bad {
      assert t[j] == s[|s| - |t| + j];
    }
    var r := TrimEnd(t, ws);
    forall j | 0 <= j < |r| ensures r[j] !in bad {
      assert r[j] == t[j];
    }
  }

  // ---------------------------------------------------------------------------
  // ASCII case mapping

  function LowerChar(c: char): char {
    if 'A' <= c <= 'Z' then (c as int + 32) as char else c
  }

  function UpperChar(c: char): char {
    if 'a' <= c <= 'z' then (c as int - 32) as char else c
  }

  /** `to_lowercase` / `toLowerCase`, restricted to the ASCII letters. */
  function ToLower(s: string): string {
    seq(|s|, i requires 0 <= i < |s| => LowerChar(s[i]))
  }

  /** `toUpperCase`, restricted to the ASCII letters. */
  function ToUpper(s: string): string {
    seq(|s|, i requires 0 <= i < |s| => UpperChar(s[i]))
  }

  // ---------------------------------------------------------------------------
  // Searching

  predicate StartsWith(s: string, p: string) {
    |p| <= |s| && s[..|p|] == p
  }

  /** A prefix stays a prefix when text is appended. */
  lemma StartsWithAppend(s: string, p: string, t: string)
    requires StartsWith(s, p)
    ensures StartsWith(s + t, p)
  {
    assert (s + t)[..|p|] == s[..|p|];
  }

  /** `p` occurs in `s` at index `i`. */
  predicate OccursAt(s: string, p: string, i: int) {
    0 <= i && i + |p| <= |s| && s[i..i + |p|] == p
  }

  lemma OccursAtTail(s: string, p: string, i: int)
    requires |s| > 0 && i >= 0
    ensures OccursAt(s[1..], p, i) <==> OccursAt(s, p, i + 1)
  {
    if 0 <= i && i + |p| <= |s| - 1 {
      assert s[1..][i..i + |p|] == s[i + 1..i + 1 + |p|];
    }
  }

  lemma OccursShift(s: string, p: string)
    requires |s| > 0
    ensures OccursAt(s, p, 0) <==> StartsWith(s, p)
    ensures forall j :: 0 < j ==> (OccursAt(s, p, j) <==> OccursAt(s[1..], p, j - 1))
  {
    if StartsWith(s, p) {
      assert s[0..|p|] == s[..|p|];
    }
    forall j | 0 < j ensures OccursAt(s, p, j) <==> OccursAt(s[1..], p, j - 1) {
      OccursAtTail(s, p, j - 1);
    }
  }

  /** The index of the leftmost occurrence of `p` in `s` (`str::find`, `indexOf`). */
  function Find(s: string, p: string): (r: Option<nat>)
    ensures r.Some? ==> OccursAt(s, p, r.value)
    ensures r.Some? ==> forall j :: 0 <= j < r.value ==> !OccursAt(s, p, j)
    ensures r.None? ==> forall j :: !OccursAt(s, p, j)
    decreases |s|
  {
    if StartsWith(s, p) then
      assert s[0..|p|] == s[..|p|];
      Some(0)
    else if |s| == 0 then None
    else
      var rest := Find(s[1..], p);
      OccursShift(s, p);
      if rest.Some? then Some(rest.value + 1) else None
  }

  /** `str::contains` / `String.prototype.includes`. */
  predicate Contains(s: string, p: string) {
    Find(s, p).Some?
  }

  // ---------------------------------------------------------------------------
  // Splitting and joining

  /** A non-empty sequence is its head in front of its tail. */
  lemma HeadTail<T>(s: seq<T>)
    requires s != []
    ensures [s[0]] + s[1..] == s
  {
  }

  /** Concatenation regrouped, for proofs that build a sequence piece by piece. */
  lemma ConcatAssoc<T>(a: seq<T>, b: seq<T>, c: seq<T>)
    ensures (a + b) + c == a + (b + c)
  {
  }

  /** The inverse of the string splits: the pieces with `sep` between each two. */
  function Join(pieces: seq<string>, sep: string): string
    requires |pieces| >= 1
  {
    if |pieces| == 1 then pieces[0] else pieces[0] + (sep + Join(pieces[1..], sep))
  }

  /** Splitting at every non-overlapping occurrence of `sep`, searched from the left (JavaScript's `split(sep)`, Rust's `split(&str)`). */
  function SplitOn(s: string, sep: string): (r: seq<string>)
    requires |sep| > 0
    ensures |r| >= 1
    decreases |s|
  {
    if |s| < |sep| then [s]
    else if s[..|sep|] == sep then [""] + SplitOn(s[|sep|..], sep)
    else
      var rest := SplitOn(s[1..], sep);
      [[s[0]] + rest[0]] + rest[1..]
  }

  lemma JoinConsFirst(c: char, pieces: seq<string>, sep: string)
    requires |pieces| >= 1
    ensures Join([[c] + pieces[0]] + pieces[1..], sep) == [c] + Join(pieces, sep)
  {
    var ps := [[c] + pieces[0]] + pieces[1..];
    if |pieces| > 1 {
      assert ps[1..] == pieces[1..];
    }
  }

  /** Joining the pieces of a split with the same separator restores the input. */
  lemma {:induction false} JoinSplitOn(s: string, sep: string)
    requires |sep| > 0
    ensures Join(SplitOn(s, sep), sep) == s
    decreases |s|
  {
    if |s| < |sep| {
    } else if s[..|sep|] == sep {
      JoinSplitOn(s[|sep|..], sep);
      var rest := SplitOn(s[|sep|..], sep);
      assert ([""] + rest)[1..] == rest;
      assert "" + (sep + Join(rest, sep)) == sep + Join(rest, sep);
      assert s == sep + s[|sep|..];
    } else {
      JoinSplitOn(s[1..], sep);
      JoinConsFirst(s[0], SplitOn(s[1..], sep), sep);
      assert s == [s[0]] + s[1..];
    }
  }

  /** The number of occurrences that `SplitOn` and `ReplaceAll` cut out. */
  function Occurrences(s: string, p: string): nat
    requires |p| > 0
  {
    |SplitOn(s, p)| - 1
  }

  /** The characters of `s` that belong to `seps`, in order. */
  function SeparatorsIn(s: string, seps: set<char>): seq<char> {
    if s == [] then []
    else (if s[0] in seps then [s[0]] else []) + SeparatorsIn(s[1..], seps)
  }

  /** Pieces with one separator character between each two: the inverse of `SplitAny`. */
  function Interleave(pieces: seq<string>, seps: seq<char>): string
    requires |pieces| == |seps| + 1
  {
    if |seps| == 0 then pieces[0]
    else pieces[0] + [seps[0]] + Interleave(pieces[1..], seps[1..])
  }

  /** Rust's `split([c1, c2, ...])`: cut at every character of `seps`, keeping empty pieces. */
  function SplitAny(s: string, seps: set<char>): (r: seq<string>)
    ensures |r| == |SeparatorsIn(s, seps)| + 1
    ensures forall i, k :: 0 <= i < |r| && 0 <= k < |r[i]| ==> r[i][k] !in seps
    decreases |s|
  {
    if s == [] then [""]
    else
      var rest := SplitAny(s[1..], seps);
      if s[0] in seps then [""] + rest
      else
        var r := [[s[0]] + rest[0]] + rest[1..];
        assert forall i, k :: 0 <= i < |r| && 0 <= k < |r[i]| ==> r[i][k] !in seps by {
          forall i, k | 0 <= i < |r| && 0 <= k < |r[i]| ensures r[i][k] !in seps {
            if i == 0 && k > 0 {
              assert r[i][k] == rest[0][k - 1];
            } else if i > 0 {
              assert r[i] == rest[i];
            }
          }
        }
        r
  }

  lemma InterleaveConsFirst(c: char, pieces: seq<string>, seps: seq<char>)
    requires |pieces| == |seps| + 1
    ensures Interleave([[c] + pieces[0]] + pieces[1..], seps) == [c] + Interleave(pieces, seps)
  {
    var ps := [[c] + pieces[0]] + pieces[1..];
    if |seps| > 0 {
      assert ps[1..] == pieces[1..];
    }
  }

  /** `SplitAny` loses nothing: putting the separators back restores the input. */
  lemma {:induction false} InterleaveSplitAny(s: string, seps: set<char>)
    ensures Interleave(SplitAny(s, seps), SeparatorsIn(s, seps)) == s
    decreases |s|
  {
    if s != [] {
      InterleaveSplitAny(s[1..], seps);
      var rest := SplitAny(s[1..], seps);
      if s[0] in seps {
        assert SeparatorsIn(s, seps) == [s[0]] + SeparatorsIn(s[1..], seps);
        assert ([""] + rest)[1..] == rest;
      } else {
        assert SeparatorsIn(s, seps) == SeparatorsIn(s[1..], seps);
        InterleaveConsFirst(s[0], rest, SeparatorsIn(s[1..], seps));
      }
      assert s == [s[0]] + s[1..];
    }
  }

  /** A string without any separator is one piece. */
  lemma {:induction false} SplitAnyNoSeparator(s: string, seps: set<char>)
    requires forall k :: 0 <= k < |s| ==> s[k] !in seps
    ensures SplitAny(s, seps) == [s]
    decreases |s|
  {
    if s != [] {
      SplitAnyNoSeparator(s[1..], seps);
      assert [s[0]] + s[1..] == s;
    }
  }

  /** Rust's `split_once(sep)`: the text before and after the leftmost `sep`. */
  function SplitOnce(s: string, sep: string): (r: Option<(string, string)>)
    ensures r.Some? <==> Contains(s, sep)
    ensures r.Some? ==> s == r.value.0 + sep + r.value.1
    ensures r.Some? ==> OccursAt(s, sep, |r.value.0|)
    ensures r.Some? ==> forall j :: 0 <= j < |r.value.0| ==> !OccursAt(s, sep, j)
  {
    match Find(s, sep)
    case None => None
    case Some(i) =>
      assert s == s[..i] + s[i..i + |sep|] + s[i + |sep|..];
      Some((s[..i], s[i + |sep|..]))
  }

  /** Drops one trailing carriage return. */
  function StripCr(line: string): string {
    if |line| > 0 && line[|line| - 1] == '\r' then line[..|line| - 1] else line
  }

  /**
   * Rust's `str::lines`: pieces between `'\n'` characters, each without a
   * `'\r'` right before its `'\n'`; a final line ending yields no extra empty line.
   */
  function Lines(s: string): (r: seq<string>)
    ensures forall i, k :: 0 <= i < |r| && 0 <= k < |r[i]| ==> r[i][k] != '\n'
    decreases |s|
  {
    if s == [] then []
    else
      match Find(s, "\n")
      case None =>
        assert forall k :: 0 <= k < |s| ==> s[k] != '\n' by {
          forall k | 0 <= k < |s| ensures s[k] != '\n' {
            assert !OccursAt(s, "\n", k);
            assert s[k..k + 1] == [s[k]];
          }
        }
        [s]
      case Some(i) =>
        var head := StripCr(s[..i]);
        assert forall k :: 0 <= k < |head| ==> head[k] != '\n' by {
          forall k | 0 <= k < |head| ensures head[k] != '\n' {
            assert !OccursAt(s, "\n", k);
            assert s[k..k + 1] == [s[k]];
          }
        }
        [head] + Lines(s[i + 1..])
  }

  /** A string without the separator is one piece. */
  lemma {:induction false} SplitOnAbsent(s: string, sep: string)
    requires |sep| > 0 && !Contains(s, sep)
    ensures SplitOn(s, sep) == [s]
    decreases |s|
  {
    if |s| >= |sep| {
      assert !OccursAt(s, sep, 0);
      OccursShift(s, sep);
      SplitOnAbsent(s[1..], sep);
      assert [s[0]] + s[1..] == s;
    }
  }

  /** A one-character pattern occurs exactly where that character stands. */
  lemma OccursAtChar(s: string, c: char, j: int)
    requires 0 <= j < |s|
    ensures OccursAt(s, [c], j) <==> s[j] == c
  {
    assert s[j..j + 1] == [s[j]];
  }

  /** Where `Find` meets a one-character pattern: the character, with none before it. */
  lemma FindChar(s: string, c: char, i: nat)
    requires Find(s, [c]) == Some(i)
    ensures i < |s| && s[i] == c && c !in s[..i]
  {
    assert OccursAt(s, [c], i);
    OccursAtChar(s, c, i);
    forall j | 0 <= j < i
      ensures s[..i][j] != c
    {
      OccursAtChar(s, c, j);
    }
  }

  /** A split at one character cuts at its first occurrence, then splits the rest. */
  lemma {:induction false} SplitOnCharFirst(s: string, c: char, i: nat)
    requires i < |s| && s[i] == c && c !in s[..i]
    ensures SplitOn(s, [c]) == [s[..i]] + SplitOn(s[i + 1..], [c])
    decreases i
  {
    assert s[..1] == [s[0]];
    if i > 0 {
      assert s[1..][..i - 1] == s[1..i];
      assert forall j :: 0 <= j < i - 1 ==> s[1..i][j] == s[..i][j + 1];
      SplitOnCharFirst(s[1..], c, i - 1);
      Regroup(s[0], SplitOn(s[1..], [c]), s[1..i], SplitOn(s[1..][i..], [c]));
      assert s[1..][i..] == s[i + 1..];
      assert [s[0]] + s[1..i] == s[..i];
    }
  }

  /** A character put in front of the first piece of `[head] + rest`. */
  lemma Regroup(c: char, pieces: seq<string>, head: string, rest: seq<string>)
    requires pieces == [head] + rest
    ensures [[c] + pieces[0]] + pieces[1..] == [[c] + head] + rest
  {
  }

  /**
   * `lines` are `pieces` as `str::lines` reports them: each piece but the
   * last without one trailing `'\r'`, and the last one as it is, or dropped
   * when `dropLast`.
   */
  predicate LinesOf(lines: seq<string>, pieces: seq<string>, dropLast: bool) {
    && |pieces| >= 1
    && |lines| == (if dropLast then |pieces| - 1 else |pieces|)
    && forall i :: 0 <= i < |lines| ==> lines[i] == if i < |pieces| - 1 then StripCr(pieces[i]) else pieces[i]
  }

  lemma LinesOfCons(lines: seq<string>, pieces: seq<string>, dropLast: bool, head: string)
    requires LinesOf(lines, pieces, dropLast)
    ensures LinesOf([StripCr(head)] + lines, [head] + pieces, dropLast)
  {
    var ls := [StripCr(head)] + lines;
    var ps := [head] + pieces;
    forall j | 0 <= j < |ls|
      ensures ls[j] == if j < |ps| - 1 then StripCr(ps[j]) else ps[j]
    {
      if j > 0 {
        assert ls[j] == lines[j - 1];
        assert ps[j] == pieces[j - 1];
      }
    }
  }

  /** One step of `Lines`: the text up to the first `'\n'`, then the lines after it. */
  lemma LinesCons(s: string, i: nat)
    requires s != [] && Find(s, "\n") == Some(i)
    ensures Lines(s) == [StripCr(s[..i])] + Lines(s[i + 1..])
  {
  }

  /**
   * `str::lines` loses only line endings: the pieces of `s` between `'\n'`
   * characters join back to `s`, and the lines are those pieces, each one
   * that a `'\n'` ends without its trailing `'\r'`, and the empty piece
   * after a final `'\n'` dropped.
   */
  lemma {:induction false} LinesRebuild(s: string)
    ensures Join(SplitOn(s, "\n"), "\n") == s
    ensures LinesOf(Lines(s), SplitOn(s, "\n"), s == [] || s[|s| - 1] == '\n')
    decreases |s|
  {
    JoinSplitOn(s, "\n");
    if s != [] {
      match Find(s, "\n")
      case None =>
        SplitOnAbsent(s, "\n");
        assert !OccursAt(s, "\n", |s| - 1);
        assert s[|s| - 1..|s|] == [s[|s| - 1]];
      case Some(i) =>
        var t := s[i + 1..];
        FindChar(s, '\n', i);
        SplitOnCharFirst(s, '\n', i);
        LinesCons(s, i);
        LinesRebuild(t);
        assert s[i..i + 1] == "\n";
        assert t != [] ==> t[|t| - 1] == s[|s| - 1];
        LinesOfCons(Lines(t), SplitOn(t, "\n"), t == [] || t[|t| - 1] == '\n', s[..i]);
    }
  }

  // ---------------------------------------------------------------------------
  // Replacement

  /**
   * Rust's `str::replace` and JavaScript's `replaceAll` with a string pattern:
   * every non-overlapping occurrence of `p`, searched from the left, becomes `rep`.
   */
  function ReplaceAll(s: string, p: string, rep: string): string
    requires |p| > 0
    decreases |s|
  {
    if |s| < |p| then s
    else if s[..|p|] == p then rep + ReplaceAll(s[|p|..], p, rep)
    else [s[0]] + ReplaceAll(s[1..], p, rep)
  }

  /** Replacing is splitting at the pattern and joining with the replacement. */
  lemma {:induction false} ReplaceAllIsJoinSplit(s: string, p: string, rep: string)
    requires |p| > 0
    ensures ReplaceAll(s, p, rep) == Join(SplitOn(s, p), rep)
    decreases |s|
  {
    if |s| < |p| {
    } else if s[..|p|] == p {
      ReplaceAllIsJoinSplit(s[|p|..], p, rep);
      var rest := SplitOn(s[|p|..], p);
      assert ([""] + rest)[1..] == rest;
    } else {
      ReplaceAllIsJoinSplit(s[1..], p, rep);
      JoinConsFirst(s[0], SplitOn(s[1..], p), rep);
    }
  }

  /** The total length of the pieces. */
  function TotalLength(pieces: seq<string>): nat {
    if pieces == [] then 0 else |pieces[0]| + TotalLength(pieces[1..])
  }

  lemma {:induction false} JoinLength(pieces: seq<string>, sep: string)
    requires |pieces| >= 1
    ensures |Join(pieces, sep)| == TotalLength(pieces) + (|pieces| - 1) * |sep|
    decreases |pieces|
  {
    if |pieces| > 1 {
      JoinLength(pieces[1..], sep);
    }
  }

  /** Each replaced occurrence changes the length by `|rep| - |p|`. */
  lemma ReplaceAllLength(s: string, p: string, rep: string)
    requires |p| > 0
    ensures |ReplaceAll(s, p, rep)| == |s| + Occurrences(s, p) * (|rep| - |p|)
  {
    var pieces := SplitOn(s, p);
    JoinSplitOn(s, p);
    JoinLength(pieces, p);
    JoinLength(pieces, rep);
    ReplaceAllIsJoinSplit(s, p, rep);
    var k := |pieces| - 1;
    var total := TotalLength(pieces);
    assert |s| == total + k * |p|;
    assert |ReplaceAll(s, p, rep)| == total + k * |rep|;
    assert k * (|rep| - |p|) == k * |rep| - k * |p|;
  }

  /** A string in which the pattern does not occur comes back unchanged. */
  lemma {:induction false} ReplaceAllAbsent(s: string, p: string, rep: string)
    requires |p| > 0 && !Contains(s, p)
    ensures ReplaceAll(s, p, rep) == s
    decreases |s|
  {
    if |s| >= |p| {
      assert !OccursAt(s, p, 0);
      OccursShift(s, p);
      assert !Contains(s[1..], p);
      ReplaceAllAbsent(s[1..], p, rep);
      assert s == [s[0]] + s[1..];
    }
  }

  // ---------------------------------------------------------------------------
  // Decimal digits

  predicate IsDigit(c: char) {
    '0' <= c <= '9'
  }

  function DigitChar(d: nat): (c: char)
    requires d < 10
    ensures IsDigit(c)
  {
    (48 + d) as char
  }

  function DigitValue(c: char): nat
    requires IsDigit(c)
  {
    c as int - 48
  }

  predicate AllDigits(s: string) {
    forall k :: 0 <= k < |s| ==> IsDigit(s[k])
  }

  /** Decimal notation of `n` without leading zeros (`format!("{}")`, `String(n)`). */
  function Decimal(n: nat): (r: string)
    ensures |r| >= 1 && AllDigits(r)
    decreases n
  {
    if n < 10 then [DigitChar(n)] else Decimal(n / 10) + [DigitChar(n % 10)]
  }

  /** The number a string of decimal digits denotes. */
  function DigitsValue(s: string): nat
    requires AllDigits(s)
    decreases |s|
  {
    if s == [] then 0 else DigitsValue(s[..|s| - 1]) * 10 + DigitValue(s[|s| - 1])
  }

  /** Reading back the decimal notation of `n` gives `n`. */
  lemma {:induction false} DecimalValue(n: nat)
    ensures DigitsValue(Decimal(n)) == n
    decreases n
  {
    if n >= 10 {
      DecimalValue(n / 10);
      var d := Decimal(n);
      assert d[..|d| - 1] == Decimal(n / 10);
    }
  }

  /** `k` zero digits. */
  function Zeros(k: nat): (r: string)
    ensures |r| == k && AllDigits(r)
  {
    if k == 0 then [] else Zeros(k - 1) + "0"
  }

  /** `n` zero-padded on the left to at least `width` digits (`{:0width}`). */
  function ZeroPad(n: nat, width: nat): (r: string)
    ensures AllDigits(r) && |r| >= width && |r| >= 1
  {
    var d := Decimal(n);
    if |d| >= width then d else Zeros(width - |d|) + d
  }

  /** Leading zeros do not change the number digits denote. */
  lemma {:induction false} LeadingZerosValue(z: nat, s: string)
    requires AllDigits(s)
    ensures AllDigits(Zeros(z) + s)
    ensures DigitsValue(Zeros(z) + s) == DigitsValue(s)
    decreases |s|
  {
    var t := Zeros(z) + s;
    if s == [] {
      assert t == Zeros(z);
      ZerosValue(z);
    } else {
      LeadingZerosValue(z, s[..|s| - 1]);
      assert t[..|t| - 1] == Zeros(z) + s[..|s| - 1];
    }
  }

  lemma {:induction false} ZerosValue(z: nat)
    ensures DigitsValue(Zeros(z)) == 0
    decreases z
  {
    if z > 0 {
      ZerosValue(z - 1);
      assert Zeros(z)[..z - 1] == Zeros(z - 1);
    }
  }

  /** Zero padding does not change the number the digits denote. */
  lemma ZeroPadValue(n: nat, width: nat)
    ensures DigitsValue(ZeroPad(n, width)) == n
  {
    DecimalValue(n);
    var d := Decimal(n);
    if |d| < width {
      assert ZeroPad(n, width) == Zeros(width - |d|) + d;
      LeadingZerosValue(width - |d|, d);
    } else {
      assert ZeroPad(n, width) == d;
    }
  }

  /** The two-digit fields of a timestamp are exactly two digits long. */
  lemma ZeroPadTwo(n: nat)
    requires n < 100
    ensures |ZeroPad(n, 2)| == 2
  {
    if n >= 10 {
      assert Decimal(n) == Decimal(n / 10) + [DigitChar(n % 10)];
    }
  }

  lemma ZeroPadFour(n: nat)
    requires n < 10000
    ensures |ZeroPad(n, 4)| == 4
  {
    DecimalLength(n, 4);
  }

  lemma {:induction false} DecimalLength(n: nat, w: nat)
    requires w >= 1 && n < Pow10(w)
    ensures |Decimal(n)| <= w
    decreases n
  {
    if n >= 10 {
      assert n / 10 < Pow10(w - 1);
      DecimalLength(n / 10, w - 1);
    }
  }

  function Pow10(w: nat): nat {
    if w == 0 then 1 else 10 * Pow10(w - 1)
  }
}
