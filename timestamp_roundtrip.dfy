/**
 * The round trips of the catalog's timestamp codec: what the Rust writer
 * stores, the Rust reader parses back; and what the TypeScript writers store,
 * the Rust reader accepts only when it has no milliseconds.
 */
module TimestampRoundTrip {
  import opened Wrappers
  import opened Text
  import opened Timestamp

  lemma {:induction false} LeadingDigitsOf(d: string, rest: string, max: nat)
    requires AllDigits(d) && |d| <= max
    requires rest == [] || !IsDigit(rest[0]) || |d| == max
    ensures LeadingDigits(d + rest, max) == |d|
    decreases |d|
  {
    if d != [] {
      assert (d + rest)[1..] == d[1..] + rest;
      LeadingDigitsOf(d[1..], rest, max - 1);
    } else if rest != [] && max > 0 {
      assert (d + rest)[0] == rest[0];
    }
  }

  /** A run of digits followed by a non-digit scans back to its value. */
  lemma ScanDigits(d: string, rest: string, max: nat)
    requires AllDigits(d) && 1 <= |d| <= max
    requires rest == [] || !IsDigit(rest[0]) || |d| == max
    ensures ScanNumber(d + rest, max) == Some((DigitsValue(d), rest))
  {
    LeadingDigitsOf(d, rest, max);
    assert (d + rest)[..|d|] == d;
    assert (d + rest)[|d|..] == rest;
  }

  /** A two-digit field followed by a non-digit scans back to its value. */
  lemma ScanTwoDigits(n: nat, rest: string)
    requires n < 100
    requires rest == [] || !IsDigit(rest[0])
    ensures ScanField(ZeroPad(n, 2) + rest, 2) == Some((n, rest))
  {
    var d := ZeroPad(n, 2);
    ZeroPadTwo(n);
    ZeroPadValue(n, 2);
    assert (d + rest)[0] == d[0];
    TrimStartKeeps(d + rest, RustSpace);
    ScanDigits(d, rest, 2);
  }

  /** Four digits of a year in 0 to 9999, followed by a non-digit, scan back to the year. */
  lemma ScanYearPlain(y: nat, rest: string)
    requires y <= 9999
    requires |rest| > 0 && rest[0] == '-'
    ensures ScanYear(ZeroPad(y, 4) + rest) == Some((y as int, rest))
  {
    var d := ZeroPad(y, 4);
    var s := d + rest;
    ZeroPadFour(y);
    ZeroPadValue(y, 4);
    assert s[0] == d[0];
    TrimStartKeeps(s, RustSpace);
    ScanDigits(d, rest, 4);
  }

  /** After an explicit sign, the digits are scanned without a limit. */
  lemma ScanYearSign(s: string)
    requires |s| > 0 && (s[0] == '+' || s[0] == '-')
    ensures ScanYear(s) == Signed(s[0] == '-', ScanNumber(s[1..], |s|))
  {
    TrimStartKeeps(s, RustSpace);
  }

  /** What `%Y` writes outside 0 to 9999, followed by the `-` of the month, scans back to the year. */
  lemma ScanSignedYear(y: int, rest: string)
    requires y < 0 || y > 9999
    requires |rest| > 0 && rest[0] == '-'
    ensures ScanYear(YearField(y, rest)) == Some((y, rest))
  {
    var d := ZeroPad(Abs(y), 4);
    var s := YearField(y, rest);
    ZeroPadValue(Abs(y), 4);
    assert s[0] == (if y > 9999 then '+' else '-');
    assert s[1..] == d + rest;
    ScanYearSign(s);
    ScanDigits(d, rest, |s|);
  }

  /** What `%Y` writes, followed by the `-` of the month, scans back to the year. */
  lemma ScanYearField(y: int, rest: string)
    requires |rest| > 0 && rest[0] == '-'
    ensures ScanYear(YearField(y, rest)) == Some((y, rest))
  {
    if 0 <= y <= 9999 {
      ScanYearPlain(y, rest);
      assert YearField(y, rest) == ZeroPad(y, 4) + rest;
    } else {
      ScanSignedYear(y, rest);
    }
  }

  lemma LiteralOf(lit: string, rest: string)
    ensures Literal(lit + rest, lit) == Some(rest)
  {
    assert (lit + rest)[..|lit|] == lit;
    assert (lit + rest)[|lit|..] == rest;
  }

  /** A separator followed by a field read back. */
  lemma SepFieldOf(sep: string, after: string)
    ensures SepField(sep + after, sep) == ScanField(after, 2)
  {
    LiteralOf(sep, after);
  }

  /** No separator is empty or starts with a digit. */
  predicate PlainSeparators(seps: seq<string>) {
    forall i :: 0 <= i < |seps| ==> |seps[i]| > 0 && !IsDigit(seps[i][0])
  }

  lemma PlainSeparatorsTail(seps: seq<string>)
    requires |seps| > 0 && PlainSeparators(seps)
    ensures PlainSeparators(seps[1..])
  {
    forall i | 0 <= i < |seps[1..]| ensures |seps[1..][i]| > 0 && !IsDigit(seps[1..][i][0]) {
      assert seps[1..][i] == seps[i + 1];
    }
  }

  /** What `Fields` writes starts with its first separator, or is the tail. */
  lemma FieldsStart(seps: seq<string>, vals: seq<nat>, rest: string)
    requires |seps| == |vals| && PlainSeparators(seps)
    requires rest == [] || !IsDigit(rest[0])
    ensures var w := Fields(seps, vals, rest); w == [] || !IsDigit(w[0])
  {
    if seps != [] {
      assert Fields(seps, vals, rest)[0] == seps[0][0];
    }
  }

  /** One separated field in front of fields `ScanFields` reads is read with them. */
  lemma ScanFieldsCons(seps: seq<string>, v: nat, inner: string, more: seq<nat>, rest: string)
    requires seps != [] && v < 100
    requires inner == [] || !IsDigit(inner[0])
    requires ScanFields(inner, seps[1..]) == Some((more, rest))
    ensures ScanFields(seps[0] + (ZeroPad(v, 2) + inner), seps) == Some(([v] + more, rest))
  {
    ScanTwoDigits(v, inner);
    SepFieldOf(seps[0], ZeroPad(v, 2) + inner);
  }

  /** The first field in front of the others, given that the others read back. */
  lemma ScanFieldsStep(seps: seq<string>, vals: seq<nat>, rest: string)
    requires |seps| == |vals| > 0 && vals[0] < 100
    requires var inner := Fields(seps[1..], vals[1..], rest); inner == [] || !IsDigit(inner[0])
    requires ScanFields(Fields(seps[1..], vals[1..], rest), seps[1..]) == Some((vals[1..], rest))
    ensures ScanFields(Fields(seps, vals, rest), seps) == Some((vals, rest))
  {
    ScanFieldsCons(seps, vals[0], Fields(seps[1..], vals[1..], rest), vals[1..], rest);
    assert [vals[0]] + vals[1..] == vals;
  }

  /** Two-digit fields written by `Fields` and followed by a non-digit are read back by `ScanFields`. */
  lemma {:induction false} ScanFieldsOf(seps: seq<string>, vals: seq<nat>, rest: string)
    requires |seps| == |vals| && PlainSeparators(seps)
    requires forall i :: 0 <= i < |vals| ==> vals[i] < 100
    requires rest == [] || !IsDigit(rest[0])
    ensures ScanFields(Fields(seps, vals, rest), seps) == Some((vals, rest))
  {
    if seps != [] {
      PlainSeparatorsTail(seps);
      var tailVals := vals[1..];
      forall i | 0 <= i < |tailVals| ensures tailVals[i] < 100 {
        assert tailVals[i] == vals[i + 1];
      }
      FieldsStart(seps[1..], tailVals, rest);
      ScanFieldsOf(seps[1..], tailVals, rest);
      ScanFieldsStep(seps, vals, rest);
    }
  }

  /** The final literal leaves nothing over exactly when the text is `.000Z`. */
  lemma FinalLiteral(rest: string)
    ensures (Literal(rest, ".000Z") == Some([])) == (rest == ".000Z")
  {
    if rest == ".000Z" {
      LiteralOf(".000Z", []);
      assert rest == ".000Z" + [];
    } else if StartsWith(rest, ".000Z") {
      assert rest == rest[..5] + rest[5..];
    }
  }

  /** `Parse` as its three stages: the year, the separated fields, and the final literal. */
  lemma ParseStages(s: string, y: int, r2: string, vals: seq<nat>, rest: string)
    requires ScanYear(s) == Some((y, r2))
    requires ScanFields(r2, Separators) == Some((vals, rest))
    ensures |vals| == 5
    ensures Parse(s) == if rest == ".000Z" then Assemble(y, vals[0], vals[1], vals[2], vals[3], vals[4]) else None
  {
    FinalLiteral(rest);
  }

  /**
   * Parsing the pattern of a valid timestamp, written with `rest` in place of
   * `.000Z`, succeeds exactly when `rest` is `.000Z`, and then yields the
   * timestamp cut to whole seconds.
   */
  lemma ParseWritten(t: DateTime, rest: string)
    requires Valid(t)
    requires rest == [] || !IsDigit(rest[0])
    ensures Parse(Written(t, rest)) == if rest == ".000Z" then Some(Truncate(t)) else None
  {
    var vals := FieldValues(t, SecondField(t));
    var r2 := Fields(Separators, vals, rest);
    ScanWrittenFields(t, rest);
    FieldsStart(Separators, vals, rest);
    ScanYearField(t.year, r2);
    ParseStages(Written(t, rest), t.year, r2, vals, rest);
    AssembleOf(t);
  }

  lemma ScanWrittenFields(t: DateTime, rest: string)
    requires Valid(t)
    requires rest == [] || !IsDigit(rest[0])
    ensures PlainSeparators(Separators)
    ensures ScanFields(Fields(Separators, FieldValues(t, SecondField(t)), rest), Separators)
         == Some((FieldValues(t, SecondField(t)), rest))
  {
    var vals := FieldValues(t, SecondField(t));
    assert forall i :: 0 <= i < |vals| ==> vals[i] < 100;
    ScanFieldsOf(Separators, vals, rest);
  }

  /** The fields `%S` writes, leap second included, assemble back to the timestamp cut to whole seconds. */
  lemma AssembleOf(t: DateTime)
    requires Valid(t)
    ensures var v := FieldValues(t, SecondField(t));
      Assemble(t.year, v[0], v[1], v[2], v[3], v[4]) == Some(Truncate(t))
  {
  }

  /**
   * The round trip of the catalog's timestamps: what `insert_data` writes,
   * the reader parses back to the same value at one-second resolution.
   */
  lemma FormatParseRoundTrip(t: DateTime)
    requires Valid(t)
    ensures Parse(Format(t)) == Some(Truncate(t))
  {
    ParseWritten(t, ".000Z");
  }

  /** Two timestamps that agree to the second are stored as the same text. */
  lemma FormatDropsSubseconds(t: DateTime, u: DateTime)
    requires Valid(t) && Valid(u) && Truncate(t) == Truncate(u)
    ensures Format(t) == Format(u)
  {
    assert SecondField(t) == SecondField(u);
  }

  /**
   * For years 0 to 9999 and no leap second, the ISO text written by the
   * TypeScript writers is the Rust storage pattern with the milliseconds in
   * place of `.000Z`: the Rust reader accepts it exactly when the milliseconds are zero.
   */
  lemma IsoStringAgainstParse(t: DateTime)
    requires Valid(t) && 0 <= t.year <= 9999 && t.nano < NanosPerSecond
    ensures Parse(IsoString(t)) == if Millis(t) == 0 then Some(Truncate(t)) else None
  {
    var ms := ZeroPad(Millis(t), 3);
    IsoStringIsWritten(t);
    ParseWritten(t, "." + ms + "Z");
    MillisText(Millis(t));
    MillisSuffix(ms);
  }

  /** Within 0 to 9999 and outside a leap second, the ISO text is the storage pattern with other fractional digits. */
  lemma IsoStringIsWritten(t: DateTime)
    requires 0 <= t.year <= 9999 && t.nano < NanosPerSecond
    ensures IsoString(t) == Written(t, "." + ZeroPad(Millis(t), 3) + "Z")
  {
    assert FieldValues(t, SecondField(t)) == FieldValues(t, t.second);
  }

  lemma MillisSuffix(ms: string)
    ensures ("." + ms + "Z" == ".000Z") == (ms == "000")
  {
    var rest := "." + ms + "Z";
    assert rest[1..|rest| - 1] == ms;
    assert ".000Z"[1..4] == "000";
  }

  /** Three digits of milliseconds read `000` exactly when there are none. */
  lemma MillisText(m: nat)
    ensures (ZeroPad(m, 3) == "000") == (m == 0)
  {
    ZeroPadValue(m, 3);
    ZerosValue(3);
    assert Zeros(3) == "000";
    if m == 0 {
      assert Decimal(0) == "0";
      assert Zeros(2) == "00";
    }
  }
}
