/**
 * The timestamp codec of the catalog. The Rust writer stores `published` with
 * chrono's `format("%Y-%m-%dT%H:%M:%S.000Z")` and the Rust reader parses the
 * stored text with `NaiveDateTime::parse_from_str` and the same pattern; the
 * TypeScript writers store JavaScript's `Date.prototype.toISOString()`.
 */
module Timestamp {
  import opened Wrappers
  import opened Text

  /**
   * chrono's `NaiveDateTime`: a proleptic Gregorian date and a time of day.
   * `nano` is at least 10^9 only during a leap second, which chrono keeps as
   * second 59 with an extra 10^9 nanoseconds.
   */
  datatype DateTime = DateTime(year: int, month: nat, day: nat, hour: nat, minute: nat, second: nat, nano: nat)

  /** The range of years `NaiveDate` can hold. */
  const MinYear: int := -262143
  const MaxYear: int := 262142

  const NanosPerSecond: nat := 1_000_000_000

  predicate IsLeapYear(y: int) {
    (y % 4 == 0 && y % 100 != 0) || y % 400 == 0
  }

  function DaysInMonth(y: int, m: nat): nat
    requires 1 <= m <= 12
  {
    if m == 2 then (if IsLeapYear(y) then 29 else 28)
    else if m == 4 || m == 6 || m == 9 || m == 11 then 30
    else 31
  }

  predicate ValidDate(y: int, m: nat, d: nat) {
    MinYear <= y <= MaxYear && 1 <= m <= 12 && 1 <= d <= DaysInMonth(y, m)
  }

  /** The values a `NaiveDateTime` can take. */
  predicate Valid(t: DateTime) {
    && ValidDate(t.year, t.month, t.day)
    && t.hour < 24 && t.minute < 60 && t.second < 60
    && t.nano < 2 * NanosPerSecond
    && (t.nano >= NanosPerSecond ==> t.second == 59)
  }

  /** What survives the storage format: whole seconds, and whether it was a leap second. */
  function Truncate(t: DateTime): DateTime {
    t.(nano := if t.nano >= NanosPerSecond then NanosPerSecond else 0)
  }

  // ---------------------------------------------------------------------------
  // Writing: chrono's `format("%Y-%m-%dT%H:%M:%S.000Z")`

  /** The sign `%Y` writes: none for years 0 to 9999, otherwise `+` or `-`. */
  function YearSign(y: int): string {
    if 0 <= y <= 9999 then "" else if y > 9999 then "+" else "-"
  }

  function Abs(y: int): nat {
    if y < 0 then -y else y
  }

  /** `%Y`: the sign, then the magnitude in at least four digits; `tail` follows. */
  function YearField(y: int, tail: string): string {
    YearSign(y) + (ZeroPad(Abs(y), 4) + tail)
  }

  /** `%S` shows a leap second as 60. */
  function SecondField(t: DateTime): nat {
    if t.nano >= NanosPerSecond then t.second + 1 else t.second
  }

  /** The literal that precedes each two-digit field of `-%m-%dT%H:%M:%S`. */
  const Separators: seq<string> := ["-", "-", "T", ":", ":"]

  /** Each separator followed by its value as two digits (`%m`, `%d`, `%H`, `%M`, `%S`), then `tail`. */
  function Fields(seps: seq<string>, vals: seq<nat>, tail: string): string
    requires |seps| == |vals|
  {
    if seps == [] then tail else seps[0] + (ZeroPad(vals[0], 2) + Fields(seps[1..], vals[1..], tail))
  }

  /** The values of the two-digit fields, with `sec` as the seconds shown. */
  function FieldValues(t: DateTime, sec: nat): seq<nat> {
    [t.month, t.day, t.hour, t.minute, sec]
  }

  /** The pattern written out with `tail` in place of the final `.000Z`. */
  function Written(t: DateTime, tail: string): string {
    YearField(t.year, Fields(Separators, FieldValues(t, SecondField(t)), tail))
  }

  /** The stored text of a timestamp, as `insert_data` writes it. */
  function Format(t: DateTime): string {
    Written(t, ".000Z")
  }

  // ---------------------------------------------------------------------------
  // Reading: chrono's `NaiveDateTime::parse_from_str(s, "%Y-%m-%dT%H:%M:%S.000Z")`

  /** How many leading ASCII digits `scan::number` consumes: as many as there are, at most `max`. */
  function LeadingDigits(s: string, max: nat): (n: nat)
    ensures n <= |s| && n <= max
    ensures AllDigits(s[..n])
    ensures n < |s| && n < max ==> !IsDigit(s[n])
    decreases max
  {
    if s == [] || max == 0 || !IsDigit(s[0]) then 0
    else
      var n := 1 + LeadingDigits(s[1..], max - 1);
      assert s[..n] == [s[0]] + s[1..][..n - 1];
      n
  }

  /** chrono's `scan::number(s, 1, max)`: at least one digit; the value and the rest. */
  function ScanNumber(s: string, max: nat): Option<(nat, string)> {
    var n := LeadingDigits(s, max);
    if n == 0 then None else Some((DigitsValue(s[..n]), s[n..]))
  }

  /** A numeric field: leading white space is skipped, then at most `width` digits. */
  function ScanField(s: string, width: nat): Option<(nat, string)> {
    ScanNumber(TrimStart(s, RustSpace), width)
  }

  /** A scanned number with its sign applied. */
  function Signed(negative: bool, o: Option<(nat, string)>): Option<(int, string)> {
    match o
    case None => None
    case Some((v, rest)) => Some((if negative then -(v as int) else v as int, rest))
  }

  /** `%Y` read back: an explicit sign allows any number of digits, otherwise at most four. */
  function ScanYear(s: string): Option<(int, string)> {
    var t := TrimStart(s, RustSpace);
    if |t| > 0 && (t[0] == '-' || t[0] == '+') then Signed(t[0] == '-', ScanNumber(t[1..], |t|))
    else Signed(false, ScanNumber(t, 4))
  }

  /** A literal piece of the pattern. */
  function Literal(s: string, lit: string): Option<string> {
    if StartsWith(s, lit) then Some(s[|lit|..]) else None
  }

  /** The range checks of chrono's `Parsed`, and its mapping of second 60 to a leap second. */
  function Assemble(y: int, mo: nat, d: nat, h: nat, mi: nat, sec: nat): (r: Option<DateTime>)
    ensures r.Some? ==> Valid(r.value)
  {
    if ValidDate(y, mo, d) && h < 24 && mi < 60 && sec <= 60 then
      if sec == 60 then Some(DateTime(y, mo, d, h, mi, 59, NanosPerSecond))
      else Some(DateTime(y, mo, d, h, mi, sec, 0))
    else None
  }

  /** A literal separator followed by a two-digit field (`-%m`, `T%H`, `:%M` and so on). */
  function SepField(s: string, sep: string): Option<(nat, string)> {
    var after :- Literal(s, sep);
    ScanField(after, 2)
  }

  /** The separated two-digit fields read back in order, and the rest of the input. */
  function ScanFields(s: string, seps: seq<string>): (r: Option<(seq<nat>, string)>)
    ensures r.Some? ==> |r.value.0| == |seps|
  {
    if seps == [] then Some(([], s))
    else
      var f :- SepField(s, seps[0]);
      var more :- ScanFields(f.1, seps[1..]);
      Some(([f.0] + more.0, more.1))
  }

  /** The reader's parse of a stored `published` value; `None` is chrono's parse error. */
  function Parse(s: string): (r: Option<DateTime>)
    ensures r.Some? ==> Valid(r.value)
  {
    var y :- ScanYear(s);
    var f :- ScanFields(y.1, Separators);
    var rest :- Literal(f.1, ".000Z");
    if rest != [] then None
    else Assemble(y.0, f.0[0], f.0[1], f.0[2], f.0[3], f.0[4])
  }

  // ---------------------------------------------------------------------------
  // JavaScript's `Date.prototype.toISOString()`

  /** The milliseconds JavaScript keeps of a timestamp. */
  function Millis(t: DateTime): nat {
    (t.nano / 1_000_000) % 1000
  }

  /** Years 0 to 9999 take four digits, others a sign and six digits; `tail` follows. */
  function IsoYear(y: int, tail: string): string {
    YearSign(y) + (ZeroPad(Abs(y), if 0 <= y <= 9999 then 4 else 6) + tail)
  }

  function IsoString(t: DateTime): string {
    IsoYear(t.year, Fields(Separators, FieldValues(t, t.second), "." + ZeroPad(Millis(t), 3) + "Z"))
  }
}
