/**
 * Calendar dates as the vault stores them: `YYYY-MM-DD` text of a real
 * calendar date, printed back the way `toISOString().split("T")[0]` prints
 * one. This is narrower than `new Date(text)`, which also accepts other
 * forms and rolls a day past the month's end over into the next month.
 */
module Dates {
  import opened Wrappers
  import opened Text

  datatype Date = Date(year: nat, month: nat, day: nat)

  predicate IsLeapYear(y: nat) {
    y % 4 == 0 && (y % 100 != 0 || y % 400 == 0)
  }

  function DaysInMonth(y: nat, m: nat): nat {
    if m == 2 then (if IsLeapYear(y) then 29 else 28)
    else if m == 4 || m == 6 || m == 9 || m == 11 then 30
    else 31
  }

  /** A day of the proleptic Gregorian calendar with a four-digit year. */
  predicate ValidDate(d: Date) {
    d.year <= 9999 && 1 <= d.month <= 12 && 1 <= d.day <= DaysInMonth(d.year, d.month)
  }

  /** Chronological order: `a` is on or before `b`. */
  predicate Leq(a: Date, b: Date) {
    a.year < b.year ||
    (a.year == b.year && (a.month < b.month || (a.month == b.month && a.day <= b.day)))
  }

  // ------------------------------------------------------- fixed-width digits

  function Pow10(width: nat): nat {
    if width == 0 then 1 else 10 * Pow10(width - 1)
  }

  /** `n` in exactly `width` decimal digits, zero-padded (higher digits are dropped). */
  function Pad(n: nat, width: nat): (s: string)
    ensures |s| == width && AllDigits(s)
  {
    if width == 0 then [] else Pad(n / 10, width - 1) + [DigitChar(n % 10)]
  }

  lemma {:induction false} PadValue(n: nat, width: nat)
    requires n < Pow10(width)
    ensures DigitsValue(Pad(n, width)) == n
  {
    if width > 0 {
      var s := Pad(n, width);
      assert s[..|s| - 1] == Pad(n / 10, width - 1);
      PadValue(n / 10, width - 1);
    }
  }

  lemma {:induction false} ValuePad(s: string)
    requires AllDigits(s)
    ensures Pad(DigitsValue(s), |s|) == s
  {
    if s != [] {
      var p := s[..|s| - 1];
      var c := s[|s| - 1];
      ValuePad(p);
      var v := DigitsValue(s);
      assert v / 10 == DigitsValue(p) && v % 10 == DigitValue(c);
      assert s == p + [c];
    }
  }

  // ---------------------------------------------------------------- format

  /** `YYYY-MM-DD`. */
  function FormatDate(d: Date): string {
    Pad(d.year, 4) + "-" + Pad(d.month, 2) + "-" + Pad(d.day, 2)
  }

  /** The date part of `toISOString()` with the time part of a date-only value: `YYYY-MM-DD 00:00:00`. */
  function FormatTimestamp(d: Date): string {
    FormatDate(d) + " 00:00:00"
  }

  // ----------------------------------------------------------------- parse

  /**
   * Reading a `YYYY-MM-DD` text as a calendar date; `None` stands for the
   * Invalid Date, here for every text that is not such a date (including a
   * day past the end of its month, which `new Date` would roll over).
   */
  function ParseDate(s: string): (r: Option<Date>)
    ensures r.Some? ==> ValidDate(r.value)
  {
    if |s| == 10 && s[4] == '-' && s[7] == '-' &&
       AllDigits(s[..4]) && AllDigits(s[5..7]) && AllDigits(s[8..])
    then
      var d := Date(DigitsValue(s[..4]), DigitsValue(s[5..7]), DigitsValue(s[8..]));
      if ValidDate(d) then Some(d) else None
    else None
  }

  /** Printing a valid date and parsing the text gives the date back. */
  lemma ParseFormat(d: Date)
    requires ValidDate(d)
    ensures ParseDate(FormatDate(d)) == Some(d)
  {
    var y, m, dd := Pad(d.year, 4), Pad(d.month, 2), Pad(d.day, 2);
    var s := FormatDate(d);
    assert s[..4] == y && s[4] == '-' && s[5..7] == m && s[7] == '-' && s[8..] == dd;
    PadValue(d.year, 4);
    PadValue(d.month, 2);
    PadValue(d.day, 2);
  }

  /** Every text the parser accepts is already in printed form: parsing then printing is the identity. */
  lemma FormatParse(s: string)
    requires ParseDate(s).Some?
    ensures FormatDate(ParseDate(s).value) == s
  {
    ValuePad(s[..4]);
    ValuePad(s[5..7]);
    ValuePad(s[8..]);
    assert s == s[..4] + "-" + s[5..7] + "-" + s[8..];
  }

  // ------------------------------------------------------------ min and max

  /** `Math.min` over a non-empty list of dates. */
  function Earliest(ds: seq<Date>): (m: Date)
    requires ds != []
    ensures m in ds
    ensures forall d :: d in ds ==> Leq(m, d)
  {
    if |ds| == 1 then ds[0]
    else
      var rest := Earliest(ds[..|ds| - 1]);
      var last := ds[|ds| - 1];
      assert ds == ds[..|ds| - 1] + [last];
      if Leq(rest, last) then rest else last
  }

  /** `Math.max` over a non-empty list of dates. */
  function Latest(ds: seq<Date>): (m: Date)
    requires ds != []
    ensures m in ds
    ensures forall d :: d in ds ==> Leq(d, m)
  {
    if |ds| == 1 then ds[0]
    else
      var rest := Latest(ds[..|ds| - 1]);
      var last := ds[|ds| - 1];
      assert ds == ds[..|ds| - 1] + [last];
      if Leq(last, rest) then rest else last
  }
}
