/** Calendar dates as integer (year, month, day) triples, their order, anniversaries, and
    the ISO 8601 "YYYY-MM-DD" text the form stores a chosen birth date as. Months are
    numbered 1 to 12; the age rule only ever subtracts two months, so this agrees with the
    0-based months of a JavaScript Date. */
module Dates {
  import opened Wrappers
  import opened Chars

  datatype Date = Date(year: int, month: int, day: int)

  predicate IsLeapYear(y: int)
  {
    y % 4 == 0 && (y % 100 != 0 || y % 400 == 0)
  }

  function DaysInMonth(y: int, m: int): (n: int)
    requires 1 <= m <= 12
    ensures 28 <= n <= 31
    ensures n == 29 <==> m == 2 && IsLeapYear(y)
  {
    if m == 2 then (if IsLeapYear(y) then 29 else 28)
    else if m == 4 || m == 6 || m == 9 || m == 11 then 30
    else 31
  }

  /** A (month, day) that exists in the calendar of the given year. */
  predicate IsRealDate(d: Date)
  {
    1 <= d.month <= 12 && 1 <= d.day <= DaysInMonth(d.year, d.month)
  }

  /** A real calendar date whose year toISOString writes with four digits. */
  predicate IsIsoDate(d: Date)
  {
    0 <= d.year <= 9999 && IsRealDate(d)
  }

  /** (month, day) of a comes strictly before (month, day) of b within a year. */
  predicate MonthDayBefore(a: Date, b: Date)
  {
    a.month < b.month || (a.month == b.month && a.day < b.day)
  }

  /** a is on or before b in (year, month, day) order. */
  predicate OnOrBefore(a: Date, b: Date)
  {
    a.year < b.year || (a.year == b.year && !MonthDayBefore(b, a))
  }

  /** The date n years after birth, on the birth month and day. */
  function Anniversary(birth: Date, n: int): (a: Date)
    ensures a.year - birth.year == n && a.month == birth.month && a.day == birth.day
  {
    Date(birth.year + n, birth.month, birth.day)
  }

  /** The calendar day after d: across month ends and the year end. */
  function NextDay(d: Date): (r: Date)
    requires IsIsoDate(d)
    ensures OnOrBefore(d, r) && r != d
    ensures IsRealDate(r) && d.year <= r.year <= d.year + 1
  {
    if d.day < DaysInMonth(d.year, d.month) then Date(d.year, d.month, d.day + 1)
    else if d.month < 12 then Date(d.year, d.month + 1, 1)
    else Date(d.year + 1, 1, 1)
  }

  /** No real date lies strictly between a day and the next one. */
  lemma NextDayIsNext(d: Date, x: Date)
    requires IsIsoDate(d) && IsRealDate(x)
    requires OnOrBefore(d, x) && x != d
    ensures OnOrBefore(NextDay(d), x)
  {
  }

  /** The value of a run of decimal digits, most significant first. */
  function DecimalValue(s: string): (n: nat)
    requires AllDigits(s)
    decreases |s|
  {
    if s == [] then 0
    else DecimalValue(s[..|s| - 1]) * 10 + (s[|s| - 1] as int - '0' as int)
  }

  function Pow10(k: nat): (p: nat)
    ensures p >= 1
  {
    if k == 0 then 1 else 10 * Pow10(k - 1)
  }

  /** n written with exactly width decimal digits, zero-padded on the left. */
  function PadDigits(n: nat, width: nat): (s: string)
    ensures |s| == width && AllDigits(s)
  {
    if width == 0 then []
    else PadDigits(n / 10, width - 1) + [('0' as int + n % 10) as char]
  }

  lemma {:induction false} DecimalValueOfPad(n: nat, width: nat)
    requires n < Pow10(width)
    ensures DecimalValue(PadDigits(n, width)) == n
  {
    if width > 0 {
      var s := PadDigits(n, width);
      assert s[..|s| - 1] == PadDigits(n / 10, width - 1);
      DecimalValueOfPad(n / 10, width - 1);
    }
  }

  lemma {:induction false} PadOfDecimalValue(s: string)
    requires AllDigits(s)
    ensures DecimalValue(s) < Pow10(|s|)
    ensures PadDigits(DecimalValue(s), |s|) == s
  {
    if s != [] {
      var init := s[..|s| - 1];
      PadOfDecimalValue(init);
      var d := s[|s| - 1] as int - '0' as int;
      assert DecimalValue(s) / 10 == DecimalValue(init) && DecimalValue(s) % 10 == d;
      assert s == init + [s[|s| - 1]];
    }
  }

  /** toISOString().split('T')[0] of a chosen date: "YYYY-MM-DD". */
  function FormatIsoDate(d: Date): (s: string)
    requires IsIsoDate(d)
    ensures |s| == 10 && s[4] == '-' && s[7] == '-'
  {
    PadDigits(d.year, 4) + "-" + PadDigits(d.month, 2) + "-" + PadDigits(d.day, 2)
  }

  /** new Date(s) for the date-only ISO form "YYYY-MM-DD": the date it denotes, or None for
      text that is not such a date (what JavaScript calls an Invalid Date). */
  function ParseIsoDate(s: string): (r: Option<Date>)
    ensures r.Some? ==> IsIsoDate(r.value)
  {
    if |s| == 10 && s[4] == '-' && s[7] == '-'
       && AllDigits(s[..4]) && AllDigits(s[5..7]) && AllDigits(s[8..])
    then
      var d := Date(DecimalValue(s[..4]), DecimalValue(s[5..7]), DecimalValue(s[8..]));
      if IsIsoDate(d) then Some(d) else None
    else None
  }

  /** Reading back the text written for a date gives that date. */
  lemma ParseFormat(d: Date)
    requires IsIsoDate(d)
    ensures ParseIsoDate(FormatIsoDate(d)) == Some(d)
  {
    var s := FormatIsoDate(d);
    assert s[..4] == PadDigits(d.year, 4);
    assert s[5..7] == PadDigits(d.month, 2);
    assert s[8..] == PadDigits(d.day, 2);
    DecimalValueOfPad(d.year, 4);
    DecimalValueOfPad(d.month, 2);
    DecimalValueOfPad(d.day, 2);
  }

  /** A text that parses is the canonical text of its date: parsing is injective. */
  lemma FormatParse(s: string, d: Date)
    requires ParseIsoDate(s) == Some(d)
    ensures FormatIsoDate(d) == s
  {
    PadOfDecimalValue(s[..4]);
    PadOfDecimalValue(s[5..7]);
    PadOfDecimalValue(s[8..]);
    assert s == s[..4] + "-" + s[5..7] + "-" + s[8..];
  }

}
