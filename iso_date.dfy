/**
 * Calendar dates in the ISO 8601 extended format YYYY-MM-DD (ISO 8601:2004,
 * section 4.1.2.2): the form `datetime.fromisoformat` reads here, and the
 * YYYY/MM/DD form that `strftime('%Y/%m/%d')` writes.
 */
module IsoDate {

  import opened Wrappers
  import opened Text

  datatype Date = Date(year: int, month: int, day: int)

  /** Gregorian leap years: divisible by 4, except centuries not divisible by 400. */
  predicate IsLeapYear(y: int) {
    y % 4 == 0 && (y % 100 != 0 || y % 400 == 0)
  }

  function DaysInMonth(y: int, m: int): (n: int)
    requires 1 <= m <= 12
    ensures 28 <= n <= 31
  {
    if m == 2 then (if IsLeapYear(y) then 29 else 28)
    else if m == 4 || m == 6 || m == 9 || m == 11 then 30
    else 31
  }

  /** The dates Python's `date` admits: years 1 to 9999, months 1 to 12, days within the month. */
  predicate ValidDate(d: Date) {
    && 1 <= d.year <= 9999
    && 1 <= d.month <= 12
    && 1 <= d.day <= DaysInMonth(d.year, d.month)
  }

  /** Ten characters, dashes at positions 4 and 7, digits everywhere else. */
  predicate IsoShape(s: string) {
    && |s| == 10
    && s[4] == '-' && s[7] == '-'
    && IsDigit(s[0]) && IsDigit(s[1]) && IsDigit(s[2]) && IsDigit(s[3])
    && IsDigit(s[5]) && IsDigit(s[6]) && IsDigit(s[8]) && IsDigit(s[9])
  }

  function TwoDigits(a: char, b: char): (n: nat)
    requires IsDigit(a) && IsDigit(b)
    ensures n < 100
  {
    10 * DigitValue(a) + DigitValue(b)
  }

  function FourDigits(a: char, b: char, c: char, d: char): (n: nat)
    requires IsDigit(a) && IsDigit(b) && IsDigit(c) && IsDigit(d)
    ensures n < 10000
  {
    100 * TwoDigits(a, b) + TwoDigits(c, d)
  }

  /** `datetime.fromisoformat` on a date-only token; None where it raises ValueError. */
  function ParseIsoDate(s: string): (r: Option<Date>) {
    if IsoShape(s) then
      var d := Date(FourDigits(s[0], s[1], s[2], s[3]), TwoDigits(s[5], s[6]), TwoDigits(s[8], s[9]));
      if ValidDate(d) then Some(d) else None
    else None
  }

  /** An accepted token is a valid date written exactly as that token. */
  lemma ParseIsoDateSound(s: string)
    requires ParseIsoDate(s).Some?
    ensures ValidDate(ParseIsoDate(s).value) && FormatIso(ParseIsoDate(s).value) == s
  {
    PadFourOfDigits(s[0], s[1], s[2], s[3]);
    PadTwoOfDigits(s[5], s[6]);
    PadTwoOfDigits(s[8], s[9]);
  }

  /** Zero-padded to two digits, as `%m` and `%d` write them. */
  function PadTwo(n: int): (s: string)
    requires 0 <= n < 100
    ensures |s| == 2 && IsDigit(s[0]) && IsDigit(s[1]) && TwoDigits(s[0], s[1]) == n
  {
    [DigitChar(n / 10), DigitChar(n % 10)]
  }

  /** Zero-padded to four digits, as `%Y` writes years. */
  function PadFour(n: int): (s: string)
    requires 0 <= n < 10000
    ensures |s| == 4 && AllDigits(s) && FourDigits(s[0], s[1], s[2], s[3]) == n
  {
    PadTwo(n / 100) + PadTwo(n % 100)
  }

  lemma PadTwoOfDigits(a: char, b: char)
    requires IsDigit(a) && IsDigit(b)
    ensures PadTwo(TwoDigits(a, b)) == [a, b]
  {
    var n := TwoDigits(a, b);
    assert n / 10 == DigitValue(a) && n % 10 == DigitValue(b);
  }

  lemma PadFourOfDigits(a: char, b: char, c: char, d: char)
    requires IsDigit(a) && IsDigit(b) && IsDigit(c) && IsDigit(d)
    ensures PadFour(FourDigits(a, b, c, d)) == [a, b, c, d]
  {
    var n := FourDigits(a, b, c, d);
    assert n / 100 == TwoDigits(a, b) && n % 100 == TwoDigits(c, d);
    PadTwoOfDigits(a, b);
    PadTwoOfDigits(c, d);
  }

  /** The YYYY-MM-DD text of a date, the inverse of ParseIsoDate. */
  function FormatIso(d: Date): (s: string)
    requires 0 <= d.year < 10000 && 0 <= d.month < 100 && 0 <= d.day < 100
  {
    PadFour(d.year) + "-" + PadTwo(d.month) + "-" + PadTwo(d.day)
  }

  /** `strftime('%Y/%m/%d')`. */
  function FormatSlashed(d: Date): (s: string)
    requires 0 <= d.year < 10000 && 0 <= d.month < 100 && 0 <= d.day < 100
  {
    PadFour(d.year) + "/" + PadTwo(d.month) + "/" + PadTwo(d.day)
  }

  /** Every valid date is read back from its ISO text. */
  lemma ParseFormatIso(d: Date)
    requires ValidDate(d)
    ensures ParseIsoDate(FormatIso(d)) == Some(d)
  {
    var s := FormatIso(d);
    assert s[0..4] == PadFour(d.year);
    assert s[5..7] == PadTwo(d.month);
    assert s[8..10] == PadTwo(d.day);
  }

  /** Re-formatting a parsed date only turns its two dashes into slashes. */
  lemma SlashedIsDashesReplaced(s: string)
    requires ParseIsoDate(s).Some?
    ensures FormatSlashed(ParseIsoDate(s).value) == s[..4] + "/" + s[5..7] + "/" + s[8..]
  {
    ParseIsoDateSound(s);
    var d := ParseIsoDate(s).value;
    assert s[..4] == PadFour(d.year);
    assert s[5..7] == PadTwo(d.month);
    assert s[8..] == PadTwo(d.day);
  }

  /** The year, month and day fields of a date-shaped token. */
  lemma FieldsOf(s: string, y: int, m: int, d: int)
    requires IsoShape(s)
    requires FourDigits(s[0], s[1], s[2], s[3]) == y && TwoDigits(s[5], s[6]) == m && TwoDigits(s[8], s[9]) == d
    ensures ParseIsoDate(s) == if ValidDate(Date(y, m, d)) then Some(Date(y, m, d)) else None
  {
  }

  lemma ValidExamples()
    ensures ParseIsoDate("2023-07-04") == Some(Date(2023, 7, 4))
    ensures ParseIsoDate("2023-02-30") == None
  {
    FieldsOf("2023-07-04", 2023, 7, 4);
    FieldsOf("2023-02-30", 2023, 2, 30);
  }

  lemma LeapDayExamples()
    ensures ParseIsoDate("2024-02-29") == Some(Date(2024, 2, 29))
    ensures ParseIsoDate("2023-02-29") == None
    ensures ParseIsoDate("2000-02-29") == Some(Date(2000, 2, 29))
    ensures ParseIsoDate("1900-02-29") == None
  {
    FieldsOf("2024-02-29", 2024, 2, 29);
    FieldsOf("2023-02-29", 2023, 2, 29);
    FieldsOf("2000-02-29", 2000, 2, 29);
    FieldsOf("1900-02-29", 1900, 2, 29);
  }

  lemma OutOfRangeExamples()
    ensures ParseIsoDate("2023-02-30") == None
    ensures ParseIsoDate("2023-04-31") == None
    ensures ParseIsoDate("2023-13-01") == None
    ensures ParseIsoDate("0000-01-01") == None
  {
    FieldsOf("2023-02-30", 2023, 2, 30);
    FieldsOf("2023-04-31", 2023, 4, 31);
    FieldsOf("2023-13-01", 2023, 13, 1);
    FieldsOf("0000-01-01", 0, 1, 1);
  }

}
