/**
 * The proleptic Gregorian calendar behind JavaScript's `Date`, on whole days.
 * A day is an ordinal: the number of days since 1970-01-01, negative before it.
 * Times of day and time zones are not modelled; every `Date` the pages build is
 * taken at local midnight and identified with its day.
 */
module Calendar {
  import opened Wrappers
  import Text
  import Digits

  type Day = int

  /** A calendar date; `month` is 1..12 (the source's `getMonth()` is `month - 1`). */
  datatype Civil = Civil(year: int, month: int, day: int)

  predicate IsLeapYear(y: int) {
    y % 4 == 0 && (y % 100 != 0 || y % 400 == 0)
  }

  function DaysInMonth(y: int, m: int): (n: int)
    requires 1 <= m <= 12
    ensures 28 <= n <= 31
  {
    if m == 2 then (if IsLeapYear(y) then 29 else 28)
    else if m == 4 || m == 6 || m == 9 || m == 11 then 30
    else 31
  }

  predicate ValidCivil(c: Civil) {
    1 <= c.month <= 12 && 1 <= c.day <= DaysInMonth(c.year, c.month)
  }

  function YearLength(y: int): int {
    if IsLeapYear(y) then 366 else 365
  }

  /** Days of year `y` before the first of month `m` (13 stands for the end of the year). */
  function DaysBeforeMonth(y: int, m: int): int
    requires 1 <= m <= 13
  {
    [0, 31, 59, 90, 120, 151, 181, 212, 243, 273, 304, 334, 365][m - 1]
      + (if m > 2 && IsLeapYear(y) then 1 else 0)
  }

  /** Each month starts where the previous one ends; the twelve add up to the year. */
  lemma MonthStep(y: int, m: int)
    requires 1 <= m <= 12
    ensures DaysBeforeMonth(y, m + 1) == DaysBeforeMonth(y, m) + DaysInMonth(y, m)
    ensures DaysBeforeMonth(y, 13) == YearLength(y)
  {
  }

  /** Leap years among the years before `y` (counted from a fixed origin). */
  function LeapsBefore(y: int): int {
    (y - 1) / 4 - (y - 1) / 100 + (y - 1) / 400
  }

  /** The ordinal of January 1 of year `y`. */
  function YearStart(y: int): Day {
    365 * (y - 1970) + LeapsBefore(y) - LeapsBefore(1970)
  }

  /** The ordinal of a date: `new Date(year, month - 1, day)` at midnight. */
  function DaysFromCivil(c: Civil): Day
    requires 1 <= c.month <= 12
  {
    YearStart(c.year) + DaysBeforeMonth(c.year, c.month) + c.day - 1
  }

  /** `getDay()`: 0 is Sunday, 1 Monday, ..., 6 Saturday; 1970-01-01 was a Thursday. */
  function Weekday(d: Day): (w: int)
    ensures 0 <= w < 7
  {
    (d + 4) % 7
  }

  lemma LeapsStep(y: int)
    ensures LeapsBefore(y + 1) == LeapsBefore(y) + (if IsLeapYear(y) then 1 else 0)
  {
    LeapsDifference(y);
    MultipleOf4Step(y);
    MultipleOf100Step(y);
    MultipleOf400Step(y);
    if y % 400 == 0 {
      Multiple400Of100(y);
    }
    if y % 100 == 0 {
      Multiple100Of4(y);
    }
  }

  lemma LeapsDifference(y: int)
    ensures LeapsBefore(y + 1) - LeapsBefore(y) ==
            (y / 4 - (y - 1) / 4) - (y / 100 - (y - 1) / 100) + (y / 400 - (y - 1) / 400)
  {
    assert y + 1 - 1 == y;
  }

  lemma Multiple400Of100(y: int)
    requires y % 400 == 0
    ensures y % 100 == 0
  {
    assert y == 100 * (4 * (y / 400));
  }

  lemma Multiple100Of4(y: int)
    requires y % 100 == 0
    ensures y % 4 == 0
  {
    assert y == 4 * (25 * (y / 100));
  }

  /** Stepping from `y - 1` to `y` passes one more multiple of 4 exactly when `y` is one. */
  lemma MultipleOf4Step(y: int)
    ensures y / 4 - (y - 1) / 4 == (if y % 4 == 0 then 1 else 0)
  {
  }

  lemma MultipleOf100Step(y: int)
    ensures y / 100 - (y - 1) / 100 == (if y % 100 == 0 then 1 else 0)
  {
  }

  lemma MultipleOf400Step(y: int)
    ensures y / 400 - (y - 1) / 400 == (if y % 400 == 0 then 1 else 0)
  {
  }

  /** Consecutive years start `YearLength` days apart. */
  lemma YearStartStep(y: int)
    ensures YearStart(y + 1) == YearStart(y) + YearLength(y)
    ensures YearStart(y + 1) >= YearStart(y) + 365
  {
    LeapsStep(y);
  }

  /**
   * The day before the first of the next month is the last day of this month:
   * `new Date(year, month + 1, 0)` falls on day `DaysInMonth(year, month)`.
   */
  lemma {:induction false} NextMonthStart(c: Civil)
    requires 1 <= c.month <= 12 && c.day == DaysInMonth(c.year, c.month)
    ensures c.month < 12 ==> DaysFromCivil(c) + 1 == DaysFromCivil(Civil(c.year, c.month + 1, 1))
    ensures c.month == 12 ==> DaysFromCivil(c) + 1 == DaysFromCivil(Civil(c.year + 1, 1, 1))
  {
    MonthStep(c.year, c.month);
    if c.month == 12 {
      YearStartStep(c.year);
    }
  }

  function YearUp(z: Day, y: int): (r: int)
    requires YearStart(y) <= z
    ensures YearStart(r) <= z < YearStart(r + 1)
    decreases z - YearStart(y)
  {
    YearStartStep(y);
    if z < YearStart(y + 1) then y else YearUp(z, y + 1)
  }

  function YearDown(z: Day, y: int): (r: int)
    requires z < YearStart(y + 1)
    ensures YearStart(r) <= z < YearStart(r + 1)
    decreases YearStart(y + 1) - z
  {
    YearStartStep(y);
    if YearStart(y) <= z then y else YearDown(z, y - 1)
  }

  /** The year a day falls in. */
  function YearOf(z: Day): (y: int)
    ensures YearStart(y) <= z < YearStart(y + 1)
  {
    if z >= 0 then YearUp(z, 1970) else YearDown(z, 1969)
  }

  /** The month a day of year `y` falls in, `offset` days after January 1, searching from `m`. */
  function MonthOf(y: int, offset: int, m: int): (r: int)
    requires 1 <= m <= 12 && DaysBeforeMonth(y, m) <= offset < DaysBeforeMonth(y, 13)
    ensures m <= r <= 12 && DaysBeforeMonth(y, r) <= offset < DaysBeforeMonth(y, r + 1)
    decreases 12 - m
  {
    if offset < DaysBeforeMonth(y, m + 1) then m else MonthOf(y, offset, m + 1)
  }

  /** The calendar date of a day: what `getFullYear()`, `getMonth()` and `getDate()` read. */
  function CivilFromDays(z: Day): (c: Civil)
    ensures ValidCivil(c) && DaysFromCivil(c) == z
  {
    var y := YearOf(z);
    var offset := z - YearStart(y);
    OffsetInYear(y, z);
    var m := MonthOf(y, offset, 1);
    MonthStep(y, m);
    Civil(y, m, offset - DaysBeforeMonth(y, m) + 1)
  }

  /** A day of year `y` is between the first month's start and the end of the year. */
  lemma OffsetInYear(y: int, z: Day)
    requires YearStart(y) <= z < YearStart(y + 1)
    ensures DaysBeforeMonth(y, 1) <= z - YearStart(y) < DaysBeforeMonth(y, 13)
  {
    YearStartStep(y);
    MonthStep(y, 1);
  }

  lemma {:induction false} YearStartMonotone(a: int, b: int)
    requires a <= b
    ensures YearStart(a) <= YearStart(b)
    decreases b - a
  {
    if a < b {
      YearStartMonotone(a, b - 1);
      YearStartStep(b - 1);
    }
  }

  /** A valid date lies within its year and within its month. */
  lemma InYear(c: Civil)
    requires ValidCivil(c)
    ensures YearStart(c.year) <= DaysFromCivil(c) < YearStart(c.year + 1)
    ensures DaysBeforeMonth(c.year, c.month) <= DaysFromCivil(c) - YearStart(c.year) < DaysBeforeMonth(c.year, c.month + 1)
  {
    MonthStep(c.year, c.month);
    YearStartStep(c.year);
    DaysBeforeMonthMonotone(c.year, c.month + 1, 13);
  }

  /** Distinct valid dates have distinct ordinals. */
  lemma CivilInjective(a: Civil, b: Civil)
    requires ValidCivil(a) && ValidCivil(b) && DaysFromCivil(a) == DaysFromCivil(b)
    ensures a == b
  {
    SameYear(a, b);
    SameMonth(a, b);
  }

  /** Two valid dates on the same day lie in the same year. */
  lemma SameYear(a: Civil, b: Civil)
    requires ValidCivil(a) && ValidCivil(b) && DaysFromCivil(a) == DaysFromCivil(b)
    ensures a.year == b.year
  {
    InYear(a);
    InYear(b);
    YearsDisjoint(a.year, b.year, DaysFromCivil(a));
  }

  /** A day lies in one year only. */
  lemma YearsDisjoint(ya: int, yb: int, z: Day)
    requires YearStart(ya) <= z < YearStart(ya + 1)
    requires YearStart(yb) <= z < YearStart(yb + 1)
    ensures ya == yb
  {
    if ya < yb {
      YearStartMonotone(ya + 1, yb);
    } else if yb < ya {
      YearStartMonotone(yb + 1, ya);
    }
  }

  /** Two valid dates of one year on the same day lie in the same month. */
  lemma SameMonth(a: Civil, b: Civil)
    requires ValidCivil(a) && ValidCivil(b) && a.year == b.year && DaysFromCivil(a) == DaysFromCivil(b)
    ensures a.month == b.month
  {
    InYear(a);
    InYear(b);
    if a.month < b.month {
      DaysBeforeMonthMonotone(a.year, a.month + 1, b.month);
    } else if b.month < a.month {
      DaysBeforeMonthMonotone(a.year, b.month + 1, a.month);
    }
  }

  /** Every valid date is the calendar date of its own ordinal: the two conversions are inverse. */
  lemma CivilRoundTrip(c: Civil)
    requires ValidCivil(c)
    ensures CivilFromDays(DaysFromCivil(c)) == c
  {
    CivilInjective(CivilFromDays(DaysFromCivil(c)), c);
  }

  lemma DaysBeforeMonthMonotone(y: int, a: int, b: int)
    requires 1 <= a <= b <= 13
    ensures DaysBeforeMonth(y, a) <= DaysBeforeMonth(y, b)
  {
  }

  /** `n` in decimal, left-padded with zeros to `width` digits. */
  function PadNat(n: nat, width: nat): (s: string)
    ensures |s| >= width
  {
    var digits := Text.NatToString(n);
    if |digits| >= width then digits else Zeros(width - |digits|) + digits
  }

  function Zeros(k: nat): (s: string)
    ensures |s| == k && forall i :: 0 <= i < k ==> s[i] == '0'
  {
    if k == 0 then "" else "0" + Zeros(k - 1)
  }

  /** Calendar order: an earlier year, or the same year and an earlier month, or the same month and an earlier day. */
  predicate CivilBefore(a: Civil, b: Civil) {
    a.year < b.year || (a.year == b.year && (a.month < b.month || (a.month == b.month && a.day < b.day)))
  }

  /** A valid date before another in calendar order has the smaller ordinal. */
  lemma CivilBeforeEarlier(a: Civil, b: Civil)
    requires ValidCivil(a) && ValidCivil(b) && CivilBefore(a, b)
    ensures DaysFromCivil(a) < DaysFromCivil(b)
  {
    if a.year < b.year {
      EarlierYear(a, b);
    } else if a.month < b.month {
      EarlierMonth(a, b);
    }
  }

  lemma EarlierYear(a: Civil, b: Civil)
    requires ValidCivil(a) && ValidCivil(b) && a.year < b.year
    ensures DaysFromCivil(a) < DaysFromCivil(b)
  {
    InYear(a);
    InYear(b);
    YearStartMonotone(a.year + 1, b.year);
  }

  lemma EarlierMonth(a: Civil, b: Civil)
    requires ValidCivil(a) && ValidCivil(b) && a.year == b.year && a.month < b.month
    ensures DaysFromCivil(a) < DaysFromCivil(b)
  {
    InYear(a);
    InYear(b);
    DaysBeforeMonthMonotone(a.year, a.month + 1, b.month);
  }

  /** The order of day ordinals is the order of their calendar dates. */
  lemma DayOrderIsCalendarOrder(x: Day, y: Day)
    ensures x < y <==> CivilBefore(CivilFromDays(x), CivilFromDays(y))
  {
    var a, b := CivilFromDays(x), CivilFromDays(y);
    if CivilBefore(a, b) {
      CivilBeforeEarlier(a, b);
    } else if CivilBefore(b, a) {
      CivilBeforeEarlier(b, a);
    } else {
      assert a == b;
    }
  }

  /** `isDayInFuture`: the day is after today (both taken at midnight), i.e. its date is later. */
  predicate IsDayInFuture(date: Day, today: Day)
    ensures IsDayInFuture(date, today) <==> CivilBefore(CivilFromDays(today), CivilFromDays(date))
  {
    DayOrderIsCalendarOrder(today, date);
    date > today
  }

  /** The year as `toISOString` writes it: four digits, or a sign and six digits outside 0..9999. */
  function IsoYear(y: int): string {
    if 0 <= y <= 9999 then PadNat(y, 4)
    else if y < 0 then "-" + PadNat(-y, 6)
    else "+" + PadNat(y, 6)
  }

  predicate DigitText(s: string) {
    forall i :: 0 <= i < |s| ==> Text.IsDigit(s[i])
  }

  /**
   * `date.toISOString().split('T')[0]`: the text of a day, which for the years 0 to 9999 is
   * four digits, a dash, two digits, a dash and two digits.
   */
  function IsoDate(z: Day): (s: string)
    ensures '-' in s
    ensures 0 <= CivilFromDays(z).year <= 9999 ==>
              |s| == 10 && s[4] == '-' && s[7] == '-' &&
              DigitText(s[..4]) && DigitText(s[5..7]) && DigitText(s[8..])
  {
    var c := CivilFromDays(z);
    var s := IsoYear(c.year) + "-" + PadNat(c.month, 2) + "-" + PadNat(c.day, 2);
    assert s[|IsoYear(c.year)|] == '-';
    if 0 <= c.year <= 9999 then
      PaddedDateShape(c);
      s
    else
      s
  }

  /** The padded `YYYY-MM-DD` text of a valid date of the years 0 to 9999 has that shape. */
  lemma PaddedDateShape(c: Civil)
    requires ValidCivil(c) && 0 <= c.year <= 9999
    ensures var s := PadNat(c.year, 4) + "-" + PadNat(c.month, 2) + "-" + PadNat(c.day, 2);
            |s| == 10 && s[4] == '-' && s[7] == '-' &&
            DigitText(s[..4]) && DigitText(s[5..7]) && DigitText(s[8..])
  {
    PaddedDigits(c);
    var s := PadNat(c.year, 4) + "-" + PadNat(c.month, 2) + "-" + PadNat(c.day, 2);
    assert s[..4] == PadNat(c.year, 4);
    assert s[5..7] == PadNat(c.month, 2);
    assert s[8..] == PadNat(c.day, 2);
  }

  /** The three padded fields of a valid date of the years 0 to 9999 are 4, 2 and 2 digits of its values. */
  lemma PaddedDigits(c: Civil)
    requires ValidCivil(c) && 0 <= c.year <= 9999
    ensures |PadNat(c.year, 4)| == 4 && DigitText(PadNat(c.year, 4)) && Digits.DigitsValue(PadNat(c.year, 4)) == c.year
    ensures |PadNat(c.month, 2)| == 2 && DigitText(PadNat(c.month, 2)) && Digits.DigitsValue(PadNat(c.month, 2)) == c.month
    ensures |PadNat(c.day, 2)| == 2 && DigitText(PadNat(c.day, 2)) && Digits.DigitsValue(PadNat(c.day, 2)) == c.day
  {
    assert Digits.Pow10(4) == 10000 && Digits.Pow10(2) == 100;
    Digits.NatToStringFits(c.year, 4);
    Digits.NatToStringFits(c.month, 2);
    Digits.NatToStringFits(c.day, 2);
    PadNatValue(c.year, 4);
    PadNatValue(c.month, 2);
    PadNatValue(c.day, 2);
  }

  /** A number that fits in `width` digits is padded to exactly `width` digits of the same value. */
  lemma PadNatValue(n: nat, width: nat)
    requires |Text.NatToString(n)| <= width
    ensures |PadNat(n, width)| == width
    ensures DigitText(PadNat(n, width))
    ensures Digits.DigitsValue(PadNat(n, width)) == n
  {
    var digits := Text.NatToString(n);
    Digits.NatToStringValue(n);
    if |digits| < width {
      var z := Zeros(width - |digits|);
      Digits.LeadingZerosValue(z, digits);
      assert forall i :: 0 <= i < |z| ==> Text.IsDigit(z[i]);
    }
  }

  /**
   * `new Date(s)` for the date-only form `YYYY-MM-DD` the images are dated with: the day that
   * text names, or None (an Invalid Date) for any other text and for a date that does not exist.
   * A text that parses is the date text of the day it names, so no two texts name one day.
   */
  function ParseIsoDate(s: string): (d: Option<Day>)
    ensures |s| != 10 ==> d.None?
    ensures d.Some? ==> IsoDate(d.value) == s
  {
    if |s| == 10 && s[4] == '-' && s[7] == '-' && DigitText(s[..4]) && DigitText(s[5..7]) && DigitText(s[8..]) then
      var c := Civil(Digits.DigitsValue(s[..4]), Digits.DigitsValue(s[5..7]), Digits.DigitsValue(s[8..]));
      if ValidCivil(c) then
        ParsedDateText(s, c);
        Some(DaysFromCivil(c))
      else None
    else None
  }

  /** The day a `YYYY-MM-DD` text names is written back as that same text. */
  lemma ParsedDateText(s: string, c: Civil)
    requires |s| == 10 && s[4] == '-' && s[7] == '-' && DigitText(s[..4]) && DigitText(s[5..7]) && DigitText(s[8..])
    requires c == Civil(Digits.DigitsValue(s[..4]), Digits.DigitsValue(s[5..7]), Digits.DigitsValue(s[8..]))
    requires ValidCivil(c)
    ensures IsoDate(DaysFromCivil(c)) == s
  {
    CivilRoundTrip(c);
    Digits.DigitsBound(s[..4]);
    assert Digits.Pow10(4) == 10000;
    PaddedDigits(c);
    Digits.DigitsInjective(PadNat(c.year, 4), s[..4]);
    Digits.DigitsInjective(PadNat(c.month, 2), s[5..7]);
    Digits.DigitsInjective(PadNat(c.day, 2), s[8..]);
    assert s == s[..4] + "-" + s[5..7] + "-" + s[8..];
  }

  /** The date text of a day of the years 0 to 9999 parses back to that day. */
  lemma IsoDateRoundTrip(z: Day)
    requires 0 <= CivilFromDays(z).year <= 9999
    ensures ParseIsoDate(IsoDate(z)) == Some(z)
  {
    var c := CivilFromDays(z);
    assert IsoDate(z) == PadNat(c.year, 4) + "-" + PadNat(c.month, 2) + "-" + PadNat(c.day, 2);
    ParseDateText(c);
  }

  /** The padded `YYYY-MM-DD` text of a valid date of the years 0 to 9999 parses to its ordinal. */
  lemma ParseDateText(c: Civil)
    requires ValidCivil(c) && 0 <= c.year <= 9999
    ensures ParseIsoDate(PadNat(c.year, 4) + "-" + PadNat(c.month, 2) + "-" + PadNat(c.day, 2)) ==
            Some(DaysFromCivil(c))
  {
    PaddedDigits(c);
    var s := PadNat(c.year, 4) + "-" + PadNat(c.month, 2) + "-" + PadNat(c.day, 2);
    assert s[..4] == PadNat(c.year, 4);
    assert s[5..7] == PadNat(c.month, 2);
    assert s[8..] == PadNat(c.day, 2);
  }
}
