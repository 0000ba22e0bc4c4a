/** Calendar days for the dates of the reports. A date string
    `YYYY-MM-DD` becomes a day number, as `new Date(dateStr)` does for the
    ISO form: a month from 01 to 12 and a day from 01 to 31 are accepted and
    a day past the end of its month rolls over into the next month
    ("2025-02-30" is March 2nd); anything else is an invalid date. Day
    numbers count days from 0000-01-01 of the proleptic Gregorian
    calendar. */
module Dates {

  import opened Wrappers
  import opened Strings

  predicate IsLeap(y: nat) {
    y % 4 == 0 && (y % 100 != 0 || y % 400 == 0)
  }

  /** Days in the years before `y`: 365 each plus one per leap year. */
  function DaysBeforeYear(y: nat): nat {
    365 * y + (y + 3) / 4 - (y + 99) / 100 + (y + 399) / 400
  }

  function DaysIn(y: nat, m: nat): (n: nat)
    requires 1 <= m <= 12
    ensures 28 <= n <= 31
  {
    if m == 2 then (if IsLeap(y) then 29 else 28)
    else if m == 4 || m == 6 || m == 9 || m == 11 then 30
    else 31
  }

  /** Days in the months of year `y` before month `m`. */
  function DaysBeforeMonth(y: nat, m: nat): nat
    requires 1 <= m <= 12
  {
    var common := [0, 31, 59, 90, 120, 151, 181, 212, 243, 273, 304, 334][m - 1];
    common + if m > 2 && IsLeap(y) then 1 else 0
  }

  function DayNumber(y: nat, m: nat, d: nat): (n: int)
    requires 1 <= m <= 12 && 1 <= d
    ensures n >= 0
  {
    DaysBeforeYear(y) + DaysBeforeMonth(y, m) + d - 1
  }

  /** A year has 366 days when it is a leap year and 365 otherwise. */
  lemma YearLength(y: nat)
    ensures DaysBeforeYear(y + 1) - DaysBeforeYear(y) == if IsLeap(y) then 366 else 365
  {
    Step4(y);
    Step100(y);
    Step400(y);
    Multiples(y);
    assert DaysBeforeYear(y + 1) - DaysBeforeYear(y)
        == 365 + ((y + 4) / 4 - (y + 3) / 4) - ((y + 100) / 100 - (y + 99) / 100) + ((y + 400) / 400 - (y + 399) / 400);
  }

  /** A multiple of 400 is one of 100, and a multiple of 100 one of 4. */
  lemma Multiples(y: nat)
    ensures y % 400 == 0 ==> y % 100 == 0
    ensures y % 100 == 0 ==> y % 4 == 0
  {
    if y % 400 == 0 {
      var k := y / 400;
      assert y == 100 * (4 * k);
    }
    if y % 100 == 0 {
      var k := y / 100;
      assert y == 4 * (25 * k);
    }
  }

  /** `(y + k - 1) / k` counts the multiples of `k` below `y`; it grows by
      one exactly when `y` is a multiple. */
  lemma Step4(y: nat)
    ensures (y + 4) / 4 - (y + 3) / 4 == if y % 4 == 0 then 1 else 0
  {
  }

  lemma Step100(y: nat)
    ensures (y + 100) / 100 - (y + 99) / 100 == if y % 100 == 0 then 1 else 0
  {
  }

  lemma Step400(y: nat)
    ensures (y + 400) / 400 - (y + 399) / 400 == if y % 400 == 0 then 1 else 0
  {
  }

  /** The day after the last day of a month is the first of the next
      month. */
  lemma MonthEnd(y: nat, m: nat)
    requires 1 <= m < 12
    ensures DayNumber(y, m, DaysIn(y, m)) + 1 == DayNumber(y, m + 1, 1)
  {
  }

  /** The day after December 31st is January 1st of the next year. */
  lemma YearEnd(y: nat)
    ensures DayNumber(y, 12, 31) + 1 == DayNumber(y + 1, 1, 1)
  {
    YearLength(y);
  }

  /** `YYYY-MM-DD` with digits in the number positions. */
  predicate IsDateShape(s: string) {
    |s| == 10 && s[4] == '-' && s[7] == '-'
    && AllDigits(s[..4]) && AllDigits(s[5..7]) && AllDigits(s[8..])
  }

  /** `new Date(s)` as a day number, `None` for an invalid date. */
  function DateValue(s: string): (r: Option<int>)
    ensures r.Some? ==> r.value >= 0
  {
    if !IsDateShape(s) then None
    else
      var y := ParseDec(s[..4]);
      var m := ParseDec(s[5..7]);
      var d := ParseDec(s[8..]);
      if 1 <= m <= 12 && 1 <= d <= 31 then Some(DayNumber(y, m, d)) else None
  }

  /** The date string `${year}-${month}-${day}` of a year, month and day
      directory name. */
  function DateString(year: string, month: string, day: string): string {
    Join([year, month, day], '-')
  }

  lemma DateStringParts(year: string, month: string, day: string)
    ensures DateString(year, month, day) == year + ['-'] + (month + ['-'] + day)
  {
    assert [year, month, day][1..] == [month, day];
    assert [month, day][1..] == [day];
    assert Join([day], '-') == day;
    assert Join([month, day], '-') == month + ['-'] + day;
  }

  /** A date string built from a four-digit year, a month from 01 to 12 and
      a day from 01 to 31 is a valid date with that day number. */
  lemma DateStringValue(year: string, month: string, day: string)
    requires IsFourDigits(year) && IsTwoDigits(month) && IsTwoDigits(day)
    requires 1 <= ParseDec(month) <= 12 && 1 <= ParseDec(day) <= 31
    ensures DateValue(DateString(year, month, day))
         == Some(DayNumber(ParseDec(year), ParseDec(month), ParseDec(day)))
  {
    var s := DateString(year, month, day);
    DateStringParts(year, month, day);
    assert s[..4] == year && s[5..7] == month && s[8..] == day;
  }

  /** Month 00 or above 12, or day 00 or above 31, is an invalid date. */
  lemma DateStringInvalid(year: string, month: string, day: string)
    requires IsFourDigits(year) && IsTwoDigits(month) && IsTwoDigits(day)
    requires !(1 <= ParseDec(month) <= 12 && 1 <= ParseDec(day) <= 31)
    ensures DateValue(DateString(year, month, day)) == None
  {
    var s := DateString(year, month, day);
    DateStringParts(year, month, day);
    assert s[..4] == year && s[5..7] == month && s[8..] == day;
  }
}
