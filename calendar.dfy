/** UTC calendar arithmetic as JavaScript's Date does it (proleptic
    Gregorian, milliseconds since 1970-01-01T00:00:00Z), the `YYYY-MM` month
    token, and the ISO text a Date serialises to. */
module Calendar {
  import opened Common
  import opened Text

  const MsPerDay: int := 86_400_000

  /** A UTC calendar value: year, month 1-12, day of month, and
      milliseconds since midnight. */
  datatype UtcDate = UtcDate(year: int, month: int, day: int, ms: int)

  predicate IsLeapYear(y: int) {
    y % 4 == 0 && (y % 100 != 0 || y % 400 == 0)
  }

  function DaysInMonth(y: int, m: int): int {
    if m == 2 then (if IsLeapYear(y) then 29 else 28)
    else if m == 4 || m == 6 || m == 9 || m == 11 then 30
    else 31
  }

  predicate ValidDate(d: UtcDate) {
    1 <= d.month <= 12 && 1 <= d.day <= DaysInMonth(d.year, d.month) && 0 <= d.ms < MsPerDay
  }

  /** What a stored Date can hold: an actual calendar instant. */
  type Date = d: UtcDate | ValidDate(d) witness UtcDate(1970, 1, 1, 0)

  /** Leap years in [0, y), counted negatively for y < 0. */
  function LeapYearsBefore(y: int): int {
    (y + 3) / 4 - (y + 99) / 100 + (y + 399) / 400
  }

  /** Days from 1970-01-01 to the first of January of year y. */
  function DaysBeforeYear(y: int): int {
    365 * (y - 1970) + LeapYearsBefore(y) - LeapYearsBefore(1970)
  }

  function DaysBeforeMonth(y: int, m: int): int
    requires 1 <= m <= 12
  {
    [0, 31, 59, 90, 120, 151, 181, 212, 243, 273, 304, 334][m - 1]
      + (if IsLeapYear(y) && m > 2 then 1 else 0)
  }

  /** Instant of y-m-01T00:00:00.000Z. */
  function MonthStart(y: int, m: int): int
    requires 1 <= m <= 12
  {
    (DaysBeforeYear(y) + DaysBeforeMonth(y, m)) * MsPerDay
  }

  /** Date.prototype.getTime of a calendar value. */
  function Instant(d: Date): int {
    (DaysBeforeYear(d.year) + DaysBeforeMonth(d.year, d.month) + d.day - 1) * MsPerDay + d.ms
  }

  /** `date.setUTCMonth(date.getUTCMonth() + 1)` on the first of month m:
      the zero-based month index m - 1 becomes m, and an index of 12 carries
      into the year. */
  function AddMonth(y: int, m: int): (r: (int, int))
    requires 1 <= m <= 12
    ensures 1 <= r.1 <= 12
    ensures m < 12 ==> r == (y, m + 1)
    ensures m == 12 ==> r == (y + 1, 1)
  {
    var index := (m - 1) + 1;
    (y + index / 12, index % 12 + 1)
  }

  /** First instant after month m of year y. */
  function MonthEnd(y: int, m: int): int
    requires 1 <= m <= 12
  {
    var next := AddMonth(y, m);
    MonthStart(next.0, next.1)
  }

  lemma LeapStep(y: int, k: int)
    requires k == 4 || k == 100 || k == 400
    ensures (y + k) / k - (y + k - 1) / k == if y % k == 0 then 1 else 0
  {
    var q, r := y / k, y % k;
    assert y == q * k + r && 0 <= r < k;
    assert (y + k) / k == q + 1;
    assert (y + k - 1) / k == if r == 0 then q else q + 1;
  }

  /** A year has 366 days when it is a leap year and 365 otherwise. */
  lemma YearLength(y: int)
    ensures DaysBeforeYear(y + 1) - DaysBeforeYear(y) == if IsLeapYear(y) then 366 else 365
  {
    LeapStep(y, 4);
    LeapStep(y, 100);
    LeapStep(y, 400);
    var a := (y + 4) / 4 - (y + 3) / 4;
    var b := (y + 100) / 100 - (y + 99) / 100;
    var c := (y + 400) / 400 - (y + 399) / 400;
    assert LeapYearsBefore(y + 1) - LeapYearsBefore(y) == a - b + c;
    LeapCount(y);
  }

  lemma LeapCount(y: int)
    ensures (if y % 4 == 0 then 1 else 0) - (if y % 100 == 0 then 1 else 0) + (if y % 400 == 0 then 1 else 0)
         == if IsLeapYear(y) then 1 else 0
  {
    if y % 400 == 0 {
      var q := y / 400;
      assert y == 100 * (4 * q);
      assert y == 4 * (100 * q);
    } else if y % 100 == 0 {
      var q := y / 100;
      assert y == 4 * (25 * q);
    }
  }

  /** The next month starts exactly DaysInMonth days later; December rolls
      over into January of the next year. */
  lemma MonthLength(y: int, m: int)
    requires 1 <= m <= 12
    ensures MonthEnd(y, m) == MonthStart(y, m) + DaysInMonth(y, m) * MsPerDay
  {
    MonthDays(y, m);
  }

  /** The day count of MonthLength, before scaling to milliseconds. */
  lemma MonthDays(y: int, m: int)
    requires 1 <= m <= 12
    ensures var next := AddMonth(y, m);
      DaysBeforeYear(next.0) + DaysBeforeMonth(next.0, next.1)
        == DaysBeforeYear(y) + DaysBeforeMonth(y, m) + DaysInMonth(y, m)
  {
    if m == 12 {
      YearLength(y);
    }
  }

  lemma StartBeforeEnd(y: int, m: int)
    requires 1 <= m <= 12
    ensures MonthStart(y, m) < MonthEnd(y, m)
  {
    MonthLength(y, m);
  }

  function MonthIndex(y: int, m: int): int { 12 * y + m - 1 }

  lemma MonthIndexInjective(y1: int, m1: int, y2: int, m2: int)
    requires 1 <= m1 <= 12 && 1 <= m2 <= 12
    requires MonthIndex(y1, m1) == MonthIndex(y2, m2)
    ensures y1 == y2 && m1 == m2
  {
  }

  /** Months are laid out in order and do not overlap: a month ends no later
      than any later month starts. */
  lemma {:induction false} EndBeforeLaterStart(y1: int, m1: int, y2: int, m2: int)
    requires 1 <= m1 <= 12 && 1 <= m2 <= 12
    requires MonthIndex(y1, m1) < MonthIndex(y2, m2)
    ensures MonthEnd(y1, m1) <= MonthStart(y2, m2)
    decreases MonthIndex(y2, m2) - MonthIndex(y1, m1)
  {
    var next := AddMonth(y1, m1);
    assert MonthIndex(next.0, next.1) == MonthIndex(y1, m1) + 1;
    if MonthIndex(next.0, next.1) == MonthIndex(y2, m2) {
      MonthIndexInjective(next.0, next.1, y2, m2);
    } else {
      StartBeforeEnd(next.0, next.1);
      EndBeforeLaterStart(next.0, next.1, y2, m2);
    }
  }

  /** A date's instant lies inside its own month. */
  lemma WithinOwnMonth(d: Date)
    ensures MonthStart(d.year, d.month) <= Instant(d) < MonthEnd(d.year, d.month)
  {
    MonthLength(d.year, d.month);
  }

  /** The half-open range [MonthStart, MonthEnd) holds exactly the dates of
      that calendar month. */
  lemma {:induction false} InMonthIff(d: Date, y: int, m: int)
    requires 1 <= m <= 12
    ensures MonthStart(y, m) <= Instant(d) < MonthEnd(y, m) <==> d.year == y && d.month == m
  {
    WithinOwnMonth(d);
    var di, i := MonthIndex(d.year, d.month), MonthIndex(y, m);
    if di < i {
      EndBeforeLaterStart(d.year, d.month, y, m);
    } else if i < di {
      EndBeforeLaterStart(y, m, d.year, d.month);
    } else {
      assert d.year == y && d.month == m;
    }
  }

  // The `YYYY-MM` month token

  /** `/^\d{4}-\d{2}$/.test(s)`: four ASCII digits, a hyphen, two digits. */
  predicate IsMonthToken(s: string) {
    |s| == 7 && AllDigits(s[..4]) && s[4] == '-' && AllDigits(s[5..])
  }

  function TokenYear(s: string): nat requires IsMonthToken(s) { DigitsValue(s[..4]) }

  function TokenMonth(s: string): nat requires IsMonthToken(s) { DigitsValue(s[5..]) }

  function FormatMonth(y: nat, m: nat): string { Pad(y, 4) + "-" + Pad(m, 2) }

  /** Every pair of a year 0-9999 and a two-digit month number prints as a
      token and reads back. */
  lemma FormatMonthRoundTrip(y: nat, m: nat)
    requires y < 10000 && m < 100
    ensures IsMonthToken(FormatMonth(y, m))
    ensures TokenYear(FormatMonth(y, m)) == y && TokenMonth(FormatMonth(y, m)) == m
  {
    assert Pow10(4) == 10000 && Pow10(2) == 100;
    PadWidth(y, 4);
    PadWidth(m, 2);
    var s := FormatMonth(y, m);
    assert s[..4] == Pad(y, 4) && s[5..] == Pad(m, 2);
    PadValue(y, 4);
    PadValue(m, 2);
  }

  /** Every token is the printed form of its year and month: the check
      accepts exactly the strings FormatMonth produces. */
  lemma TokenRoundTrip(s: string)
    requires IsMonthToken(s)
    ensures FormatMonth(TokenYear(s), TokenMonth(s)) == s
  {
    DigitsPadRoundTrip(s[..4]);
    DigitsPadRoundTrip(s[5..]);
    assert s == s[..4] + "-" + s[5..];
  }

  /** Year and month of `new Date(`${s}-01T00:00:00.000Z`)`, or None for an
      Invalid Date. The ISO date-time format accepts a four-digit year
      followed by an optional `-MM` with MM in 01-12. */
  function MonthStartOf(s: string): (r: Option<(int, int)>)
    ensures r.Some? ==> 1 <= r.value.1 <= 12
  {
    if IsMonthToken(s) && 1 <= TokenMonth(s) <= 12 then Some((TokenYear(s), TokenMonth(s)))
    else if |s| == 4 && AllDigits(s) then Some((DigitsValue(s), 1))
    else None
  }

  // Date.prototype.toISOString

  function YearText(y: int): string {
    if 0 <= y <= 9999 then Pad(y, 4)
    else if y < 0 then "-" + Pad(-y, 6)
    else "+" + Pad(y, 6)
  }

  /** `YYYY-MM-DD`, the calendar-day part of the ISO text. */
  function DayText(d: Date): string {
    YearText(d.year) + "-" + Pad(d.month, 2) + "-" + Pad(d.day, 2)
  }

  function TimeText(d: Date): string {
    var s := d.ms / 1000;
    Pad(s / 3600, 2) + ":" + Pad(s / 60 % 60, 2) + ":" + Pad(s % 60, 2) + "." + Pad(d.ms % 1000, 3) + "Z"
  }

  /** What JSON.stringify writes for a Date: `YYYY-MM-DDTHH:mm:ss.sssZ`. */
  function IsoString(d: Date): string {
    DayText(d) + "T" + TimeText(d)
  }

  lemma DayTextHasNoT(d: Date)
    ensures 'T' !in DayText(d)
  {
    var y := YearText(d.year);
    assert forall i :: 0 <= i < |y| ==> y[i] != 'T' by {
      if 0 <= d.year <= 9999 {
      } else {
        var p := if d.year < 0 then Pad(-d.year, 6) else Pad(d.year, 6);
        assert y == [y[0]] + p;
        assert forall i :: 1 <= i < |y| ==> y[i] == p[i - 1];
      }
    }
  }
}
