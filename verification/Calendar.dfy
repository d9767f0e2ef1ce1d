/** The day-count to calendar-date conversion, against the calendar itself. */
module Calendar {

  /** Division of signed machine integers: the quotient is truncated toward zero. */
  function TruncDiv(a: int, b: int): int
    requires b > 0
  {
    if a >= 0 then a / b else -((-a) / b)
  }

  datatype Date = Date(year: int, month: int, day: int) {
    predicate Before(other: Date) {
      year < other.year || (year == other.year && (month < other.month || (month == other.month && day < other.day)))
    }
  }

  /** Shifts the epoch to 1 March of year 0, splits off the 400-year era, then the year of the era,
      the day of the year and the month, all counted from March. */
  function CivilFromDays(days: int): Date {
    var z := days + 719_468;
    var era := TruncDiv(if z >= 0 then z else z - 146_096, 146_097);
    var doe := z - era * 146_097;
    var yoe := YearOfEra(doe);
    var doy := doe - YearStart(yoe);
    var mp := MonthIndex(doy);
    Date(yoe + era * 400 + (if MonthNumber(mp) <= 2 then 1 else 0), MonthNumber(mp), doy - MonthStart(mp) + 1)
  }

  function YearOfEra(doe: int): int {
    (doe - doe / 1460 + doe / 36_524 - doe / 146_096) / 365
  }

  function YearStart(yoe: int): int {
    365 * yoe + yoe / 4 - yoe / 100
  }

  function MonthIndex(doy: int): int { (5 * doy + 2) / 153 }

  function MonthStart(mp: int): int { (153 * mp + 2) / 5 }

  function MonthNumber(mp: int): int { if mp < 10 then mp + 3 else mp - 9 }

  // ---------------------------------------------------------------- the calendar

  predicate Leap(year: int) {
    year % 4 == 0 && (year % 100 != 0 || year % 400 == 0)
  }

  function DaysInMonth(year: int, month: int): int {
    if month == 2 then (if Leap(year) then 29 else 28)
    else if month == 4 || month == 6 || month == 9 || month == 11 then 30
    else 31
  }

  predicate ValidDate(d: Date) {
    1 <= d.month <= 12 && 1 <= d.day <= DaysInMonth(d.year, d.month)
  }

  /** The day after. */
  function NextDay(d: Date): Date {
    if d.day < DaysInMonth(d.year, d.month) then d.(day := d.day + 1)
    else if d.month < 12 then Date(d.year, d.month + 1, 1)
    else Date(d.year + 1, 1, 1)
  }

  // ---------------------------------------------------------------- year of the era

  /** The era's year `yoe`, counted from March, ends with the February of year `yoe + 1`. */
  function YearLength(yoe: int): int {
    if Leap(yoe + 1) then 366 else 365
  }

  ghost predicate InYear(doe: int, yoe: int) {
    0 <= yoe <= 399 && YearStart(yoe) <= doe < YearStart(yoe) + YearLength(yoe)
  }

  /** The corrections for leap days, with the day split into century, cycle of four years, rest. */
  lemma Corrections(doe: int, c: int, q: int, t: int)
    requires doe == 36_524 * c + 1461 * q + t
    requires 0 <= c <= 3 && 0 <= q <= 24 && 0 <= t <= 1460 && (q == 24 ==> t <= 1459)
    ensures doe / 36_524 == c && doe / 146_096 == 0
    ensures doe / 1460 == 25 * c + q + (if 24 * c + q + t >= 1460 then 1 else 0)
  {
    var rest := 24 * c + q + t;
    assert doe == 1460 * (25 * c + q) + rest;
    assert 0 <= rest < 2920;
  }

  lemma YearOfEraCorrect(doe: int)
    requires 0 <= doe < 146_097
    ensures InYear(doe, YearOfEra(doe))
  {
    if doe < 146_096 {
      var c := doe / 36_524;
      var d := doe - 36_524 * c;
      var q := d / 1461;
      YearOfParts(doe, c, q, d - 1461 * q);
    }
  }

  lemma YearOfParts(doe: int, c: int, q: int, t: int)
    requires doe == 36_524 * c + 1461 * q + t
    requires 0 <= c <= 3 && 0 <= q <= 24 && 0 <= t <= 1460 && (q == 24 ==> t <= 1459)
    ensures InYear(doe, YearOfEra(doe))
  {
    hide YearStart, YearLength;
    Corrections(doe, c, q, t);
    var e := if 24 * c + q + t >= 1460 then 1 else 0;
    var r := if t < 365 then 0 else if t < 730 then 1 else if t < 1095 then 2 else 3;
    assert doe - doe / 1460 + c == 365 * (100 * c + 4 * q + r) + (t - e - 365 * r);
    assert 0 <= t - e - 365 * r < 365;
    assert YearOfEra(doe) == 100 * c + 4 * q + r;
    YearFromParts(c, q, r);
  }

  lemma YearFromParts(c: int, q: int, r: int)
    requires 0 <= c <= 3 && 0 <= q <= 24 && 0 <= r <= 3
    ensures var yoe := 100 * c + 4 * q + r;
            && YearStart(yoe) == 36_524 * c + 1461 * q + 365 * r
            && (r == 3 && q < 24 ==> YearLength(yoe) == 366)
            && YearLength(yoe) >= 365
  {
    var yoe := 100 * c + 4 * q + r;
    assert yoe / 4 == 25 * c + q;
    assert yoe / 100 == c;
    if r == 3 && q < 24 {
      assert yoe + 1 == 4 * (25 * c + q + 1);
      assert (yoe + 1) % 100 == 4 * q + 4;
    }
  }

  lemma YearOfEraUnique(doe: int, a: int, b: int)
    requires InYear(doe, a) && InYear(doe, b)
    ensures a == b
  {
    if a < b {
      YearsFollow(a, b);
    } else if b < a {
      YearsFollow(b, a);
    }
  }

  lemma YearStep(y: int)
    requires 0 <= y < 399
    ensures YearStart(y + 1) == YearStart(y) + YearLength(y)
  {
    assert (y + 1) / 4 == y / 4 + (if (y + 1) % 4 == 0 then 1 else 0);
    assert (y + 1) / 100 == y / 100 + (if (y + 1) % 100 == 0 then 1 else 0);
    assert (y + 1) % 100 == 0 ==> (y + 1) % 4 == 0;
  }

  lemma {:induction false} YearsFollow(a: int, b: int)
    requires 0 <= a < b <= 399
    ensures YearStart(a) + YearLength(a) <= YearStart(b)
    decreases b
  {
    YearStep(b - 1);
    if a < b - 1 {
      YearsFollow(a, b - 1);
    }
  }

  // ---------------------------------------------------------------- month and day

  /** Length of the `mp`th month from March of a year ending in a February of `leap` kind. */
  function MonthLength(mp: int, leap: bool): int {
    if mp == 11 then (if leap then 29 else 28)
    else if mp == 1 || mp == 3 || mp == 6 || mp == 8 then 30
    else 31
  }

  lemma MonthOfDay(doy: int, leap: bool)
    requires 0 <= doy < if leap then 366 else 365
    ensures var mp := MonthIndex(doy);
            && 0 <= mp <= 11
            && MonthStart(mp) <= doy < MonthStart(mp) + MonthLength(mp, leap)
  {
    var mp := MonthIndex(doy);
    assert 153 * mp <= 5 * doy + 2 < 153 * mp + 153;
    assert 0 <= mp <= 11;
    MonthTable(mp);
  }

  lemma MonthTable(mp: int)
    requires 0 <= mp <= 11
    ensures MonthStart(mp) == [0, 31, 61, 92, 122, 153, 184, 214, 245, 275, 306, 337][mp]
  {
  }

  /** One day later in the same March-based year: same month, or the first of the next. */
  lemma NextDayOfYear(doy: int, leap: bool)
    requires 0 <= doy < (if leap then 366 else 365) - 1
    ensures var mp, mp' := MonthIndex(doy), MonthIndex(doy + 1);
            if doy - MonthStart(mp) + 1 < MonthLength(mp, leap)
            then mp' == mp else mp < 11 && mp' == mp + 1 && doy + 1 == MonthStart(mp')
  {
    MonthOfDay(doy, leap);
    MonthOfDay(doy + 1, leap);
    MonthTable(MonthIndex(doy));
    MonthTable(MonthIndex(doy + 1));
  }

  // ---------------------------------------------------------------- the conversion

  /** The pieces of a day count: era, year of era and day of year are unique. */
  ghost predicate Splits(days: int, era: int, yoe: int, doy: int) {
    0 <= yoe <= 399 && 0 <= doy < YearLength(yoe) && days + 719_468 == era * 146_097 + YearStart(yoe) + doy
  }

  function FromParts(era: int, yoe: int, doy: int): Date {
    var mp := MonthIndex(doy);
    Date(yoe + era * 400 + (if MonthNumber(mp) <= 2 then 1 else 0), MonthNumber(mp), doy - MonthStart(mp) + 1)
  }

  lemma EraOf(days: int) returns (era: int, doe: int)
    ensures var z := days + 719_468;
            && era == TruncDiv(if z >= 0 then z else z - 146_096, 146_097)
            && doe == z - era * 146_097 && 0 <= doe < 146_097
  {
    var z := days + 719_468;
    era := TruncDiv(if z >= 0 then z else z - 146_096, 146_097);
    doe := z - era * 146_097;
  }

  lemma YearStartBound(yoe: int)
    requires 0 <= yoe <= 399
    ensures 0 <= YearStart(yoe) && YearStart(yoe) + YearLength(yoe) <= 146_097
  {
    if yoe < 399 {
      YearsFollow(yoe, 399);
    }
  }

  /** Whatever way a day count splits, the conversion finds that split. */
  lemma ConversionFollowsSplit(days: int, era: int, yoe: int, doy: int)
    requires Splits(days, era, yoe, doy)
    ensures CivilFromDays(days) == FromParts(era, yoe, doy)
  {
    hide YearOfEra, YearStart, YearLength, MonthIndex, MonthStart, MonthNumber;
    var era', doe' := EraOf(days);
    YearStartBound(yoe);
    assert doe' == YearStart(yoe) + doy && era' == era by {
      var doe := YearStart(yoe) + doy;
      assert 0 <= doe < 146_097;
      assert (era - era') * 146_097 == doe' - doe;
    }
    YearOfEraCorrect(doe');
    YearOfEraUnique(doe', yoe, YearOfEra(doe'));
  }

  lemma SplitOf(days: int) returns (era: int, yoe: int, doy: int)
    ensures Splits(days, era, yoe, doy)
  {
    var doe;
    era, doe := EraOf(days);
    YearOfEraCorrect(doe);
    yoe := YearOfEra(doe);
    doy := doe - YearStart(yoe);
  }

  lemma LeapWithinEra(era: int, r: int)
    requires 0 <= r < 400
    ensures Leap(400 * era + r) == Leap(r)
  {
    hide *;
    RestOf4(era, r);
    RestOf100(era, r);
    RestOf400(era, r);
    LeapByRest(400 * era + r, r);
  }

  lemma LeapByRest(a: int, b: int)
    requires a % 4 == b % 4 && a % 100 == b % 100 && a % 400 == b % 400
    ensures Leap(a) == Leap(b)
  {
  }

  lemma RestOf4(era: int, r: int)
    ensures (400 * era + r) % 4 == r % 4
  {
    var a := 400 * era + r;
    var e := a / 4 - r / 4 - 100 * era;
    assert 4 * e == r % 4 - a % 4;
    assert e == 0;
  }

  lemma RestOf100(era: int, r: int)
    ensures (400 * era + r) % 100 == r % 100
  {
    var a := 400 * era + r;
    var e := a / 100 - r / 100 - 4 * era;
    assert 100 * e == r % 100 - a % 100;
    assert e == 0;
  }

  lemma RestOf400(era: int, r: int)
    ensures (400 * era + r) % 400 == r % 400
  {
    var a := 400 * era + r;
    var e := a / 400 - r / 400 - era;
    assert 400 * e == r % 400 - a % 400;
    assert e == 0;
  }

  lemma LeapByEra(year: int, era: int)
    ensures Leap(year + era * 400) == Leap(year)
  {
    hide Leap;
    LeapWithinEra(year / 400, year % 400);
    LeapWithinEra(year / 400 + era, year % 400);
    assert year == 400 * (year / 400) + year % 400;
  }

  lemma MonthLengthIsCalendar(era: int, yoe: int, mp: int)
    requires 0 <= mp <= 11
    ensures var year := yoe + era * 400 + (if MonthNumber(mp) <= 2 then 1 else 0);
            DaysInMonth(year, MonthNumber(mp)) == MonthLength(mp, Leap(yoe + 1))
  {
    LeapByEra(yoe + 1, era);
  }

  /** Every day count, negative ones included, converts to a date of the Gregorian calendar. */
  lemma CivilDateIsValid(days: int)
    ensures ValidDate(CivilFromDays(days))
  {
    hide CivilFromDays, MonthIndex, MonthStart, Leap, YearStart;
    var era, yoe, doy := SplitOf(days);
    ConversionFollowsSplit(days, era, yoe, doy);
    MonthOfDay(doy, Leap(yoe + 1));
    MonthLengthIsCalendar(era, yoe, MonthIndex(doy));
  }

  /** Day 0 is the Unix epoch. */
  lemma CivilEpoch()
    ensures CivilFromDays(0) == Date(1970, 1, 1)
  {
  }

  lemma NextWithinYear(era: int, yoe: int, doy: int)
    requires 0 <= doy && doy + 1 < YearLength(yoe)
    ensures FromParts(era, yoe, doy + 1) == NextDay(FromParts(era, yoe, doy))
  {
    hide Leap, MonthIndex, MonthStart;
    MonthOfDay(doy, Leap(yoe + 1));
    MonthLengthIsCalendar(era, yoe, MonthIndex(doy));
    NextDayOfYear(doy, Leap(yoe + 1));
    assert MonthStart(0) == 0 by { MonthTable(0); }
  }

  lemma NextAcrossYears(era: int, yoe: int, era': int, yoe': int)
    requires yoe' + era' * 400 == yoe + era * 400 + 1
    ensures FromParts(era', yoe', 0) == NextDay(FromParts(era, yoe, YearLength(yoe) - 1))
  {
    LeapByEra(yoe + 1, era);
  }

  /** The next day count converts to the next day of the calendar. */
  lemma CivilSuccessor(days: int)
    ensures CivilFromDays(days + 1) == NextDay(CivilFromDays(days))
  {
    hide CivilFromDays, FromParts, NextDay;
    var era, yoe, doy := SplitOf(days);
    ConversionFollowsSplit(days, era, yoe, doy);
    if doy + 1 < YearLength(yoe) {
      ConversionFollowsSplit(days + 1, era, yoe, doy + 1);
      NextWithinYear(era, yoe, doy);
    } else if yoe < 399 {
      YearStep(yoe);
      ConversionFollowsSplit(days + 1, era, yoe + 1, 0);
      NextAcrossYears(era, yoe, era, yoe + 1);
    } else {
      ConversionFollowsSplit(days + 1, era + 1, 0, 0);
      NextAcrossYears(era, yoe, era + 1, 0);
    }
  }

  /** Hence dates are ordered exactly as the day counts they come from. */
  lemma {:induction false} CivilOrder(a: int, b: int)
    requires a < b
    ensures CivilFromDays(a).Before(CivilFromDays(b))
    decreases b - a
  {
    hide CivilFromDays;
    CivilSuccessor(b - 1);
    CivilDateIsValid(b - 1);
    if a < b - 1 {
      CivilOrder(a, b - 1);
    }
  }
}
