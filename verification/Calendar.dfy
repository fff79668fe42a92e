/** Days and seconds since 1970, and dates of the Gregorian calendar, from year 1 to 9999. */
module Calendar {
  import opened Options

  const FIRST_SECOND: int := -62135596800
  const LAST_SECOND: int := 253402300799

  predicate IsLeap(year: int) {
    year % 4 == 0 && (year % 100 != 0 || year % 400 == 0)
  }

  function DaysInMonth(year: int, month: int): (n: int)
    requires 1 <= month <= 12
    ensures 28 <= n <= 31
  {
    if month == 2 && IsLeap(year) then 29
    else [31, 28, 31, 30, 31, 30, 31, 31, 30, 31, 30, 31][month - 1]
  }

  // ---------- Counting days one month at a time ----------

  function DaysInYear(year: int): int {
    if IsLeap(year) then 366 else 365
  }

  /** The days of the years from 1 up to the one given. */
  function DaysBeforeYear(year: nat): int {
    if year <= 1 then 0 else DaysBeforeYear(year - 1) + DaysInYear(year - 1)
  }

  function DaysBeforeMonth(year: int, month: int): int
    requires 1 <= month <= 13
    decreases month
  {
    if month == 1 then 0 else DaysBeforeMonth(year, month - 1) + DaysInMonth(year, month - 1)
  }

  /** The days from 0001-01-01 to a date, counted month by month. */
  function Counted(year: nat, month: int, day: int): int
    requires 1 <= month <= 12
  {
    DaysBeforeYear(year) + DaysBeforeMonth(year, month) + day - 1
  }

  predicate IsDate(year: int, month: int, day: int) {
    1 <= year && 1 <= month <= 12 && 1 <= day <= DaysInMonth(year, month)
  }

  // ---------- By division ----------

  /** _days_from_civil(): the days from 1970-01-01, with the year counted from March. */
  function DaysFromCivil(year: int, month: int, day: int): int {
    var y := if month <= 2 then year - 1 else year;
    var m := if month <= 2 then month + 9 else month - 3;
    y * 365 + y / 4 - y / 100 + y / 400 + (153 * m + 2) / 5 + day - 1 - 719468
  }

  /** Division's steps, one year on. */
  lemma YearSteps(y: nat)
    ensures (y + 1) / 4 == y / 4 + (if (y + 1) % 4 == 0 then 1 else 0)
    ensures (y + 1) / 100 == y / 100 + (if (y + 1) % 100 == 0 then 1 else 0)
    ensures (y + 1) / 400 == y / 400 + (if (y + 1) % 400 == 0 then 1 else 0)
  {
  }

  lemma {:induction false} YearsCounted(year: nat)
    requires year >= 1
    ensures var y := year - 1; DaysBeforeYear(year) == y * 365 + y / 4 - y / 100 + y / 400
  {
    if year > 1 {
      YearsCounted(year - 1);
      YearSteps(year - 2);
      LeapBy(year - 1);
    }
  }

  lemma LeapBy(year: int)
    ensures year % 100 == 0 ==> year % 4 == 0
    ensures year % 400 == 0 ==> year % 100 == 0
  {
  }

  /** The days before each month of a year without a leap day. */
  function DaysBefore365(month: int): int
    requires 1 <= month <= 13
  {
    [0, 31, 59, 90, 120, 151, 181, 212, 243, 273, 304, 334, 365][month - 1]
  }

  lemma {:induction false} MonthsAdded(year: int, month: int)
    requires 1 <= month <= 13
    ensures DaysBeforeMonth(year, month) == DaysBefore365(month) + if month > 2 && IsLeap(year) then 1 else 0
    decreases month
  {
    hide IsLeap;
    if month > 1 {
      MonthsAdded(year, month - 1);
    }
  }

  /** The days from March to a month, by division. */
  lemma MonthsDivided(month: int)
    requires 1 <= month <= 12
    ensures DaysBefore365(month) == if month <= 2 then (153 * (month + 9) + 2) / 5 - 306 else (153 * (month - 3) + 2) / 5 + 59
  {
    assert month == 1 || month == 2 || month == 3 || month == 4 || month == 5 || month == 6
           || month == 7 || month == 8 || month == 9 || month == 10 || month == 11 || month == 12;
  }

  lemma MonthsCounted(year: int, month: int)
    requires 1 <= month <= 12
    ensures DaysBeforeMonth(year, month) ==
            if month <= 2 then (153 * (month + 9) + 2) / 5 - 306 else (153 * (month - 3) + 2) / 5 + 59 + (if IsLeap(year) then 1 else 0)
  {
    hide IsLeap, DaysBeforeMonth, DaysBefore365;
    MonthsAdded(year, month);
    MonthsDivided(month);
  }

  /** Division comes to what counting month by month does. */
  lemma DivisionCounts(year: nat, month: int, day: int)
    requires IsDate(year, month, day)
    ensures DaysFromCivil(year, month, day) == Counted(year, month, day) - 719162
  {
    YearsCounted(year);
    MonthsCounted(year, month);
    if month > 2 {
      YearSteps(year - 1);
      LeapBy(year);
    }
  }

  // ---------- And back ----------

  datatype Civil = Civil(year: int, month: int, day: int, hour: int, minute: int, second: int, weekday: int)

  /** Which year of a 400-year era, counted from March, a day of it is in. */
  function YearOfEra(dayOfEra: int): int {
    (dayOfEra - dayOfEra / 1460 + dayOfEra / 36524 - dayOfEra / 146096) / 365
  }

  /** Which month of a year counted from March, and which day of it. */
  function MonthOfYear(dayOfYear: int): int {
    (5 * dayOfYear + 2) / 153
  }

  function DayOfMonth(dayOfYear: int): int {
    dayOfYear - (153 * MonthOfYear(dayOfYear) + 2) / 5 + 1
  }

  /** ebisu_time_to_civil() */
  function ToCivil(seconds: int): Option<Civil> {
    if seconds < FIRST_SECOND || seconds > LAST_SECOND then None
    else
      var fromFirst := seconds - FIRST_SECOND;
      var days := fromFirst / 86400 + FIRST_SECOND / 86400;
      var ofDay := fromFirst % 86400;
      var z := days + 719468;
      var era := z / 146097;
      var dayOfEra := z - era * 146097;
      var yearOfEra := YearOfEra(dayOfEra);
      var dayOfYear := dayOfEra - (365 * yearOfEra + yearOfEra / 4 - yearOfEra / 100);
      var m := MonthOfYear(dayOfYear);
      var month := if m < 10 then m + 3 else m - 9;
      Some(Civil(yearOfEra + era * 400 + (if month <= 2 then 1 else 0), month, DayOfMonth(dayOfYear),
                 ofDay / 3600, ofDay / 60 % 60, ofDay % 60, (days - FIRST_SECOND / 86400 + 1) % 7))
  }

  predicate IsTime(hour: int, minute: int, second: int) {
    0 <= hour <= 23 && 0 <= minute <= 59 && 0 <= second <= 60 && (second == 60 ==> hour == 23 && minute == 59)
  }

  /** ebisu_time_from_civil() */
  function FromCivil(year: int, month: int, day: int, hour: int, minute: int, second: int): (r: Option<int>)
    ensures r.Some? <==> IsDate(year, month, day) && year <= 9999 && IsTime(hour, minute, second)
  {
    if year < 1 || year > 9999 || month < 1 || month > 12 || day < 1 || day > DaysInMonth(year, month)
       || hour < 0 || hour > 23 || minute < 0 || minute > 59 || second < 0 || second > 60
       || (second == 60 && (hour != 23 || minute != 59)) then None
    else Some(((DaysFromCivil(year, month, day) * 24 + hour) * 60 + minute) * 60 + second)
  }

  /** Years counted from March that end with a leap day. */
  predicate EndsWithLeapDay(y: int) {
    IsLeap(y + 1)
  }

  /** A day of an era by its centuries, fours of years, years and days. */
  predicate IsDayOfEra(c: int, q: int, r: int, doy: int) {
    && 0 <= c <= 3 && 0 <= q <= 24 && 0 <= r <= 3 && 0 <= doy <= 365
    && (doy == 365 ==> r == 3 && (q == 24 ==> c == 3))
  }

  lemma YearFound(c: int, q: int, r: int, doy: int)
    requires IsDayOfEra(c, q, r, doy)
    ensures var doe := 36524 * c + 1461 * q + 365 * r + doy;
            0 <= doe <= 146096 && YearOfEra(doe) == 100 * c + 4 * q + r
  {
    var doe := 36524 * c + 1461 * q + 365 * r + doy;
    var y := 100 * c + 4 * q + r;
    var over := 24 * c + q + 365 * r + doy;
    assert doe == 1460 * (25 * c + q) + over && 0 <= over <= 1556;
    var e := if over >= 1460 then 1 else 0;
    Quotient(doe, 1460, 25 * c + q + e);
    if doe == 146096 {
      assert c == 3 && q == 24 && r == 3 && doy == 365;
    } else {
      Quotient(doe, 36524, c);
      Quotient(doe, 146096, 0);
      Quotient(365 * y + doy - e, 365, y);
    }
  }

  lemma Quotient(n: int, d: int, q: int)
    requires d > 0 && d * q <= n < d * q + d
    ensures n / d == q
  {
    var k := n / d;
    assert d * k <= n < d * k + d;
    Times(d, k, q - 1);
    Times(d, q + 1, k);
  }

  lemma Times(d: int, a: int, b: int)
    requires d > 0
    ensures a <= b ==> d * a <= d * b
  {
  }

  /** The days of a month counted from March, the last of them with its leap day. */
  function MarchLength(m: int): int
    requires 0 <= m <= 11
  {
    [31, 30, 31, 30, 31, 31, 30, 31, 30, 31, 31, 29][m]
  }

  function MonthOf(m: int): int {
    if m < 10 then m + 3 else m - 9
  }

  lemma MonthFound(m: int, day: int)
    requires 0 <= m <= 11 && 1 <= day <= MarchLength(m)
    ensures var doy := (153 * m + 2) / 5 + day - 1;
            0 <= doy <= 365 && MonthOfYear(doy) == m && DayOfMonth(doy) == day && (doy == 365 <==> m == 11 && day == 29)
  {
  }

  lemma DayFound(doy: int)
    requires 0 <= doy <= 365
    ensures var m := MonthOfYear(doy); 0 <= m <= 11 && 1 <= DayOfMonth(doy) <= MarchLength(m) && doy == (153 * m + 2) / 5 + DayOfMonth(doy) - 1
  {
    var m := MonthOfYear(doy);
    var d := DayOfMonth(doy);
    assert 153 * m <= 5 * doy + 2 < 153 * m + 153;
    assert m == 0 || m == 1 || m == 2 || m == 3 || m == 4 || m == 5 || m == 6 || m == 7 || m == 8 || m == 9 || m == 10 || m == 11;
  }

  /** Any day of an era is one by its parts. */
  lemma DayOfEraIs(doe: int) returns (c: int, q: int, r: int, doy: int)
    requires 0 <= doe <= 146096
    ensures IsDayOfEra(c, q, r, doy) && doe == 36524 * c + 1461 * q + 365 * r + doy
  {
    c := if doe / 36524 > 3 then 3 else doe / 36524;
    var ofCentury := doe - 36524 * c;
    q := ofCentury / 1461;
    var ofFour := ofCentury - 1461 * q;
    r := if ofFour / 365 > 3 then 3 else ofFour / 365;
    doy := ofFour - 365 * r;
  }

  /** A date in years counted from March, by eras. */
  lemma DaysByEra(era: int, c: int, q: int, r: int, m: int, day: int)
    requires 0 <= c <= 3 && 0 <= q <= 24 && 0 <= r <= 3 && 0 <= m <= 11 && era >= 0
    ensures var y := 400 * era + 100 * c + 4 * q + r; var month := MonthOf(m); var year := y + (if month <= 2 then 1 else 0);
            && DaysFromCivil(year, month, day) == 146097 * era + 36524 * c + 1461 * q + 365 * r + (153 * m + 2) / 5 + day - 1 - 719468
            && (EndsWithLeapDay(y) <==> r == 3 && (q == 24 ==> c == 3))
  {
    var yoe := 100 * c + 4 * q + r;
    var y := 400 * era + yoe;
    Quotient(y, 4, 100 * era + 25 * c + q);
    Quotient(y, 100, 4 * era + c);
    Quotient(y, 400, era);
    Quotient(yoe, 4, 25 * c + q);
    Quotient(yoe, 100, c);
    LeapInEra(era, yoe + 1);
  }

  lemma LeapInEra(era: int, y: int)
    ensures IsLeap(400 * era + y) <==> IsLeap(y)
  {
    Remainder(400 * era + y, 400, era + y / 400, y % 400);
    Remainder(400 * era + y, 100, 4 * era + y / 100, y % 100);
    Remainder(400 * era + y, 4, 100 * era + y / 4, y % 4);
  }

  lemma Remainder(n: int, d: int, q: int, r: int)
    requires d > 0 && n == d * q + r && 0 <= r < d
    ensures n % d == r
  {
    Quotient(n, d, q);
  }

  /** What ToCivil() makes of a day's parts. */
  lemma PartsFound(era: int, c: int, q: int, r: int, doy: int)
    requires IsDayOfEra(c, q, r, doy)
    ensures var z := 146097 * era + 36524 * c + 1461 * q + 365 * r + doy;
            var doe := z - z / 146097 * 146097; var yoe := YearOfEra(doe);
            z / 146097 == era && yoe == 100 * c + 4 * q + r && doe - (365 * yoe + yoe / 4 - yoe / 100) == doy
  {
    YearFound(c, q, r, doy);
    Quotient(146097 * era + 36524 * c + 1461 * q + 365 * r + doy, 146097, era);
  }

  /** From a date to days: its parts, which ToCivil() finds again. */
  lemma PartsOfDate(year: int, month: int, day: int) returns (era: int, c: int, q: int, r: int, m: int)
    requires IsDate(year, month, day)
    ensures 0 <= c <= 3 && 0 <= q <= 24 && 0 <= r <= 3 && 0 <= m <= 11 && era >= 0 && 1 <= day <= MarchLength(m)
    ensures month == MonthOf(m) && year == 400 * era + 100 * c + 4 * q + r + (if month <= 2 then 1 else 0)
    ensures IsDayOfEra(c, q, r, (153 * m + 2) / 5 + day - 1)
    ensures DaysFromCivil(year, month, day) == 146097 * era + 36524 * c + 1461 * q + 365 * r + ((153 * m + 2) / 5 + day - 1) - 719468
  {
    m := if month <= 2 then month + 9 else month - 3;
    var y := if month <= 2 then year - 1 else year;
    era := y / 400;
    c := y % 400 / 100;
    q := y % 400 % 100 / 4;
    r := y % 400 % 100 % 4;
    DaysByEra(era, c, q, r, m, day);
    MonthFound(m, day);
  }

  /** From days to a date: its parts, which DaysFromCivil() counts again. */
  lemma PartsOfDay(days: int) returns (era: int, c: int, q: int, r: int, doy: int, m: int, day: int)
    requires -719162 <= days
    ensures IsDayOfEra(c, q, r, doy) && days + 719468 == 146097 * era + 36524 * c + 1461 * q + 365 * r + doy
    ensures m == MonthOfYear(doy) && day == DayOfMonth(doy) && 0 <= m <= 11
    ensures var month := MonthOf(m); var year := 400 * era + 100 * c + 4 * q + r + (if month <= 2 then 1 else 0);
            IsDate(year, month, day) && DaysFromCivil(year, month, day) == days
  {
    hide DaysFromCivil, MonthOfYear, DayOfMonth;
    var z := days + 719468;
    era := z / 146097;
    c, q, r, doy := DayOfEraIs(z - era * 146097);
    DayFound(doy);
    m, day := MonthOfYear(doy), DayOfMonth(doy);
    DaysByEra(era, c, q, r, m, day);
    MonthFound(m, day);
  }

  /** From a date to seconds and back, but for a leap second. */
  lemma ThereAndBack(year: int, month: int, day: int, hour: int, minute: int, second: int)
    requires IsDate(year, month, day) && year <= 9999 && IsTime(hour, minute, second) && second < 60
    ensures var r := ToCivil(FromCivil(year, month, day, hour, minute, second).value);
            && r.Some? && r.value.year == year && r.value.month == month && r.value.day == day
            && r.value.hour == hour && r.value.minute == minute && r.value.second == second
            && r.value.weekday == (DaysFromCivil(year, month, day) + 4) % 7
  {
    hide DaysFromCivil, MonthOfYear, DayOfMonth, IsDayOfEra, ToCivil, DaysInMonth;
    var days := DaysFromCivil(year, month, day);
    var ofDay := (hour * 60 + minute) * 60 + second;
    assert FromCivil(year, month, day, hour, minute, second).value == 86400 * days + ofDay && 0 <= ofDay < 86400;
    InRange(year, month, day);
    var era, c, q, r, m := PartsOfDate(year, month, day);
    ToCivilIs(days, ofDay, era, c, q, r, (153 * m + 2) / 5 + day - 1);
    MonthFound(m, day);
  }

  /** The dates of years 1 to 9999 are the days there are seconds for. */
  lemma InRange(year: int, month: int, day: int)
    requires IsDate(year, month, day)
    ensures -719162 <= DaysFromCivil(year, month, day) && (year <= 9999 ==> DaysFromCivil(year, month, day) <= 2932896)
    ensures year > 9999 ==> DaysFromCivil(year, month, day) > 2932896
  {
    DivisionCounts(year, month, day);
    YearsCounted(year);
    MonthsCounted(year, month);
  }

  /** From seconds to a date and back, for each second there is a date for, and no others. */
  lemma BackAndThere(seconds: int)
    ensures ToCivil(seconds).Some? <==> FIRST_SECOND <= seconds <= LAST_SECOND
    ensures ToCivil(seconds).Some? ==>
              var d := ToCivil(seconds).value;
              && FromCivil(d.year, d.month, d.day, d.hour, d.minute, d.second) == Some(seconds)
              && d.second < 60 && d.weekday == (seconds / 86400 + 4) % 7
  {
    hide DaysFromCivil, MonthOfYear, DayOfMonth, IsDayOfEra, ToCivil, DaysInMonth;
    OnlyInRange(seconds);
    if FIRST_SECOND <= seconds <= LAST_SECOND {
      var days, ofDay := seconds / 86400, seconds % 86400;
      var era, c, q, r, doy, m, day := PartsOfDay(days);
      ToCivilIs(days, ofDay, era, c, q, r, doy);
      InRange(400 * era + 100 * c + 4 * q + r + (if MonthOf(m) <= 2 then 1 else 0), MonthOf(m), day);
    }
  }

  lemma OnlyInRange(seconds: int)
    ensures ToCivil(seconds).Some? ==> FIRST_SECOND <= seconds <= LAST_SECOND
  {
  }

  lemma ToCivilIs(days: int, ofDay: int, era: int, c: int, q: int, r: int, doy: int)
    requires -719162 <= days <= 2932896 && 0 <= ofDay < 86400
    requires IsDayOfEra(c, q, r, doy) && days + 719468 == 146097 * era + 36524 * c + 1461 * q + 365 * r + doy
    ensures var month := MonthOf(MonthOfYear(doy));
            ToCivil(86400 * days + ofDay) ==
            Some(Civil(400 * era + 100 * c + 4 * q + r + (if month <= 2 then 1 else 0), month, DayOfMonth(doy),
                       ofDay / 3600, ofDay / 60 % 60, ofDay % 60, (days + 4) % 7))
  {
    hide YearOfEra, MonthOfYear, DayOfMonth;
    PartsFound(era, c, q, r, doy);
    Remainder(days + 719163, 7, 102737 + (days + 4) / 7, (days + 4) % 7);
  }

  // ---------- In order ----------

  predicate IsBefore(y1: int, m1: int, d1: int, y2: int, m2: int, d2: int) {
    y1 < y2 || (y1 == y2 && (m1 < m2 || (m1 == m2 && d1 < d2)))
  }

  lemma {:induction false} YearsInOrder(a: nat, b: nat)
    requires 1 <= a < b
    ensures DaysBeforeYear(a) + DaysInYear(a) <= DaysBeforeYear(b)
  {
    if a < b - 1 {
      YearsInOrder(a, b - 1);
    }
  }

  lemma {:induction false} MonthsInOrder(year: int, a: int, b: int)
    requires 1 <= a < b <= 13
    ensures DaysBeforeMonth(year, a) + DaysInMonth(year, a) <= DaysBeforeMonth(year, b)
    decreases b
  {
    if a < b - 1 {
      MonthsInOrder(year, a, b - 1);
    }
  }

  /** The days of dates are in the dates' order, and no two dates have the same. */
  lemma DaysInOrder(y1: int, m1: int, d1: int, y2: int, m2: int, d2: int)
    requires IsDate(y1, m1, d1) && IsDate(y2, m2, d2)
    ensures IsBefore(y1, m1, d1, y2, m2, d2) <==> DaysFromCivil(y1, m1, d1) < DaysFromCivil(y2, m2, d2)
  {
    if IsBefore(y1, m1, d1, y2, m2, d2) {
      Precedes(y1, m1, d1, y2, m2, d2);
    } else if IsBefore(y2, m2, d2, y1, m1, d1) {
      Precedes(y2, m2, d2, y1, m1, d1);
    }
  }

  lemma Precedes(y1: int, m1: int, d1: int, y2: int, m2: int, d2: int)
    requires IsDate(y1, m1, d1) && IsDate(y2, m2, d2) && IsBefore(y1, m1, d1, y2, m2, d2)
    ensures DaysFromCivil(y1, m1, d1) < DaysFromCivil(y2, m2, d2)
  {
    hide DaysFromCivil, DaysInMonth, DaysBeforeMonth, DaysBeforeYear;
    DivisionCounts(y1, m1, d1);
    DivisionCounts(y2, m2, d2);
    if y1 < y2 {
      YearsInOrder(y1, y2);
      YearHolds(y1, m1, d1);
      NotNegative(y2, m2);
    } else if m1 < m2 {
      MonthsInOrder(y1, m1, m2);
    }
  }

  lemma NotNegative(year: int, month: int)
    requires 1 <= month <= 13
    ensures DaysBeforeMonth(year, month) >= 0
    decreases month
  {
  }

  lemma YearHolds(year: int, month: int, day: int)
    requires IsDate(year, month, day)
    ensures DaysBeforeMonth(year, month) + day <= DaysInYear(year)
  {
    hide DaysBeforeMonth;
    MonthsCounted(year, month);
  }
}
