/** HTTP-date arithmetic (urouter-contracts/src/backoff.rs): the closed formula for
    the day number against the calendar's own rules. */
module Calendar {
  import opened Results
  import opened Arithmetic

  /** Division as the source's i64 does it: toward zero. */
  function TruncatingDivision(a: int, b: int): int
    requires b > 0
  {
    if a >= 0 then a / b else -((-a) / b)
  }

  // days_from_civil: months count from March, years in eras of 400.

  function ShiftedYear(year: int, month: nat): int {
    if month <= 2 then year - 1 else year
  }

  function EraNumerator(y: int): int {
    if y >= 0 then y else y - 399
  }

  function Era(y: int): int {
    TruncatingDivision(EraNumerator(y), 400)
  }

  function DayOfEra(y: int, month: nat, day: nat): int
    requires 1 <= month <= 12 && day >= 1
  {
    var yearOfEra := y - Era(y) * 400;
    var shiftedMonth := if month > 2 then month - 3 else month + 9;
    var dayOfYear := (153 * shiftedMonth + 2) / 5 + day - 1;
    yearOfEra * 365 + TruncatingDivision(yearOfEra, 4) - TruncatingDivision(yearOfEra, 100) + dayOfYear
  }

  function DaysFromCivil(year: int, month: nat, day: nat): int
    requires 1 <= month <= 12 && day >= 1
  {
    var y := ShiftedYear(year, month);
    Era(y) * 146_097 + DayOfEra(y, month, day) - 719_468
  }

  // The calendar itself.

  predicate Leap(year: int) {
    year % 4 == 0 && (year % 100 != 0 || year % 400 == 0)
  }

  function MonthLength(year: int, month: nat): nat
    requires 1 <= month <= 12
  {
    if month == 2 then (if Leap(year) then 29 else 28)
    else if month in {4, 6, 9, 11} then 30
    else 31
  }

  function YearLength(year: int): nat {
    if Leap(year) then 366 else 365
  }

  /** Days from the start of 1970 to the start of a year, counted year by year. */
  ghost function YearStart(year: int): int
    decreases if year >= 1970 then year - 1970 else 1970 - year
  {
    if year == 1970 then 0
    else if year > 1970 then YearStart(year - 1) + YearLength(year - 1)
    else YearStart(year + 1) - YearLength(year)
  }

  /** Days from the start of a year to the start of a month, counted month by month. */
  ghost function MonthStart(year: int, month: nat): nat
    requires 1 <= month <= 12
  {
    if month == 1 then 0 else MonthStart(year, month - 1) + MonthLength(year, month - 1)
  }

  ghost function DayNumber(year: int, month: nat, day: nat): int
    requires 1 <= month <= 12 && day >= 1
  {
    YearStart(year) + MonthStart(year, month) + day - 1
  }

  /** Leap days in the years before a year, counted from year one. */
  function LeapDays(year: int): int {
    (year - 1) / 4 - (year - 1) / 100 + (year - 1) / 400
  }

  lemma FloorStep(a: int, k: int)
    requires k > 0
    ensures (a + 1) / k == a / k + (if (a + 1) % k == 0 then 1 else 0)
  {
    var q, r := a / k, a % k;
    assert a + 1 == k * q + (r + 1);
    if r + 1 == k {
      assert a + 1 == k * (q + 1) + 0;
      QuotientIs(a + 1, k, q + 1, 0);
    } else {
      QuotientIs(a + 1, k, q, r + 1);
    }
  }

  lemma LeapDaysStep(year: int)
    ensures LeapDays(year + 1) == LeapDays(year) + (if Leap(year) then 1 else 0)
  {
    FloorStep(year - 1, 4);
    FloorStep(year - 1, 100);
    FloorStep(year - 1, 400);
  }

  lemma {:induction false} YearStartFormula(year: int)
    ensures YearStart(year) == 365 * (year - 1970) + LeapDays(year) - LeapDays(1970)
    decreases if year >= 1970 then year - 1970 else 1970 - year
  {
    if year > 1970 {
      YearStartFormula(year - 1);
      LeapDaysStep(year - 1);
    } else if year < 1970 {
      YearStartFormula(year + 1);
      LeapDaysStep(year);
    }
  }

  /** Shifting by 399 makes the truncating division round down for negative years too. */
  lemma EraRoundsDown(y: int)
    ensures TruncatingDivision(if y >= 0 then y else y - 399, 400) == y / 400
  {
    if y < 0 {
      var e, r := y / 400, y % 400;
      assert 399 - y == 400 * (-e) + (399 - r);
      QuotientIs(399 - y, 400, -e, 399 - r);
    }
  }

  lemma YearOfEra(y: int)
    ensures var era, yoe := y / 400, y % 400;
            y / 4 == 100 * era + yoe / 4 && y / 100 == 4 * era + yoe / 100
  {
    var era, yoe := y / 400, y % 400;
    assert y == 4 * (100 * era + yoe / 4) + yoe % 4;
    QuotientIs(y, 4, 100 * era + yoe / 4, yoe % 4);
    assert y == 100 * (4 * era + yoe / 100) + yoe % 100;
    QuotientIs(y, 100, 4 * era + yoe / 100, yoe % 100);
  }

  lemma MonthStartFormula(year: int, month: nat)
    requires 1 <= month <= 12
    ensures month > 2 ==> MonthStart(year, month) == (153 * (month - 3) + 2) / 5 + 59 + (if Leap(year) then 1 else 0)
    ensures month <= 2 ==> MonthStart(year, month) == (153 * (month + 9) + 2) / 5 - 306
  {
    var leap := if Leap(year) then 1 else 0;
    assert MonthStart(year, 1) == 0;
    assert MonthStart(year, 2) == 31;
    assert MonthStart(year, 3) == 59 + leap;
    assert MonthStart(year, 4) == 90 + leap;
    assert MonthStart(year, 5) == 120 + leap;
    assert MonthStart(year, 6) == 151 + leap;
    assert MonthStart(year, 7) == 181 + leap;
    assert MonthStart(year, 8) == 212 + leap;
    assert MonthStart(year, 9) == 243 + leap;
    assert MonthStart(year, 10) == 273 + leap;
    assert MonthStart(year, 11) == 304 + leap;
    assert MonthStart(year, 12) == 334 + leap;
  }

  /** The formula is the day count, for every year, month and day, also days past the
      end of their month. */
  lemma FormulaIsDayNumber(year: int, month: nat, day: nat)
    requires 1 <= month <= 12 && day >= 1
    ensures DaysFromCivil(year, month, day) == DayNumber(year, month, day)
  {
    var y := if month <= 2 then year - 1 else year;
    EraRoundsDown(y);
    YearOfEra(y);
    YearStartFormula(year);
    MonthStartFormula(year, month);
    if month > 2 {
      LeapDaysStep(year);
    }
    Assemble(year, y, month, day);
  }

  lemma Assemble(year: int, y: int, month: nat, day: nat)
    requires 1 <= month <= 12 && day >= 1 && y == (if month <= 2 then year - 1 else year)
    requires TruncatingDivision(if y >= 0 then y else y - 399, 400) == y / 400
    requires y / 4 == 100 * (y / 400) + y % 400 / 4 && y / 100 == 4 * (y / 400) + y % 400 / 100
    ensures DaysFromCivil(year, month, day)
            == 365 * y + y / 4 - y / 100 + y / 400 + (153 * (if month > 2 then month - 3 else month + 9) + 2) / 5 + day - 1 - 719_468
  {
    assert y - y / 400 * 400 == y % 400;
  }

  // What follows for dates.

  datatype Date = Date(year: int, month: nat, day: nat)

  predicate ValidDate(d: Date) {
    1 <= d.month <= 12 && 1 <= d.day <= MonthLength(d.year, d.month)
  }

  function Days(d: Date): int
    requires ValidDate(d)
  {
    DaysFromCivil(d.year, d.month, d.day)
  }

  function NextDay(d: Date): (n: Date)
    requires ValidDate(d)
    ensures ValidDate(n)
  {
    if d.day < MonthLength(d.year, d.month) then Date(d.year, d.month, d.day + 1)
    else if d.month < 12 then Date(d.year, d.month + 1, 1)
    else Date(d.year + 1, 1, 1)
  }

  lemma EpochIsZero()
    ensures DaysFromCivil(1970, 1, 1) == 0
  {
    FormulaIsDayNumber(1970, 1, 1);
  }

  /** Across month ends, leap years, centuries and eras: the next day is one more. */
  lemma NextDayIsOneMore(d: Date)
    requires ValidDate(d)
    ensures Days(NextDay(d)) == Days(d) + 1
  {
    hide Era, DayOfEra;
    var n := NextDay(d);
    FormulaIsDayNumber(d.year, d.month, d.day);
    FormulaIsDayNumber(n.year, n.month, n.day);
    if d.month == 12 && d.day == MonthLength(d.year, d.month) {
      YearEnds(d.year);
      YearStep(d.year);
    }
  }

  lemma YearEnds(year: int)
    ensures MonthStart(year, 12) + 31 == YearLength(year)
  {
    MonthStartFormula(year, 12);
  }

  lemma YearStep(year: int)
    ensures YearStart(year + 1) == YearStart(year) + YearLength(year)
  {
    YearStartFormula(year);
    YearStartFormula(year + 1);
    LeapDaysStep(year);
  }

  predicate Before(a: Date, b: Date) {
    a.year < b.year || (a.year == b.year && (a.month < b.month || (a.month == b.month && a.day < b.day)))
  }

  lemma {:induction false} LaterYear(a: int, b: int)
    requires a < b
    ensures YearStart(a) + YearLength(a) <= YearStart(b)
    decreases b - a
  {
    if b == a + 1 {
      YearStep(a);
    } else {
      LaterYear(a, b - 1);
      YearStep(b - 1);
    }
  }

  lemma {:induction false} LaterMonth(year: int, a: nat, b: nat)
    requires 1 <= a < b <= 12
    ensures MonthStart(year, a) + MonthLength(year, a) <= MonthStart(year, b)
    decreases b
  {
    if a < b - 1 {
      LaterMonth(year, a, b - 1);
    }
  }

  lemma WithinYear(d: Date)
    requires ValidDate(d)
    ensures MonthStart(d.year, d.month) + d.day <= YearLength(d.year)
  {
    YearEnds(d.year);
    if d.month < 12 {
      LaterMonth(d.year, d.month, 12);
    }
  }

  /** Valid dates are numbered in their order, so no two share a number. */
  lemma DaysAreMonotone(a: Date, b: Date)
    requires ValidDate(a) && ValidDate(b)
    ensures Before(a, b) <==> Days(a) < Days(b)
  {
    FormulaIsDayNumber(a.year, a.month, a.day);
    FormulaIsDayNumber(b.year, b.month, b.day);
    if Before(a, b) {
      NumberedInOrder(a, b);
    } else if Before(b, a) {
      NumberedInOrder(b, a);
    } else {
      assert a == b;
    }
  }

  lemma NumberedInOrder(a: Date, b: Date)
    requires ValidDate(a) && ValidDate(b) && Before(a, b)
    ensures DayNumber(a.year, a.month, a.day) < DayNumber(b.year, b.month, b.day)
  {
    WithinYear(a);
    if a.year < b.year {
      LaterYear(a.year, b.year);
    } else if a.month < b.month {
      LaterMonth(a.year, a.month, b.month);
    }
  }

  /** A day past the end of its month is read as a day of the next month. */
  lemma OverlongDayRollsOver(year: int, month: nat, day: nat)
    requires 1 <= month < 12 && day > MonthLength(year, month)
    ensures DaysFromCivil(year, month, day) == DaysFromCivil(year, month + 1, day - MonthLength(year, month))
  {
    hide Era, DayOfEra;
    FormulaIsDayNumber(year, month, day);
    FormulaIsDayNumber(year, month + 1, day - MonthLength(year, month));
  }

  // The time of day.

  datatype Time = Time(hour: nat, minute: nat, second: nat)

  const I64_MAX: int := 0x7FFF_FFFF_FFFF_FFFF
  const U64_MAX: int := 0xFFFF_FFFF_FFFF_FFFF

  function CheckedI64(x: int): Option<int> {
    if -I64_MAX - 1 <= x <= I64_MAX then Some(x) else None
  }

  function SecondsOf(d: Date, t: Time): int
    requires 1 <= d.month <= 12 && d.day >= 1
  {
    DaysFromCivil(d.year, d.month, d.day) * 86_400 + (t.hour * 3_600 + t.minute * 60 + t.second)
  }

  /** The arithmetic of parse_http_date_unix_millis, once the fields are read. */
  function UnixMillis(d: Date, t: Time): Option<nat>
    requires 1 <= d.month <= 12
  {
    if t.hour > 23 || t.minute > 59 || t.second > 60 || d.day == 0 || d.day > 31 then None
    else
      var days := CheckedI64(DaysFromCivil(d.year, d.month, d.day) * 86_400);
      if days.None? then None
      else
        var seconds := CheckedI64(days.value + (t.hour * 3_600 + t.minute * 60 + t.second));
        if seconds.None? || seconds.value < 0 || seconds.value * 1_000 > U64_MAX then None
        else Some(seconds.value * 1_000)
  }

  predicate ValidTime(t: Time) {
    t.hour <= 23 && t.minute <= 59 && t.second <= 59
  }

  predicate EarlierTime(s: Time, t: Time) {
    s.hour < t.hour || (s.hour == t.hour && (s.minute < t.minute || (s.minute == t.minute && s.second < t.second)))
  }

  /** Of two valid instants that are both accepted, the earlier has the smaller value. */
  lemma MillisAreMonotone(a: Date, s: Time, b: Date, t: Time)
    requires ValidDate(a) && ValidDate(b) && ValidTime(s) && ValidTime(t)
    requires UnixMillis(a, s).Some? && UnixMillis(b, t).Some?
    ensures UnixMillis(a, s).value < UnixMillis(b, t).value <==> Before(a, b) || (a == b && EarlierTime(s, t))
  {
    hide Era, DayOfEra;
    DaysAreMonotone(a, b);
    DaysAreMonotone(b, a);
  }

  /** The date guard lets a day past the end of its month through, up to the 31st, and it
      is then read as the day of the next month that it runs into. */
  lemma OverlongDayIsAccepted(d: Date, t: Time)
    requires 1 <= d.month <= 12 && MonthLength(d.year, d.month) < d.day <= 31
    ensures d.month < 12
    ensures UnixMillis(d, t) == UnixMillis(Date(d.year, d.month + 1, d.day - MonthLength(d.year, d.month)), t)
  {
    hide DaysFromCivil;
    OverlongDayRollsOver(d.year, d.month, d.day);
  }

  /** Second 60 is read as the second after second 59, also where a minute, an hour, a day,
      a month or a year ends with it. */
  lemma LeapSecondIsNextSecond(d: Date, hour: nat, minute: nat)
    requires ValidDate(d) && hour <= 23 && minute <= 59
    ensures minute < 59 ==> UnixMillis(d, Time(hour, minute, 60)) == UnixMillis(d, Time(hour, minute + 1, 0))
    ensures minute == 59 && hour < 23 ==> UnixMillis(d, Time(hour, minute, 60)) == UnixMillis(d, Time(hour + 1, 0, 0))
    ensures minute == 59 && hour == 23 ==> UnixMillis(d, Time(hour, minute, 60)) == UnixMillis(NextDay(d), Time(0, 0, 0))
  {
    hide NextDay, DaysFromCivil;
    NextDayIsOneMore(d);
  }

  // Where the formula itself stays within 64 bits.

  predicate InI64(x: int) {
    CheckedI64(x).Some?
  }

  /** No step of the formula leaves 64 bits, in the order the steps are taken. */
  predicate FormulaFits(year: int, month: nat, day: nat)
    requires 1 <= month <= 12 && day >= 1
  {
    var y := ShiftedYear(year, month);
    InI64(y) && InI64(EraNumerator(y)) && InI64(Era(y) * 400) && InI64(y - Era(y) * 400)
    && InI64(Era(y) * 146_097) && InI64(Era(y) * 146_097 + DayOfEra(y, month, day)) && InI64(DaysFromCivil(year, month, day))
  }

  lemma DayOfEraBounds(y: int, month: nat, day: nat)
    requires 1 <= month <= 12 && 1 <= day <= 31
    ensures 0 <= y - Era(y) * 400 < 400 && 0 <= DayOfEra(y, month, day) <= 146_127
  {
    EraRoundsDown(y);
    var yearOfEra := y - Era(y) * 400;
    assert yearOfEra == y % 400;
    assert 153 * (if month > 2 then month - 3 else month + 9) + 2 <= 1_685;
  }

  /** The formula's steps fit for a year of 64 bits exactly when its result does and leaves
      room for the 719468 days that are taken off last. */
  lemma WhenFormulaFits(year: int, month: nat, day: nat)
    requires 1 <= month <= 12 && 1 <= day <= 31
    ensures FormulaFits(year, month, day)
            <==> -I64_MAX - 1 <= DaysFromCivil(year, month, day) <= I64_MAX - 719_468
  {
    hide DayOfEra, Era;
    var y := ShiftedYear(year, month);
    DayOfEraBounds(y, month, day);
  }

  /** In particular for every date up to 25 quadrillion years away. */
  lemma YearsThatFit(year: int, month: nat, day: nat)
    requires 1 <= month <= 12 && 1 <= day <= 31
    requires -25_000_000_000_000_000 <= year <= 25_000_000_000_000_000
    ensures FormulaFits(year, month, day)
  {
    hide DayOfEra, Era;
    DayOfEraBounds(ShiftedYear(year, month), month, day);
    WhenFormulaFits(year, month, day);
  }

  /** For every month of the year and whatever the other fields are: accepted are hours up
      to 23, minutes up to 59, seconds up to 60 and days up to 31, from 1970 on and as far
      as 64 bits reach; the value is a thousand times the seconds that the calendar's own
      rules count. */
  lemma MillisAreExact(d: Date, t: Time)
    requires 1 <= d.month <= 12
    ensures UnixMillis(d, t) ==
            if t.hour < 24 && t.minute < 60 && t.second <= 60 && 0 < d.day <= 31 then
              var seconds := DayNumber(d.year, d.month, d.day) * 24 * 60 * 60 + (t.hour * 60 + t.minute) * 60 + t.second;
              if 0 <= seconds && seconds * 1_000 < 0x1_0000_0000_0000_0000 then Some(seconds * 1_000) else None
            else None
  {
    if d.day > 0 {
      FormulaIsDayNumber(d.year, d.month, d.day);
    }
    hide DaysFromCivil, DayNumber;
  }

  /** Accepted, for a valid instant, from 1970 on and as far as 64 bits reach; the value
      is a thousand times the seconds since then, and no step on the way left 64 bits. */
  lemma WhenAccepted(d: Date, t: Time)
    requires ValidDate(d) && ValidTime(t)
    ensures UnixMillis(d, t).Some? <==> d.year >= 1970 && SecondsOf(d, t) * 1_000 <= U64_MAX
    ensures UnixMillis(d, t).Some? ==>
              UnixMillis(d, t).value == SecondsOf(d, t) * 1_000 && FormulaFits(d.year, d.month, d.day)
  {
    hide DayOfEra, Era;
    WhenFormulaFits(d.year, d.month, d.day);
    EpochIsZero();
    DaysAreMonotone(d, Date(1970, 1, 1));
    DaysAreMonotone(Date(1970, 1, 1), d);
  }
}
