/**
 `civil_from_days` against the proleptic Gregorian calendar.  The calendar itself is
 the successor function `Next` under the leap-year rule of Appendix C of RFC 3339; the
 arithmetic is shown to walk it, day by day, in both directions from 1970-01-01.
 */
module Calendar {

  datatype Date = Date(year: int, month: int, day: int)

  predicate IsLeap(year: int) {
    year % 4 == 0 && (year % 100 != 0 || year % 400 == 0)
  }

  function DaysInMonth(year: int, month: int): int {
    if month == 2 then (if IsLeap(year) then 29 else 28)
    else if month == 4 || month == 6 || month == 9 || month == 11 then 30
    else 31
  }

  predicate IsDate(d: Date) {
    1 <= d.month <= 12 && 1 <= d.day <= DaysInMonth(d.year, d.month)
  }

  /** The day after `d` in the calendar. */
  function Next(d: Date): Date {
    if d.day < DaysInMonth(d.year, d.month) then d.(day := d.day + 1)
    else if d.month < 12 then Date(d.year, d.month + 1, 1)
    else Date(d.year + 1, 1, 1)
  }

  /** The day before `d`. */
  function Previous(d: Date): Date {
    if d.day > 1 then d.(day := d.day - 1)
    else if d.month > 1 then Date(d.year, d.month - 1, DaysInMonth(d.year, d.month - 1))
    else Date(d.year - 1, 12, 31)
  }

  const EPOCH := Date(1970, 1, 1)

  /** Which year of its 400-year era a day falls in, by the corrected quotient. */
  function YearInEra(doe: int): int {
    (doe - doe / 1460 + doe / 36_524 - doe / 146_096) / 365
  }

  function DateInMarchYear(year: int, doy: int): Date {
    var mp := (5 * doy + 2) / 153;
    var day := doy - (153 * mp + 2) / 5 + 1;
    var month := if mp < 10 then mp + 3 else mp - 9;
    Date(if month <= 2 then year + 1 else year, month, day)
  }

  /** The program's conversion; `/` and `%` round down, and every truncating division has a non-negative dividend. */
  function CivilFromDays(days: int): Date {
    var z := days + 719_468;
    var era, doe := z / 146_097, z % 146_097;
    var yoe := YearInEra(doe);
    DateInMarchYear(yoe + era * 400, doe - (365 * yoe + yoe / 4 - yoe / 100))
  }

  /** Days before 1 March of year `y`, counted from 0000-03-01. */
  function DaysBeforeMarch(y: int): int { 365 * y + y / 4 - y / 100 + y / 400 }

  /** Month counted from March, so that the leap day is the last of its year. */
  function MonthFromMarch(month: int): int { if month <= 2 then month + 9 else month - 3 }

  function DaysBeforeMonth(mp: int): int { (153 * mp + 2) / 5 }

  /** Days from the epoch to a date: the reference count the conversion must invert. */
  function DaysFromCivil(d: Date): int {
    DaysBeforeMarch(if d.month <= 2 then d.year - 1 else d.year)
      + DaysBeforeMonth(MonthFromMarch(d.month)) + d.day - 1 - 719_468
  }

  lemma MarchYearLength(y: int)
    ensures DaysBeforeMarch(y + 1) == DaysBeforeMarch(y) + if IsLeap(y + 1) then 366 else 365
  {
    assert (y + 1) / 4 == y / 4 + if (y + 1) % 4 == 0 then 1 else 0;
    assert (y + 1) / 100 == y / 100 + if (y + 1) % 100 == 0 then 1 else 0;
    assert (y + 1) / 400 == y / 400 + if (y + 1) % 400 == 0 then 1 else 0;
    assert (y + 1) % 100 == 0 ==> (y + 1) % 4 == 0;
    assert (y + 1) % 400 == 0 ==> (y + 1) % 100 == 0;
  }

  /** The count moves by one along the calendar. */
  lemma NextCountsOne(d: Date)
    requires IsDate(d)
    ensures IsDate(Next(d)) && DaysFromCivil(Next(d)) == DaysFromCivil(d) + 1
  {
    if d.day < DaysInMonth(d.year, d.month) {
    } else if d.month == 2 {
      MarchYearLength(d.year - 1);
    } else {
      assert DaysBeforeMonth(MonthFromMarch(if d.month < 12 then d.month + 1 else 1))
          == DaysBeforeMonth(MonthFromMarch(d.month)) + d.day;
    }
  }

  lemma PreviousCountsOne(d: Date)
    requires IsDate(d)
    ensures IsDate(Previous(d)) && DaysFromCivil(Previous(d)) == DaysFromCivil(d) - 1
    ensures Next(Previous(d)) == d
  {
    if d.day > 1 {
    } else if d.month > 1 {
      assert IsDate(Date(d.year, d.month - 1, DaysInMonth(d.year, d.month - 1)));
    } else {
      assert DaysInMonth(d.year - 1, 12) == 31;
    }
    NextCountsOne(Previous(d));
  }

  /**
   The year step.  In year `100c + 4j + i` of an era, on its day `t`, the corrected
   quotient is exact: the correction terms miss by less than the slack the bounds leave.
   */
  lemma YearOfEra(c: int, j: int, i: int, t: int, doe: int)
    requires 0 <= c < 4 && 0 <= j < 25 && 0 <= i < 4 && 0 <= t <= 365
    requires t == 365 ==> i == 3 && (j < 24 || c == 3)
    requires doe == 36_524 * c + 1461 * j + 365 * i + t
    ensures YearInEra(doe) == 100 * c + 4 * j + i
  {
    assert doe / 36_524 - doe / 146_096 == c;
    assert doe == 1460 * (25 * c + j) + (24 * c + j + 365 * i + t);
    assert 0 <= 24 * c + j + 365 * i + t < 2 * 1460;
  }

  /** The month step: for every day of the March-based year, month and day come back. */
  lemma MonthOfYear(mp: int, day: int)
    requires 0 <= mp < 12 && 1 <= day <= 31
    requires day <= if mp < 11 then DaysBeforeMonth(mp + 1) - DaysBeforeMonth(mp) else 29
    ensures (5 * (DaysBeforeMonth(mp) + day - 1) + 2) / 153 == mp
  {
  }

  /** Day `doy` of the March-based year `yoe` of an era, counted from the era's start. */
  lemma DayOfEra(yoe: int, doy: int, doe: int)
    requires 0 <= yoe < 400 && 0 <= doy <= 365 && (doy == 365 ==> IsLeap(yoe + 1))
    requires doe == 365 * yoe + yoe / 4 - yoe / 100 + doy
    ensures 0 <= doe < 146_097
    ensures YearInEra(doe) == yoe
  {
    var c, j, i := yoe / 100, yoe % 100 / 4, yoe % 4;
    assert yoe == 100 * c + 4 * j + i;
    YearOfEra(c, j, i, doy, doe);
  }

  lemma EraOfYear(y: int, doy: int, z: int)
    requires 0 <= doy <= 365 && (doy == 365 ==> IsLeap(y + 1))
    requires z == DaysBeforeMarch(y) + doy
    ensures z / 146_097 == y / 400
    ensures z % 146_097 == 365 * (y % 400) + y % 400 / 4 - y % 400 / 100 + doy
  {
    var era, yoe := y / 400, y % 400;
    var doe := 365 * yoe + yoe / 4 - yoe / 100 + doy;
    EraSplits(era, yoe);
    LeapRepeats(era, yoe + 1);
    DayOfEra(yoe, doy, doe);
    DivideEra(era, doe);
  }

  lemma EraSplits(era: int, yoe: int)
    requires 0 <= yoe < 400
    ensures DaysBeforeMarch(400 * era + yoe) == 146_097 * era + 365 * yoe + yoe / 4 - yoe / 100
  {
    assert (400 * era + yoe) / 4 == 100 * era + yoe / 4;
    assert (400 * era + yoe) / 100 == 4 * era + yoe / 100;
  }

  lemma LeapRepeats(era: int, year: int)
    ensures IsLeap(400 * era + year) == IsLeap(year)
  {
    RepeatsBy4(100 * era, year);
    RepeatsBy100(4 * era, year);
    RepeatsBy400(era, year);
  }

  lemma RepeatsBy4(k: int, n: int)
    ensures (4 * k + n) % 4 == n % 4
  {
  }

  lemma RepeatsBy100(k: int, n: int)
    ensures (100 * k + n) % 100 == n % 100
  {
  }

  lemma RepeatsBy400(k: int, n: int)
    ensures (400 * k + n) % 400 == n % 400
  {
  }

  lemma DivideEra(era: int, doe: int)
    requires 0 <= doe < 146_097
    ensures (146_097 * era + doe) / 146_097 == era && (146_097 * era + doe) % 146_097 == doe
  {
  }

  lemma DayOfMarchYear(d: Date, y: int, mp: int)
    requires IsDate(d) && mp == MonthFromMarch(d.month) && y == if d.month <= 2 then d.year - 1 else d.year
    ensures 0 <= mp < 12 && d.day <= if mp < 11 then DaysBeforeMonth(mp + 1) - DaysBeforeMonth(mp) else 29
    ensures 0 <= DaysBeforeMonth(mp) + d.day - 1 <= 365
    ensures DaysBeforeMonth(mp) + d.day - 1 == 365 ==> IsLeap(y + 1)
  {
  }

  /** The conversion inverts the reference count on every date of the calendar. */
  lemma RoundTrip(d: Date)
    requires IsDate(d)
    ensures CivilFromDays(DaysFromCivil(d)) == d
  {
    var y := if d.month <= 2 then d.year - 1 else d.year;
    var mp := MonthFromMarch(d.month);
    var doy := DaysBeforeMonth(mp) + d.day - 1;
    DayOfMarchYear(d, y, mp);
    assert DateInMarchYear(y, doy) == d by { MonthOfYear(mp, d.day); }
    ConversionFinds(y, doy, DaysFromCivil(d));
  }

  lemma ConversionFinds(y: int, doy: int, days: int)
    requires 0 <= doy <= 365 && (doy == 365 ==> IsLeap(y + 1))
    requires days + 719_468 == DaysBeforeMarch(y) + doy
    ensures CivilFromDays(days) == DateInMarchYear(y, doy)
  {
    var era, yoe := y / 400, y % 400;
    var doe := 365 * yoe + yoe / 4 - yoe / 100 + doy;
    EraOfYear(y, doy, days + 719_468);
    assert (days + 719_468) / 146_097 == era && (days + 719_468) % 146_097 == doe;
    assert YearInEra(doe) == yoe by {
      LeapRepeats(era, yoe + 1);
      DayOfEra(yoe, doy, doe);
    }
    assert yoe + era * 400 == y;
  }

  /** Walking the calendar from the epoch reaches every day number, forwards and backwards. */
  lemma {:induction false} EveryDayHasADate(days: int) returns (d: Date)
    ensures IsDate(d) && DaysFromCivil(d) == days
    decreases if days < 0 then -days else days
  {
    if days == 0 {
      d := EPOCH;
    } else if days > 0 {
      var before := EveryDayHasADate(days - 1);
      NextCountsOne(before);
      d := Next(before);
    } else {
      var after := EveryDayHasADate(days + 1);
      PreviousCountsOne(after);
      d := Previous(after);
    }
  }

  /** Every day number converts to the one real date that counts back to it. */
  lemma CivilIsADate(days: int)
    ensures IsDate(CivilFromDays(days)) && DaysFromCivil(CivilFromDays(days)) == days
  {
    var d := EveryDayHasADate(days);
    RoundTrip(d);
  }

  /** Whatever inverts the reference count moves along the calendar as days go by. */
  lemma InverseFollows(civil: int -> Date, days: int)
    requires forall d :: IsDate(d) ==> civil(DaysFromCivil(d)) == d
    ensures civil(days + 1) == Next(civil(days))
  {
    var d := EveryDayHasADate(days);
    NextCountsOne(d);
    assert civil(DaysFromCivil(Next(d))) == Next(d);
  }

  /** Consecutive day numbers convert to consecutive dates of the proleptic Gregorian calendar. */
  lemma CivilIsTheCalendar(days: int)
    ensures CivilFromDays(days + 1) == Next(CivilFromDays(days))
  {
    forall d | IsDate(d) ensures CivilFromDays(DaysFromCivil(d)) == d {
      RoundTrip(d);
    }
    InverseFollows(CivilFromDays, days);
  }

  lemma CivilStartsAtTheEpoch()
    ensures CivilFromDays(0) == EPOCH
  {
    assert DaysFromCivil(EPOCH) == 0;
    RoundTrip(EPOCH);
  }

  predicate Before(a: Date, b: Date) {
    a.year < b.year || (a.year == b.year && (a.month < b.month || (a.month == b.month && a.day < b.day)))
  }

  /** Along any run of consecutive dates, later is greater. */
  lemma {:induction false} ConsecutiveDatesIncrease(civil: int -> Date, a: int, b: int)
    requires forall n :: IsDate(civil(n)) && civil(n + 1) == Next(civil(n))
    requires a < b
    ensures Before(civil(a), civil(b))
    decreases b - a
  {
    assert civil(b - 1 + 1) == Next(civil(b - 1));
    if a < b - 1 {
      ConsecutiveDatesIncrease(civil, a, b - 1);
    }
  }

  /** Later days are later dates. */
  lemma CivilIsMonotone(a: int, b: int)
    requires a < b
    ensures Before(CivilFromDays(a), CivilFromDays(b))
  {
    forall n
      ensures IsDate(CivilFromDays(n)) && CivilFromDays(n + 1) == Next(CivilFromDays(n))
    {
      CivilIsADate(n);
      CivilIsTheCalendar(n);
    }
    ConsecutiveDatesIncrease(CivilFromDays, a, b);
  }

  const I64_MIN := -0x8000_0000_0000_0000
  const I64_MAX := 0x7FFF_FFFF_FFFF_FFFF

  predicate InI64(n: int) { I64_MIN <= n <= I64_MAX }

  /** The shift to March 0000 overflows an `i64` only within 719,468 days of its maximum; no later step can. */
  lemma MachineArithmeticIsExact(days: int)
    requires InI64(days)
    ensures var z := days + 719_468;
            var era, doe := z / 146_097, z % 146_097;
            var yoe := YearInEra(doe);
            var doy := doe - (365 * yoe + yoe / 4 - yoe / 100);
            && (InI64(z) <==> days <= I64_MAX - 719_468)
            && InI64(era * 400) && InI64(yoe + era * 400 + 1)
            && 0 <= doe - doe / 1460 + doe / 36_524 - doe / 146_096 <= I64_MAX
            && 0 <= doy <= 365 && 0 <= (5 * doy + 2) / 153 <= 11
  {
    var d := EveryDayHasADate(days);
    var y := if d.month <= 2 then d.year - 1 else d.year;
    var doy := DaysBeforeMonth(MonthFromMarch(d.month)) + d.day - 1;
    DayOfMarchYear(d, y, MonthFromMarch(d.month));
    EraOfYear(y, doy, days + 719_468);
    LeapRepeats(y / 400, y % 400 + 1);
    assert y == 400 * (y / 400) + y % 400;
    DayOfEra(y % 400, doy, (days + 719_468) % 146_097);
  }
}
