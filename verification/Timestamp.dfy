/** `now()`: the second count since the epoch as an RFC 3339 date-time in UTC. */
module Timestamp {
  import opened Calendar
  import opened Decimal
  import opened Text

  /** `{n:0width}`: at least `width` digits, zero-filled on the left, never cut. */
  function Padded(n: nat, width: nat): string {
    var digits := Render(n);
    if |digits| < width then Zeros(width - |digits|) + digits else digits
  }

  function Clock(rest: nat): string {
    Padded(rest / 3600, 2) + ":" + Padded(rest % 3600 / 60, 2) + ":" + Padded(rest % 60, 2)
  }

  function Day(d: Date): string
    requires d.year >= 0 && d.month >= 0 && d.day >= 0
  {
    Padded(d.year, 4) + "-" + Padded(d.month, 2) + "-" + Padded(d.day, 2)
  }

  /** The program's rendering of a second count. */
  function Now(seconds: nat): string {
    DaysAreModern(seconds / 86_400);
    Day(CivilFromDays(seconds / 86_400)) + "T" + Clock(seconds % 86_400) + "Z"
  }

  /** The last second whose year has four digits: 9999-12-31T23:59:59Z. */
  const LAST_SECOND := 253_402_300_799

  lemma DaysAreModern(days: nat)
    ensures CivilFromDays(days).year >= 1970 && IsDate(CivilFromDays(days))
  {
    CivilIsADate(days);
    CivilStartsAtTheEpoch();
    if days > 0 {
      CivilIsMonotone(0, days);
    }
  }

  const LAST_DAY := 2_932_896

  /** The last day of 9999, and the next. */
  lemma LastDates()
    ensures CivilFromDays(LAST_DAY) == Date(9999, 12, 31) && CivilFromDays(LAST_DAY + 1) == Date(10_000, 1, 1)
  {
    assert DaysFromCivil(Date(9999, 12, 31)) == LAST_DAY && DaysFromCivil(Date(10_000, 1, 1)) == LAST_DAY + 1;
    RoundTrip(Date(9999, 12, 31));
    RoundTrip(Date(10_000, 1, 1));
  }

  ghost predicate Increases(civil: int -> Date) {
    forall a, b :: a < b ==> Before(civil(a), civil(b))
  }

  lemma CivilIncreases()
    ensures Increases(CivilFromDays)
  {
    forall a, b | a < b ensures Before(CivilFromDays(a), CivilFromDays(b)) {
      CivilIsMonotone(a, b);
    }
  }

  lemma YearsUpTo(civil: int -> Date, last: int, days: int)
    requires Increases(civil) && civil(last) == Date(9999, 12, 31) && civil(last + 1) == Date(10_000, 1, 1)
    ensures civil(days).year <= 9999 <==> days <= last
  {
    assert days < last ==> Before(civil(days), civil(last));
    assert last + 1 < days ==> Before(civil(last + 1), civil(days));
  }

  lemma YearHasFourDigits(days: nat)
    ensures CivilFromDays(days).year <= 9999 <==> days <= LAST_SECOND / 86_400
  {
    CivilIncreases();
    LastDates();
    YearsUpTo(CivilFromDays, LAST_DAY, days);
  }

  // ----- fixed-width fields compare as numbers

  function Fixed(n: nat, width: nat): (s: string)
    ensures |s| == width && AllDigits(s)
  {
    if width == 0 then "" else Fixed(n / 10, width - 1) + [Digit(n % 10)]
  }

  lemma {:induction false} FixedZero(width: nat)
    ensures Fixed(0, width) == Zeros(width)
  {
    if width > 0 {
      FixedZero(width - 1);
    }
  }

  lemma {:induction false} RenderWidth(n: nat, width: nat)
    requires width > 0
    ensures |Render(n)| <= width <==> n < Pow10(width)
  {
    if width == 1 {
      assert Pow10(1) == 10;
    } else if n >= 10 {
      RenderWidth(n / 10, width - 1);
    } else {
      assert Pow10(width - 1) >= 1 by { PowPositive(width - 1); }
    }
  }

  lemma {:induction false} PowPositive(n: nat)
    ensures Pow10(n) >= 1
  {
    if n > 0 { PowPositive(n - 1); }
  }

  lemma {:induction false} PaddedIsFixed(n: nat, width: nat)
    requires width > 0 && n < Pow10(width)
    ensures Padded(n, width) == Fixed(n, width)
  {
    RenderWidth(n, width);
    if n < 10 {
      FixedZero(width - 1);
      assert Fixed(n / 10, width - 1) == Zeros(width - 1);
    } else {
      PaddedIsFixed(n / 10, width - 1);
    }
  }

  lemma {:induction false} FixedOrder(a: nat, b: nat, width: nat)
    requires a < Pow10(width) && b < Pow10(width)
    ensures Less(Fixed(a, width), Fixed(b, width)) <==> a < b
    ensures Fixed(a, width) == Fixed(b, width) <==> a == b
  {
    if width > 0 {
      FixedOrder(a / 10, b / 10, width - 1);
      LessByFields(Fixed(a / 10, width - 1), Fixed(b / 10, width - 1), [Digit(a % 10)], [Digit(b % 10)]);
      assert Fixed(a, width)[..width - 1] == Fixed(a / 10, width - 1);
      assert Fixed(b, width)[..width - 1] == Fixed(b / 10, width - 1);
      assert Fixed(a, width)[width - 1] == Digit(a % 10) && Fixed(b, width)[width - 1] == Digit(b % 10);
    }
  }

  function Field(n: nat, width: nat, sep: char): string { Fixed(n, width) + [sep] }

  /** Zero-filled fields, each followed by its separator. */
  function Row(fields: seq<nat>, widths: seq<nat>, seps: string): (s: string)
    requires |fields| == |widths| == |seps|
  {
    if fields == [] then ""
    else Field(fields[0], widths[0], seps[0]) + Row(fields[1..], widths[1..], seps[1..])
  }

  predicate Precedes(a: seq<nat>, b: seq<nat>)
    requires |a| == |b|
  {
    a != [] && (a[0] < b[0] || (a[0] == b[0] && Precedes(a[1..], b[1..])))
  }

  ghost predicate FitsWidths(fields: seq<nat>, widths: seq<nat>) {
    |fields| == |widths| && forall i :: 0 <= i < |fields| ==> fields[i] < Pow10(widths[i])
  }

  /** A field in front of two rows decides, unless it is the same. */
  lemma FieldOrder(a: nat, b: nat, width: nat, sep: char, ra: string, rb: string)
    requires a < Pow10(width) && b < Pow10(width)
    ensures Less(Field(a, width, sep) + ra, Field(b, width, sep) + rb) <==> a < b || (a == b && Less(ra, rb))
  {
    var fa, fb := Fixed(a, width), Fixed(b, width);
    FixedOrder(a, b, width);
    LessByFields(fa, fb, [sep] + ra, [sep] + rb);
    LessByFields([sep], [sep], ra, rb);
    LessIsTotal([sep], [sep]);
    ConcatAssociates(fa, [sep], ra);
    ConcatAssociates(fb, [sep], rb);
  }

  lemma {:induction false} RowOrder(a: seq<nat>, b: seq<nat>, widths: seq<nat>, seps: string)
    requires FitsWidths(a, widths) && FitsWidths(b, widths) && |seps| == |widths|
    ensures Less(Row(a, widths, seps), Row(b, widths, seps)) <==> Precedes(a, b)
  {
    if a != [] {
      RowOrder(a[1..], b[1..], widths[1..], seps[1..]);
      var (ra, rb) := (Row(a[1..], widths[1..], seps[1..]), Row(b[1..], widths[1..], seps[1..]));
      FieldOrder(a[0], b[0], widths[0], seps[0], ra, rb);
    }
  }

  const WIDTHS: seq<nat> := [4, 2, 2, 2, 2, 2]

  function FieldsOf(date: Date, rest: nat): seq<nat>
    requires date.year >= 0 && date.month >= 0 && date.day >= 0
  {
    [date.year, date.month, date.day, rest / 3600, rest % 3600 / 60, rest % 60]
  }

  function ClockFields(rest: nat): seq<nat> { [rest / 3600, rest % 3600 / 60, rest % 60] }

  lemma FieldsFit(date: Date, rest: nat)
    requires IsDate(date) && 0 <= date.year <= 9999 && rest < 86_400
    ensures FitsWidths(FieldsOf(date, rest), WIDTHS)
  {
    assert Pow10(2) == 100 && Pow10(4) == 10_000;
  }

  /** The first three fields of a row. */
  lemma RowOfThree(fields: seq<nat>, widths: seq<nat>, seps: string)
    requires |fields| == |widths| == |seps| >= 3
    ensures Row(fields, widths, seps)
         == Field(fields[0], widths[0], seps[0])
            + (Field(fields[1], widths[1], seps[1])
               + (Field(fields[2], widths[2], seps[2]) + Row(fields[3..], widths[3..], seps[3..])))
  {
    assert fields[1..][1..] == fields[2..] && widths[1..][1..] == widths[2..] && seps[1..][1..] == seps[2..];
    assert fields[2..][1..] == fields[3..] && widths[2..][1..] == widths[3..] && seps[2..][1..] == seps[3..];
    assert Row(fields[1..], widths[1..], seps[1..])
        == Field(fields[1], widths[1], seps[1]) + Row(fields[2..], widths[2..], seps[2..]);
    assert Row(fields[2..], widths[2..], seps[2..])
        == Field(fields[2], widths[2], seps[2]) + Row(fields[3..], widths[3..], seps[3..]);
  }

  lemma ClockIsFixed(rest: nat)
    requires rest < 86_400
    ensures Clock(rest) == Fixed(rest / 3600, 2) + ":" + Fixed(rest % 3600 / 60, 2) + ":" + Fixed(rest % 60, 2)
  {
    assert Pow10(2) == 100;
    PaddedIsFixed(rest / 3600, 2);
    PaddedIsFixed(rest % 3600 / 60, 2);
    PaddedIsFixed(rest % 60, 2);
  }

  lemma ClockIsRow(rest: nat)
    requires rest < 86_400
    ensures Clock(rest) + "Z" == Row(ClockFields(rest), [2, 2, 2], "::Z")
    ensures |Clock(rest)| == 8
  {
    var (h, m, s) := (Fixed(rest / 3600, 2), Fixed(rest % 3600 / 60, 2), Fixed(rest % 60, 2));
    ClockIsFixed(rest);
    RowOfThree(ClockFields(rest), [2, 2, 2], "::Z");
    Regroup(h, m, s, ":", ":", "Z", "");
  }

  lemma Regroup(a: string, b: string, c: string, s: string, t: string, u: string, after: string)
    ensures a + s + b + t + c + u + after == (a + s) + ((b + t) + ((c + u) + after))
  {
  }

  lemma DayIsFields(date: Date, after: string)
    requires IsDate(date) && 0 <= date.year <= 9999
    ensures Day(date) + "T" + after
         == Field(date.year, 4, '-') + (Field(date.month, 2, '-') + (Field(date.day, 2, 'T') + after))
    ensures |Day(date)| == 10
  {
    var (y, m, d) := (Fixed(date.year, 4), Fixed(date.month, 2), Fixed(date.day, 2));
    DayIsFixed(date);
    Regroup(y, m, d, "-", "-", "T", after);
  }

  lemma DayIsFixed(date: Date)
    requires IsDate(date) && 0 <= date.year <= 9999
    ensures Day(date) == Fixed(date.year, 4) + "-" + Fixed(date.month, 2) + "-" + Fixed(date.day, 2)
  {
    assert Pow10(2) == 100 && Pow10(4) == 10_000;
    PaddedIsFixed(date.year, 4);
    PaddedIsFixed(date.month, 2);
    PaddedIsFixed(date.day, 2);
  }

  lemma TextIsRow(date: Date, rest: nat)
    requires IsDate(date) && 0 <= date.year <= 9999 && rest < 86_400
    ensures Day(date) + "T" + Clock(rest) + "Z" == Row(FieldsOf(date, rest), WIDTHS, "--T::Z")
    ensures |Day(date) + "T" + Clock(rest) + "Z"| == 20
  {
    var fields, seps := FieldsOf(date, rest), "--T::Z";
    ClockIsRow(rest);
    DayIsFields(date, Clock(rest) + "Z");
    RowOfThree(fields, WIDTHS, seps);
    assert fields[3..] == ClockFields(rest) && WIDTHS[3..] == [2, 2, 2] && seps[3..] == "::Z";
    assert Day(date) + "T" + Clock(rest) + "Z" == Day(date) + "T" + (Clock(rest) + "Z");
  }

  /** Rows of numbers compare by their first three, and then by the rest. */
  lemma PrecedesByThree(a: seq<nat>, b: seq<nat>)
    requires |a| == |b| >= 3
    ensures Precedes(a, b)
            <==> a[0] < b[0] || (a[0] == b[0] && (a[1] < b[1] || (a[1] == b[1]
                 && (a[2] < b[2] || (a[2] == b[2] && Precedes(a[3..], b[3..]))))))
  {
    assert a[1..][1..] == a[2..] && b[1..][1..] == b[2..];
    assert a[2..][1..] == a[3..] && b[2..][1..] == b[3..];
    assert Precedes(a[1..], b[1..]) <==> a[1] < b[1] || (a[1] == b[1] && Precedes(a[2..], b[2..]));
    assert Precedes(a[2..], b[2..]) <==> a[2] < b[2] || (a[2] == b[2] && Precedes(a[3..], b[3..]));
  }

  lemma MixedRadix(x: nat)
    ensures x == x / 3600 * 3600 + x % 3600 / 60 * 60 + x % 60 && x % 3600 < 3600
  {
    assert x % 3600 % 60 == x % 60;
  }

  lemma ClockOrder(x: nat, y: nat)
    ensures Precedes(ClockFields(x), ClockFields(y)) <==> x < y
    ensures ClockFields(x) == ClockFields(y) <==> x == y
  {
    var p, q := ClockFields(x), ClockFields(y);
    MixedRadix(x);
    MixedRadix(y);
    PrecedesByThree(p, q);
    assert p[3..] == [] && q[3..] == [];
  }

  lemma FieldsOrder(a: Date, x: nat, b: Date, y: nat)
    requires a.year >= 0 && a.month >= 0 && a.day >= 0 && b.year >= 0 && b.month >= 0 && b.day >= 0
    ensures Precedes(FieldsOf(a, x), FieldsOf(b, y)) <==> Before(a, b) || (a == b && x < y)
  {
    var p, q := FieldsOf(a, x), FieldsOf(b, y);
    PrecedesByThree(p, q);
    assert p[3..] == ClockFields(x) && q[3..] == ClockFields(y);
    ClockOrder(x, y);
  }

  /** Up to the last second of 9999, timestamps are 20 characters and sort exactly as time does. */
  lemma TimestampsSortLikeTime(a: nat, b: nat)
    requires a <= LAST_SECOND && b <= LAST_SECOND
    ensures |Now(a)| == 20
    ensures Less(Now(a), Now(b)) <==> a < b
  {
    var (da, db) := (a / 86_400, b / 86_400);
    var (ca, cb) := (CivilFromDays(da), CivilFromDays(db));
    DaysAreModern(da);
    DaysAreModern(db);
    YearHasFourDigits(da);
    YearHasFourDigits(db);
    TextIsRow(ca, a % 86_400);
    TextIsRow(cb, b % 86_400);
    FieldsFit(ca, a % 86_400);
    FieldsFit(cb, b % 86_400);
    RowOrder(FieldsOf(ca, a % 86_400), FieldsOf(cb, b % 86_400), WIDTHS, "--T::Z");
    FieldsOrder(ca, a % 86_400, cb, b % 86_400);
    DaysOrder(a, b);
  }

  lemma DaysOrder(a: nat, b: nat)
    ensures var (da, db) := (a / 86_400, b / 86_400);
            (Before(CivilFromDays(da), CivilFromDays(db))
             || (CivilFromDays(da) == CivilFromDays(db) && a % 86_400 < b % 86_400)) <==> a < b
  {
    CivilIncreases();
    DatesOrder(CivilFromDays, a / 86_400, a % 86_400, b / 86_400, b % 86_400);
  }

  lemma DatesOrder(civil: int -> Date, da: nat, ra: nat, db: nat, rb: nat)
    requires Increases(civil) && ra < 86_400 && rb < 86_400
    ensures Before(civil(da), civil(db)) || (civil(da) == civil(db) && ra < rb)
            <==> 86_400 * da + ra < 86_400 * db + rb
  {
    assert da < db ==> Before(civil(da), civil(db));
    assert db < da ==> Before(civil(db), civil(da));
  }

  lemma LateDayIsLong(date: Date, rest: nat)
    requires IsDate(date) && date.year > 9999
    ensures |Day(date) + "T" + Clock(rest) + "Z"| > 20
  {
    RenderWidth(date.year, 4);
    assert Pow10(4) == 10_000;
  }

  lemma FirstDigits()
    ensures Render(9999)[0] == '9' && Render(10_000)[0] == '1'
  {
    assert Render(99) == [Digit(9), Digit(9)];
    assert Render(10) == [Digit(1), Digit(0)];
    assert Render(1000) == Render(10) + [Digit(0)] + [Digit(0)];
  }

  /** The four-digit bound is exact: any later second is longer ... */
  lemma TimestampBoundIsExact(seconds: nat)
    ensures |Now(seconds)| == 20 <==> seconds <= LAST_SECOND
  {
    var days, rest := seconds / 86_400, seconds % 86_400;
    var date := CivilFromDays(days);
    DaysAreModern(days);
    YearHasFourDigits(days);
    if date.year <= 9999 {
      TextIsRow(date, rest);
    } else {
      LateDayIsLong(date, rest);
    }
  }

  lemma TextBegins(seconds: nat, day: nat, date: Date, digit: char)
    requires seconds / 86_400 == day && CivilFromDays(day) == date
    requires date.year >= 1000 && date.month >= 0 && date.day >= 0 && Render(date.year)[0] == digit
    ensures Now(seconds) != [] && Now(seconds)[0] == digit
  {
    DayText(date);
  }

  lemma FirstCharDecides(a: string, b: string)
    requires a != [] && b != [] && a[0] < b[0]
    ensures Less(a, b)
  {
  }

  lemma LastTextBegins()
    ensures Now(LAST_SECOND) != [] && Now(LAST_SECOND)[0] == '9'
  {
    LastDates();
    FirstDigits();
    TextBegins(LAST_SECOND, LAST_DAY, Date(9999, 12, 31), '9');
  }

  lemma NextTextBegins()
    ensures Now(LAST_SECOND + 1) != [] && Now(LAST_SECOND + 1)[0] == '1'
  {
    LastDates();
    FirstDigits();
    TextBegins(LAST_SECOND + 1, LAST_DAY + 1, Date(10_000, 1, 1), '1');
  }

  /** ... and the first later one sorts before its predecessor. */
  lemma FiveDigitYearsSortEarly()
    ensures Less(Now(LAST_SECOND + 1), Now(LAST_SECOND))
  {
    LastTextBegins();
    NextTextBegins();
    FirstCharDecides(Now(LAST_SECOND + 1), Now(LAST_SECOND));
  }

  lemma DayText(date: Date)
    requires date.year >= 1000 && date.month >= 0 && date.day >= 0
    ensures Day(date) != [] && Day(date)[0] == Render(date.year)[0]
  {
    RenderWidth(date.year, 3);
    assert Pow10(3) == 1000;
  }

  // ----- reading a timestamp back

  /** `text` is a date and a time of day that exist, `seconds` after the epoch. */
  ghost predicate IsInstant(text: string, seconds: nat) {
    && |text| == 20 && text[4] == text[7] == '-' && text[10] == 'T' && text[13] == text[16] == ':' && text[19] == 'Z'
    && AllDigits(text[..4]) && AllDigits(text[5..7]) && AllDigits(text[8..10])
    && AllDigits(text[11..13]) && AllDigits(text[14..16]) && AllDigits(text[17..19])
    && var date := Date(Value(text[..4]), Value(text[5..7]), Value(text[8..10]));
       var (hour, minute, second) := (Value(text[11..13]), Value(text[14..16]), Value(text[17..19]));
       && IsDate(date) && hour < 24 && minute < 60 && second < 60
       && seconds == DaysFromCivil(date) * 86_400 + hour * 3600 + minute * 60 + second
  }

  lemma {:induction false} FixedReadsBack(n: nat, width: nat)
    requires n < Pow10(width)
    ensures Value(Fixed(n, width)) == n
  {
    if width > 0 {
      FixedReadsBack(n / 10, width - 1);
      assert Fixed(n, width)[..width - 1] == Fixed(n / 10, width - 1);
    }
  }

  lemma TextSlices(y: string, m: string, d: string, h: string, i: string, s: string)
    requires |y| == 4 && |m| == |d| == |h| == |i| == |s| == 2
    ensures var text := y + "-" + m + "-" + d + "T" + (h + ":" + i + ":" + s) + "Z";
            && |text| == 20 && text[4] == text[7] == '-' && text[10] == 'T' && text[13] == text[16] == ':'
            && text[19] == 'Z' && text[..4] == y && text[5..7] == m && text[8..10] == d
            && text[11..13] == h && text[14..16] == i && text[17..19] == s
  {
  }

  /** Up to the last second of 9999 every timestamp is a real date and time, and denotes its own second. */
  lemma TimestampReadsBack(seconds: nat)
    requires seconds <= LAST_SECOND
    ensures IsInstant(Now(seconds), seconds)
  {
    var (days, rest) := (seconds / 86_400, seconds % 86_400);
    var date := CivilFromDays(days);
    YearHasFourDigits(days);
    CivilIsADate(days);
    DayIsFixed(date);
    ClockIsFixed(rest);
    MixedRadix(rest);
    assert Pow10(2) == 100 && Pow10(4) == 10_000;
    FixedReadsBack(date.year, 4);
    FixedReadsBack(date.month, 2);
    FixedReadsBack(date.day, 2);
    FixedReadsBack(rest / 3600, 2);
    FixedReadsBack(rest % 3600 / 60, 2);
    FixedReadsBack(rest % 60, 2);
    TextSlices(Fixed(date.year, 4), Fixed(date.month, 2), Fixed(date.day, 2), Fixed(rest / 3600, 2),
               Fixed(rest % 3600 / 60, 2), Fixed(rest % 60, 2));
  }
}
