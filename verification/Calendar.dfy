/**
 Civil-calendar arithmetic (`days_to_ymd`, `ymd_to_days` of server/h-capture/src/pcap_dump.rs) against the Gregorian
 calendar stated by its own rules: month lengths, the leap-year rule and the successor of a date.
 */
module Calendar {
  datatype Date = Date(y: int, m: int, d: int)

  /** Rust's integer division truncates toward zero. */
  function TruncDiv(a: int, b: int): int
    requires b > 0
  {
    if a >= 0 then a / b else -((-a) / b)
  }

  // ---- the source's functions ----

  function YmdToDays(y0: int, m: int, d: int): int {
    var y := if m <= 2 then y0 - 1 else y0;
    var era := TruncDiv(if y >= 0 then y else y - 399, 400);
    var yoe := y - era * 400;
    var mShift := if m > 2 then m - 3 else m + 9;
    var doy := (153 * mShift + 2) / 5 + d - 1;
    var doe := yoe * 365 + yoe / 4 - yoe / 100 + doy;
    era * 146_097 + doe - 719_468
  }

  function DaysToYmd(days: int): Date {
    var z := days + 719_468;
    var era := EraOf(z);
    var doe := z - era * 146_097;
    var yoe := YearOfEra(doe);
    var y := yoe + era * 400;
    var doy := doe - (365 * yoe + yoe / 4 - yoe / 100);
    YearDayToYmd(y, doy)
  }

  /** The last steps of `days_to_ymd`: month and day from the day of a year that starts in March. */
  function YearDayToYmd(y: int, doy: int): Date {
    var mp := (5 * doy + 2) / 153;
    var d := doy - (153 * mp + 2) / 5 + 1;
    var m := if mp < 10 then mp + 3 else mp - 9;
    Date(if m <= 2 then y + 1 else y, m, d)
  }

  function EraOf(z: int): int {
    TruncDiv(if z >= 0 then z else z - 146_096, 146_097)
  }

  function YearOfEra(doe: int): int {
    (doe - doe / 1460 + doe / 36524 - doe / 146_096) / 365
  }

  // ---- the Gregorian calendar ----

  predicate IsLeap(y: int) {
    y % 4 == 0 && (y % 100 != 0 || y % 400 == 0)
  }

  function DaysInMonth(y: int, m: int): int {
    if m == 2 then (if IsLeap(y) then 29 else 28)
    else if m == 4 || m == 6 || m == 9 || m == 11 then 30
    else 31
  }

  predicate ValidDate(t: Date) {
    1 <= t.m <= 12 && 1 <= t.d <= DaysInMonth(t.y, t.m)
  }

  function NextDate(t: Date): Date {
    if t.d < DaysInMonth(t.y, t.m) then Date(t.y, t.m, t.d + 1)
    else if t.m < 12 then Date(t.y, t.m + 1, 1)
    else Date(t.y + 1, 1, 1)
  }

  predicate Before(a: Date, b: Date) {
    a.y < b.y || (a.y == b.y && (a.m < b.m || (a.m == b.m && a.d < b.d)))
  }

  // ---- the shifted year: starts on 1 March, split into eras of 400 years ----

  /** Days of the shifted year that starts in March of year `yoe` of the era. */
  function ShiftedYearLength(yoe: int): int {
    if IsLeap(yoe + 1) then 366 else 365
  }

  function YearStart(yoe: int): int {
    365 * yoe + yoe / 4 - yoe / 100
  }

  function MonthStart(mp: int): int {
    (153 * mp + 2) / 5
  }

  /** A year of the era splits into centuries, four-year cycles and years. */
  lemma YearParts(yoe: int, c: int, q: int, r: int)
    requires 0 <= c < 4 && 0 <= q < 25 && 0 <= r < 4 && yoe == 100 * c + 4 * q + r
    ensures YearStart(yoe) == 36524 * c + 1461 * q + 365 * r
    ensures ShiftedYearLength(yoe) == 366 <==> r == 3 && (q < 24 || c == 3)
  {
  }

  lemma SplitYear(yoe: int) returns (c: int, q: int, r: int)
    requires 0 <= yoe < 400
    ensures 0 <= c < 4 && 0 <= q < 25 && 0 <= r < 4 && yoe == 100 * c + 4 * q + r
  {
    c := yoe / 100;
    q := yoe % 100 / 4;
    r := yoe % 100 % 4;
  }

  lemma QuotientIs(a: int, b: int, q: int)
    requires b > 0 && b * q <= a < b * (q + 1)
    ensures a / b == q
  {
    var k := a / b;
    assert b * k <= a < b * k + b;
    if k < q {
      TimesMonotone(b, k + 1, q);
    } else if q < k {
      TimesMonotone(b, q + 1, k);
    }
  }

  lemma DivMod(a: int, b: int, q: int, r: int)
    requires b > 0 && a == b * q + r && 0 <= r < b
    ensures a / b == q && a % b == r
  {
    QuotientIs(a, b, q);
    assert a == b * (a / b) + a % b;
  }

  lemma TimesMonotone(b: int, x: int, y: int)
    requires b > 0 && x <= y
    ensures b * x <= b * y
  {
  }

  /** The year formula recovers the year from any day of it. */
  lemma YearRecovered(yoe: int, doy: int)
    requires 0 <= yoe < 400 && 0 <= doy < ShiftedYearLength(yoe)
    ensures 0 <= YearStart(yoe) + doy < 146_097
    ensures YearOfEra(YearStart(yoe) + doy) == yoe
  {
    var c, q, r := SplitYear(yoe);
    YearParts(yoe, c, q, r);
    var doe := 36524 * c + 1461 * q + 365 * r + doy;
    CenturyRecovered(c, doe);
    var e := if 24 * c + q + 365 * r + doy >= 1460 then 1 else 0;
    QuotientIs(doe, 1460, 25 * c + q + e);
    assert doe - doe / 1460 + c == 365 * yoe + (doy - e);
    QuotientIs(365 * yoe + (doy - e), 365, yoe);
  }

  /** The last day of the era is the one day that /36524 counts too high; /146096 takes it back. */
  lemma CenturyRecovered(c: int, doe: int)
    requires 0 <= c < 4 && 36524 * c <= doe < if c == 3 then 146_097 else 36524 * (c + 1)
    ensures doe / 36524 - doe / 146_096 == c
  {
  }

  /** Every day of the era is some day of exactly the year the formula names. */
  lemma DayHasYear(doe: int) returns (yoe: int, doy: int)
    requires 0 <= doe < 146_097
    ensures 0 <= yoe < 400 && 0 <= doy < ShiftedYearLength(yoe) && doe == YearStart(yoe) + doy
  {
    var c := if doe == 146_096 then 3 else doe / 36524;
    var inCentury := doe - 36524 * c;
    var q := if inCentury == 36524 then 24 else inCentury / 1461;
    var inCycle := inCentury - 1461 * q;
    var r := if inCycle == 1460 then 3 else inCycle / 365;
    doy := inCycle - 365 * r;
    yoe := 100 * c + 4 * q + r;
    YearParts(yoe, c, q, r);
  }

  function ShiftedMonthLength(yoe: int, mp: int): int {
    if mp == 11 then (if ShiftedYearLength(yoe) == 366 then 29 else 28)
    else if mp == 1 || mp == 3 || mp == 6 || mp == 8 then 30
    else 31
  }

  lemma MonthRecovered(mp: int, d: int, yoe: int)
    requires 0 <= mp <= 11 && 1 <= d <= ShiftedMonthLength(yoe, mp)
    ensures var doy := MonthStart(mp) + d - 1;
            0 <= doy < ShiftedYearLength(yoe) && (5 * doy + 2) / 153 == mp
  {
  }

  lemma DayHasMonth(doy: int, yoe: int)
    requires 0 <= doy < ShiftedYearLength(yoe)
    ensures var mp := (5 * doy + 2) / 153;
            0 <= mp <= 11 && 1 <= doy - MonthStart(mp) + 1 <= ShiftedMonthLength(yoe, mp)
  {
  }

  /** A day as era, year of era, month from March and day of month. */
  datatype Shifted = Shifted(era: int, yoe: int, mp: int, d: int) {
    predicate Valid() {
      0 <= yoe < 400 && 0 <= mp <= 11 && 1 <= d <= ShiftedMonthLength(yoe, mp)
    }

    function Days(): int {
      era * 146_097 + YearStart(yoe) + MonthStart(mp) + d - 1 - 719_468
    }

    function ToDate(): Date {
      var m := if mp < 10 then mp + 3 else mp - 9;
      Date(yoe + era * 400 + (if m <= 2 then 1 else 0), m, d)
    }
  }

  lemma LeapIgnoresEras(yoe: int, era: int)
    ensures IsLeap(yoe + 1 + era * 400) == IsLeap(yoe + 1)
  {
    Cycle4(yoe + 1, 100 * era);
    Cycle100(yoe + 1, 4 * era);
    Cycle400(yoe + 1, era);
  }

  lemma Cycle4(y: int, k: int)
    ensures (y + 4 * k) % 4 == y % 4
  {
  }

  lemma Cycle100(y: int, k: int)
    ensures (y + 100 * k) % 100 == y % 100
  {
  }

  lemma Cycle400(y: int, k: int)
    ensures (y + 400 * k) % 400 == y % 400
  {
  }

  lemma ShiftedIsADate(s: Shifted)
    requires s.Valid()
    ensures ValidDate(s.ToDate()) && DaysInMonth(s.ToDate().y, s.ToDate().m) == ShiftedMonthLength(s.yoe, s.mp)
  {
    LeapIgnoresEras(s.yoe, s.era);
  }

  lemma FloorDiv(z: int, b: int)
    requires b > 0
    ensures TruncDiv(if z >= 0 then z else z - (b - 1), b) == z / b
  {
    if z < 0 {
      var q := -(z / b);
      assert z == b * (z / b) + z % b;
      assert (b - 1) - z == b * q + (b - 1 - z % b);
      QuotientIs((b - 1) - z, b, q);
    }
  }

  lemma DaysToShifted(s: Shifted)
    requires s.Valid()
    ensures DaysToYmd(s.Days()) == s.ToDate()
  {
    MonthRecovered(s.mp, s.d, s.yoe);
    var doy := MonthStart(s.mp) + s.d - 1;
    YearRecovered(s.yoe, doy);
    var z, doe := s.Days() + 719_468, YearStart(s.yoe) + doy;
    EraOfDay(z, s.era, doe);
    DateFromParts(s.Days(), z, s.era, doe, s.yoe, doy, s.mp);
  }

  /** The date formula once its intermediate values are known. */
  lemma DateFromParts(days: int, z: int, era: int, doe: int, yoe: int, doy: int, mp: int)
    requires z == days + 719_468 && EraOf(z) == era
    requires doe == z - era * 146_097 && YearOfEra(doe) == yoe
    requires doy == doe - (365 * yoe + yoe / 4 - yoe / 100) && mp == (5 * doy + 2) / 153
    ensures var m := if mp < 10 then mp + 3 else mp - 9;
            DaysToYmd(days) == Date(if m <= 2 then yoe + era * 400 + 1 else yoe + era * 400, m,
                                    doy - (153 * mp + 2) / 5 + 1)
  {
    assert DaysToYmd(days) == YearDayToYmd(yoe + era * 400, doy);
  }

  lemma EraOfDay(z: int, era: int, doe: int)
    requires z == era * 146_097 + doe && 0 <= doe < 146_097
    ensures EraOf(z) == era
  {
    FloorDiv(z, 146_097);
    QuotientIs(z, 146_097, era);
  }

  lemma ShiftedToDays(s: Shifted)
    requires s.Valid()
    ensures YmdToDays(s.ToDate().y, s.ToDate().m, s.ToDate().d) == s.Days()
  {
    var y := s.yoe + s.era * 400;
    FloorDiv(y, 400);
    QuotientIs(y, 400, s.era);
  }

  lemma EveryDayIsShifted(n: int) returns (s: Shifted)
    ensures s.Valid() && s.Days() == n
  {
    var z := n + 719_468;
    var era := z / 146_097;
    var yoe, doy := DayHasYear(z - era * 146_097);
    DayHasMonth(doy, yoe);
    var mp := (5 * doy + 2) / 153;
    s := Shifted(era, yoe, mp, doy - MonthStart(mp) + 1);
  }

  lemma EveryDateIsShifted(t: Date) returns (s: Shifted)
    requires ValidDate(t)
    ensures s.Valid() && s.ToDate() == t
  {
    var y := if t.m <= 2 then t.y - 1 else t.y;
    s := Shifted(y / 400, y - y / 400 * 400, if t.m > 2 then t.m - 3 else t.m + 9, t.d);
    LeapIgnoresEras(s.yoe, s.era);
  }

  // ---- the theorems ----

  /** Every day has a valid date, and the date leads back to the day. */
  lemma DaysRoundTrip(n: int)
    ensures var t := DaysToYmd(n);
            ValidDate(t) && YmdToDays(t.y, t.m, t.d) == n
  {
    var s := EveryDayIsShifted(n);
    DaysToShifted(s);
    ShiftedIsADate(s);
    ShiftedToDays(s);
  }

  /** A year, month and day survive the trip through day numbers exactly when they are a Gregorian date. */
  lemma DateRoundTrip(y: int, m: int, d: int)
    ensures DaysToYmd(YmdToDays(y, m, d)) == Date(y, m, d) <==> ValidDate(Date(y, m, d))
  {
    DaysRoundTrip(YmdToDays(y, m, d));
    if ValidDate(Date(y, m, d)) {
      var s := EveryDateIsShifted(Date(y, m, d));
      ShiftedToDays(s);
      DaysToShifted(s);
    }
  }

  lemma MonthsAbut(yoe: int, mp: int)
    requires 0 <= mp < 11
    ensures MonthStart(mp) + ShiftedMonthLength(yoe, mp) == MonthStart(mp + 1)
  {
  }

  lemma YearsAbut(yoe: int)
    requires 0 <= yoe < 400
    ensures MonthStart(11) + ShiftedMonthLength(yoe, 11) == ShiftedYearLength(yoe)
    ensures yoe < 399 ==> YearStart(yoe) + ShiftedYearLength(yoe) == YearStart(yoe + 1)
    ensures yoe == 399 ==> YearStart(yoe) + ShiftedYearLength(yoe) == 146_097
  {
    var c, q, r := SplitYear(yoe);
    YearParts(yoe, c, q, r);
    if yoe < 399 {
      var c', q', r' := SplitYear(yoe + 1);
      YearParts(yoe + 1, c', q', r');
    }
  }

  function NextShifted(s: Shifted): Shifted {
    if s.d < ShiftedMonthLength(s.yoe, s.mp) then s.(d := s.d + 1)
    else if s.mp < 11 then Shifted(s.era, s.yoe, s.mp + 1, 1)
    else if s.yoe < 399 then Shifted(s.era, s.yoe + 1, 0, 1)
    else Shifted(s.era + 1, 0, 0, 1)
  }

  lemma NextShiftedIsNext(s: Shifted)
    requires s.Valid()
    ensures NextShifted(s).Valid() && NextShifted(s).Days() == s.Days() + 1
    ensures NextShifted(s).ToDate() == NextDate(s.ToDate())
  {
    ShiftedIsADate(s);
    if s.mp < 11 { MonthsAbut(s.yoe, s.mp); }
    YearsAbut(s.yoe);
  }

  lemma DayZero()
    ensures DaysToYmd(0) == Date(1970, 1, 1)
  {
  }

  /** The day after n has the Gregorian successor of n's date; with `DayZero` this fixes the date of every day. */
  lemma NextDay(n: int)
    ensures DaysToYmd(n + 1) == NextDate(DaysToYmd(n))
  {
    var s := EveryDayIsShifted(n);
    DateIs(n, s);
    var next := NextShifted(s);
    NextShiftedIsNext(s);
    DateIs(n + 1, next);
    assert next.ToDate() == NextDate(s.ToDate());
  }

  lemma DateIs(n: int, s: Shifted)
    requires s.Valid() && s.Days() == n
    ensures DaysToYmd(n) == s.ToDate()
  {
    DaysToShifted(s);
  }

  lemma NextDateIsLater(t: Date)
    requires ValidDate(t)
    ensures Before(t, NextDate(t))
  {
  }

  /** Later days have later dates. */
  lemma DatesIncrease(a: int, b: int)
    requires a < b
    ensures Before(DaysToYmd(a), DaysToYmd(b))
  {
    var date := n => DaysToYmd(n);
    forall n, m | m == n + 1 ensures Before(date(n), date(m)) {
      OneDayLater(n);
    }
    StepwiseIncreasing(date, a, b);
  }

  lemma {:induction false} StepwiseIncreasing(date: int -> Date, a: int, b: int)
    requires a < b && forall n, m :: m == n + 1 ==> Before(date(n), date(m))
    ensures Before(date(a), date(b))
    decreases b - a
  {
    assert Before(date(b - 1), date(b));
    if a < b - 1 {
      StepwiseIncreasing(date, a, b - 1);
    }
  }

  lemma OneDayLater(n: int)
    ensures Before(DaysToYmd(n), DaysToYmd(n + 1))
  {
    DaysRoundTrip(n);
    NextDay(n);
    NextDateIsLater(DaysToYmd(n));
  }

  /** Every microsecond timestamp of a signed 64-bit clock has a year that fits the source's i32. */
  lemma YearFitsI32(timestampUs: int)
    requires -0x8000_0000_0000_0000 <= timestampUs < 0x8000_0000_0000_0000
    ensures -0x8000_0000 <= DaysToYmd(timestampUs / 86_400_000_000).y < 0x8000_0000
  {
    var s := EveryDayIsShifted(timestampUs / 86_400_000_000);
    DaysToShifted(s);
  }
}
