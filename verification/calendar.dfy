/** The proleptic Gregorian calendar by days. */
module Calendar {
  datatype Date = Date(year: int, month: int, day: int)

  const ERA: int := 146_097

  // ----- The two conversions.

  /** The year of the era from the day of the era. */
  function YearOfEra(doe: int): int {
    (doe - doe / 1460 + doe / 36524 - doe / 146096) / 365
  }

  /** The first day of a year of the era; years begin in March. */
  function YearStart(yoe: int): int {
    365 * yoe + yoe / 4 - yoe / 100
  }

  function MonthStart(mp: int): int {
    (153 * mp + 2) / 5
  }

  /** `civil_from_days`. */
  function CivilFromDays(days: int): Date {
    var z := days + 719_468;
    var era, doe := z / ERA, z % ERA;
    var yoe := YearOfEra(doe);
    var doy := doe - YearStart(yoe);
    var mp := (5 * doy + 2) / 153;
    var m := if mp < 10 then mp + 3 else mp - 9;
    Date(yoe + era * 400 + (if m <= 2 then 1 else 0), m, doy - MonthStart(mp) + 1)
  }

  /** `days_from_civil`. */
  function DaysFromCivil(date: Date): int {
    var y := if date.month <= 2 then date.year - 1 else date.year;
    var era, yoe := y / 400, y % 400;
    var mp := (date.month + 9) % 12;
    var doy := MonthStart(mp) + date.day - 1;
    era * ERA + (YearStart(yoe) + doy) - 719_468
  }

  // ----- Valid dates.

  predicate Leap(y: int) {
    (y % 4 == 0 && y % 100 != 0) || y % 400 == 0
  }

  function MonthDays(y: int, m: int): int {
    if m == 2 then if Leap(y) then 29 else 28
    else if m == 4 || m == 6 || m == 9 || m == 11 then 30
    else 31
  }

  predicate ValidDate(date: Date) {
    1 <= date.month <= 12 && 1 <= date.day <= MonthDays(date.year, date.month)
  }

  // ----- Years of the era.

  /** The day after the last one of a year of the era: the last year ends the era. */
  function YearEnd(yoe: int): int {
    if yoe == 399 then ERA else YearStart(yoe + 1)
  }

  function Shifted(doe: int): int {
    doe - doe / 1460 + doe / 36524 - doe / 146096
  }

  lemma ShiftedNext(d: int)
    requires d >= 0
    ensures Shifted(d) <= Shifted(d + 1)
  {
    DivNext(d, 1460);
    DivNext(d, 36524);
    DivNext(d, 146096);
    if (d + 1) / 146096 > d / 146096 {
      Multiple(d);
    }
  }

  lemma DivNext(d: int, k: int)
    requires d >= 0 && (k == 1460 || k == 36524 || k == 146096)
    ensures d / k <= (d + 1) / k <= d / k + 1
  {
  }

  lemma Multiple(d: int)
    requires d >= 0 && (d + 1) / 146096 > d / 146096
    ensures (d + 1) / 36524 > d / 36524
  {
    var q := (d + 1) / 146096;
    assert d + 1 == 146096 * q;
    assert d + 1 == 36524 * (4 * q);
  }

  lemma {:induction false} ShiftedMonotone(a: int, b: int)
    requires 0 <= a <= b
    ensures Shifted(a) <= Shifted(b)
    decreases b - a
  {
    if a < b {
      ShiftedMonotone(a, b - 1);
      ShiftedNext(b - 1);
    }
  }

  /** A year in centuries, four-year cycles and years; its first day in the same terms. */
  lemma StartParts(yoe: int, a: int, e: int, f: int)
    requires 0 <= a <= 3 && 0 <= e <= 24 && 0 <= f <= 3 && yoe == 100 * a + 4 * e + f
    ensures YearStart(yoe) == 36524 * a + 1461 * e + 365 * f
    ensures YearStart(yoe) / 1460 == 25 * a + e && YearStart(yoe) / 36524 == a && YearStart(yoe) / 146096 == 0
    ensures YearStart(yoe) % 1460 == 24 * a + e + 365 * f
  {
    assert yoe / 100 == a;
    assert yoe / 4 == 25 * a + e;
    assert YearStart(yoe) == 1460 * (25 * a + e) + (24 * a + e + 365 * f);
  }

  lemma YearParts(yoe: int) returns (a: int, e: int, f: int)
    requires 0 <= yoe < 400
    ensures 0 <= a <= 3 && 0 <= e <= 24 && 0 <= f <= 3 && yoe == 100 * a + 4 * e + f
  {
    a := yoe / 100;
    var b := yoe % 100;
    e, f := b / 4, b % 4;
  }

  lemma ShiftedStart(yoe: int)
    requires 0 <= yoe < 400
    ensures Shifted(YearStart(yoe)) == 365 * yoe && YearStart(yoe) >= 0
    ensures yoe > 0 ==> Shifted(YearStart(yoe) - 1) < 365 * yoe && YearStart(yoe) > 0
  {
    hide YearStart;
    var a, e, f := YearParts(yoe);
    StartParts(yoe, a, e, f);
    if yoe > 0 {
      BeforeStart(YearStart(yoe));
    }
  }

  lemma BeforeStart(d: int)
    requires d > 0 && d % 1460 != 0 && d / 146096 == 0
    ensures Shifted(d - 1) < Shifted(d)
  {
    assert (d - 1) / 1460 == d / 1460;
    assert (d - 1) / 36524 <= d / 36524;
    assert (d - 1) / 146096 == 0;
  }

  /** The formula finds the year whose days include the day. */
  lemma YearFound(yoe: int, doe: int)
    requires 0 <= yoe < 400 && YearStart(yoe) <= doe < YearEnd(yoe)
    ensures YearOfEra(doe) == yoe
  {
    hide YearStart, Shifted;
    ShiftedStart(yoe);
    ShiftedMonotone(YearStart(yoe), doe);
    var last := YearEnd(yoe) - 1;
    ShiftedMonotone(doe, last);
    if yoe == 399 {
      assert Shifted(last) == 145_999 by { LastDay(); }
    } else {
      ShiftedStart(yoe + 1);
    }
    Quotient(Shifted(doe), yoe);
    assert YearOfEra(doe) == Shifted(doe) / 365 by { FormulaIs(doe); }
  }

  lemma FormulaIs(doe: int)
    ensures YearOfEra(doe) == Shifted(doe) / 365
  {
  }

  lemma LastDay()
    ensures Shifted(146_096) == 145_999
  {
  }

  lemma Quotient(n: int, q: int)
    requires 365 * q <= n < 365 * (q + 1)
    ensures n / 365 == q
  {
  }

  /** Every day of the era is in some year. */
  lemma {:induction false} SomeYear(doe: int, upto: int) returns (yoe: int)
    requires 0 <= upto < 400 && 0 <= doe < YearEnd(upto)
    ensures 0 <= yoe <= upto && YearStart(yoe) <= doe < YearEnd(yoe)
    decreases upto
  {
    if YearStart(upto) <= doe {
      yoe := upto;
    } else {
      assert YearStart(0) == 0;
      yoe := SomeYear(doe, upto - 1);
    }
  }

  lemma YearLength(yoe: int)
    requires 0 <= yoe < 400
    ensures YearEnd(yoe) - YearStart(yoe) == if Leap(yoe + 1) then 366 else 365
  {
    var y := yoe + 1;
    assert y / 4 == yoe / 4 + (if y % 4 == 0 then 1 else 0);
    assert y / 100 == yoe / 100 + (if y % 100 == 0 then 1 else 0);
    assert yoe != 399 ==> y % 400 != 0;
  }

  // ----- Months, counted from March.

  /** The length of a month counted from March. */
  function SpanDays(mp: int, leap: bool): int {
    if mp == 11 then if leap then 29 else 28
    else if mp == 1 || mp == 3 || mp == 6 || mp == 8 then 30
    else 31
  }

  function MonthNumber(mp: int): int {
    if mp < 10 then mp + 3 else mp - 9
  }

  lemma MonthBounds(mp: int)
    requires 0 <= mp <= 11
    ensures mp < 11 ==> MonthStart(mp + 1) == MonthStart(mp) + SpanDays(mp, false)
    ensures MonthStart(11) == 337 && MonthStart(0) == 0
  {
  }

  /** The formula finds the month that includes the day of the year. */
  lemma MonthFound(mp: int, doy: int, leap: bool)
    requires 0 <= mp <= 11 && MonthStart(mp) <= doy < MonthStart(mp) + SpanDays(mp, leap)
    ensures (5 * doy + 2) / 153 == mp
  {
  }

  lemma {:induction false} SomeMonth(doy: int, leap: bool, upto: int) returns (mp: int)
    requires 0 <= upto <= 11 && 0 <= doy < MonthStart(upto) + SpanDays(upto, leap)
    ensures 0 <= mp <= upto && MonthStart(mp) <= doy < MonthStart(mp) + SpanDays(mp, leap)
    decreases upto
  {
    hide MonthStart;
    if MonthStart(upto) <= doy {
      mp := upto;
    } else {
      MonthBounds(0);
      MonthBounds(upto - 1);
      mp := SomeMonth(doy, leap, upto - 1);
    }
  }

  lemma MonthRotation(mp: int)
    requires 0 <= mp <= 11
    ensures 1 <= MonthNumber(mp) <= 12 && (MonthNumber(mp) + 9) % 12 == mp
    ensures MonthNumber(mp) <= 2 <==> mp >= 10
  {
  }

  lemma MonthRotationBack(m: int)
    requires 1 <= m <= 12
    ensures 0 <= (m + 9) % 12 <= 11 && MonthNumber((m + 9) % 12) == m
  {
  }

  // ----- Dates in terms of era, year and month.

  /** The civil year of a month in a year that begins in March. */
  function CivilYear(era: int, yoe: int, mp: int): int {
    yoe + era * 400 + (if mp >= 10 then 1 else 0)
  }

  lemma LeapInEra(era: int, yoe: int)
    requires 0 <= yoe < 400
    ensures Leap(yoe + era * 400 + 1) == Leap(yoe + 1)
  {
    ModShift(yoe + 1, era * 100, 4);
    ModShift(yoe + 1, era * 4, 100);
    ModShift(yoe + 1, era, 400);
  }

  lemma ModShift(x: int, q: int, k: int)
    requires k == 4 || k == 100 || k == 400
    ensures (x + q * k) % k == x % k
  {
  }

  lemma SpanIsMonth(era: int, yoe: int, mp: int)
    requires 0 <= yoe < 400 && 0 <= mp <= 11
    ensures SpanDays(mp, Leap(yoe + 1)) == MonthDays(CivilYear(era, yoe, mp), MonthNumber(mp))
  {
    LeapInEra(era, yoe);
  }

  /** Where a day of the era is found. */
  datatype Place = Place(yoe: int, mp: int, day: int)

  predicate Placed(p: Place) {
    && 0 <= p.yoe < 400 && 0 <= p.mp <= 11
    && 1 <= p.day <= SpanDays(p.mp, Leap(p.yoe + 1))
  }

  function DayOfEra(p: Place): int {
    YearStart(p.yoe) + MonthStart(p.mp) + p.day - 1
  }

  lemma PlaceInYear(p: Place)
    requires Placed(p)
    ensures YearStart(p.yoe) <= DayOfEra(p) < YearEnd(p.yoe)
  {
    hide YearStart, YearEnd;
    YearLength(p.yoe);
    MonthEnds(p.mp, Leap(p.yoe + 1));
  }

  lemma MonthEnds(mp: int, leap: bool)
    requires 0 <= mp <= 11
    ensures 0 <= MonthStart(mp) && MonthStart(mp) + SpanDays(mp, leap) <= if leap then 366 else 365
  {
  }

  lemma EraBounds(p: Place)
    requires Placed(p)
    ensures 0 <= DayOfEra(p) < ERA
  {
    PlaceInYear(p);
    StartsInEra(p.yoe);
  }

  lemma StartsInEra(yoe: int)
    requires 0 <= yoe < 400
    ensures 0 <= YearStart(yoe) && YearEnd(yoe) <= ERA
  {
  }

  /** Every day of the era has a place, and only one. */
  lemma PlaceOf(doe: int) returns (p: Place)
    requires 0 <= doe < ERA
    ensures Placed(p) && DayOfEra(p) == doe
  {
    hide YearStart, MonthStart;
    var yoe := SomeYear(doe, 399);
    YearLength(yoe);
    var doy := doe - YearStart(yoe);
    MonthBounds(11);
    var mp := SomeMonth(doy, Leap(yoe + 1), 11);
    p := Place(yoe, mp, doy - MonthStart(mp) + 1);
  }

  function DateAt(era: int, p: Place): Date {
    Date(CivilYear(era, p.yoe, p.mp), MonthNumber(p.mp), p.day)
  }

  /** The first conversion yields the date at the place of the day. */
  lemma CivilIs(days: int, era: int, p: Place)
    requires Placed(p) && days + 719_468 == era * ERA + DayOfEra(p)
    ensures CivilFromDays(days) == DateAt(era, p)
  {
    hide YearStart, YearEnd, MonthStart, YearOfEra;
    EraBounds(p);
    EraSplit(days + 719_468, era, DayOfEra(p));
    PlaceInYear(p);
    YearFound(p.yoe, DayOfEra(p));
    MonthFound(p.mp, DayOfEra(p) - YearStart(p.yoe), Leap(p.yoe + 1));
    MonthRotation(p.mp);
  }

  lemma EraSplit(z: int, era: int, doe: int)
    requires 0 <= doe < ERA && z == era * ERA + doe
    ensures z / ERA == era && z % ERA == doe
  {
  }

  /** The second conversion yields the day from the place. */
  lemma DaysIs(era: int, p: Place)
    requires Placed(p)
    ensures DaysFromCivil(DateAt(era, p)) == era * ERA + DayOfEra(p) - 719_468
  {
    hide YearStart, MonthStart;
    MonthRotation(p.mp);
    YearSplit(era, p.yoe);
  }

  lemma YearSplit(era: int, yoe: int)
    requires 0 <= yoe < 400
    ensures (yoe + era * 400) / 400 == era && (yoe + era * 400) % 400 == yoe
  {
  }

  lemma DateHasPlace(date: Date) returns (era: int, p: Place)
    requires ValidDate(date)
    ensures Placed(p) && DateAt(era, p) == date
  {
    var mp := (date.month + 9) % 12;
    MonthRotationBack(date.month);
    MonthRotation(mp);
    var y := if date.month <= 2 then date.year - 1 else date.year;
    era := y / 400;
    var yoe := y % 400;
    SpanIsMonth(era, yoe, mp);
    p := Place(yoe, mp, date.day);
  }

  /** Days to dates and back, for every day. */
  lemma DaysRoundTrip(days: int)
    ensures ValidDate(CivilFromDays(days)) && DaysFromCivil(CivilFromDays(days)) == days
  {
    hide CivilFromDays, DaysFromCivil, DayOfEra;
    var z := days + 719_468;
    var era, doe := z / ERA, z % ERA;
    var p := PlaceOf(doe);
    CivilIs(days, era, p);
    DaysIs(era, p);
    SpanIsMonth(era, p.yoe, p.mp);
    MonthRotation(p.mp);
  }

  /** Dates to days and back, for every valid date. */
  lemma DateRoundTrip(date: Date)
    requires ValidDate(date)
    ensures CivilFromDays(DaysFromCivil(date)) == date
  {
    hide CivilFromDays, DaysFromCivil, DayOfEra;
    var era, p := DateHasPlace(date);
    DaysIs(era, p);
    CivilIs(DaysFromCivil(date), era, p);
  }

  // ----- The calendar itself: one day after the other, from the epoch.

  /** The day after a date. */
  function NextDate(date: Date): Date {
    if date.day < MonthDays(date.year, date.month) then date.(day := date.day + 1)
    else if date.month < 12 then Date(date.year, date.month + 1, 1)
    else Date(date.year + 1, 1, 1)
  }

  lemma NextInYear(era: int, p: Place)
    requires Placed(p) && (p.day < SpanDays(p.mp, Leap(p.yoe + 1)) || p.mp < 11)
    ensures var q := if p.day < SpanDays(p.mp, Leap(p.yoe + 1)) then p.(day := p.day + 1) else Place(p.yoe, p.mp + 1, 1);
            Placed(q) && DayOfEra(q) == DayOfEra(p) + 1 && DateAt(era, q) == NextDate(DateAt(era, p))
  {
    hide YearStart, MonthStart;
    SpanIsMonth(era, p.yoe, p.mp);
    MonthBounds(p.mp);
  }

  /** The year after, in the same era. */
  lemma NextYear(era: int, p: Place)
    requires Placed(p) && p.day == SpanDays(p.mp, Leap(p.yoe + 1)) && p.mp == 11 && p.yoe < 399
    ensures var q := Place(p.yoe + 1, 0, 1);
            Placed(q) && DayOfEra(q) == DayOfEra(p) + 1 && DateAt(era, q) == NextDate(DateAt(era, p))
  {
    hide YearStart, MonthStart, Leap, NextDate, SpanDays;
    NextMarch(era, p);
    YearDays(p);
    FirstMonth();
  }

  /** And the first one of the next era. */
  lemma NextEra(era: int, p: Place)
    requires Placed(p) && p.day == SpanDays(p.mp, Leap(p.yoe + 1)) && p.mp == 11 && p.yoe == 399
    ensures var q := Place(0, 0, 1);
            Placed(q) && DayOfEra(q) == 0 && DayOfEra(p) + 1 == ERA && DateAt(era + 1, q) == NextDate(DateAt(era, p))
  {
    hide DayOfEra, Leap, NextDate, SpanDays, DateAt, Placed;
    NextMarch(era, p);
    YearDays(p);
    FirstOfEra(era + 1);
  }

  lemma FirstOfEra(era: int)
    ensures Placed(Place(0, 0, 1)) && DayOfEra(Place(0, 0, 1)) == 0 && DateAt(era, Place(0, 0, 1)) == Date(era * 400, 3, 1)
  {
  }

  lemma YearDays(p: Place)
    requires Placed(p) && p.day == SpanDays(p.mp, Leap(p.yoe + 1)) && p.mp == 11
    ensures DayOfEra(p) + 1 == YearEnd(p.yoe)
  {
    hide YearStart, YearEnd, MonthStart, Leap;
    MonthBounds(11);
    YearLength(p.yoe);
  }

  lemma FirstMonth()
    ensures MonthStart(0) == 0 && SpanDays(0, true) == SpanDays(0, false) == 31 && YearStart(0) == 0
  {
  }

  lemma NextMarch(era: int, p: Place)
    requires Placed(p) && p.day == SpanDays(p.mp, Leap(p.yoe + 1)) && p.mp == 11
    ensures NextDate(DateAt(era, p)) == Date(p.yoe + era * 400 + 1, 3, 1)
  {
    SpanIsMonth(era, p.yoe, p.mp);
    hide Leap;
  }

  lemma NextDay(date: Date)
    requires ValidDate(date)
    ensures DaysFromCivil(NextDate(date)) == DaysFromCivil(date) + 1
  {
    hide DaysFromCivil, NextDate, DayOfEra, DateAt;
    var era, p := DateHasPlace(date);
    DaysIs(era, p);
    if p.day < SpanDays(p.mp, Leap(p.yoe + 1)) {
      NextInYear(era, p);
      DaysIs(era, p.(day := p.day + 1));
    } else if p.mp < 11 {
      NextInYear(era, p);
      DaysIs(era, Place(p.yoe, p.mp + 1, 1));
    } else if p.yoe < 399 {
      NextYear(era, p);
      DaysIs(era, Place(p.yoe + 1, 0, 1));
    } else {
      NextEra(era, p);
      DaysIs(era + 1, Place(0, 0, 1));
    }
  }

  lemma Epoch()
    ensures DaysFromCivil(Date(1970, 1, 1)) == 0
  {
  }

  lemma NextValid(date: Date)
    requires ValidDate(date)
    ensures ValidDate(NextDate(date))
  {
  }

  /** Day 0 is the first of January 1970, and each day's date is the one after the day before. */
  lemma DaysFollow(days: int)
    ensures CivilFromDays(days + 1) == NextDate(CivilFromDays(days))
    ensures CivilFromDays(0) == Date(1970, 1, 1)
  {
    hide CivilFromDays, DaysFromCivil, NextDate;
    Epoch();
    DateRoundTrip(Date(1970, 1, 1));
    DaysRoundTrip(days);
    NextDay(CivilFromDays(days));
    NextValid(CivilFromDays(days));
    DateRoundTrip(NextDate(CivilFromDays(days)));
  }
}
