/** Timestamps as text (sections 5.6 and 5.7 of RFC 3339). */
module Timestamps {
  import opened Bits
  import opened Calendar
  import opened Decimal
  import opened Endian

  const COLON: u8 := 0x3A
  const DOT: u8 := 0x2E
  const LETTER_T: u8 := 0x54
  const LETTER_Z: u8 := 0x5A
  const DAY_SECONDS: int := 86_400

  /** A number in at least `w` digits. */
  function AtLeast(n: nat, w: nat): Bytes {
    if n < Pow(10, w) then Padded(n, w) else Digits(n, 10)
  }

  /** A year in at least four characters, its sign included. */
  function YearText(y: int): Bytes {
    if y >= 0 then AtLeast(y, 4) else [MINUS] + AtLeast(-y, 3)
  }

  function ZoneText(tz: int): Bytes {
    if tz == 0 then [LETTER_Z]
    else
      var abs: nat := if tz < 0 then -tz else tz;
      [if tz < 0 then MINUS else PLUS] + AtLeast(abs / 60, 2) + [COLON] + AtLeast(abs % 60, 2)
  }

  function ClockText(rem: nat): Bytes {
    AtLeast(rem / 3600, 2) + [COLON] + AtLeast(rem % 3600 / 60, 2) + [COLON] + AtLeast(rem % 60, 2)
  }

  function DateText(date: Date): Bytes
    requires ValidDate(date)
  {
    YearText(date.year) + [MINUS] + AtLeast(date.month, 2) + [MINUS] + AtLeast(date.day, 2)
  }

  /** Whole seconds since the epoch, rounded down. */
  function FlooredSeconds(ns: int): int {
    ns / BILLION
  }

  /** `rfc3339_at`. */
  function Format(ns: i64, tz: int): Bytes {
    var x: int := ns;
    var secs := FlooredSeconds(x) + tz * 60;
    var date := CivilFromDays(secs / DAY_SECONDS);
    DaysRoundTrip(secs / DAY_SECONDS);
    DateText(date) + [LETTER_T] + ClockText(secs % DAY_SECONDS) + ZoneText(tz)
  }

  // ----- Parsing.

  /** The digits from `i` to `j` as a number. */
  function Num(b: Bytes, i: nat, j: nat): Option<nat>
    requires i < j
  {
    if j > |b| || !AllDigits(b[i..j], 10) then None else Some(Value(b[i..j], 10))
  }

  datatype Clock = Clock(date: Date, hour: int, minute: int, second: int)

  function ReadClock(b: Bytes): Option<Clock> {
    if |b| < 20 || b[4] != MINUS || b[7] != MINUS || b[10] != LETTER_T || b[13] != COLON || b[16] != COLON then None
    else
      var y, mo, d, h, mi, sec := Num(b, 0, 4), Num(b, 5, 7), Num(b, 8, 10), Num(b, 11, 13), Num(b, 14, 16), Num(b, 17, 19);
      if y.None? || mo.None? || d.None? || h.None? || mi.None? || sec.None? then None
      else Some(Clock(Date(y.value, mo.value, d.value), h.value, mi.value, sec.value))
  }

  predicate ClockOk(c: Clock) {
    ValidDate(c.date) && c.hour <= 23 && c.minute <= 59 && c.second <= 59
  }

  /** Where a run of digits starting at `i` ends. */
  function DigitsEnd(b: Bytes, i: nat): (j: nat)
    requires i <= |b|
    ensures i <= j <= |b| && AllDigits(b[i..j], 10)
    ensures j < |b| ==> !Digit(b[j], 10)
    decreases |b| - i
  {
    if i == |b| || !Digit(b[i], 10) then i
    else
      var j := DigitsEnd(b, i + 1);
      assert b[i..j] == [b[i]] + b[i + 1..j];
      j
  }

  /** The optional fraction after the seconds: where it ends, and its nanoseconds. */
  function ReadFraction(b: Bytes): (r: Option<(nat, nat)>)
    requires |b| >= 20
    ensures r.Some? ==> r.value.0 <= |b| && r.value.1 < BILLION
  {
    if b[19] != DOT then Some((19, 0))
    else
      var j := DigitsEnd(b, 20);
      if j == 20 then None
      else
        NineDigitsBound(b[20..j]);
        Some((j, Value(NineDigits(b[20..j]), 10)))
  }

  /** The zone that ends the text, in minutes. */
  function ReadZone(b: Bytes, i: nat): Option<int>
    requires i <= |b|
  {
    if i == |b| then None
    else if b[i] == LETTER_Z && i + 1 == |b| then Some(0)
    else if (b[i] == PLUS || b[i] == MINUS) && |b| == i + 6 && b[i + 3] == COLON then
      var hh, mm := Num(b, i + 1, i + 3), Num(b, i + 4, i + 6);
      if hh.None? || mm.None? || hh.value > 23 || mm.value > 59 then None
      else
        var v: int := hh.value * 60 + mm.value;
        Some(if b[i] == MINUS then -v else v)
    else None
  }

  predicate IsI64(x: int) {
    -0x8000_0000_0000_0000 <= x < 0x8000_0000_0000_0000
  }

  /** The timestamp and zone that a text stands for. */
  function TimestampOf(b: Bytes): Option<(i64, int)> {
    var clock := ReadClock(b);
    if clock.None? || !ClockOk(clock.value) then None
    else
      var fraction := ReadFraction(b);
      if fraction.None? then None
      else
        var zone := ReadZone(b, fraction.value.0);
        if zone.None? then None
        else
          var c := clock.value;
          var secs := DaysFromCivil(c.date) * DAY_SECONDS + c.hour * 3600 + c.minute * 60 + c.second - zone.value * 60;
          var frac: int := fraction.value.1;
          if !IsI64(secs * BILLION) || !IsI64(secs * BILLION + frac) then None
          else Some((secs * BILLION + frac, zone.value))
  }

  /** `parse_rfc3339`. */
  method ParseRfc3339(b: Bytes) returns (r: Option<(i64, int)>)
    ensures r == TimestampOf(b)
  {
    hide DaysFromCivil, ValidDate, Num, NineDigits, DigitsEnd;
    var clock := ReadClock(b);
    if clock.None? || !ClockOk(clock.value) {
      return None;
    }
    var i, frac := 19, 0;
    if b[19] == DOT {
      var ok;
      ok, i, frac := ParseFraction(b);
      if !ok {
        return None;
      }
    }
    var zone := ReadZone(b, i);
    if zone.None? {
      return None;
    }
    var c := clock.value;
    var secs := DaysFromCivil(c.date) * DAY_SECONDS + c.hour * 3600 + c.minute * 60 + c.second - zone.value * 60;
    if !IsI64(secs * BILLION) || !IsI64(secs * BILLION + frac) {
      return None;
    }
    return Some((secs * BILLION + frac, zone.value));
  }

  /** The first nine digits of the fraction as a number. */
  method FractionValue(b: Bytes, end: nat) returns (frac: int)
    requires 20 <= end <= |b| && AllDigits(b[20..end], 10)
    ensures frac == Value(NineDigits(b[20..end]), 10)
  {
    ghost var nine := NineDigits(b[20..end]);
    frac := 0;
    assert Value(nine[..0], 10) == 0;
    hide Value;
    for k := 0 to 9
      invariant frac == Value(nine[..k], 10)
    {
      var digit := if 20 + k < end then b[20 + k] - ZERO else 0;
      assert nine[..k + 1] == nine[..k] + [nine[k]];
      ValueSnoc(nine[..k], nine[k], 10);
      frac := frac * 10 + digit;
    }
    assert nine[..9] == nine;
  }

  /** The digit loops of the fraction. */
  method ParseFraction(b: Bytes) returns (ok: bool, end: nat, frac: int)
    requires |b| >= 20 && b[19] == DOT
    ensures ok == ReadFraction(b).Some?
    ensures ok ==> ReadFraction(b) == Some((end, frac))
  {
    end, frac := 20, 0;
    while end < |b| && Digit(b[end], 10)
      invariant 20 <= end <= |b| && DigitsEnd(b, end) == DigitsEnd(b, 20)
    {
      end := end + 1;
    }
    if end == 20 {
      return false, end, 0;
    }
    frac := FractionValue(b, end);
    NineDigitsBound(b[20..end]);
    ok := true;
  }

  // ----- A formatted timestamp parses back.

  lemma Tens()
    ensures Pow(10, 2) == 100 && Pow(10, 4) == 10_000
  {
    assert Pow(10, 1) == 10;
    assert Pow(10, 3) == 1000;
  }

  lemma Fixed(n: nat, w: nat)
    requires n < Pow(10, w)
    ensures AtLeast(n, w) == Padded(n, w) && |AtLeast(n, w)| == w
    ensures AllDigits(AtLeast(n, w), 10) && Value(AtLeast(n, w), 10) == n
  {
    PaddedValue(n, w);
  }

  /** The pieces of a timestamp, at the positions where the parser looks for them. */
  function Laid(y: Bytes, mo: Bytes, d: Bytes, h: Bytes, mi: Bytes, sec: Bytes, zone: Bytes): Bytes {
    (y + [MINUS] + mo + [MINUS] + d) + [LETTER_T] + (h + [COLON] + mi + [COLON] + sec) + zone
  }

  lemma LaidSlices(y: Bytes, mo: Bytes, d: Bytes, h: Bytes, mi: Bytes, sec: Bytes, zone: Bytes)
    requires |y| == 4 && |mo| == |d| == |h| == |mi| == |sec| == 2 && |zone| >= 1
    ensures var b := Laid(y, mo, d, h, mi, sec, zone);
            && |b| == 19 + |zone| && b[19] == zone[0] && b[19..] == zone
            && b[4] == MINUS && b[7] == MINUS && b[10] == LETTER_T && b[13] == COLON && b[16] == COLON
            && b[0..4] == y && b[5..7] == mo && b[8..10] == d && b[11..13] == h && b[14..16] == mi && b[17..19] == sec
  {
    var b := Laid(y, mo, d, h, mi, sec, zone);
    var date, clock := y + [MINUS] + mo + [MINUS] + d, h + [COLON] + mi + [COLON] + sec;
    assert date[0..4] == y && date[5..7] == mo && date[8..10] == d;
    assert clock[0..2] == h && clock[3..5] == mi && clock[6..8] == sec;
    assert b[..10] == date && b[11..19] == clock && b[19..] == zone;
    assert b[0..4] == date[0..4] && b[5..7] == date[5..7] && b[8..10] == date[8..10];
    assert b[11..13] == clock[0..2] && b[14..16] == clock[3..5] && b[17..19] == clock[6..8];
    assert b[4] == date[4] && b[7] == date[7] && b[13] == clock[2] && b[16] == clock[5];
  }

  lemma ClockReads(y: nat, mo: nat, d: nat, h: nat, mi: nat, sec: nat, zone: Bytes)
    requires y < 10_000 && mo < 100 && d < 100 && h < 100 && mi < 100 && sec < 100 && |zone| >= 1
    ensures var b := Laid(AtLeast(y, 4), AtLeast(mo, 2), AtLeast(d, 2), AtLeast(h, 2), AtLeast(mi, 2), AtLeast(sec, 2), zone);
            && |b| == 19 + |zone| && b[19..] == zone
            && ReadClock(b) == Some(Clock(Date(y, mo, d), h, mi, sec))
  {
    hide AtLeast, Laid, Value, Pow;
    Tens();
    Fixed(y, 4);
    Fixed(mo, 2);
    Fixed(d, 2);
    Fixed(h, 2);
    Fixed(mi, 2);
    Fixed(sec, 2);
    LaidSlices(AtLeast(y, 4), AtLeast(mo, 2), AtLeast(d, 2), AtLeast(h, 2), AtLeast(mi, 2), AtLeast(sec, 2), zone);
  }

  /** A zone of less than a day reads back. */
  lemma ZoneReads(b: Bytes, i: nat, tz: int)
    requires -1439 <= tz <= 1439 && |b| >= i && b[i..] == ZoneText(tz)
    ensures |b| > i && b[i] != DOT && !Digit(b[i], 10) && ReadZone(b, i) == Some(tz)
  {
    hide Value, Pow, AtLeast;
    assert b[i] == b[i..][0];
    if tz == 0 {
      assert |b| == i + 1;
    } else {
      var abs: nat := if tz < 0 then -tz else tz;
      Tens();
      Fixed(abs / 60, 2);
      Fixed(abs % 60, 2);
      var zone := ZoneText(tz);
      assert |zone| == 6 && zone[1..3] == AtLeast(abs / 60, 2) && zone[4..6] == AtLeast(abs % 60, 2) && zone[3] == COLON;
      assert b[i + 1..i + 3] == zone[1..3] && b[i + 4..i + 6] == zone[4..6] && b[i + 3] == zone[3];
      assert abs / 60 * 60 + abs % 60 == abs;
    }
  }

  lemma ZoneNonEmpty(tz: int)
    ensures |ZoneText(tz)| >= 1
  {
  }

  /** Within the range of 64-bit nanoseconds the year has four digits. */
  lemma YearInRange(ns: i64, tz: int)
    requires -1439 <= tz <= 1439
    ensures 1000 <= CivilFromDays((FlooredSeconds(ns) + tz * 60) / DAY_SECONDS).year < 10_000
  {
    var days := (FlooredSeconds(ns) + tz * 60) / DAY_SECONDS;
    assert -106_753 <= days <= 106_753;
    var z := days + 719_468;
    var p := PlaceOf(z % ERA);
    assert 4 <= z / ERA <= 5;
    CivilIs(days, z / ERA, p);
  }

  lemma ClockParts(rem: int)
    requires 0 <= rem < DAY_SECONDS
    ensures 0 <= rem / 3600 <= 23 && 0 <= rem % 3600 / 60 <= 59 && 0 <= rem % 60 <= 59
    ensures rem / 3600 * 3600 + rem % 3600 / 60 * 60 + rem % 60 == rem
  {
    var h, r := rem / 3600, rem % 3600;
    assert rem == 3600 * h + r;
    assert rem % 60 == r % 60 by {
      assert rem == 60 * (60 * h) + r;
      SixtyShift(60 * h, r);
    }
  }

  lemma SixtyShift(q: int, r: int)
    ensures (60 * q + r) % 60 == r % 60
  {
  }

  lemma FormatIsLaid(ns: i64, tz: int, date: Date, rem: nat)
    requires date == CivilFromDays((FlooredSeconds(ns) + tz * 60) / DAY_SECONDS) && date.year >= 0 && ValidDate(date)
    requires rem == (FlooredSeconds(ns) + tz * 60) % DAY_SECONDS
    ensures Format(ns, tz)
         == Laid(AtLeast(date.year, 4), AtLeast(date.month, 2), AtLeast(date.day, 2),
                 AtLeast(rem / 3600, 2), AtLeast(rem % 3600 / 60, 2), AtLeast(rem % 60, 2), ZoneText(tz))
  {
    hide AtLeast, CivilFromDays, ZoneText;
  }

  /** With a zone of less than a day, formatting and parsing gives the floored second and the zone
      exactly when that second is representable; otherwise parsing fails. */
  lemma TimestampRoundTrip(ns: i64, tz: int)
    requires -1439 <= tz <= 1439
    ensures var second := FlooredSeconds(ns) * BILLION;
            TimestampOf(Format(ns, tz)) == if IsI64(second) then Some((second, tz)) else None
  {
    hide CivilFromDays, DaysFromCivil, ReadClock, ReadZone, Format, Laid, AtLeast, ZoneText, FlooredSeconds;
    var secs := FlooredSeconds(ns) + tz * 60;
    var days, rem := secs / DAY_SECONDS, secs % DAY_SECONDS;
    var date := CivilFromDays(days);
    DaysRoundTrip(days);
    YearInRange(ns, tz);
    ClockParts(rem);
    ZoneNonEmpty(tz);
    FormatIsLaid(ns, tz, date, rem);
    var b := Format(ns, tz);
    ClockReads(date.year, date.month, date.day, rem / 3600, rem % 3600 / 60, rem % 60, ZoneText(tz));
    ZoneReads(b, 19, tz);
    assert days * DAY_SECONDS + rem == secs;
  }

  /** The floored second is out of range only within the earliest second of the 64-bit range. */
  lemma EarliestSecond(ns: i64)
    ensures IsI64(FlooredSeconds(ns) * BILLION) <==> ns >= -9_223_372_036 * BILLION
  {
    var x: int := ns;
    assert x / BILLION * BILLION + x % BILLION == x;
  }

  /** The parser reads zones of less than a day only. */
  lemma ZoneBound(b: Bytes)
    ensures TimestampOf(b).Some? ==> -1439 <= TimestampOf(b).value.1 <= 1439
  {
    hide ReadClock, ReadFraction, DaysFromCivil, Num;
  }

  /** A formatted timestamp parses back to its floored second and zone if and only if the zone is less
      than a day and the time is not within the earliest second of the range. */
  lemma ParsesBack(ns: i64, tz: int)
    ensures var r := TimestampOf(Format(ns, tz));
            (r.Some? && r.value.0 == FlooredSeconds(ns) * BILLION && r.value.1 == tz)
            <==> -1439 <= tz <= 1439 && ns >= -9_223_372_036 * BILLION
  {
    hide TimestampOf, Format, FlooredSeconds;
    EarliestSecond(ns);
    ZoneBound(Format(ns, tz));
    if -1439 <= tz <= 1439 {
      TimestampRoundTrip(ns, tz);
    }
  }

  /** The least timestamp does not parse back in any zone. */
  lemma LeastFails(tz: int)
    requires -1439 <= tz <= 1439
    ensures TimestampOf(Format(-0x8000_0000_0000_0000, tz)) == None
  {
    hide TimestampOf, Format, FlooredSeconds;
    EarliestSecond(-0x8000_0000_0000_0000);
    TimestampRoundTrip(-0x8000_0000_0000_0000, tz);
  }

  // ----- Fractions.

  /** The nanoseconds of a fraction: filled up to nine digits, or cut to them. */
  function Nanos(d: Bytes): nat
    requires AllDigits(d, 10)
  {
    if |d| <= 9 then Value(d, 10) * Pow(10, 9 - |d|) else Value(d[..9], 10)
  }

  lemma {:induction false} ZerosBehind(d: Bytes, z: Bytes)
    requires AllDigits(d, 10) && forall i :: 0 <= i < |z| ==> z[i] == ZERO
    ensures AllDigits(d + z, 10) && Value(d + z, 10) == Value(d, 10) * Pow(10, |z|)
    decreases |z|
  {
    if |z| == 0 {
      assert d + z == d;
    } else {
      var n := |z| - 1;
      ZerosBehind(d, z[..n]);
      ValueSnoc(d + z[..n], z[n], 10);
      assert d + z == d + z[..n] + [z[n]];
      Tenfold(Value(d, 10), n);
    }
  }

  lemma Tenfold(x: nat, n: nat)
    ensures x * Pow(10, n) * 10 == x * Pow(10, n + 1)
  {
  }

  lemma NineDigitsValue(d: Bytes)
    requires AllDigits(d, 10)
    ensures Value(NineDigits(d), 10) == Nanos(d)
  {
    hide Value, Pow;
    if |d| <= 9 {
      var z: Bytes := seq(9 - |d|, _ => ZERO);
      assert NineDigits(d) == d + z;
      ZerosBehind(d, z);
    } else {
      assert NineDigits(d) == d[..9];
    }
  }

  lemma {:induction false} DigitsStop(b: Bytes, i: nat, j: nat)
    requires i <= j < |b| && AllDigits(b[i..j], 10) && !Digit(b[j], 10)
    ensures DigitsEnd(b, i) == j
    decreases j - i
  {
    if i < j {
      assert b[i..j][0] == b[i] && b[i..j][1..] == b[i + 1..j];
      DigitsStop(b, i + 1, j);
    }
  }

  /** A timestamp with a fraction of any number of digits. */
  function WithFraction(ns: i64, tz: int, d: Bytes): Bytes
    requires |Format(ns, tz)| >= 19
  {
    Format(ns, tz)[..19] + [DOT] + d + Format(ns, tz)[19..]
  }

  /** It parses to the second and the nanoseconds that the fraction stands for, in nine digits. */
  lemma FractionReads(ns: i64, tz: int, d: Bytes)
    requires -1439 <= tz <= 1439 && d != [] && AllDigits(d, 10)
    ensures |Format(ns, tz)| >= 20
    ensures var second := FlooredSeconds(ns) * BILLION;
            TimestampOf(WithFraction(ns, tz, d))
            == if IsI64(second) && IsI64(second + Nanos(d)) then Some((second + Nanos(d), tz)) else None
  {
    hide CivilFromDays, DaysFromCivil, ReadZone, Format, AtLeast, ZoneText, FlooredSeconds, Value, NineDigits, Nanos, Num,
      DigitsEnd;
    var date, rem := FormattedClock(ns, tz);
    var t, b := Format(ns, tz), WithFraction(ns, tz, d);
    var j := 20 + |d|;
    assert b[20..j] == d && b[j..] == ZoneText(tz) && b[19] == DOT;
    ZoneReads(b, j, tz);
    DigitsStop(b, 20, j);
    NineDigitsValue(d);
    SameClock(t, b);
    var days := (FlooredSeconds(ns) + tz * 60) / DAY_SECONDS;
    assert days * DAY_SECONDS + rem == FlooredSeconds(ns) + tz * 60;
  }

  /** The first nineteen bytes decide the clock. */
  lemma SameClock(a: Bytes, b: Bytes)
    requires |a| >= 20 && |b| >= 20 && a[..19] == b[..19]
    ensures ReadClock(a) == ReadClock(b)
  {
    hide Value;
    forall i | 0 <= i < 19 ensures a[i] == b[i] {
      assert a[i] == a[..19][i];
    }
    forall i: nat, j: nat | i < j <= 19 ensures a[i..j] == b[i..j] {
      assert forall k :: i <= k < j ==> a[k] == b[k];
    }
  }

  /** What a formatted timestamp shows. */
  lemma FormattedClock(ns: i64, tz: int) returns (date: Date, rem: nat)
    requires -1439 <= tz <= 1439
    ensures var secs := FlooredSeconds(ns) + tz * 60;
            && rem == secs % DAY_SECONDS && ValidDate(date) && DaysFromCivil(date) == secs / DAY_SECONDS
            && 0 <= rem / 3600 <= 23 && 0 <= rem % 3600 / 60 <= 59 && 0 <= rem % 60 <= 59
            && rem / 3600 * 3600 + rem % 3600 / 60 * 60 + rem % 60 == rem
    ensures var b := Format(ns, tz);
            && |b| >= 20 && b[19..] == ZoneText(tz)
            && ReadClock(b) == Some(Clock(date, rem / 3600, rem % 3600 / 60, rem % 60))
  {
    hide CivilFromDays, DaysFromCivil, ReadClock, Format, Laid, AtLeast, ZoneText, FlooredSeconds;
    var secs := FlooredSeconds(ns) + tz * 60;
    var days := secs / DAY_SECONDS;
    rem := secs % DAY_SECONDS;
    date := CivilFromDays(days);
    DaysRoundTrip(days);
    YearInRange(ns, tz);
    ClockParts(rem);
    ZoneNonEmpty(tz);
    FormatIsLaid(ns, tz, date, rem);
    ClockReads(date.year, date.month, date.day, rem / 3600, rem % 3600 / 60, rem % 60, ZoneText(tz));
  }

  /** The digits from `i` to `j` spell a number. */
  predicate Spells(b: Bytes, i: nat, j: nat, n: int) {
    i <= j <= |b| && AllDigits(b[i..j], 10) && Value(b[i..j], 10) == n
  }

  lemma FixedSpells(b: Bytes, i: nat, w: nat, n: nat)
    requires n < Pow(10, w) && i + w <= |b| && b[i..i + w] == AtLeast(n, w)
    ensures Spells(b, i, i + w, n)
  {
    hide Value, Pow, AtLeast;
    Fixed(n, w);
  }

  lemma LaidSpells(y: nat, mo: nat, d: nat, h: nat, mi: nat, sec: nat, zone: Bytes)
    requires y < 10_000 && mo < 100 && d < 100 && h < 100 && mi < 100 && sec < 100 && |zone| >= 1
    ensures var b := Laid(AtLeast(y, 4), AtLeast(mo, 2), AtLeast(d, 2), AtLeast(h, 2), AtLeast(mi, 2), AtLeast(sec, 2), zone);
            && Spells(b, 0, 4, y) && Spells(b, 5, 7, mo) && Spells(b, 8, 10, d)
            && Spells(b, 11, 13, h) && Spells(b, 14, 16, mi) && Spells(b, 17, 19, sec)
            && |b| >= 20 && [b[4], b[7], b[10], b[13], b[16]] == [MINUS, MINUS, LETTER_T, COLON, COLON] && b[19..] == zone
  {
    hide AtLeast, Laid, Value, Pow, Spells;
    Tens();
    Fixed(y, 4);
    Fixed(mo, 2);
    Fixed(d, 2);
    Fixed(h, 2);
    Fixed(mi, 2);
    Fixed(sec, 2);
    LaidSlices(AtLeast(y, 4), AtLeast(mo, 2), AtLeast(d, 2), AtLeast(h, 2), AtLeast(mi, 2), AtLeast(sec, 2), zone);
    var b := Laid(AtLeast(y, 4), AtLeast(mo, 2), AtLeast(d, 2), AtLeast(h, 2), AtLeast(mi, 2), AtLeast(sec, 2), zone);
    FixedSpells(b, 0, 4, y);
    FixedSpells(b, 5, 2, mo);
    FixedSpells(b, 8, 2, d);
    FixedSpells(b, 11, 2, h);
    FixedSpells(b, 14, 2, mi);
    FixedSpells(b, 17, 2, sec);
  }

  /** Where a formatted timestamp shows what: year, month, day, hour, minute and second, in digits
      with separators between them, and then the zone. */
  lemma FormatShows(ns: i64, tz: int)
    requires -1439 <= tz <= 1439
    ensures var b, secs := Format(ns, tz), FlooredSeconds(ns) + tz * 60;
            var date, rem := CivilFromDays(secs / DAY_SECONDS), secs % DAY_SECONDS;
            && Spells(b, 0, 4, date.year) && Spells(b, 5, 7, date.month) && Spells(b, 8, 10, date.day)
            && Spells(b, 11, 13, rem / 3600) && Spells(b, 14, 16, rem % 3600 / 60) && Spells(b, 17, 19, rem % 60)
            && |b| >= 20 && [b[4], b[7], b[10], b[13], b[16]] == [MINUS, MINUS, LETTER_T, COLON, COLON]
            && b[19..] == ZoneText(tz)
  {
    hide CivilFromDays, DaysFromCivil, Format, Laid, AtLeast, ZoneText, FlooredSeconds, Spells;
    var secs := FlooredSeconds(ns) + tz * 60;
    var days, rem := secs / DAY_SECONDS, secs % DAY_SECONDS;
    var date := CivilFromDays(days);
    DaysRoundTrip(days);
    YearInRange(ns, tz);
    ClockParts(rem);
    ZoneNonEmpty(tz);
    FormatIsLaid(ns, tz, date, rem);
    LaidSpells(date.year, date.month, date.day, rem / 3600, rem % 3600 / 60, rem % 60, ZoneText(tz));
  }
}
