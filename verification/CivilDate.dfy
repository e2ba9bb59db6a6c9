/** Civil dates and day numbers, day 0 being 1970-01-01. */
module CivilDates {
  import opened Options

  datatype Date = Date(y: int, m: int, d: int)

  // ---- the calendar (RFC 3339, section 5.7 and appendix C) ----

  predicate Leap(y: int) {
    y % 4 == 0 && (y % 100 != 0 || y % 400 == 0)
  }

  function MonthLength(y: int, m: int): int {
    if m == 2 then (if Leap(y) then 29 else 28)
    else if m == 4 || m == 6 || m == 9 || m == 11 then 30
    else 31
  }

  predicate ValidDate(t: Date) {
    1 <= t.m <= 12 && 1 <= t.d <= MonthLength(t.y, t.m)
  }

  function NextDay(t: Date): Date {
    if t.d < MonthLength(t.y, t.m) then Date(t.y, t.m, t.d + 1)
    else if t.m < 12 then Date(t.y, t.m + 1, 1)
    else Date(t.y + 1, 1, 1)
  }

  // ---- the conversions ----

  /** Division that rounds towards zero. */
  function TruncDiv(a: int, b: int): int
    requires b > 0
  {
    if a >= 0 then a / b else -((-a) / b)
  }

  /** The first day of a month in a year that starts in March. */
  function MonthStart(mp: int): int {
    (153 * mp + 2) / 5
  }

  /** The first day of a year of an era of 400 years. */
  function YearStart(yoe: int): int {
    365 * yoe + yoe / 4 - yoe / 100
  }

  function CivilToDays(y: int, m: int, d: int): Option<int> {
    if m < 1 || m > 12 || d < 1 || d > 31 then None
    else
      var yy := y - if m <= 2 then 1 else 0;
      var era := TruncDiv(if yy >= 0 then yy else yy - 399, 400);
      var yoe := yy - era * 400;
      var doy := MonthStart(if m > 2 then m - 3 else m + 9) + d - 1;
      Some(era * 146097 + (YearStart(yoe) + doy) - 719468)
  }

  function DaysToCivil(days: int): Date {
    var z := days + 719468;
    var era := TruncDiv(if z >= 0 then z else z - 146096, 146097);
    var doe := z - era * 146097;
    var yoe := (doe - doe / 1460 + doe / 36524 - doe / 146096) / 365;
    var doy := doe - YearStart(yoe);
    var mp := (5 * doy + 2) / 153;
    var m := if mp < 10 then mp + 3 else mp - 9;
    Date(yoe + era * 400 + (if m <= 2 then 1 else 0), m, doy - MonthStart(mp) + 1)
  }

  // ---- eras ----

  lemma {:induction false} DivIs(n: int, d: int, k: int)
    requires d > 0 && k * d <= n < (k + 1) * d
    ensures n / d == k
  {
    var q, r := n / d, n % d;
    assert n == q * d + r;
    assert q < k ==> (q + 1) * d <= k * d;
    assert q > k ==> (k + 1) * d <= q * d;
  }

  lemma {:induction false} EraIsFloor(a: int, b: int)
    requires b > 0
    ensures TruncDiv(if a >= 0 then a else a - (b - 1), b) == a / b
  {
    if a < 0 {
      var q := a / b;
      var r := a % b;
      assert a == q * b + r;
      var n := b - 1 - a;
      assert n == (-q) * b + (b - 1 - r);
      DivIs(n, b, -q);
    }
  }

  /** The March-based year `yoe` of an era ends with a leap day. */
  predicate LongYear(yoe: int) {
    Leap(yoe + 1)
  }

  /** A day of a year of an era. */
  predicate DayOk(yoe: int, doy: int) {
    0 <= yoe <= 399 && 0 <= doy <= if LongYear(yoe) then 365 else 364
  }

  lemma {:induction false} LongParts(c: int, q: int, s: int)
    requires 0 <= c <= 3 && 0 <= q <= 24 && 0 <= s <= 3
    ensures LongYear(100 * c + 4 * q + s) <==> s == 3 && (q < 24 || c == 3)
    ensures YearStart(100 * c + 4 * q + s) == 36524 * c + 1461 * q + 365 * s
  {
    var yoe := 100 * c + 4 * q + s;
    DivIs(yoe, 100, c);
    DivIs(yoe, 4, 25 * c + q);
  }

  /** The formula for the year undoes the sum of the days before it. */
  lemma {:induction false} YearFound(c: int, q: int, s: int, doy: int)
    requires 0 <= c <= 3 && 0 <= q <= 24 && 0 <= s <= 3
    requires 0 <= doy <= if s == 3 && (q < 24 || c == 3) then 365 else 364
    ensures var doe := 36524 * c + 1461 * q + 365 * s + doy;
            && 0 <= doe <= 146096
            && (doe - doe / 1460 + doe / 36524 - doe / 146096) / 365 == 100 * c + 4 * q + s
  {
    var doe := 36524 * c + 1461 * q + 365 * s + doy;
    var w := if 24 * c + q + 365 * s + doy >= 1460 then 1 else 0;
    DivIs(doe, 1460, 25 * c + q + w);
    if doe == 146096 {
      DivIs(doe, 36524, 4);
      DivIs(doe, 146096, 1);
    } else {
      DivIs(doe, 36524, c);
      DivIs(doe, 146096, 0);
    }
    DivIs(doe - doe / 1460 + doe / 36524 - doe / 146096, 365, 100 * c + 4 * q + s);
  }

  /** Years of an era as centuries, leap cycles and years. */
  lemma {:induction false} YearParts(yoe: int) returns (c: int, q: int, s: int)
    requires 0 <= yoe <= 399
    ensures 0 <= c <= 3 && 0 <= q <= 24 && 0 <= s <= 3
    ensures yoe == 100 * c + 4 * q + s
  {
    c := yoe / 100;
    q := (yoe - 100 * c) / 4;
    s := yoe - 100 * c - 4 * q;
  }

  function YearOfEra(doe: int): int {
    (doe - doe / 1460 + doe / 36524 - doe / 146096) / 365
  }

  lemma {:induction false} YearOfDay(yoe: int, doy: int)
    requires DayOk(yoe, doy)
    ensures 0 <= YearStart(yoe) + doy <= 146096
    ensures YearOfEra(YearStart(yoe) + doy) == yoe
  {
    var c, q, s := YearParts(yoe);
    LongParts(c, q, s);
    hide LongYear, YearStart;
    YearFound(c, q, s, doy);
  }

  /** Every day of an era is a day of one of its years. */
  lemma {:induction false} DayHasYear(doe: int) returns (yoe: int, doy: int)
    requires 0 <= doe <= 146096
    ensures DayOk(yoe, doy) && doe == YearStart(yoe) + doy
  {
    var c := if doe == 146096 then 3 else doe / 36524;
    var e := doe - 36524 * c;
    var q := e / 1461;
    var f := e - 1461 * q;
    var s := if f == 1460 then 3 else f / 365;
    LongParts(c, q, s);
    yoe := 100 * c + 4 * q + s;
    doy := f - 365 * s;
  }

  // ---- months of a year that starts in March ----

  function CivilMonth(mp: int): int {
    if mp < 10 then mp + 3 else mp - 9
  }

  lemma {:induction false} MonthFound(mp: int, doy: int)
    requires 0 <= mp <= 11
    requires MonthStart(mp) <= doy < MonthStart(mp + 1)
    ensures (5 * doy + 2) / 153 == mp
  {
    DivIs(5 * doy + 2, 153, mp);
  }

  lemma {:induction false} DayHasMonth(doy: int) returns (mp: int)
    requires 0 <= doy <= 365
    ensures 0 <= mp <= 11 && MonthStart(mp) <= doy < MonthStart(mp + 1)
  {
    mp := (5 * doy + 2) / 153;
  }

  /** A month runs up to the start of the next, save that February ends the year. */
  lemma {:induction false} MonthRuns(y: int, mp: int)
    requires 0 <= mp <= 11
    ensures mp < 11 ==> MonthStart(mp) + MonthLength(y, CivilMonth(mp)) == MonthStart(mp + 1)
    ensures mp == 11 ==> MonthStart(mp) + MonthLength(y, CivilMonth(mp)) == if Leap(y) then 366 else 365
    ensures mp == 11 ==> MonthStart(mp + 1) == 367
  {
    hide Leap;
    if mp == 0 || mp == 1 || mp == 2 || mp == 3 {
    } else if mp == 4 || mp == 5 || mp == 6 || mp == 7 {
    }
  }

  lemma {:induction false} MonthStarts(mp: int)
    requires 0 <= mp <= 11
    ensures MonthStart(0) == 0 && MonthStart(mp) < MonthStart(mp + 1)
    ensures mp < 11 ==> MonthStart(mp + 1) <= MonthStart(11) == 337
  {
  }

  // ---- a date by its March-based year, month and day ----

  function MarchYear(t: Date): int {
    t.y - if t.m <= 2 then 1 else 0
  }

  function MarchMonth(m: int): int {
    if m > 2 then m - 3 else m + 9
  }

  function DayOfYear(t: Date): int {
    MonthStart(MarchMonth(t.m)) + t.d - 1
  }

  /** The number of a day of the March-based year `yy`. */
  function DayNumber(yy: int, doy: int): int {
    146097 * (yy / 400) + YearStart(yy % 400) + doy - 719468
  }

  /** Whole eras do not change whether a year is a leap year. */
  lemma {:induction false} SameLeap(e: int, y: int)
    ensures Leap(400 * e + y) <==> Leap(y)
  {
    DivIs(400 * e + y, 4, 100 * e + y / 4);
    DivIs(400 * e + y, 100, 4 * e + y / 100);
    DivIs(400 * e + y, 400, e + y / 400);
  }

  lemma {:induction false} LeapInEra(yy: int)
    ensures Leap(yy + 1) <==> LongYear(yy % 400)
  {
    var e, r := yy / 400, yy % 400;
    assert yy == 400 * e + r;
    SameLeap(e, r + 1);
  }

  lemma {:induction false} ToDaysIs(t: Date)
    requires 1 <= t.m <= 12 && 1 <= t.d <= 31
    ensures CivilToDays(t.y, t.m, t.d) == Some(DayNumber(MarchYear(t), DayOfYear(t)))
  {
    EraIsFloor(MarchYear(t), 400);
    hide TruncDiv, YearStart, MonthStart;
  }

  lemma {:induction false} FromDaysIs(yy: int, doy: int, mp: int)
    requires DayOk(yy % 400, doy) && 0 <= mp <= 11
    requires MonthStart(mp) <= doy < MonthStart(mp + 1)
    ensures var m := CivilMonth(mp);
            DaysToCivil(DayNumber(yy, doy))
            == Date(yy + (if m <= 2 then 1 else 0), m, doy - MonthStart(mp) + 1)
  {
    var yoe := yy % 400;
    YearOfDay(yoe, doy);
    MonthFound(mp, doy);
    var z := DayNumber(yy, doy) + 719468;
    EraIsFloor(z, 146097);
    hide DayOk, YearStart, MonthStart, TruncDiv;
    DivIs(z, 146097, yy / 400);
  }

  /** A valid date is a day of its March-based year, in its month. */
  lemma {:induction false} ValidIsDay(t: Date)
    requires ValidDate(t)
    ensures DayOk(MarchYear(t) % 400, DayOfYear(t))
    ensures var mp := MarchMonth(t.m);
            0 <= mp <= 11 && MonthStart(mp) <= DayOfYear(t) < MonthStart(mp + 1)
            && CivilMonth(mp) == t.m
  {
    var mp := MarchMonth(t.m);
    MonthRuns(t.y, mp);
    MonthStarts(mp);
    if t.m == 2 {
      LeapInEra(MarchYear(t));
    }
    hide MonthStart, MonthLength, Leap, LongYear;
  }

  // ---- the conversions are inverse ----

  lemma {:induction false} ValidReturns(t: Date)
    requires ValidDate(t)
    ensures CivilToDays(t.y, t.m, t.d).Some?
    ensures DaysToCivil(CivilToDays(t.y, t.m, t.d).value) == t
  {
    ToDaysIs(t);
    ValidIsDay(t);
    FromDaysIs(MarchYear(t), DayOfYear(t), MarchMonth(t.m));
    hide CivilToDays, DaysToCivil, DayOk, MonthStart, DayNumber;
  }

  lemma {:induction false} DayIsValid(yy: int, doy: int, mp: int)
    requires DayOk(yy % 400, doy) && 0 <= mp <= 11
    requires MonthStart(mp) <= doy < MonthStart(mp + 1)
    ensures var t := DaysToCivil(DayNumber(yy, doy));
            ValidDate(t) && MarchYear(t) == yy && DayOfYear(t) == doy
  {
    FromDaysIs(yy, doy, mp);
    var t := DaysToCivil(DayNumber(yy, doy));
    MonthRuns(t.y, mp);
    MonthStarts(mp);
    LeapInEra(yy);
    hide DaysToCivil, MonthStart, LongYear, Leap;
  }

  /** Every number is that of a day of some year. */
  lemma {:induction false} NumberHasDay(days: int) returns (yy: int, doy: int)
    ensures DayOk(yy % 400, doy) && days == DayNumber(yy, doy)
  {
    var z := days + 719468;
    var yoe;
    yoe, doy := DayHasYear(z % 146097);
    hide YearStart, LongYear;
    yy := 400 * (z / 146097) + yoe;
    DivIs(yy, 400, z / 146097);
  }

  /** Every day number is that of a valid date, the one it is shown as. */
  lemma {:induction false} NumberReturns(days: int)
    ensures var t := DaysToCivil(days);
            ValidDate(t) && CivilToDays(t.y, t.m, t.d) == Some(days)
  {
    var yy, doy := NumberHasDay(days);
    var mp := DayHasMonth(doy);
    DayIsValid(yy, doy, mp);
    hide CivilToDays, DaysToCivil, DayNumber, DayOk, MarchYear, DayOfYear, MonthStart;
    ToDaysIs(DaysToCivil(days));
  }

  /** An accepted date comes back exactly when the calendar has it. */
  lemma {:induction false} ReturnsIffValid(y: int, m: int, d: int)
    requires CivilToDays(y, m, d).Some?
    ensures DaysToCivil(CivilToDays(y, m, d).value) == Date(y, m, d) <==> ValidDate(Date(y, m, d))
  {
    NumberReturns(CivilToDays(y, m, d).value);
    hide CivilToDays, DaysToCivil;
    if ValidDate(Date(y, m, d)) {
      ValidReturns(Date(y, m, d));
    }
  }

  /** The thirtieth of February is accepted and shown as a day of March. */
  lemma {:induction false} FebruaryThirty()
    ensures CivilToDays(2023, 2, 30).Some?
    ensures DaysToCivil(CivilToDays(2023, 2, 30).value) == Date(2023, 3, 2)
  {
    assert CivilToDays(2023, 2, 30) == Some(19418);
    assert CivilToDays(2023, 3, 2) == Some(19418);
    hide CivilToDays, DaysToCivil;
    ValidReturns(Date(2023, 3, 2));
  }

  // ---- consecutive days ----

  lemma {:induction false} YearFollows(yy: int)
    ensures DayNumber(yy + 1, 0) == DayNumber(yy, if Leap(yy + 1) then 366 else 365)
  {
    LeapInEra(yy);
    var e, r := yy / 400, yy % 400;
    if r == 399 {
      DivIs(yy + 1, 400, e + 1);
      assert LongYear(399);
    } else {
      DivIs(yy + 1, 400, e);
      assert (yy + 1) % 400 == r + 1;
      YearStep(r);
    }
  }

  lemma {:induction false} YearStep(r: int)
    requires 0 <= r < 399
    ensures YearStart(r + 1) == YearStart(r) + if LongYear(r) then 366 else 365
  {
    hide YearStart, LongYear;
    var c, q, s := YearParts(r);
    LongParts(c, q, s);
    if s < 3 {
      LongParts(c, q, s + 1);
    } else if q < 24 {
      LongParts(c, q + 1, 0);
    } else {
      LongParts(c + 1, 0, 0);
    }
  }

  lemma {:induction false} NextNumber(t: Date)
    requires ValidDate(t)
    ensures ValidDate(NextDay(t))
    ensures DayNumber(MarchYear(NextDay(t)), DayOfYear(NextDay(t)))
         == DayNumber(MarchYear(t), DayOfYear(t)) + 1
  {
    var mp := MarchMonth(t.m);
    MonthRuns(t.y, mp);
    YearFollows(MarchYear(t));
    MonthStarts(mp);
    hide MonthStart, Leap, YearStart;
  }

  /** Consecutive numbers are consecutive dates. */
  lemma {:induction false} ConsecutiveDates(days: int)
    ensures DaysToCivil(days + 1) == NextDay(DaysToCivil(days))
  {
    hide CivilToDays, DaysToCivil, NextDay, DayNumber, DayOfYear, MarchYear;
    var t := DaysToCivil(days);
    NumberReturns(days);
    NextNumber(t);
    ToDaysIs(t);
    ToDaysIs(NextDay(t));
    ValidReturns(NextDay(t));
  }

  lemma {:induction false} Epoch()
    ensures CivilToDays(1970, 1, 1) == Some(0) && DaysToCivil(0) == Date(1970, 1, 1)
  {
    assert CivilToDays(1970, 1, 1) == Some(0);
    hide CivilToDays, DaysToCivil;
    ValidReturns(Date(1970, 1, 1));
  }

  // ---- timestamps ----

  datatype Clock = Clock(h: int, mi: int, se: int, us: int)

  predicate ValidClock(c: Clock) {
    0 <= c.h <= 23 && 0 <= c.mi <= 59 && 0 <= c.se <= 59 && 0 <= c.us <= 999999
  }

  function Micros(days: int, c: Clock): int {
    days * 86400 * 1000000 + c.h * 3600 * 1000000 + c.mi * 60 * 1000000 + c.se * 1000000 + c.us
  }

  /** The day of a timestamp and its time of day, as they are shown. */
  function SplitMicros(total: int): (int, Clock) {
    var q := TruncDiv(total, 86400 * 1000000);
    var r := total - q * 86400 * 1000000;
    var days := if r < 0 then q - 1 else q;
    var rem := if r < 0 then r + 86400 * 1000000 else r;
    var secs := rem / 1000000;
    (days, Clock(secs / 3600, secs % 3600 / 60, secs % 60, rem % 1000000))
  }

  lemma {:induction false} ClockParts(c: Clock, secs: int)
    requires ValidClock(c) && secs == c.h * 3600 + c.mi * 60 + c.se
    ensures secs / 3600 == c.h && secs % 3600 / 60 == c.mi && secs % 60 == c.se
  {
    DivIs(secs, 3600, c.h);
    DivIs(secs % 3600, 60, c.mi);
    DivIs(secs, 60, c.h * 60 + c.mi);
  }

  /** Splitting off the day rounds down, before the epoch too. */
  lemma {:induction false} DaySplit(total: int, days: int, rem: int)
    requires total == days * 86400000000 + rem && 0 <= rem < 86400000000
    ensures SplitMicros(total).0 == days
    ensures SplitMicros(total).1
         == Clock(rem / 1000000 / 3600, rem / 1000000 % 3600 / 60, rem / 1000000 % 60, rem % 1000000)
  {
    if total >= 0 {
      DivIs(total, 86400000000, days);
    } else if rem == 0 {
      DivIs(-total, 86400000000, -days);
    } else {
      DivIs(-total, 86400000000, -days - 1);
    }
  }

  /** A timestamp read from a day and a time is shown as that day and time. */
  lemma {:induction false} ClockReturns(days: int, c: Clock)
    requires ValidClock(c)
    ensures SplitMicros(Micros(days, c)) == (days, c)
  {
    var secs := c.h * 3600 + c.mi * 60 + c.se;
    var rem := secs * 1000000 + c.us;
    DaySplit(Micros(days, c), days, rem);
    DivIs(rem, 1000000, secs);
    ClockParts(c, secs);
    hide SplitMicros;
  }
}
